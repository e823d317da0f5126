/**
  The union-find at the heart of the intra-run dedup of knowledge nodes: a parent list that
  `find` shortens by path halving and `union` links, keeping the longer description as root.
  The specification is two-fold: what a root is (following parents until nothing changes), and
  what the clusters are (connected components of the similarity graph).
*/
module DisjointSets {
  import opened Knowledge

  const INTRA_RUN_DEDUP_THRESHOLD := 0.85

  ghost predicate Square(sims: Matrix, n: nat) {
    |sims| == n && forall i :: 0 <= i < n ==> |sims[i]| == n
  }

  // ---------------------------------------------------------------- the similarity graph

  /** Only the entries above the diagonal are read, so symmetry of the matrix is not assumed. */
  ghost predicate Similar(sims: Matrix, n: nat, x: int, y: int)
    requires Square(sims, n)
  {
    || (0 <= x < y < n && sims[x][y] >= INTRA_RUN_DEDUP_THRESHOLD)
    || (0 <= y < x < n && sims[y][x] >= INTRA_RUN_DEDUP_THRESHOLD)
  }

  ghost predicate Walk(sims: Matrix, n: nat, p: seq<nat>)
    requires Square(sims, n)
  {
    && p != []
    && (forall k :: 0 <= k < |p| ==> p[k] < n)
    && (forall k :: 0 < k < |p| ==> Similar(sims, n, p[k - 1], p[k]))
  }

  ghost predicate Connected(sims: Matrix, n: nat, x: nat, y: nat)
    requires Square(sims, n)
  {
    exists p :: Walk(sims, n, p) && p[0] == x && p[|p| - 1] == y
  }

  lemma ConnectedRefl(sims: Matrix, n: nat, x: nat)
    requires Square(sims, n) && x < n
    ensures Connected(sims, n, x, x)
  {
    assert Walk(sims, n, [x]) && [x][0] == x;
  }

  lemma ConnectedStep(sims: Matrix, n: nat, x: nat, y: nat)
    requires Square(sims, n) && Similar(sims, n, x, y)
    ensures Connected(sims, n, x, y)
  {
    var p := [x, y];
    assert Walk(sims, n, p) && p[0] == x && p[|p| - 1] == y;
  }

  lemma ConnectedSym(sims: Matrix, n: nat, x: nat, y: nat)
    requires Square(sims, n) && Connected(sims, n, x, y)
    ensures Connected(sims, n, y, x)
  {
    var p :| Walk(sims, n, p) && p[0] == x && p[|p| - 1] == y;
    var q := seq(|p|, k requires 0 <= k < |p| => p[|p| - 1 - k]);
    forall k | 0 < k < |q| ensures Similar(sims, n, q[k - 1], q[k]) {
      assert Similar(sims, n, p[|p| - 1 - k], p[|p| - k]);
    }
    assert Walk(sims, n, q) && q[0] == y && q[|q| - 1] == x;
  }

  lemma ConnectedTrans(sims: Matrix, n: nat, x: nat, y: nat, z: nat)
    requires Square(sims, n) && Connected(sims, n, x, y) && Connected(sims, n, y, z)
    ensures Connected(sims, n, x, z)
  {
    var p :| Walk(sims, n, p) && p[0] == x && p[|p| - 1] == y;
    var q :| Walk(sims, n, q) && q[0] == y && q[|q| - 1] == z;
    var w := p + q[1..];
    forall k | 0 < k < |w| ensures Similar(sims, n, w[k - 1], w[k]) {
      if k >= |p| {
        assert w[k] == q[k - |p| + 1] && w[k - 1] == q[k - |p|];
      }
    }
    assert Walk(sims, n, w) && w[0] == x && w[|w| - 1] == z;
  }

  /** If every edge stays inside a class then so does every walk. */
  lemma {:induction false} WalkStaysInClass(sims: Matrix, n: nat, root: seq<nat>, p: seq<nat>)
    requires Square(sims, n) && |root| == n && Walk(sims, n, p)
    requires forall a, b :: 0 <= a < b < n && Similar(sims, n, a, b) ==> root[a] == root[b]
    ensures root[p[0]] == root[p[|p| - 1]]
  {
    if |p| > 1 {
      var q := p[..|p| - 1];
      WalkStaysInClass(sims, n, root, q);
      var a, b := p[|p| - 2], p[|p| - 1];
      assert Similar(sims, n, a, b) && Similar(sims, n, b, a);
    }
  }

  // ---------------------------------------------------------------- parent lists

  ghost predicate InRange(parent: seq<nat>) {
    forall x :: 0 <= x < |parent| ==> parent[x] < |parent|
  }

  /**
    `root` names the root of every element and `rank` grows along every parent link. Both are
    proof devices; RootIsReached says what `root` means for the parent list alone.
  */
  ghost predicate Forest(parent: seq<nat>, root: seq<nat>, rank: seq<nat>) {
    && |root| == |parent| && |rank| == |parent|
    && InRange(parent) && InRange(root)
    && forall x :: 0 <= x < |parent| ==> NodeOk(parent, root, rank, x)
  }

  ghost predicate NodeOk(parent: seq<nat>, root: seq<nat>, rank: seq<nat>, x: int)
    requires |root| == |parent| == |rank| && 0 <= x < |parent|
  {
    var p, r := parent[x], root[x];
    && p < |parent| && r < |parent| && parent[r] == r && root[p] == r
    && (p == x ==> r == x)
    && (p != x ==> rank[x] < rank[p])
  }

  ghost function MaxRank(rank: seq<nat>): (m: nat)
    ensures forall x :: 0 <= x < |rank| ==> rank[x] <= m
  {
    if rank == [] then 0 else
      var m := MaxRank(rank[..|rank| - 1]);
      assert forall x :: 0 <= x < |rank| - 1 ==> rank[x] == rank[..|rank| - 1][x];
      if rank[|rank| - 1] > m then rank[|rank| - 1] else m
  }

  /** `steps` parent links up from x. */
  ghost function Up(parent: seq<nat>, x: nat, steps: nat): (y: nat)
    requires InRange(parent) && x < |parent|
    ensures y < |parent|
    decreases steps
  {
    if steps == 0 then x else Up(parent, parent[x], steps - 1)
  }

  /** r is where following the parents of x comes to rest. */
  ghost predicate IsRootOf(parent: seq<nat>, x: nat, r: nat)
    requires InRange(parent) && x < |parent|
  {
    r < |parent| && parent[r] == r && exists steps :: Up(parent, x, steps) == r
  }

  lemma {:induction false} RootReachedFrom(parent: seq<nat>, root: seq<nat>, rank: seq<nat>, x: nat)
    returns (steps: nat)
    requires Forest(parent, root, rank) && x < |parent|
    ensures Up(parent, x, steps) == root[x]
    decreases MaxRank(rank) - rank[x]
  {
    assert NodeOk(parent, root, rank, x);
    if parent[x] == x {
      steps := 0;
    } else {
      var rest := RootReachedFrom(parent, root, rank, parent[x]);
      steps := rest + 1;
    }
  }

  lemma {:induction false} UpKeepsRoot(parent: seq<nat>, root: seq<nat>, rank: seq<nat>, x: nat, steps: nat)
    requires Forest(parent, root, rank) && x < |parent|
    ensures root[Up(parent, x, steps)] == root[x]
    decreases steps
  {
    assert NodeOk(parent, root, rank, x);
    if steps > 0 {
      UpKeepsRoot(parent, root, rank, parent[x], steps - 1);
    }
  }

  /** In a forest, following parents from x always comes to rest, in exactly one place. */
  lemma RootIsReached(parent: seq<nat>, root: seq<nat>, rank: seq<nat>, x: nat, r: nat)
    requires Forest(parent, root, rank) && x < |parent|
    ensures IsRootOf(parent, x, r) <==> r == root[x]
  {
    assert NodeOk(parent, root, rank, x);
    var steps := RootReachedFrom(parent, root, rank, x);
    if IsRootOf(parent, x, r) {
      var k :| Up(parent, x, k) == r;
      UpKeepsRoot(parent, root, rank, x, k);
      assert NodeOk(parent, root, rank, r);
    }
  }

  function Redirected(root: seq<nat>, child: nat, top: nat): (redirected: seq<nat>)
    ensures |redirected| == |root|
    ensures forall x :: 0 <= x < |root| ==> redirected[x] == if root[x] == child then top else root[x]
  {
    seq(|root|, x requires 0 <= x < |root| => if root[x] == child then top else root[x])
  }

  /** The classes after a union of a and b: the root with the longer description stays root. */
  function Merged(root: seq<nat>, size: seq<nat>, a: nat, b: nat): (merged: seq<nat>)
    requires a < |root| && b < |root| && |size| == |root|
    requires InRange(root)
    ensures |merged| == |root| && merged[a] == merged[b]
    ensures forall x, y :: 0 <= x < |root| && 0 <= y < |root| && root[x] == root[y] ==> merged[x] == merged[y]
  {
    var ra, rb := root[a], root[b];
    if ra == rb then root
    else if size[ra] >= size[rb] then Redirected(root, rb, ra)
    else Redirected(root, ra, rb)
  }

  class Partition {
    const size: seq<nat>           // description length of every node
    const parent: array<nat>
    ghost var root: seq<nat>
    ghost var rank: seq<nat>

    ghost predicate Valid()
      reads this, parent
    {
      parent.Length == |size| && Forest(parent[..], root, rank)
    }

    constructor (size: seq<nat>)
      ensures Valid() && fresh(parent) && this.size == size
      ensures root == seq(|size|, i => i)
    {
      this.size := size;
      this.parent := new nat[|size|](i => i);
      this.root := seq(|size|, i => i);
      this.rank := seq(|size|, i => 0);
    }

    /** Path halving terminates, answers the root, and changes the root of no node. */
    method Find(x0: nat) returns (x: nat)
      requires Valid() && x0 < |size|
      modifies parent
      ensures Valid() && x < |size| && x == root[x0]
      ensures IsRootOf(old(parent[..]), x0, x)
      ensures forall y, r :: 0 <= y < |size| ==> (IsRootOf(parent[..], y, r) <==> IsRootOf(old(parent[..]), y, r))
    {
      x := x0;
      while parent[x] != x
        invariant Valid() && x < |size| && root[x] == root[x0]
        decreases MaxRank(rank) - rank[x]
      {
        ghost var was, p := parent[..], parent[x];
        parent[x] := parent[parent[x]];
        assert NodeOk(was, root, rank, x) && NodeOk(was, root, rank, p);
        HalvingKeepsForest(was, root, rank, x);
        assert parent[..] == was[x := was[was[x]]];
        x := parent[x];
      }
      assert NodeOk(parent[..], root, rank, x);
      forall y, r | 0 <= y < |size|
        ensures IsRootOf(parent[..], y, r) <==> IsRootOf(old(parent[..]), y, r)
      {
        RootIsReached(parent[..], root, rank, y, r);
        RootIsReached(old(parent[..]), root, rank, y, r);
      }
      RootIsReached(old(parent[..]), root, rank, x0, x);
    }

    /** Hangs one root under another. */
    method Link(child: nat, top: nat)
      requires Valid() && child < |size| && top < |size| && child != top
      requires root[child] == child && root[top] == top
      modifies this, parent
      ensures Valid() && root == Redirected(old(root), child, top)
    {
      LinkKeepsForest(parent[..], root, rank, child, top);
      ghost var was := parent[..];
      parent[child] := top;
      assert parent[..] == was[child := top];
      rank := rank[top := rank[top] + rank[child] + 1];
      root := Redirected(root, child, top);
    }

    /** Links the classes of a and b under the root with the longer description. */
    method Union(a: nat, b: nat)
      requires Valid() && a < |size| && b < |size|
      modifies this, parent
      ensures Valid() && InRange(old(root)) && root == Merged(old(root), size, a, b)
    {
      var ra := Find(a);
      var rb := Find(b);
      RootsAreTheirOwn(parent[..], root, rank, a);
      RootsAreTheirOwn(parent[..], root, rank, b);
      if ra == rb {
        return;
      }
      if size[ra] >= size[rb] {
        Link(rb, ra);
      } else {
        Link(ra, rb);
      }
    }

    /**
      All unions over the upper triangle: two nodes end in one class exactly when a chain of
      similar pairs joins them, and the root of a class has its longest description.
    */
    method Cluster(sims: Matrix)
      requires Valid() && Square(sims, |size|) && root == seq(|size|, i => i)
      modifies this, parent
      ensures Valid()
      ensures forall x, y :: 0 <= x < |size| && 0 <= y < |size| ==>
                (root[x] == root[y] <==> Connected(sims, |size|, x, y))
      ensures forall x :: 0 <= x < |size| ==> size[x] <= size[root[x]]
    {
      SingletonsAreSound(sims, size);
      for i := 0 to |size|
        invariant Valid() && Sound(sims, size, root) && Respects(sims, size, root, i, 0)
      {
        for j := i + 1 to |size|
          invariant Valid() && Sound(sims, size, root) && Respects(sims, size, root, i, j)
        {
          if sims[i][j] >= INTRA_RUN_DEDUP_THRESHOLD {
            MergeKeepsSound(sims, size, root, i, j);
            MergeRespects(sims, size, root, i, j);
            Union(i, j);
          } else {
            SkipRespects(sims, size, root, i, j);
          }
        }
      }
      ComponentsAreClasses(sims, size, root);
    }
  }

  /** Only connected nodes share a class, and its root has the longest description so far. */
  ghost predicate Sound(sims: Matrix, size: seq<nat>, root: seq<nat>)
    requires Square(sims, |size|)
  {
    && |root| == |size|
    && (forall x :: 0 <= x < |size| ==> root[x] < |size|)
    && (forall x :: 0 <= x < |size| ==> Connected(sims, |size|, x, root[x]))
    && (forall x :: 0 <= x < |size| ==> size[x] <= size[root[x]])
  }

  /** Every similar pair visited so far, rows below i and row i up to column j, shares a class. */
  ghost predicate Respects(sims: Matrix, size: seq<nat>, root: seq<nat>, i: nat, j: nat)
    requires Square(sims, |size|) && |root| == |size|
  {
    forall a, b :: 0 <= a < b < |size| && (a < i || (a == i && b < j)) && Similar(sims, |size|, a, b) ==>
      root[a] == root[b]
  }

  lemma MergeRespects(sims: Matrix, size: seq<nat>, root: seq<nat>, i: nat, j: nat)
    requires Square(sims, |size|) && |root| == |size| && InRange(root)
    requires i < j < |size| && Respects(sims, size, root, i, j)
    ensures Respects(sims, size, Merged(root, size, i, j), i, j + 1)
  {
    var merged := Merged(root, size, i, j);
    forall a, b | 0 <= a < b < |size| && (a < i || (a == i && b < j + 1)) && Similar(sims, |size|, a, b)
      ensures merged[a] == merged[b]
    {
      if a != i || b != j {
        assert root[a] == root[b];
      }
    }
  }

  lemma SkipRespects(sims: Matrix, size: seq<nat>, root: seq<nat>, i: nat, j: nat)
    requires Square(sims, |size|) && |root| == |size|
    requires i < j < |size| && !Similar(sims, |size|, i, j) && Respects(sims, size, root, i, j)
    ensures Respects(sims, size, root, i, j + 1)
  {
  }

  /** Halving x moves it two links up; nothing else changes. */
  lemma HalvingKeepsForest(parent: seq<nat>, root: seq<nat>, rank: seq<nat>, x: nat)
    requires Forest(parent, root, rank) && x < |parent| && parent[x] != x
    ensures parent[x] < |parent|
    ensures Forest(parent[x := parent[parent[x]]], root, rank)
    ensures rank[x] < rank[parent[parent[x]]]
  {
    assert NodeOk(parent, root, rank, x) && NodeOk(parent, root, rank, parent[x]);
    var halved := parent[x := parent[parent[x]]];
    forall y | 0 <= y < |parent| ensures NodeOk(halved, root, rank, y) {
      assert NodeOk(parent, root, rank, y);
    }
  }

  lemma RootsAreTheirOwn(parent: seq<nat>, root: seq<nat>, rank: seq<nat>, x: nat)
    requires Forest(parent, root, rank) && x < |parent|
    ensures root[root[x]] == root[x]
  {
    assert NodeOk(parent, root, rank, x) && NodeOk(parent, root, rank, root[x]);
  }

  lemma RootOfRoot(classes: Partition, x: nat)
    requires classes.Valid() && x < |classes.size|
    ensures classes.root[x] < |classes.size| && classes.root[classes.root[x]] == classes.root[x]
  {
    RootsAreTheirOwn(classes.parent[..], classes.root, classes.rank, x);
  }

  lemma LinkKeepsForest(parent: seq<nat>, root: seq<nat>, rank: seq<nat>, child: nat, top: nat)
    requires Forest(parent, root, rank)
    requires child < |parent| && top < |parent| && child != top
    requires root[child] == child && root[top] == top
    ensures Forest(parent[child := top], Redirected(root, child, top), rank[top := rank[top] + rank[child] + 1])
  {
    assert NodeOk(parent, root, rank, child) && NodeOk(parent, root, rank, top);
    var linked, root' := parent[child := top], Redirected(root, child, top);
    var rank' := rank[top := rank[top] + rank[child] + 1];
    forall x | 0 <= x < |parent| ensures NodeOk(linked, root', rank', x) {
      assert NodeOk(parent, root, rank, x);
    }
  }

  lemma SingletonsAreSound(sims: Matrix, size: seq<nat>)
    requires Square(sims, |size|)
    ensures Sound(sims, size, seq(|size|, i => i))
  {
    forall x | 0 <= x < |size| ensures Connected(sims, |size|, x, x) {
      ConnectedRefl(sims, |size|, x);
    }
  }

  lemma MergeKeepsSound(sims: Matrix, size: seq<nat>, root: seq<nat>, i: nat, j: nat)
    requires Square(sims, |size|) && Sound(sims, size, root)
    requires i < j < |size| && Similar(sims, |size|, i, j)
    ensures Sound(sims, size, Merged(root, size, i, j))
  {
    var merged := Merged(root, size, i, j);
    forall x | 0 <= x < |size|
      ensures merged[x] < |size| && Connected(sims, |size|, x, merged[x]) && size[x] <= size[merged[x]]
    {
      if merged[x] != root[x] {
        var near, far := if root[x] == root[j] then j else i, if root[x] == root[j] then i else j;
        AcrossEdge(sims, size, root, x, near, far);
      }
    }
  }

  lemma AcrossEdge(sims: Matrix, size: seq<nat>, root: seq<nat>, x: nat, near: nat, far: nat)
    requires Square(sims, |size|) && Sound(sims, size, root)
    requires x < |size| && near < |size| && far < |size| && Similar(sims, |size|, near, far)
    requires root[x] == root[near]
    ensures Connected(sims, |size|, x, root[far])
  {
    var n := |size|;
    ConnectedSym(sims, n, near, root[near]);
    ConnectedTrans(sims, n, x, root[x], near);
    ConnectedStep(sims, n, near, far);
    ConnectedTrans(sims, n, x, near, far);
    ConnectedTrans(sims, n, x, far, root[far]);
  }

  /** A class map that every edge respects and that only joins connected nodes gives the components. */
  lemma ComponentsAreClasses(sims: Matrix, size: seq<nat>, root: seq<nat>)
    requires Square(sims, |size|) && Sound(sims, size, root) && Respects(sims, size, root, |size|, 0)
    ensures forall x, y :: 0 <= x < |size| && 0 <= y < |size| ==>
              (root[x] == root[y] <==> Connected(sims, |size|, x, y))
  {
    var n := |size|;
    forall x, y | 0 <= x < n && 0 <= y < n
      ensures root[x] == root[y] <==> Connected(sims, n, x, y)
    {
      if root[x] == root[y] {
        ConnectedSym(sims, n, y, root[y]);
        ConnectedTrans(sims, n, x, root[x], y);
      }
      if Connected(sims, n, x, y) {
        var p :| Walk(sims, n, p) && p[0] == x && p[|p| - 1] == y;
        WalkStaysInClass(sims, n, root, p);
      }
    }
  }
}
