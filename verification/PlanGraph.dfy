/**
  Graph theory of a course plan: prerequisites point at the chapters that depend on them. Nothing
  here mentions the validator; cycles, blocked chapters and depth are what they are for any graph.
*/
module PlanGraph {
  import opened Ordering

  /** For every chapter id the ids of the chapters that require it. */
  type Graph = map<string, set<string>>

  ghost predicate Closed(g: Graph) {
    forall p, c :: p in g && c in g[p] ==> c in g
  }

  function Preds(g: Graph, c: string): set<string> {
    set p | p in g && c in g[p]
  }

  // ---------------------------------------------------------------- paths and cycles

  ghost predicate Path(g: Graph, p: seq<string>) {
    && p != []
    && (forall i :: 0 <= i < |p| ==> p[i] in g)
    && (forall i :: 0 <= i < |p| - 1 ==> Edge(g, p[i], p[i + 1]))
  }

  predicate Edge(g: Graph, a: string, b: string) { a in g && b in g[a] }

  ghost predicate OnCycle(g: Graph, c: string) {
    exists p :: Path(g, p) && |p| >= 2 && p[0] == c && p[|p| - 1] == c
  }

  ghost predicate HasCycle(g: Graph) { exists c :: OnCycle(g, c) }

  /** Some chapter on a cycle is c or has to come before c. */
  ghost predicate Blocked(g: Graph, c: string) {
    exists p :: Path(g, p) && p[|p| - 1] == c && OnCycle(g, p[0])
  }

  lemma Pigeonhole(p: seq<string>, s: set<string>) returns (i: nat, j: nat)
    requires |p| > |s| && forall k :: 0 <= k < |p| ==> p[k] in s
    ensures i < j < |p| && p[i] == p[j]
  {
    var seen := set x | x in p;
    CountSubset(seen, s);
    assert exists a, b :: 0 <= a < b < |p| && p[a] == p[b] by {
      if forall a, b :: 0 <= a < b < |p| ==> p[a] != p[b] {
        DistinctCount(p, seen);
      }
    }
    i, j :| 0 <= i < j < |p| && p[i] == p[j];
  }

  /** A path longer than the number of chapters visits one twice, so it starts from a cycle. */
  lemma LongPathBlocks(g: Graph, p: seq<string>)
    requires Path(g, p) && |p| > |g|
    ensures Blocked(g, p[|p| - 1])
  {
    var i, j := Pigeonhole(p, g.Keys);
    SliceIsPath(g, p, i, j + 1);
    SliceIsPath(g, p, i, |p|);
    var loop, tail := p[i..j + 1], p[i..|p|];
    assert loop[0] == p[i] && loop[|loop| - 1] == p[j];
    assert OnCycle(g, p[i]);
    assert tail[0] == p[i] && tail[|tail| - 1] == p[|p| - 1];
  }

  lemma {:induction false} CountSubset<T>(s: set<T>, t: set<T>)
    requires s <= t
    ensures |s| <= |t|
    decreases |s|
  {
    if s != {} {
      var x :| x in s;
      CountSubset(s - {x}, t - {x});
    }
  }

  lemma SliceIsPath(g: Graph, p: seq<string>, i: nat, j: nat)
    requires Path(g, p) && i < j <= |p|
    ensures Path(g, p[i..j])
  {
    var q := p[i..j];
    forall k | 0 <= k < |q| - 1 ensures Edge(g, q[k], q[k + 1]) {
      assert Edge(g, p[i + k], p[i + k + 1]);
    }
  }

  lemma ExtendPath(g: Graph, p: seq<string>, c: string)
    requires Path(g, p) && Edge(g, p[|p| - 1], c) && c in g
    ensures Path(g, p + [c])
  {
    var q := p + [c];
    forall k | 0 <= k < |q| - 1 ensures Edge(g, q[k], q[k + 1]) {
      if k < |p| - 1 {
        assert Edge(g, p[k], p[k + 1]);
      }
    }
  }

  /** If every member of stuck requires a member of stuck, all of them are blocked by a cycle. */
  lemma StuckIsBlocked(g: Graph, stuck: set<string>, c: string)
    requires c in stuck && stuck <= g.Keys
    requires forall x :: x in stuck ==> Preds(g, x) * stuck != {}
    ensures Blocked(g, c)
  {
    var p := PathInside(g, stuck, c, |g|);
    LongPathBlocks(g, p);
  }

  lemma {:induction false} PathInside(g: Graph, stuck: set<string>, c: string, steps: nat) returns (p: seq<string>)
    requires c in stuck && stuck <= g.Keys
    requires forall x :: x in stuck ==> Preds(g, x) * stuck != {}
    ensures Path(g, p) && |p| == steps + 1 && p[steps] == c
    decreases steps
  {
    if steps == 0 {
      p := [c];
    } else {
      var b :| b in Preds(g, c) * stuck;
      var q := PathInside(g, stuck, b, steps - 1);
      ExtendPath(g, q, c);
      p := q + [c];
    }
  }

  // ---------------------------------------------------------------- depth

  /** At least `steps` prerequisites have to be passed, one after the other, before c. */
  ghost predicate DepthAtLeast(g: Graph, c: string, steps: nat)
    decreases steps
  {
    steps == 0 || exists p :: p in Preds(g, c) && DepthAtLeast(g, p, steps - 1)
  }

  /** The longest prerequisite path to a is no longer than the longest one to b. */
  ghost predicate NoDeeper(g: Graph, a: string, b: string) {
    forall steps: nat :: DepthAtLeast(g, a, steps) ==> DepthAtLeast(g, b, steps)
  }

  ghost predicate PathTo(g: Graph, p: seq<string>, c: string, steps: nat) {
    Path(g, p) && |p| == steps + 1 && p[steps] == c
  }

  /** DepthAtLeast speaks of paths. */
  lemma {:induction false} DepthIsPathLength(g: Graph, c: string, steps: nat)
    requires c in g
    ensures DepthAtLeast(g, c, steps) <==> exists p :: PathTo(g, p, c, steps)
    decreases steps
  {
    if steps == 0 {
      assert PathTo(g, [c], c, 0);
    } else {
      if DepthAtLeast(g, c, steps) {
        var b :| b in Preds(g, c) && DepthAtLeast(g, b, steps - 1);
        DepthIsPathLength(g, b, steps - 1);
        var q :| PathTo(g, q, b, steps - 1);
        ExtendPath(g, q, c);
        assert PathTo(g, q + [c], c, steps);
      }
      if exists p :: PathTo(g, p, c, steps) {
        var p :| PathTo(g, p, c, steps);
        SliceIsPath(g, p, 0, steps);
        assert p[0..steps][steps - 1] == p[steps - 1];
        assert PathTo(g, p[0..steps], p[steps - 1], steps - 1);
        assert Edge(g, p[steps - 1], p[steps]);
        var b := p[steps - 1];
        DepthIsPathLength(g, b, steps - 1);
        assert b in Preds(g, c) && DepthAtLeast(g, b, steps - 1);
      }
    }
  }

  /** One step deeper means through one more prerequisite. */
  lemma DeeperThanPred(g: Graph, u: string, v: string, steps: nat)
    requires u in Preds(g, v)
    requires forall p :: p in Preds(g, v) ==> NoDeeper(g, p, u)
    ensures DepthAtLeast(g, v, steps + 1) <==> DepthAtLeast(g, u, steps)
  {
    if DepthAtLeast(g, v, steps + 1) {
      var p :| p in Preds(g, v) && DepthAtLeast(g, p, steps);
      assert NoDeeper(g, p, u);
    }
  }

  lemma {:induction false} DepthDownwards(g: Graph, c: string, steps: nat)
    ensures DepthAtLeast(g, c, steps + 1) ==> DepthAtLeast(g, c, steps)
    decreases steps
  {
    if steps > 0 && DepthAtLeast(g, c, steps + 1) {
      var p :| p in Preds(g, c) && DepthAtLeast(g, p, steps);
      DepthDownwards(g, p, steps - 1);
    }
  }

  /** The longest path to a is at most one step longer than the longest one to b. */
  ghost predicate AtMostOneDeeper(g: Graph, a: string, b: string) {
    forall steps: nat :: DepthAtLeast(g, a, steps + 1) ==> DepthAtLeast(g, b, steps)
  }

  /** a lies exactly one layer below b. */
  ghost predicate NextLayer(g: Graph, b: string, a: string) {
    forall steps: nat :: DepthAtLeast(g, a, steps + 1) <==> DepthAtLeast(g, b, steps)
  }

  lemma NextLayerIsDeeper(g: Graph, b: string, a: string)
    requires NextLayer(g, b, a)
    ensures NoDeeper(g, b, a) && AtMostOneDeeper(g, a, b)
  {
    forall steps: nat | DepthAtLeast(g, b, steps) ensures DepthAtLeast(g, a, steps) {
      DepthDownwards(g, a, steps);
    }
  }

  lemma SameLayer(g: Graph, b: string, a1: string, a2: string)
    requires NextLayer(g, b, a1) && NextLayer(g, b, a2)
    ensures NoDeeper(g, a1, a2)
    ensures AtMostOneDeeper(g, a1, a2)
  {
    NoDeeperFromOne(g, a1, b, a2);
    NextLayerIsDeeper(g, b, a2);
  }

  /** x at most one deeper than b, a one layer below b: x is no deeper than a. */
  lemma NoDeeperFromOne(g: Graph, x: string, b: string, a: string)
    requires AtMostOneDeeper(g, x, b) && NextLayer(g, b, a)
    ensures NoDeeper(g, x, a)
  {
    forall steps: nat | DepthAtLeast(g, x, steps) ensures DepthAtLeast(g, a, steps) {
      if steps > 0 {
        var s: nat := steps - 1;
        assert DepthAtLeast(g, x, s + 1);
        assert DepthAtLeast(g, b, s);
        assert DepthAtLeast(g, a, s + 1);
      }
    }
  }

  lemma NoDeeperTrans(g: Graph, a: string, b: string, c: string)
    requires NoDeeper(g, b, c)
    ensures NoDeeper(g, a, b) ==> NoDeeper(g, a, c)
    ensures AtMostOneDeeper(g, a, b) ==> AtMostOneDeeper(g, a, c)
  {
  }
}
