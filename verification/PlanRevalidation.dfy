/**
  The sort in `draft` and the second validation in the job: a plan without a reported cycle, sorted
  by its topological order, validates again to exactly the order its chapters now have.
*/
module PlanRevalidation {
  import opened Knowledge
  import opened Ordering
  import opened PlanGraph
  import opened TopologicalOrder
  import opened PlanValidation
  import opened PlanProperties

  /** The position of each id in the order: of a repeated id, the last one. */
  function Rank(order: seq<string>): (rank: map<string, nat>)
    requires Distinct(order)
    ensures forall v :: v in rank <==> v in order
    ensures forall k :: 0 <= k < |order| ==> order[k] in rank && rank[order[k]] == k
    ensures forall v :: v in rank ==> rank[v] < |order| && order[rank[v]] == v
  {
    map k: nat | k < |order| :: order[k] := k
  }

  function RankKeys(chapters: seq<Chapter>, order: seq<string>): (keys: seq<SortKey>)
    requires Distinct(order) && forall c :: c in chapters ==> c.id in order
    ensures |keys| == |chapters|
    ensures forall i :: 0 <= i < |chapters| ==>
              chapters[i].id in Rank(order) && keys[i] == SortKey(Rank(order)[chapters[i].id] as real, 0.0, 0.0)
  {
    seq(|chapters|, i requires 0 <= i < |chapters| =>
      assert chapters[i] in chapters;
      SortKey(Rank(order)[chapters[i].id] as real, 0.0, 0.0))
  }

  /** The chapters by the position of their ids in the order; equal positions keep the plan's order. */
  function SortChapters(chapters: seq<Chapter>, order: seq<string>): (sorted: seq<Chapter>)
    requires Distinct(order) && forall c :: c in chapters ==> c.id in order
    ensures |sorted| == |chapters|
  {
    var perm := StableSort(RankKeys(chapters, order));
    seq(|perm|, k requires 0 <= k < |perm| => chapters[perm[k]])
  }

  lemma SameChapters(chapters: seq<Chapter>, order: seq<string>)
    requires Distinct(order) && forall c :: c in chapters ==> c.id in order
    ensures forall c :: c in SortChapters(chapters, order) <==> c in chapters
  {
    var perm, sorted := StableSort(RankKeys(chapters, order)), SortChapters(chapters, order);
    forall c ensures c in sorted <==> c in chapters {
      if c in chapters {
        var i :| 0 <= i < |chapters| && chapters[i] == c;
        assert i in perm;
        var k :| 0 <= k < |perm| && perm[k] == i;
        assert sorted[k] == c;
      }
    }
  }

  /** The ranks of the chapters after sorting. */
  ghost function SortedRanks(chapters: seq<Chapter>, order: seq<string>): (ranks: seq<nat>)
    requires Distinct(order) && forall c :: c in chapters ==> c.id in order
    ensures var sorted := SortChapters(chapters, order);
            && |ranks| == |sorted|
            && forall k :: 0 <= k < |ranks| ==> sorted[k].id in Rank(order) && ranks[k] == Rank(order)[sorted[k].id]
  {
    SameChapters(chapters, order);
    var sorted := SortChapters(chapters, order);
    seq(|sorted|, k requires 0 <= k < |sorted| => assert sorted[k] in sorted; Rank(order)[sorted[k].id])
  }

  lemma RanksAscend(chapters: seq<Chapter>, order: seq<string>)
    requires Distinct(order) && (forall c :: c in chapters ==> c.id in order) && Distinct(Ids(chapters))
    ensures KeptOf(SortedRanks(chapters, order), |order|)
  {
    var perm := StableSort(RankKeys(chapters, order));
    var ranks := SortedRanks(chapters, order);
    forall k, m | 0 <= k < m < |ranks| ensures ranks[k] < ranks[m] {
      assert Precedes(RankKeys(chapters, order), perm[k], perm[m]);
      DifferentRanks(chapters, order, perm[k], perm[m]);
    }
  }

  /** Sorting by a complete order puts the chapters into exactly that order. */
  lemma SortedIdsAreOrder(chapters: seq<Chapter>, order: seq<string>)
    requires Distinct(order) && |order| == |chapters|
    requires forall c :: c in chapters ==> c.id in order
    requires Distinct(Ids(chapters))
    ensures Ids(SortChapters(chapters, order)) == order
  {
    var ranks, sorted := SortedRanks(chapters, order), SortChapters(chapters, order);
    RanksAscend(chapters, order);
    FullList(ranks, |order|);
    forall k | 0 <= k < |order| ensures Ids(sorted)[k] == order[k] {
      assert ranks[k] == k && ranks[k] == Rank(order)[sorted[k].id];
    }
  }

  lemma DifferentRanks(chapters: seq<Chapter>, order: seq<string>, i: nat, j: nat)
    requires Distinct(order) && (forall c :: c in chapters ==> c.id in order) && Distinct(Ids(chapters))
    requires i < |chapters| && j < |chapters|
    requires Precedes(RankKeys(chapters, order), i, j)
    ensures Rank(order)[chapters[i].id] < Rank(order)[chapters[j].id]
  {
    var ids := Ids(chapters);
    assert i != j;
    assert ids[i] != ids[j];
  }

  lemma SameGraph(a: seq<Chapter>, b: seq<Chapter>)
    requires forall c :: c in a <==> c in b
    ensures GraphOf(a) == GraphOf(b)
  {
    assert Known(a) == Known(b);
    var g, h := GraphOf(a), GraphOf(b);
    assert g.Keys == h.Keys;
    forall p | p in g ensures g[p] == h[p] {
      forall id ensures id in g[p] <==> id in h[p] { }
    }
  }

  ghost predicate RootsLead(order: seq<string>, n: nat, indegree: Degrees) {
    n <= |order| && forall i :: 0 <= i < |order| ==> order[i] in indegree && (indegree[order[i]] == 0 <==> i < n)
  }

  lemma PrefixHasDegrees(order: seq<string>, n: nat, indegree: Degrees, k: nat)
    requires RootsLead(order, n, indegree) && k <= |order|
    ensures forall v :: v in order[..k] ==> v in indegree
  {
  }

  lemma RootsLast(init: seq<string>, last: string, indegree: Degrees)
    requires last in indegree && forall v :: v in init ==> v in indegree
    ensures forall v :: v in init + [last] ==> v in indegree
    ensures Roots(init + [last], indegree) == Roots(init, indegree) + if indegree[last] == 0 then [last] else []
  {
    assert (init + [last])[..|init|] == init;
  }

  lemma {:induction false} RootsOfPrefix(order: seq<string>, n: nat, indegree: Degrees, k: nat)
    requires RootsLead(order, n, indegree) && k <= |order|
    ensures forall v :: v in order[..k] ==> v in indegree
    ensures Roots(order[..k], indegree) == order[..if k <= n then k else n]
    decreases k
  {
    PrefixHasDegrees(order, n, indegree, k);
    if k > 0 {
      RootsOfPrefix(order, n, indegree, k - 1);
      RootsStep(order, n, indegree, k);
    }
  }

  lemma RootsStep(order: seq<string>, n: nat, indegree: Degrees, k: nat)
    requires n <= |order| && 0 < k <= |order|
    requires forall v :: v in order[..k - 1] ==> v in indegree
    requires Roots(order[..k - 1], indegree) == order[..if k - 1 <= n then k - 1 else n]
    requires order[k - 1] in indegree && (indegree[order[k - 1]] == 0 <==> k - 1 < n)
    ensures forall v :: v in order[..k] ==> v in indegree
    ensures Roots(order[..k], indegree) == order[..if k <= n then k else n]
  {
    RootsLast(order[..k - 1], order[k - 1], indegree);
    assert order[..k] == order[..k - 1] + [order[k - 1]];
  }

  /** The traversal emits its start first, so the start can be read off its result. */
  lemma RootsOfOrder(order: seq<string>, roots: seq<string>, indegree: Degrees)
    requires Distinct(order) && roots <= order
    requires forall v :: v in order ==> v in indegree && (indegree[v] == 0 <==> v in roots)
    ensures Roots(order, indegree) == roots
  {
    forall i | 0 <= i < |order| ensures order[i] in indegree && (indegree[order[i]] == 0 <==> i < |roots|) {
      assert order[i] in order;
      if i < |roots| {
        assert roots[i] == order[i];
      }
      if order[i] in roots {
        var k :| 0 <= k < |roots| && roots[k] == order[i];
        assert order[k] == order[i];
      }
    }
    RootsOfPrefix(order, |roots|, indegree, |order|);
    assert order[..|order|] == order;
  }

  lemma RootsBeginOrder(chapters: seq<Chapter>)
    ensures RootsOf(chapters) <= Order(chapters)
  {
    var g := GraphOf(chapters);
    GraphIsClosed(chapters);
    KahnExtends(g, IndegreesOf(g), RootsOf(chapters), []);
    assert [] + RootsOf(chapters) == RootsOf(chapters);
  }

  lemma AllEmitted(g: Graph, order: seq<string>)
    requires Traversed(g, order) && |order| == |g|
    ensures forall v :: v in order <==> v in g
  {
    DistinctCount(order, Elements(order));
    forall v | v in order ensures v in g {
      assert FoundWhenFree(g, Elements(order), Elements(order), v);
    }
    SubsetOfSameSize(Elements(order), g.Keys);
  }

  lemma AsManyIdsAsChapters(chapters: seq<Chapter>)
    requires Distinct(Ids(chapters))
    ensures |GraphOf(chapters)| == |chapters|
    ensures forall c :: c in chapters ==> c.id in GraphOf(chapters)
  {
    GraphIsClosed(chapters);
    IdsAreKnown(chapters);
    DistinctCount(Ids(chapters), Known(chapters));
  }

  lemma CompleteOrder(chapters: seq<Chapter>)
    requires Distinct(Ids(chapters)) && !CycleReported(chapters)
    ensures Distinct(Order(chapters)) && |Order(chapters)| == |chapters|
    ensures forall v :: v in Order(chapters) <==> v in GraphOf(chapters)
    ensures forall c :: c in chapters ==> c.id in Order(chapters)
  {
    DistinctIdsSuffice(chapters);
    OrderTraverses(chapters);
    AllEmitted(GraphOf(chapters), Order(chapters));
    AsManyIdsAsChapters(chapters);
  }

  lemma SubsetOfSameSize(s: set<string>, t: set<string>)
    requires s <= t && |s| == |t|
    ensures s == t
  {
    if x :| x in t && x !in s {
      CountSubset(s, t - {x});
    }
  }

  /** Sorting by the order and validating again returns the order the chapters now have. */
  lemma RevalidationIsFixedPoint(chapters: seq<Chapter>)
    requires Distinct(Ids(chapters)) && !CycleReported(chapters)
    ensures Distinct(Order(chapters)) && forall c :: c in chapters ==> c.id in Order(chapters)
    ensures var sorted := SortChapters(chapters, Order(chapters));
            && Ids(sorted) == Order(chapters)
            && Order(sorted) == Ids(sorted)
            && !CycleReported(sorted)
            && (forall c :: c in sorted <==> c in chapters)
  {
    CompleteOrder(chapters);
    RootsBeginOrder(chapters);
    var order := Order(chapters);
    var sorted := SortChapters(chapters, order);
    SortedIdsAreOrder(chapters, order);
    SameChapters(chapters, order);
    SameGraph(sorted, chapters);
    SameStart(chapters, sorted, order);
  }

  lemma SameStart(chapters: seq<Chapter>, sorted: seq<Chapter>, order: seq<string>)
    requires Distinct(order) && RootsOf(chapters) <= order && GraphOf(sorted) == GraphOf(chapters)
    requires Ids(sorted) == order
    ensures RootsOf(sorted) == RootsOf(chapters)
  {
    IdsAreKnown(sorted);
    GraphIsClosed(sorted);
    RootsOfOrder(order, RootsOf(chapters), IndegreesOf(GraphOf(chapters)));
  }

  // ---------------------------------------------------------------- what repeated ids do

  lemma ShortPath(g: Graph, p: seq<string>)
    requires forall v :: v in g ==> g[v] == {}
    ensures Path(g, p) ==> |p| < 2
  {
    if |p| >= 2 {
      assert !Edge(g, p[0], p[0 + 1]);
    }
  }

  lemma RootsOfTwo(a: string, indegree: Degrees)
    requires a in indegree && indegree[a] == 0
    ensures Roots([a, a], indegree) == [a, a]
  {
    assert [a, a][..1] == [a] && [a][..0] == [];
    assert Roots([a], indegree) == [a];
  }

  /** A repeated chapter without prerequisites is reported as a cycle. */
  lemma RepeatedRootLooksLikeCycle(c: Chapter)
    requires c.prerequisites == []
    ensures CycleReported([c, c]) && !HasCycle(GraphOf([c, c]))
  {
    var chapters := [c, c];
    var g := GraphOf(chapters);
    assert c in chapters;
    forall p { ShortPath(g, p); }
    assert Preds(g, c.id) == {};
    assert Ids(chapters) == [c.id, c.id];
    RootsOfTwo(c.id, IndegreesOf(g));
    var roots := RootsOf(chapters);
    assert roots == [c.id, c.id] && roots[0] == roots[1];
    FalseCycleExactly(chapters);
  }

  /** Chapters that nothing requires go through the queue without effect on the others. */
  lemma {:induction false} SinksPassThrough(g: Graph, indegree: Degrees, queue: seq<string>, ordered: seq<string>)
    requires Ready(g, indegree, queue) && forall v :: v in queue ==> g[v] == {}
    ensures Kahn(g, indegree, queue, ordered) == ordered + queue
    decreases |queue|
  {
    if queue == [] {
      assert ordered + queue == ordered;
    } else {
      var u := queue[0];
      assert u in queue;
      var lowered, released := KahnUnrolls(g, indegree, queue, ordered);
      NoElements(released);
      assert lowered == indegree && queue[1..] + released == queue[1..];
      SinksPassThrough(g, indegree, queue[1..], ordered + [u]);
      assert ordered + [u] + queue[1..] == ordered + queue;
    }
  }

  lemma EdgesOfHidden(a: Chapter, b: Chapter, c: Chapter)
    requires a.id != b.id && a.id != c.id && b.id != c.id
    requires a.prerequisites == [] && b.prerequisites == [c.id] && c.prerequisites == [b.id]
    ensures GraphOf([a, a, a, b, c]) == map[a.id := {}, b.id := {c.id}, c.id := {b.id}]
  {
    var chapters := [a, a, a, b, c];
    assert forall x :: x in chapters <==> x == a || x == b || x == c;
    assert a in chapters && b in chapters && c in chapters;
    var g, h := GraphOf(chapters), map[a.id := {}, b.id := {c.id}, c.id := {b.id}];
    assert g.Keys == h.Keys;
    forall p | p in g ensures g[p] == h[p] {
      forall id ensures id in g[p] <==> id in h[p] { }
    }
  }

  lemma HiddenDegrees(g: Graph, a: string, b: string, c: string)
    requires a != b && a != c && b != c && g == map[a := {}, b := {c}, c := {b}]
    ensures |g| == 3 && IndegreesOf(g) == map[a := 0, b := 1, c := 1]
  {
    assert g.Keys == {a, b, c};
    HiddenPreds(g, a, b, c);
    assert |Preds(g, a)| == 0 && |Preds(g, b)| == 1 && |Preds(g, c)| == 1;
  }

  lemma HiddenPreds(g: Graph, a: string, b: string, c: string)
    requires a != b && a != c && b != c && g == map[a := {}, b := {c}, c := {b}]
    ensures Preds(g, a) == {} && Preds(g, b) == {c} && Preds(g, c) == {b}
  {
    forall p ensures p in g ==> p == a || p == b || p == c { }
  }

  lemma HiddenCycle(g: Graph, b: string, c: string)
    requires b in g && c in g && c in g[b] && b in g[c]
    ensures HasCycle(g)
  {
    var p := [b, c, b];
    assert Edge(g, b, c) && Edge(g, c, b);
    assert Path(g, p) && |p| >= 2 && p[0] == b && p[|p| - 1] == b;
    assert OnCycle(g, b);
  }

  /** If no starting chapter has a dependent, just the starting chapters come out. */
  lemma OnlyRootsComeOut(chapters: seq<Chapter>)
    requires forall v :: v in RootsOf(chapters) ==> GraphOf(chapters)[v] == {}
    ensures Order(chapters) == RootsOf(chapters)
  {
    GraphIsClosed(chapters);
    SinksPassThrough(GraphOf(chapters), IndegreesOf(GraphOf(chapters)), RootsOf(chapters), []);
    assert [] + RootsOf(chapters) == RootsOf(chapters);
  }

  lemma LeadingRoots(chapters: seq<Chapter>, n: nat)
    requires RootsLead(Ids(chapters), n, IndegreesOf(GraphOf(chapters)))
    ensures RootsOf(chapters) == Ids(chapters)[..n]
  {
    var ids := Ids(chapters);
    RootsOfPrefix(ids, n, IndegreesOf(GraphOf(chapters)), |ids|);
    assert ids[..|ids|] == ids;
  }

  lemma HiddenLead(ids: seq<string>, indegree: Degrees, a: string, b: string, c: string)
    requires a != b && a != c && b != c && ids == [a, a, a, b, c] && indegree == map[a := 0, b := 1, c := 1]
    ensures RootsLead(ids, 3, indegree)
  {
  }

  lemma HiddenOrder(chapters: seq<Chapter>, a: string, b: string, c: string)
    requires a != b && a != c && b != c && Ids(chapters) == [a, a, a, b, c]
    requires GraphOf(chapters) == map[a := {}, b := {c}, c := {b}]
    ensures |Order(chapters)| == 3 == |GraphOf(chapters)|
  {
    HiddenDegrees(GraphOf(chapters), a, b, c);
    HiddenLead(Ids(chapters), IndegreesOf(GraphOf(chapters)), a, b, c);
    LeadingRoots(chapters, 3);
    assert Ids(chapters)[..3] == [a, a, a];
    OnlyRootsComeOut(chapters);
  }

  /** The other wrong report: the copies of a repeated chapter can make up for chapters stuck in a cycle. */
  lemma RepeatedRootHidesCycle(a: Chapter, b: Chapter, c: Chapter)
    requires a.id != b.id && a.id != c.id && b.id != c.id
    requires a.prerequisites == [] && b.prerequisites == [c.id] && c.prerequisites == [b.id]
    ensures HasCycle(GraphOf([a, a, a, b, c])) && !CycleReported([a, a, a, b, c])
  {
    EdgesOfHidden(a, b, c);
    HiddenCycle(GraphOf([a, a, a, b, c]), b.id, c.id);
    HiddenOrder([a, a, a, b, c], a.id, b.id, c.id);
  }
}
