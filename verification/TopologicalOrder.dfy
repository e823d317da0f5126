/**
  Kahn's algorithm as the plan validator runs it: a FIFO queue, and the dependents of a chapter
  visited in ascending order of their ids. Proved about it: which chapters come out, in which
  order, and that chapters come out layer by layer.
*/
module TopologicalOrder {
  import opened Ordering
  import opened PlanGraph

  type Degrees = map<string, int>

  function Elements(xs: seq<string>): set<string> { set x | x in xs }

  /** Indegrees after each listed dependent has been served once. */
  function Lowered(indegree: Degrees, deps: seq<string>): (r: Degrees)
    ensures r.Keys == indegree.Keys
    ensures forall v :: v in indegree ==> r[v] == if v in deps then indegree[v] - 1 else indegree[v]
  {
    map v | v in indegree :: if v in deps then indegree[v] - 1 else indegree[v]
  }

  /** The dependents whose indegree drops to zero, in the order of the visit. */
  function Released(indegree: Degrees, deps: seq<string>): (r: seq<string>)
    requires forall v :: v in deps ==> v in indegree
    ensures forall v :: v in r <==> v in deps && indegree[v] == 1
  {
    if deps == [] then []
    else
      var init, last := deps[..|deps| - 1], deps[|deps| - 1];
      assert forall v :: v in deps <==> v in init || v == last;
      Released(indegree, init) + if indegree[last] == 1 then [last] else []
  }

  /** Dependents visited in ascending order are released in ascending order. */
  lemma {:induction false} ReleasedAscending(indegree: Degrees, deps: seq<string>)
    requires Ascending(deps) && forall v :: v in deps ==> v in indegree
    ensures Ascending(Released(indegree, deps))
  {
    if deps != [] {
      var init, last := deps[..|deps| - 1], deps[|deps| - 1];
      ReleasedAscending(indegree, init);
      var before := Released(indegree, init);
      forall k | 0 <= k < |before| ensures Less(before[k], last) {
        assert before[k] in before && before[k] in init;
      }
    }
  }

  ghost predicate Ready(g: Graph, indegree: Degrees, queue: seq<string>) {
    Closed(g) && indegree.Keys == g.Keys && forall v :: v in queue ==> v in g
  }

  ghost function Positive(indegree: Degrees): set<string> {
    set v | v in indegree && indegree[v] > 0
  }

  /** Effect of serving u: its dependents lose one each, and those that had just one are released. */
  ghost predicate Served(g: Graph, indegree: Degrees, u: string, lowered: Degrees, released: seq<string>) {
    && u in g && lowered.Keys == indegree.Keys == g.Keys
    && (forall v :: v in g ==> lowered[v] == if v in g[u] then indegree[v] - 1 else indegree[v])
    && (forall v :: v in released <==> v in g && v in g[u] && indegree[v] == 1)
    && Distinct(released) && Ascending(released)
  }

  lemma AscendingIsDistinct(xs: seq<string>)
    requires Ascending(xs)
    ensures Distinct(xs)
  {
    forall i, j | 0 <= i < j < |xs| ensures xs[i] != xs[j] {
      LessTotal(xs[i], xs[j]);
    }
  }

  lemma ServingServes(g: Graph, indegree: Degrees, u: string)
    requires Closed(g) && indegree.Keys == g.Keys && u in g
    ensures var deps := SortedStrings(g[u]);
            && (forall v :: v in deps ==> v in indegree)
            && Served(g, indegree, u, Lowered(indegree, deps), Released(indegree, deps))
  {
    var deps := SortedStrings(g[u]);
    assert forall v :: v in deps ==> v in g;
    ReleasedAscending(indegree, deps);
    AscendingIsDistinct(Released(indegree, deps));
  }

  /** Serving one chapter shortens what is still to do by exactly that chapter. */
  lemma ServingTerminates(g: Graph, indegree: Degrees, u: string, lowered: Degrees, released: seq<string>)
    requires Closed(g) && Served(g, indegree, u, lowered, released)
    ensures |released| + |Positive(lowered)| == |Positive(indegree)|
  {
    var zeroed := Elements(released);
    DistinctCount(released, zeroed);
    assert Positive(indegree) == Positive(lowered) + zeroed;
  }

  /** The traversal: the order of chapters it emits. */
  function Kahn(g: Graph, indegree: Degrees, queue: seq<string>, ordered: seq<string>): seq<string>
    requires Ready(g, indegree, queue)
    decreases |queue| + |Positive(indegree)|
  {
    if queue == [] then ordered
    else
      var u := queue[0];
      assert u in queue;
      ServingServes(g, indegree, u);
      var deps := SortedStrings(g[u]);
      ServingTerminates(g, indegree, u, Lowered(indegree, deps), Released(indegree, deps));
      Kahn(g, Lowered(indegree, deps), queue[1..] + Released(indegree, deps), ordered + [u])
  }

  // ---------------------------------------------------------------- what the traversal keeps

  /** Every chapter stands after all its prerequisites. */
  ghost predicate PrerequisitesFirst(g: Graph, order: seq<string>) {
    forall k :: 0 <= k < |order| ==> Preds(g, order[k]) <= Elements(order[..k])
  }

  ghost predicate CountsMissing(g: Graph, indegree: Degrees, done: set<string>, v: string)
    requires v in indegree
  {
    indegree[v] == |Preds(g, v) - done|
  }

  ghost predicate FoundWhenFree(g: Graph, found: set<string>, done: set<string>, v: string) {
    v in found <==> v in g && Preds(g, v) <= done
  }

  /**
    With every root queued once: indegrees count the missing prerequisites, and the queued or
    emitted chapters are exactly those with no missing prerequisite.
  */
  ghost predicate Exact(g: Graph, indegree: Degrees, queue: seq<string>, ordered: seq<string>) {
    && Ready(g, indegree, queue)
    && Distinct(ordered + queue)
    && (forall v :: v in g ==> CountsMissing(g, indegree, Elements(ordered), v))
    && (forall v :: FoundWhenFree(g, Elements(ordered + queue), Elements(ordered), v))
    && PrerequisitesFirst(g, ordered + queue)
  }

  lemma CountOneLess(preds: set<string>, done: set<string>, u: string)
    requires u !in done
    ensures |preds - (done + {u})| == |preds - done| - if u in preds then 1 else 0
    ensures preds <= done + {u} <==> |preds - done| == (if u in preds then 1 else 0)
    ensures preds <= done <==> |preds - done| == 0
  {
    var missing, left := preds - done, preds - (done + {u});
    assert left == missing - {u};
    assert missing == {} <==> preds <= done;
    assert left == {} <==> preds <= done + {u};
  }

  /** A served dependent has one missing prerequisite less; it is released when that was the last. */
  lemma ServedDegree(g: Graph, indegree: Degrees, found: set<string>, done: set<string>, u: string,
                     lowered: Degrees, released: seq<string>, v: string)
    requires Served(g, indegree, u, lowered, released) && u !in done
    requires v in g ==> CountsMissing(g, indegree, done, v)
    requires FoundWhenFree(g, found, done, v)
    ensures v in g ==> CountsMissing(g, lowered, done + {u}, v)
    ensures v in released ==> v !in found && v in g && Preds(g, v) <= done + {u}
    ensures FoundWhenFree(g, found + Elements(released), done + {u}, v)
  {
    if v in g {
      CountOneLess(Preds(g, v), done, u);
      assert u in Preds(g, v) <==> v in g[u];
    }
  }

  lemma HeadIsNew(queue: seq<string>, ordered: seq<string>)
    requires queue != [] && Distinct(ordered + queue)
    ensures queue[0] !in ordered
    ensures Elements(ordered + [queue[0]]) == Elements(ordered) + {queue[0]}
  {
    var d := ordered + queue;
    forall i | 0 <= i < |ordered| ensures ordered[i] != queue[0] {
      assert d[i] == ordered[i] && d[|ordered|] == queue[0];
    }
  }

  lemma StepCounts(g: Graph, indegree: Degrees, found: set<string>, done: set<string>, u: string,
                   lowered: Degrees, released: seq<string>)
    requires Served(g, indegree, u, lowered, released) && u !in done
    requires forall v :: v in g ==> CountsMissing(g, indegree, done, v)
    requires forall v :: FoundWhenFree(g, found, done, v)
    ensures forall v :: v in g ==> CountsMissing(g, lowered, done + {u}, v)
    ensures forall v :: FoundWhenFree(g, found + Elements(released), done + {u}, v)
    ensures forall v :: v in released ==> v !in found && v in g && Preds(g, v) <= done + {u}
  {
    forall v
      ensures v in g ==> CountsMissing(g, lowered, done + {u}, v)
      ensures v in released ==> v !in found && v in g && Preds(g, v) <= done + {u}
      ensures FoundWhenFree(g, found + Elements(released), done + {u}, v)
    {
      ServedDegree(g, indegree, found, done, u, lowered, released, v);
    }
  }

  lemma StepPositions(g: Graph, queue: seq<string>, ordered: seq<string>, released: seq<string>)
    requires queue != [] && Distinct(ordered + queue) && Distinct(released)
    requires PrerequisitesFirst(g, ordered + queue)
    requires forall v :: v in released ==>
               v !in Elements(ordered + queue) && Preds(g, v) <= Elements(ordered) + {queue[0]}
    ensures (ordered + [queue[0]]) + (queue[1..] + released) == (ordered + queue) + released
    ensures Elements((ordered + queue) + released) == Elements(ordered + queue) + Elements(released)
    ensures Distinct((ordered + queue) + released)
    ensures PrerequisitesFirst(g, (ordered + queue) + released)
  {
    var d := ordered + queue;
    HeadIsNew(queue, ordered);
    assert d[..|ordered| + 1] == ordered + [queue[0]];
    forall v | v in released ensures v !in d {
      assert v in d ==> v in Elements(d);
    }
    DistinctAppend(d, released);
    FirstAppend(g, d, released, |ordered| + 1);
  }

  lemma ExactStep(g: Graph, indegree: Degrees, queue: seq<string>, ordered: seq<string>,
                  lowered: Degrees, released: seq<string>)
    requires Exact(g, indegree, queue, ordered) && queue != []
    requires Served(g, indegree, queue[0], lowered, released)
    ensures Exact(g, lowered, queue[1..] + released, ordered + [queue[0]])
  {
    HeadIsNew(queue, ordered);
    StepCounts(g, indegree, Elements(ordered + queue), Elements(ordered), queue[0], lowered, released);
    StepPositions(g, queue, ordered, released);
  }

  lemma DistinctAppend(d: seq<string>, more: seq<string>)
    requires Distinct(d) && Distinct(more) && forall v :: v in more ==> v !in d
    ensures Distinct(d + more)
  {
    forall i, j | 0 <= i < |d| && 0 <= j < |more| ensures d[i] != more[j] {
      assert more[j] in more && d[i] in d;
    }
  }

  lemma FirstAppend(g: Graph, d: seq<string>, more: seq<string>, n: nat)
    requires PrerequisitesFirst(g, d) && n <= |d|
    requires forall v :: v in more ==> Preds(g, v) <= Elements(d[..n])
    ensures PrerequisitesFirst(g, d + more)
  {
    var d' := d + more;
    forall k | 0 <= k < |d'| ensures Preds(g, d'[k]) <= Elements(d'[..k]) {
      if k < |d| {
        assert d'[..k] == d[..k];
      } else {
        assert d'[k] in more;
        assert d'[..k][..n] == d[..n];
        assert Elements(d[..n]) <= Elements(d'[..k]);
      }
    }
  }

  // ---------------------------------------------------------------- layers

  /** Chapters are found layer by layer, and the queue never spans more than two layers. */
  ghost predicate Layered(g: Graph, queue: seq<string>, ordered: seq<string>) {
    && NonDecreasingDepth(g, ordered + queue)
    && forall i :: 0 <= i < |queue| ==> AtMostOneDeeper(g, queue[i], queue[0])
  }

  ghost predicate NonDecreasingDepth(g: Graph, order: seq<string>) {
    forall i, j :: 0 <= i <= j < |order| ==> NoDeeper(g, order[i], order[j])
  }

  /** What u releases lies one layer below u: u is its deepest prerequisite. */
  lemma ReleasedIsNextLayer(g: Graph, d: seq<string>, n: nat, v: string)
    requires NonDecreasingDepth(g, d) && n < |d|
    requires Preds(g, v) <= Elements(d[..n + 1]) && d[n] in Preds(g, v)
    ensures NextLayer(g, d[n], v)
  {
    forall p | p in Preds(g, v) ensures NoDeeper(g, p, d[n]) {
      assert p in d[..n + 1];
      var i :| 0 <= i < n + 1 && d[..n + 1][i] == p;
      assert NoDeeper(g, d[i], d[n]);
    }
    forall steps: nat ensures DepthAtLeast(g, v, steps + 1) <==> DepthAtLeast(g, d[n], steps) {
      DeeperThanPred(g, d[n], v, steps);
    }
  }

  lemma LayeredAppend(g: Graph, d: seq<string>, n: nat, more: seq<string>)
    requires NonDecreasingDepth(g, d) && n < |d|
    requires forall i :: n <= i < |d| ==> AtMostOneDeeper(g, d[i], d[n])
    requires forall k :: 0 <= k < |more| ==> NextLayer(g, d[n], more[k])
    ensures NonDecreasingDepth(g, d + more)
  {
    var d' := d + more;
    forall i, j | 0 <= i <= j < |d'| ensures NoDeeper(g, d'[i], d'[j]) {
      if j >= |d| {
        var v := more[j - |d|];
        NextLayerIsDeeper(g, d[n], v);
        if i <= n {
          assert NoDeeper(g, d[i], d[n]);
          NoDeeperTrans(g, d[i], d[n], v);
        } else if i < |d| {
          NoDeeperFromOne(g, d[i], d[n], v);
        } else {
          SameLayer(g, d[n], more[i - |d|], v);
        }
      }
    }
  }

  /** What u releases requires u and otherwise only chapters emitted before. */
  lemma ReleasedRequire(g: Graph, indegree: Degrees, found: set<string>, done: set<string>, u: string,
                        lowered: Degrees, released: seq<string>, v: string)
    requires Served(g, indegree, u, lowered, released) && u !in done && v in released
    requires CountsMissing(g, indegree, done, v) && FoundWhenFree(g, found, done, v)
    ensures Preds(g, v) <= done + {u} && u in Preds(g, v)
  {
    ServedDegree(g, indegree, found, done, u, lowered, released, v);
  }

  lemma ExactNeeds(g: Graph, indegree: Degrees, queue: seq<string>, ordered: seq<string>, v: string)
    requires Exact(g, indegree, queue, ordered) && queue != [] && v in g
    ensures CountsMissing(g, indegree, Elements(ordered), v)
    ensures FoundWhenFree(g, Elements(ordered + queue), Elements(ordered), v)
    ensures queue[0] !in Elements(ordered)
  {
    HeadIsNew(queue, ordered);
  }

  lemma HeadPrefix(queue: seq<string>, ordered: seq<string>)
    requires queue != []
    ensures Elements((ordered + queue)[..|ordered| + 1]) == Elements(ordered) + {queue[0]}
  {
    assert (ordered + queue)[..|ordered| + 1] == ordered + [queue[0]];
  }

  lemma ReleasedLayers(g: Graph, indegree: Degrees, queue: seq<string>, ordered: seq<string>,
                       lowered: Degrees, released: seq<string>)
    requires Exact(g, indegree, queue, ordered) && queue != []
    requires Served(g, indegree, queue[0], lowered, released)
    requires NonDecreasingDepth(g, ordered + queue)
    ensures forall k :: 0 <= k < |released| ==> NextLayer(g, queue[0], released[k])
  {
    forall k | 0 <= k < |released| ensures NextLayer(g, queue[0], released[k]) {
      var v := released[k];
      assert v in released;
      ExactNeeds(g, indegree, queue, ordered, v);
      ReleasedRequire(g, indegree, Elements(ordered + queue), Elements(ordered), queue[0], lowered, released, v);
      HeadPrefix(queue, ordered);
      ReleasedIsNextLayer(g, ordered + queue, |ordered|, v);
    }
  }

  lemma LayeredStep(g: Graph, indegree: Degrees, queue: seq<string>, ordered: seq<string>,
                    lowered: Degrees, released: seq<string>)
    requires Exact(g, indegree, queue, ordered) && queue != []
    requires Served(g, indegree, queue[0], lowered, released)
    requires Layered(g, queue, ordered)
    ensures Layered(g, queue[1..] + released, ordered + [queue[0]])
  {
    ReleasedLayers(g, indegree, queue, ordered, lowered, released);
    LayersGrow(g, queue, ordered, released);
  }

  lemma LayersGrow(g: Graph, queue: seq<string>, ordered: seq<string>, released: seq<string>)
    requires queue != [] && Layered(g, queue, ordered)
    requires forall k :: 0 <= k < |released| ==> NextLayer(g, queue[0], released[k])
    ensures Layered(g, queue[1..] + released, ordered + [queue[0]])
  {
    var d, n := ordered + queue, |ordered|;
    forall i | n <= i < |d| ensures AtMostOneDeeper(g, d[i], d[n]) {
      assert d[i] == queue[i - n];
    }
    LayeredAppend(g, d, n, released);
    QueueLayers(g, d, n, released);
    assert queue[1..] + released == (d + released)[n + 1..];
    assert (ordered + [queue[0]]) + (queue[1..] + released) == d + released;
  }

  lemma QueueLayers(g: Graph, d: seq<string>, n: nat, more: seq<string>)
    requires NonDecreasingDepth(g, d) && n < |d|
    requires forall i :: n <= i < |d| ==> AtMostOneDeeper(g, d[i], d[n])
    requires forall k :: 0 <= k < |more| ==> NextLayer(g, d[n], more[k])
    ensures var queue := (d + more)[n + 1..];
            forall i :: 0 <= i < |queue| ==> AtMostOneDeeper(g, queue[i], queue[0])
  {
    var queue := (d + more)[n + 1..];
    forall i | 0 <= i < |queue| ensures AtMostOneDeeper(g, queue[i], queue[0]) {
      if n + 1 + i >= |d| { NextLayerIsDeeper(g, d[n], queue[i]); }
      assert AtMostOneDeeper(g, queue[i], d[n]);
      if n + 1 < |d| {
        assert NoDeeper(g, d[n], d[n + 1]);
      } else {
        NextLayerIsDeeper(g, d[n], queue[0]);
      }
      NoDeeperTrans(g, queue[i], d[n], queue[0]);
    }
  }

  // ---------------------------------------------------------------- what comes out

  /** The emitted order: every chapter whose prerequisites are all emitted, once, after them, layer by layer. */
  ghost predicate Traversed(g: Graph, order: seq<string>) {
    && Distinct(order) && PrerequisitesFirst(g, order) && NonDecreasingDepth(g, order)
    && forall v :: FoundWhenFree(g, Elements(order), Elements(order), v)
  }

  /** One turn of the traversal. */
  lemma KahnUnrolls(g: Graph, indegree: Degrees, queue: seq<string>, ordered: seq<string>)
    returns (lowered: Degrees, released: seq<string>)
    requires Ready(g, indegree, queue) && queue != []
    ensures Served(g, indegree, queue[0], lowered, released)
    ensures Ready(g, lowered, queue[1..] + released)
    ensures |released| + |Positive(lowered)| == |Positive(indegree)|
    ensures Kahn(g, indegree, queue, ordered) == Kahn(g, lowered, queue[1..] + released, ordered + [queue[0]])
  {
    var u := queue[0];
    assert u in queue;
    ServingServes(g, indegree, u);
    var deps := SortedStrings(g[u]);
    lowered, released := Lowered(indegree, deps), Released(indegree, deps);
    ServingTerminates(g, indegree, u, lowered, released);
  }

  lemma {:induction false} KahnTraverses(g: Graph, indegree: Degrees, queue: seq<string>, ordered: seq<string>)
    requires Exact(g, indegree, queue, ordered) && Layered(g, queue, ordered)
    ensures Traversed(g, Kahn(g, indegree, queue, ordered))
    decreases |queue| + |Positive(indegree)|
  {
    if queue == [] {
      assert ordered + queue == ordered;
    } else {
      var lowered, released := KahnUnrolls(g, indegree, queue, ordered);
      ExactStep(g, indegree, queue, ordered, lowered, released);
      LayeredStep(g, indegree, queue, ordered, lowered, released);
      KahnTraverses(g, lowered, queue[1..] + released, ordered + [queue[0]]);
    }
  }

  /** Whatever is found stays found, in the order of finding. */
  lemma {:induction false} KahnExtends(g: Graph, indegree: Degrees, queue: seq<string>, ordered: seq<string>)
    requires Ready(g, indegree, queue)
    ensures ordered + queue <= Kahn(g, indegree, queue, ordered)
    decreases |queue| + |Positive(indegree)|
  {
    if queue != [] {
      var lowered, released := KahnUnrolls(g, indegree, queue, ordered);
      KahnExtends(g, lowered, queue[1..] + released, ordered + [queue[0]]);
      PrefixStep(queue, ordered, released, Kahn(g, lowered, queue[1..] + released, ordered + [queue[0]]));
    }
  }

  lemma PrefixStep(queue: seq<string>, ordered: seq<string>, released: seq<string>, order: seq<string>)
    requires queue != [] && (ordered + [queue[0]]) + (queue[1..] + released) <= order
    ensures ordered + queue <= order
  {
    assert (ordered + [queue[0]]) + (queue[1..] + released) == (ordered + queue) + released;
  }

  /** Along a path that ends at an emitted chapter, the start was emitted strictly before. */
  lemma {:induction false} PathsComeBefore(g: Graph, order: seq<string>, p: seq<string>, k: nat)
    requires PrerequisitesFirst(g, order) && k < |order|
    requires Path(g, p) && |p| >= 2 && p[|p| - 1] == order[k]
    ensures p[0] in order[..k]
    decreases |p|
  {
    var b := p[|p| - 2];
    assert Edge(g, b, p[|p| - 2 + 1]);
    assert b in Preds(g, order[k]);
    assert b in order[..k];
    if |p| > 2 {
      var m :| 0 <= m < k && order[..k][m] == b;
      SliceIsPath(g, p, 0, |p| - 1);
      PathsComeBefore(g, order, p[0..|p| - 1], m);
      assert forall x :: x in order[..m] ==> x in order[..k];
    }
  }

  lemma EmittedIsNotBlocked(g: Graph, order: seq<string>, c: string)
    requires Distinct(order) && PrerequisitesFirst(g, order) && c in order
    ensures !Blocked(g, c)
  {
    if Blocked(g, c) {
      var p :| Path(g, p) && p[|p| - 1] == c && OnCycle(g, p[0]);
      var k :| 0 <= k < |order| && order[k] == c;
      if |p| >= 2 {
        PathsComeBefore(g, order, p, k);
      }
      assert p[0] in order;
      var m :| 0 <= m < |order| && order[m] == p[0];
      var loop :| Path(g, loop) && |loop| >= 2 && loop[0] == p[0] && loop[|loop| - 1] == p[0];
      PathsComeBefore(g, order, loop, m);
      assert false;
    }
  }

  /** Exactly the chapters that no cycle blocks come out. */
  lemma EmittedExactly(g: Graph, order: seq<string>, c: string)
    requires Traversed(g, order)
    ensures c in order <==> c in g && !Blocked(g, c)
  {
    assert FoundWhenFree(g, Elements(order), Elements(order), c);
    if c in order {
      EmittedIsNotBlocked(g, order, c);
    }
    if c in g && c !in order {
      forall v | v in g ensures OutOrWaiting(g, order, v) {
        assert FoundWhenFree(g, Elements(order), Elements(order), v);
      }
      LeftOutBlocked(g, order, c);
    }
  }

  /** The length test of the validator: all chapters come out exactly when there is no cycle. */
  lemma AllEmittedIffAcyclic(g: Graph, order: seq<string>)
    requires Traversed(g, order)
    ensures |order| == |g| <==> !HasCycle(g)
    ensures |order| <= |g|
  {
    var out := Elements(order);
    DistinctCount(order, out);
    forall c ensures c in order <==> c in g && !Blocked(g, c) { EmittedExactly(g, order, c); }
    assert out <= g.Keys;
    CountSubset(out, g.Keys);
    if HasCycle(g) {
      var c :| OnCycle(g, c);
      CycleBlocksItself(g, c);
      CountSubset(out, g.Keys - {c});
    } else {
      assert g.Keys <= out;
      CountSubset(g.Keys, out);
    }
  }

  lemma CycleBlocksItself(g: Graph, c: string)
    requires OnCycle(g, c)
    ensures c in g && Blocked(g, c)
  {
    var p :| Path(g, p) && |p| >= 2 && p[0] == c && p[|p| - 1] == c;
    assert Blocked(g, c);
  }

  // ---------------------------------------------------------------- the order inside a layer

  /** The latest of v's prerequisites to be placed stands at position p. */
  ghost predicate ReleasedBy(g: Graph, order: seq<string>, p: nat, v: string) {
    p < |order| && order[p] in Preds(g, v) && Preds(g, v) <= Elements(order[..p + 1])
  }

  lemma ReleasedOnce(g: Graph, order: seq<string>, p: nat, q: nat, v: string)
    requires Distinct(order) && ReleasedBy(g, order, p, v) && ReleasedBy(g, order, q, v)
    ensures p == q
  {
    assert order[p] in order[..q + 1] && order[q] in order[..p + 1];
  }

  lemma ReleasedStays(g: Graph, order: seq<string>, more: seq<string>, p: nat, v: string)
    requires p < |order|
    ensures ReleasedBy(g, order, p, v) <==> ReleasedBy(g, order + more, p, v)
  {
    assert (order + more)[..p + 1] == order[..p + 1];
  }

  /** Position i stands before j: released by an earlier chapter, or by the same one and with a smaller id. */
  predicate ItsTurn(order: seq<string>, cause: seq<nat>, i: nat, j: nat)
    requires i < |order| && j < |order| && |cause| == |order|
  {
    cause[i] < cause[j] || (cause[i] == cause[j] && Less(order[i], order[j]))
  }

  /** m releases at position n more. */
  function Caused(cause: seq<nat>, n: nat, m: nat): (r: seq<nat>)
    ensures |r| == |cause| + m
    ensures forall i :: 0 <= i < |r| ==> r[i] == if i < |cause| then cause[i] else n
  {
    cause + seq(m, k => n)
  }

  /** cause names, for every position from the roots on, what released it; the releases take turns. */
  ghost predicate TakesTurns(g: Graph, order: seq<string>, roots: nat, n: nat, cause: seq<nat>) {
    && |cause| == |order|
    && (forall i :: roots <= i < |order| ==> cause[i] < n && ReleasedBy(g, order, cause[i], order[i]))
    && (forall i, j :: roots <= i < j < |order| ==> ItsTurn(order, cause, i, j))
  }

  lemma ReleasedTurn(g: Graph, indegree: Degrees, queue: seq<string>, ordered: seq<string>,
                     lowered: Degrees, released: seq<string>, v: string)
    requires Exact(g, indegree, queue, ordered) && queue != [] && v in released
    requires Served(g, indegree, queue[0], lowered, released)
    ensures ReleasedBy(g, ordered + queue, |ordered|, v)
  {
    ExactNeeds(g, indegree, queue, ordered, v);
    ReleasedRequire(g, indegree, Elements(ordered + queue), Elements(ordered), queue[0], lowered, released, v);
    HeadPrefix(queue, ordered);
  }

  lemma TurnsGrow(g: Graph, order: seq<string>, roots: nat, n: nat, cause: seq<nat>, released: seq<string>)
    requires TakesTurns(g, order, roots, n, cause) && n < |order| && roots <= |order| && Ascending(released)
    requires forall k :: 0 <= k < |released| ==> ReleasedBy(g, order, n, released[k])
    ensures TakesTurns(g, order + released, roots, n + 1, Caused(cause, n, |released|))
  {
    var longer, more := order + released, Caused(cause, n, |released|);
    forall i | roots <= i < |longer| ensures more[i] < n + 1 && ReleasedBy(g, longer, more[i], longer[i]) {
      ReleasedStays(g, order, released, if i < |order| then cause[i] else n, longer[i]);
    }
    forall i, j | roots <= i < j < |longer| ensures ItsTurn(longer, more, i, j) {
      assert j < |order| ==> ItsTurn(order, cause, i, j);
    }
  }

  lemma ReleasedAllTurn(g: Graph, indegree: Degrees, queue: seq<string>, ordered: seq<string>,
                        lowered: Degrees, released: seq<string>)
    requires Exact(g, indegree, queue, ordered) && queue != []
    requires Served(g, indegree, queue[0], lowered, released)
    ensures forall k :: 0 <= k < |released| ==> ReleasedBy(g, ordered + queue, |ordered|, released[k])
  {
    forall k | 0 <= k < |released| ensures ReleasedBy(g, ordered + queue, |ordered|, released[k]) {
      ReleasedTurn(g, indegree, queue, ordered, lowered, released, released[k]);
    }
  }

  /** What is emitted or queued, after a turn. */
  lemma TurnShifts(queue: seq<string>, ordered: seq<string>, released: seq<string>)
    requires queue != []
    ensures (ordered + [queue[0]]) + (queue[1..] + released) == (ordered + queue) + released
  {
  }

  lemma TurnsStep(g: Graph, indegree: Degrees, queue: seq<string>, ordered: seq<string>, lowered: Degrees,
                  released: seq<string>, found: seq<string>, roots: nat, cause: seq<nat>)
    requires Exact(g, indegree, queue, ordered) && queue != [] && found == ordered + queue && roots <= |found|
    requires Served(g, indegree, queue[0], lowered, released)
    requires TakesTurns(g, found, roots, |ordered|, cause)
    ensures TakesTurns(g, found + released, roots, |ordered| + 1, Caused(cause, |ordered|, |released|))
  {
    ReleasedAllTurn(g, indegree, queue, ordered, lowered, released);
    TurnsGrow(g, found, roots, |ordered|, cause, released);
  }

  ghost predicate SomeTurns(g: Graph, order: seq<string>, roots: nat) {
    exists cause :: TakesTurns(g, order, roots, |order|, cause)
  }

  lemma {:induction false} KahnTakesTurns(g: Graph, indegree: Degrees, queue: seq<string>, ordered: seq<string>,
                                          found: seq<string>, roots: nat, cause: seq<nat>)
    requires Exact(g, indegree, queue, ordered) && found == ordered + queue && roots <= |found|
    requires TakesTurns(g, found, roots, |ordered|, cause)
    ensures SomeTurns(g, Kahn(g, indegree, queue, ordered), roots)
    decreases |queue| + |Positive(indegree)|
  {
    if queue == [] {
      assert found == ordered;
    } else {
      var lowered, released := KahnUnrolls(g, indegree, queue, ordered);
      ExactStep(g, indegree, queue, ordered, lowered, released);
      TurnsStep(g, indegree, queue, ordered, lowered, released, found, roots, cause);
      TurnShifts(queue, ordered, released);
      KahnTakesTurns(g, lowered, queue[1..] + released, ordered + [queue[0]], found + released, roots,
                     Caused(cause, |ordered|, |released|));
    }
  }

  /**
    A schedule from given roots: the traversal's sets and layers, the roots first and in their order,
    and then chapters in the turns of their releases.
  */
  ghost predicate Scheduled(g: Graph, roots: seq<string>, order: seq<string>) {
    Traversed(g, order) && roots <= order && SomeTurns(g, order, |roots|)
  }

  lemma KahnSchedules(g: Graph, indegree: Degrees, roots: seq<string>)
    requires Exact(g, indegree, roots, []) && Layered(g, roots, [])
    ensures Scheduled(g, roots, Kahn(g, indegree, roots, []))
  {
    assert [] + roots == roots;
    KahnTraverses(g, indegree, roots, []);
    KahnExtends(g, indegree, roots, []);
    KahnTakesTurns(g, indegree, roots, [], roots, |roots|, Caused([], 0, |roots|));
  }

  lemma CauseIsRelease(g: Graph, order: seq<string>, roots: nat, cause: seq<nat>, i: nat, p: nat)
    requires Distinct(order) && TakesTurns(g, order, roots, |order|, cause)
    requires roots <= i < |order| && ReleasedBy(g, order, p, order[i])
    ensures cause[i] == p
  {
    ReleasedOnce(g, order, p, cause[i], order[i]);
  }

  lemma TurnIsDecided(order: seq<string>, cause: seq<nat>, i: nat, j: nat)
    requires i < |order| && j < |order| && |cause| == |order|
    requires i < j ==> ItsTurn(order, cause, i, j)
    requires j < i ==> ItsTurn(order, cause, j, i)
    ensures i < j <==> ItsTurn(order, cause, i, j)
  {
    LessTotal(order[i], order[j]);
  }

  /** Of two chapters the one whose latest-placed prerequisite stands earlier comes first, then the smaller id. */
  lemma TurnsDecide(g: Graph, roots: seq<string>, order: seq<string>, i: nat, j: nat, p: nat, q: nat)
    requires Scheduled(g, roots, order) && |roots| <= i < |order| && |roots| <= j < |order|
    requires ReleasedBy(g, order, p, order[i]) && ReleasedBy(g, order, q, order[j])
    ensures i < j <==> p < q || (p == q && Less(order[i], order[j]))
  {
    var cause :| TakesTurns(g, order, |roots|, |order|, cause);
    CauseIsRelease(g, order, |roots|, cause, i, p);
    CauseIsRelease(g, order, |roots|, cause, j, q);
    TurnIsDecided(order, cause, i, j);
  }

  lemma NextReleased(g: Graph, roots: seq<string>, order: seq<string>, i: nat) returns (p: nat)
    requires Scheduled(g, roots, order) && |roots| <= i < |order|
    ensures ReleasedBy(g, order, p, order[i]) && p < i
  {
    var cause :| TakesTurns(g, order, |roots|, |order|, cause);
    p := cause[i];
    assert Preds(g, order[i]) <= Elements(order[..i]);
    assert order[p] in order[..i];
  }

  lemma SameMembers(g: Graph, p: seq<string>, q: seq<string>, c: string)
    requires Traversed(g, p) && Traversed(g, q)
    ensures c in p <==> c in q
  {
    EmittedExactly(g, p, c);
    EmittedExactly(g, q, c);
  }

  lemma PlaceLater(p: seq<string>, q: seq<string>, k: nat) returns (i: nat)
    requires k < |p| && k < |q| && p[..k] == q[..k] && p[k] != q[k] && q[k] in p && Distinct(q)
    ensures k < i < |p| && p[i] == q[k]
  {
    forall m | 0 <= m < k ensures p[m] != q[k] {
      assert p[..k][m] == q[..k][m];
    }
    i :| 0 <= i < |p| && p[i] == q[k];
  }

  lemma ReleasedAlike(g: Graph, p: seq<string>, q: seq<string>, k: nat, r: nat, v: string)
    requires k <= |p| && k <= |q| && p[..k] == q[..k] && r < k
    ensures ReleasedBy(g, p, r, v) <==> ReleasedBy(g, q, r, v)
  {
    assert p[..r + 1] == p[..k][..r + 1] && q[..r + 1] == q[..k][..r + 1];
    assert p[r] == p[..k][r] && q[r] == q[..k][r];
  }

  /** If p puts x at k and y later, q cannot put y at k and x later: the releases decide alike. */
  lemma NoDispute(g: Graph, roots: seq<string>, p: seq<string>, q: seq<string>, k: nat, i: nat, j: nat)
    requires Scheduled(g, roots, p) && Scheduled(g, roots, q) && |roots| <= k
    requires k < i < |p| && k < j < |q| && p[..k] == q[..k] && p[i] == q[k]
    ensures q[j] != p[k]
  {
    var r := NextReleased(g, roots, p, k);
    var s := NextReleased(g, roots, q, k);
    ReleasedAlike(g, p, q, k, r, p[k]);
    ReleasedAlike(g, p, q, k, s, q[k]);
    LessTotal(p[k], q[k]);
    TurnsDecide(g, roots, p, k, i, r, s);
    if q[j] == p[k] {
      TurnsDecide(g, roots, q, k, j, s, r);
    }
  }

  lemma SamePlace(g: Graph, roots: seq<string>, p: seq<string>, q: seq<string>, k: nat)
    requires Scheduled(g, roots, p) && Scheduled(g, roots, q) && k < |p| && k < |q| && p[..k] == q[..k]
    ensures p[k] == q[k]
  {
    if k < |roots| {
      assert p[k] == roots[k] && q[k] == roots[k];
    } else if p[k] != q[k] {
      SameMembers(g, p, q, p[k]);
      SameMembers(g, p, q, q[k]);
      var i := PlaceLater(p, q, k);
      var j := PlaceLater(q, p, k);
      NoDispute(g, roots, p, q, k, i, j);
    }
  }

  lemma SameLength(g: Graph, p: seq<string>, q: seq<string>)
    requires Traversed(g, p) && Traversed(g, q)
    ensures |p| == |q|
  {
    forall c ensures c in p <==> c in q { SameMembers(g, p, q, c); }
    DistinctCount(p, Elements(p));
    DistinctCount(q, Elements(p));
  }

  /** The graph and the roots leave no choice. */
  lemma ScheduleUnique(g: Graph, roots: seq<string>, p: seq<string>, q: seq<string>)
    requires Scheduled(g, roots, p) && Scheduled(g, roots, q)
    ensures p == q
  {
    SameLength(g, p, q);
    forall k | 0 <= k < |p| && p[..k] == q[..k] ensures p[k] == q[k] {
      SamePlace(g, roots, p, q, k);
    }
    EqualPlaceByPlace(p, q, |p|);
    assert p[..|p|] == p && q[..|p|] == q;
  }

  // ---------------------------------------------------------------- roots queued more than once

  /** What holds however often a root is queued: an indegree never exceeds the missing prerequisites. */
  ghost predicate Pending(g: Graph, indegree: Degrees, found: set<string>, done: set<string>, v: string)
    requires v in indegree
  {
    (v in found || indegree[v] > 0) && indegree[v] <= |Preds(g, v) - done|
  }

  ghost predicate Loose(g: Graph, indegree: Degrees, queue: seq<string>, ordered: seq<string>) {
    && Ready(g, indegree, queue)
    && forall v :: v in g ==> Pending(g, indegree, Elements(ordered + queue), Elements(ordered), v)
  }

  lemma PendingStep(g: Graph, indegree: Degrees, found: set<string>, done: set<string>, u: string,
                    lowered: Degrees, released: seq<string>, v: string)
    requires Served(g, indegree, u, lowered, released) && v in g && Pending(g, indegree, found, done, v)
    ensures Pending(g, lowered, found + Elements(released), done + {u}, v)
  {
    var missing, left := Preds(g, v) - done, Preds(g, v) - (done + {u});
    assert left == missing - {u};
    assert u in Preds(g, v) <==> v in g[u];
  }

  lemma StepElements(queue: seq<string>, ordered: seq<string>, released: seq<string>)
    requires queue != []
    ensures Elements(ordered + [queue[0]]) == Elements(ordered) + {queue[0]}
    ensures Elements((ordered + [queue[0]]) + (queue[1..] + released)) == Elements(ordered + queue) + Elements(released)
  {
    assert (ordered + [queue[0]]) + (queue[1..] + released) == (ordered + queue) + released;
  }

  lemma LooseStep(g: Graph, indegree: Degrees, queue: seq<string>, ordered: seq<string>,
                  lowered: Degrees, released: seq<string>)
    requires Loose(g, indegree, queue, ordered) && queue != [] && Ready(g, lowered, queue[1..] + released)
    requires Served(g, indegree, queue[0], lowered, released)
    ensures Loose(g, lowered, queue[1..] + released, ordered + [queue[0]])
  {
    StepElements(queue, ordered, released);
    var queue', ordered' := queue[1..] + released, ordered + [queue[0]];
    forall v | v in g ensures Pending(g, lowered, Elements(ordered' + queue'), Elements(ordered'), v) {
      PendingStep(g, indegree, Elements(ordered + queue), Elements(ordered), queue[0], lowered, released, v);
    }
  }

  ghost predicate OutOrWaiting(g: Graph, order: seq<string>, v: string) {
    v in order || !(Preds(g, v) <= Elements(order))
  }

  lemma PendingAtEnd(g: Graph, indegree: Degrees, ordered: seq<string>, v: string)
    requires v in indegree && Pending(g, indegree, Elements(ordered), Elements(ordered), v)
    ensures OutOrWaiting(g, ordered, v)
  {
    assert Preds(g, v) <= Elements(ordered) ==> Preds(g, v) - Elements(ordered) == {};
  }

  /** A chapter that never comes out has a prerequisite that never comes out. */
  lemma LeftOutRequireLeftOut(g: Graph, final: Degrees, order: seq<string>, v: string)
    requires final.Keys == g.Keys && v in g
    requires forall x :: x in g ==> Pending(g, final, Elements(order + []), Elements(order), x)
    ensures OutOrWaiting(g, order, v)
  {
    assert order + [] == order;
    PendingAtEnd(g, final, order, v);
  }

  lemma {:induction false} LooseToTheEnd(g: Graph, indegree: Degrees, queue: seq<string>, ordered: seq<string>)
    returns (final: Degrees)
    requires Loose(g, indegree, queue, ordered)
    ensures Loose(g, final, [], Kahn(g, indegree, queue, ordered))
    decreases |queue| + |Positive(indegree)|
  {
    if queue == [] {
      final := indegree;
    } else {
      var lowered, released := KahnUnrolls(g, indegree, queue, ordered);
      LooseStep(g, indegree, queue, ordered, lowered, released);
      final := LooseToTheEnd(g, lowered, queue[1..] + released, ordered + [queue[0]]);
    }
  }

  lemma LeftOutBlocked(g: Graph, order: seq<string>, c: string)
    requires c in g && c !in order
    requires forall v :: v in g ==> OutOrWaiting(g, order, v)
    ensures Blocked(g, c)
  {
    var stuck := g.Keys - Elements(order);
    forall x | x in stuck ensures Preds(g, x) * stuck != {} {
      assert OutOrWaiting(g, order, x);
      var b :| b in Preds(g, x) && b !in Elements(order);
      assert b in Preds(g, x) * stuck;
    }
    StuckIsBlocked(g, stuck, c);
  }

  /** Unless there is a cycle every chapter comes out, whatever is queued more than once. */
  lemma AcyclicEmitsAll(g: Graph, indegree: Degrees, queue: seq<string>)
    requires Loose(g, indegree, queue, [])
    ensures HasCycle(g) || forall v :: v in g ==> v in Kahn(g, indegree, queue, [])
  {
    var order := Kahn(g, indegree, queue, []);
    var final := LooseToTheEnd(g, indegree, queue, []);
    forall v | v in g ensures OutOrWaiting(g, order, v) {
      LeftOutRequireLeftOut(g, final, order, v);
    }
    if c :| c in g && c !in order {
      LeftOutBlocked(g, order, c);
    }
  }
}
