/**
  The two steps that drop nodes from the list: the document-wide budget, which keeps the best
  grounded concepts in source order, and the exclusion of nodes whose ids were deleted.
*/
module NodeSelection {
  import opened Knowledge
  import opened Ordering
  import opened RelationIndex

  const MAX_NODES_PER_DOCUMENT := 12

  // ---------------------------------------------------------------- the document budget

  function Budget(chunks: seq<Chunk>): (budget: nat)
    ensures budget == if |chunks| < 6 then 1 else if |chunks| < 36 then |chunks| / 3 else 12
  {
    Min(MAX_NODES_PER_DOCUMENT, Max(1, |chunks| / 3))
  }

  /** The chunk an index stands for: of chunks with the same index, the last. */
  function ChunkByIndex(chunks: seq<Chunk>): map<int, Chunk> {
    if chunks == [] then map[]
    else
      var c := chunks[|chunks| - 1];
      ChunkByIndex(chunks[..|chunks| - 1])[c.index := c]
  }

  /** The chunk indexes a node cites that exist, each once. */
  function Cited(node: Concept, byIndex: map<int, Chunk>): (r: seq<int>)
    ensures Increasing(r)
    ensures forall i :: i in r <==> i in node.evidence && i in byIndex
  {
    var known := Known(node.evidence, byIndex);
    SortedDistinct(known)
  }

  function Known(evidence: seq<int>, byIndex: map<int, Chunk>): (r: seq<int>)
    ensures forall i :: i in r <==> i in evidence && i in byIndex
  {
    if evidence == [] then []
    else
      assert forall i :: i in evidence <==> i == evidence[0] || i in evidence[1..];
      (if evidence[0] in byIndex then [evidence[0]] else []) + Known(evidence[1..], byIndex)
  }

  function TotalChars(indexes: seq<int>, byIndex: map<int, Chunk>): nat
    requires forall k :: 0 <= k < |indexes| ==> indexes[k] in byIndex
  {
    if indexes == [] then 0 else byIndex[indexes[0]].chars + TotalChars(indexes[1..], byIndex)
  }

  /** More pieces of evidence first, then more characters of evidence, then the longer description. */
  function RankKey(node: Concept, byIndex: map<int, Chunk>): SortKey {
    var cited := Cited(node, byIndex);
    SortKey(-(|cited| as real), -(TotalChars(cited, byIndex) as real), -(|node.description| as real))
  }

  function RankKeys(nodes: seq<Concept>, chunks: seq<Chunk>): (keys: seq<SortKey>)
    ensures |keys| == |nodes|
    ensures forall i :: 0 <= i < |nodes| ==> keys[i] == RankKey(nodes[i], ChunkByIndex(chunks))
  {
    seq(|nodes|, i requires 0 <= i < |nodes| => RankKey(nodes[i], ChunkByIndex(chunks)))
  }

  /** The ranked positions cut at the budget, back in source order. */
  function Retained(nodes: seq<Concept>, chunks: seq<Chunk>): (r: seq<nat>)
    requires Budget(chunks) <= |nodes|
    ensures KeptOf(r, |nodes|)
  {
    var best := StableSort(RankKeys(nodes, chunks))[..Budget(chunks)];
    var ascending := SortedDistinct(best);
    assert forall k :: 0 <= k < |ascending| ==> ascending[k] in best;
    ascending
  }

  function LimitDocumentNodes(nodes: seq<Concept>, relations: seq<Relation>, chunks: seq<Chunk>)
    : (seq<Concept>, seq<Relation>)
  {
    if |nodes| <= Budget(chunks) then (nodes, relations)
    else
      var retained := Retained(nodes, chunks);
      (Select(retained, nodes), Reindexed(NewPosition(retained), relations))
  }

  /** All positions while the budget is not exceeded, the retained ones otherwise. */
  function SelectedPositions(nodes: seq<Concept>, chunks: seq<Chunk>): (selected: seq<nat>)
    ensures KeptOf(selected, |nodes|)
  {
    if |nodes| <= Budget(chunks) then seq(|nodes|, i => i) else Retained(nodes, chunks)
  }

  /** The early return is no special case: for relations in range the budget always selects and renumbers. */
  lemma LimitIsSelection(nodes: seq<Concept>, relations: seq<Relation>, chunks: seq<Chunk>)
    requires forall k :: 0 <= k < |relations| ==>
               0 <= relations[k].source < |nodes| && 0 <= relations[k].target < |nodes|
    ensures var selected := SelectedPositions(nodes, chunks);
            LimitDocumentNodes(nodes, relations, chunks)
              == (Select(selected, nodes), Reindexed(NewPosition(selected), relations))
    ensures |SelectedPositions(nodes, chunks)| == Min(|nodes|, Budget(chunks))
  {
    if |nodes| <= Budget(chunks) {
      var all: seq<nat> := seq(|nodes|, i => i);
      assert Select(all, nodes) == nodes;
      ReindexAll(|nodes|, relations);
    } else {
      RetainedAreBest(nodes, chunks);
    }
  }

  lemma {:induction false} ReindexAll(n: nat, relations: seq<Relation>)
    requires forall k :: 0 <= k < |relations| ==> 0 <= relations[k].source < n && 0 <= relations[k].target < n
    ensures Reindexed(NewPosition(seq(n, i => i)), relations) == relations
    decreases |relations|
  {
    if relations != [] {
      var init, r := relations[..|relations| - 1], relations[|relations| - 1];
      ReindexAll(n, init);
      var all: seq<nat> := seq(n, i => i);
      assert all[r.source] == r.source && all[r.target] == r.target;
      assert relations == init + [r];
    }
  }

  lemma RetainedAreLeading(nodes: seq<Concept>, chunks: seq<Chunk>, i: nat)
    requires Budget(chunks) <= |nodes|
    ensures i in Retained(nodes, chunks) <==> i in StableSort(RankKeys(nodes, chunks))[..Budget(chunks)]
  {
    assert (i as int) in SortedDistinct(StableSort(RankKeys(nodes, chunks))[..Budget(chunks)])
      <==> i in StableSort(RankKeys(nodes, chunks))[..Budget(chunks)];
  }

  lemma LeadingCount(keys: seq<SortKey>, order: seq<nat>, n: nat, ascending: seq<nat>)
    requires IsOrder(keys, order) && n <= |order| && KeptOf(ascending, |keys|)
    requires forall i: nat :: i in ascending <==> i in order[..n]
    ensures |ascending| == n
  {
    OrderIsDistinct(keys, order);
    var s := set x | x in ascending;
    DistinctCount(order[..n], s);
    DistinctCount(ascending, s);
  }

  /** A leading position of a complete order precedes every position that is not leading. */
  lemma LeadingPrecede(keys: seq<SortKey>, order: seq<nat>, n: nat, i: nat, j: nat)
    requires IsStableSort(keys, order) && n <= |order| && i < |keys| && j < |keys|
    requires i in order[..n] && j !in order[..n]
    ensures Precedes(keys, i, j)
  {
    var a :| 0 <= a < n && order[a] == i;
    assert j in order;
    var b :| 0 <= b < |order| && order[b] == j;
    LeadingMembers(order, n);
  }

  lemma LeadingMembers(order: seq<nat>, n: nat)
    requires n <= |order|
    ensures forall b :: 0 <= b < n ==> order[b] in order[..n]
  {
    forall b | 0 <= b < n ensures order[b] in order[..n] {
      assert order[..n][b] == order[b];
    }
  }

  // ---------------------------------------------------------------- the rank, on evidence and chunks

  /** How many of the wanted indexes occur; the chunks are read from the end. */
  ghost function CitedCount(chunks: seq<Chunk>, wanted: set<int>): nat
    decreases |chunks|
  {
    if chunks == [] then 0
    else
      var c := chunks[|chunks| - 1];
      CitedCount(chunks[..|chunks| - 1], wanted - {c.index}) + if c.index in wanted then 1 else 0
  }

  /** The characters of the last chunk with each wanted index. */
  ghost function CitedChars(chunks: seq<Chunk>, wanted: set<int>): nat
    decreases |chunks|
  {
    if chunks == [] then 0
    else
      var c := chunks[|chunks| - 1];
      CitedChars(chunks[..|chunks| - 1], wanted - {c.index}) + if c.index in wanted then c.chars else 0
  }

  ghost function Wanted(node: Concept): set<int> { set e | e in node.evidence }

  /** More cited chunks, then more characters in them, then the longer description, then the earlier place. */
  ghost predicate Outranks(nodes: seq<Concept>, chunks: seq<Chunk>, i: nat, j: nat)
    requires i < |nodes| && j < |nodes|
  {
    var a, b := CitedCount(chunks, Wanted(nodes[i])), CitedCount(chunks, Wanted(nodes[j]));
    var p, q := CitedChars(chunks, Wanted(nodes[i])), CitedChars(chunks, Wanted(nodes[j]));
    var x, y := |nodes[i].description|, |nodes[j].description|;
    a > b || (a == b && (p > q || (p == q && (x > y || (x == y && i < j)))))
  }

  ghost function Among(wanted: set<int>, byIndex: map<int, Chunk>): set<int> {
    set i | i in wanted && i in byIndex
  }

  lemma {:induction false} CountIsCited(chunks: seq<Chunk>, wanted: set<int>)
    ensures CitedCount(chunks, wanted) == |Among(wanted, ChunkByIndex(chunks))|
    decreases |chunks|
  {
    if chunks == [] {
      assert Among(wanted, ChunkByIndex(chunks)) == {};
    } else {
      var init, c := chunks[..|chunks| - 1], chunks[|chunks| - 1];
      CountIsCited(init, wanted - {c.index});
      var fewer := Among(wanted - {c.index}, ChunkByIndex(init));
      assert Among(wanted, ChunkByIndex(chunks)) == fewer + if c.index in wanted then {c.index} else {};
    }
  }

  lemma {:induction false} TotalWithout(indexes: seq<int>, byIndex: map<int, Chunk>, k: nat)
    requires (forall m :: 0 <= m < |indexes| ==> indexes[m] in byIndex) && k < |indexes|
    ensures var rest := indexes[..k] + indexes[k + 1..];
            && (forall m :: 0 <= m < |rest| ==> rest[m] in byIndex)
            && TotalChars(indexes, byIndex) == byIndex[indexes[k]].chars + TotalChars(rest, byIndex)
    decreases |indexes|
  {
    var rest := indexes[..k] + indexes[k + 1..];
    if k == 0 {
      assert rest == indexes[1..];
    } else {
      TotalWithout(indexes[1..], byIndex, k - 1);
      assert rest == [indexes[0]] + (indexes[1..][..k - 1] + indexes[1..][k..]);
      assert rest[1..] == indexes[1..][..k - 1] + indexes[1..][k..];
    }
  }

  /** The total depends on the chunks of the listed indexes only. */
  lemma {:induction false} TotalFrame(indexes: seq<int>, a: map<int, Chunk>, b: map<int, Chunk>)
    requires forall m :: 0 <= m < |indexes| ==> indexes[m] in a && indexes[m] in b && a[indexes[m]] == b[indexes[m]]
    ensures TotalChars(indexes, a) == TotalChars(indexes, b)
    decreases |indexes|
  {
    if indexes != [] {
      TotalFrame(indexes[1..], a, b);
    }
  }

  lemma {:induction false} TotalIsCited(chunks: seq<Chunk>, wanted: set<int>, indexes: seq<int>)
    requires Distinct(indexes)
    requires forall i :: i in indexes <==> i in wanted && i in ChunkByIndex(chunks)
    ensures forall m :: 0 <= m < |indexes| ==> indexes[m] in ChunkByIndex(chunks)
    ensures TotalChars(indexes, ChunkByIndex(chunks)) == CitedChars(chunks, wanted)
    decreases |chunks|
  {
    var byIndex := ChunkByIndex(chunks);
    forall m | 0 <= m < |indexes| ensures indexes[m] in byIndex {
      assert indexes[m] in indexes;
    }
    if chunks == [] {
      NoElements(indexes);
    } else {
      TotalStep(chunks, wanted, indexes);
    }
  }

  lemma TotalStep(chunks: seq<Chunk>, wanted: set<int>, indexes: seq<int>)
    requires chunks != [] && Distinct(indexes)
    requires forall i :: i in indexes <==> i in wanted && i in ChunkByIndex(chunks)
    requires forall m :: 0 <= m < |indexes| ==> indexes[m] in ChunkByIndex(chunks)
    ensures TotalChars(indexes, ChunkByIndex(chunks)) == CitedChars(chunks, wanted)
    decreases |chunks|, 0
  {
    var init, c, byIndex := chunks[..|chunks| - 1], chunks[|chunks| - 1], ChunkByIndex(chunks);
    var rest := indexes;
    if c.index in wanted {
      assert c.index in indexes;
      var k :| 0 <= k < |indexes| && indexes[k] == c.index;
      TotalWithout(indexes, byIndex, k);
      rest := indexes[..k] + indexes[k + 1..];
      RestOf(indexes, k);
    }
    assert forall i :: i in rest <==> i in wanted - {c.index} && i in ChunkByIndex(init);
    TotalIsCited(init, wanted - {c.index}, rest);
    TotalFrame(rest, byIndex, ChunkByIndex(init));
  }

  lemma RestOf(indexes: seq<int>, k: nat)
    requires Distinct(indexes) && k < |indexes|
    ensures var rest := indexes[..k] + indexes[k + 1..];
            Distinct(rest) && forall i :: i in rest <==> i in indexes && i != indexes[k]
  {
    var rest := indexes[..k] + indexes[k + 1..];
    forall i ensures i in rest <==> i in indexes && i != indexes[k] {
      if i in indexes && i != indexes[k] {
        var m :| 0 <= m < |indexes| && indexes[m] == i;
        assert rest[if m < k then m else m - 1] == i;
      }
    }
  }

  lemma RankIsCited(node: Concept, chunks: seq<Chunk>)
    ensures RankKey(node, ChunkByIndex(chunks))
         == SortKey(-(CitedCount(chunks, Wanted(node)) as real), -(CitedChars(chunks, Wanted(node)) as real),
                    -(|node.description| as real))
  {
    var byIndex := ChunkByIndex(chunks);
    var cited := Cited(node, byIndex);
    CountIsCited(chunks, Wanted(node));
    assert Distinct(cited);
    DistinctCount(cited, Among(Wanted(node), byIndex));
    TotalIsCited(chunks, Wanted(node), cited);
  }

  lemma PrecedesOutranks(nodes: seq<Concept>, chunks: seq<Chunk>, i: nat, j: nat)
    requires i < |nodes| && j < |nodes|
    ensures Precedes(RankKeys(nodes, chunks), i, j) <==> Outranks(nodes, chunks, i, j)
  {
    RankIsCited(nodes[i], chunks);
    RankIsCited(nodes[j], chunks);
  }

  /** Exactly the budget is retained, and whatever is retained outranks whatever is dropped. */
  lemma RetainedAreBest(nodes: seq<Concept>, chunks: seq<Chunk>)
    requires Budget(chunks) <= |nodes|
    ensures |Retained(nodes, chunks)| == Budget(chunks)
    ensures forall i: nat, j: nat :: i in Retained(nodes, chunks) && j < |nodes| && j !in Retained(nodes, chunks) ==>
              Precedes(RankKeys(nodes, chunks), i, j) && Outranks(nodes, chunks, i, j)
  {
    var keys := RankKeys(nodes, chunks);
    var order, retained := StableSort(keys), Retained(nodes, chunks);
    forall i: nat ensures i in retained <==> i in order[..Budget(chunks)] { RetainedAreLeading(nodes, chunks, i); }
    LeadingCount(keys, order, Budget(chunks), retained);
    forall i: nat, j: nat | i in retained && j < |nodes| && j !in retained
      ensures Precedes(keys, i, j) && Outranks(nodes, chunks, i, j)
    {
      LeadingPrecede(keys, order, Budget(chunks), i, j);
      PrecedesOutranks(nodes, chunks, i, j);
    }
  }

  // ---------------------------------------------------------------- excluding deleted ids

  datatype NodeTable<E> = NodeTable(nodes: seq<Concept>, relations: seq<Relation>, ids: seq<int>, embeddings: seq<E>) {
    /** Position i of the three lists speaks of one node. */
    ghost predicate Aligned() { |nodes| == |ids| == |embeddings| }

    function AllRows(): (rows: seq<Row<E>>)
      requires Aligned()
    {
      Rows(nodes, ids, embeddings)
    }
  }

  function KeptIndexes(ids: seq<int>, excluded: set<int>): (kept: seq<nat>)
    ensures KeptOf(kept, |ids|)
    ensures forall i: nat :: i in kept <==> i < |ids| && ids[i] !in excluded
  {
    if ids == [] then []
    else
      var last := |ids| - 1;
      var before := KeptIndexes(ids[..last], excluded);
      assert forall k :: 0 <= k < |before| ==> before[k] in before;
      before + if ids[last] in excluded then [] else [last]
  }

  function ExcludeNodes<E>(table: NodeTable<E>, excluded: set<int>): (r: NodeTable<E>)
    requires table.Aligned()
    ensures r.Aligned()
  {
    var kept := KeptIndexes(table.ids, excluded);
    NodeTable(Select(kept, table.nodes), Reindexed(NewPosition(kept), table.relations),
              Select(kept, table.ids), Select(kept, table.embeddings))
  }

  datatype Row<E> = Row(node: Concept, id: int, embedding: E)

  function Rows<E>(nodes: seq<Concept>, ids: seq<int>, embeddings: seq<E>): (rows: seq<Row<E>>)
    requires |nodes| == |ids| == |embeddings|
    ensures |rows| == |ids|
    ensures forall i :: 0 <= i < |ids| ==> rows[i] == Row(nodes[i], ids[i], embeddings[i])
  {
    seq(|ids|, i requires 0 <= i < |ids| => Row(nodes[i], ids[i], embeddings[i]))
  }

  function Without<E>(rows: seq<Row<E>>, excluded: set<int>): seq<Row<E>> {
    if rows == [] then []
    else
      var row := rows[|rows| - 1];
      Without(rows[..|rows| - 1], excluded) + if row.id in excluded then [] else [row]
  }

  lemma SelectSplit<T>(kept: seq<nat>, more: seq<nat>, xs: seq<T>, n: nat)
    requires n < |xs| && KeptOf(kept, n) && (more == [] || more == [n])
    ensures KeptOf(kept + more, |xs|)
    ensures Select(kept + more, xs) == Select(kept, xs[..n]) + if more == [] then [] else [xs[n]]
  {
  }

  lemma {:induction false} SelectedRows<E>(rows: seq<Row<E>>, ids: seq<int>, excluded: set<int>)
    requires |rows| == |ids| && forall i :: 0 <= i < |ids| ==> rows[i].id == ids[i]
    ensures Select(KeptIndexes(ids, excluded), rows) == Without(rows, excluded)
    decreases |ids|
  {
    if ids != [] {
      var last := |ids| - 1;
      SelectedRows(rows[..last], ids[..last], excluded);
      SelectSplit(KeptIndexes(ids[..last], excluded), if ids[last] in excluded then [] else [last], rows, last);
    }
  }

  /** Nodes, ids and vectors move together: excluding acts on the table as it would on a list of rows. */
  lemma ExcludeKeepsRows<E>(table: NodeTable<E>, excluded: set<int>)
    requires table.Aligned()
    ensures ExcludeNodes(table, excluded).AllRows() == Without(table.AllRows(), excluded)
  {
    var rows, kept := table.AllRows(), KeptIndexes(table.ids, excluded);
    SelectedRows(rows, table.ids, excluded);
    var r := ExcludeNodes(table, excluded);
    assert r.AllRows() == Select(kept, rows);
  }
}
