/**
  A relation's way through the pipeline: merged with the nodes, joined by the cross-batch
  relations, cut to the document budget and cut again when orphaned nodes are excluded.
*/
module IndexPipeline {
  import opened Knowledge
  import opened Ordering
  import opened RelationIndex
  import opened CrossBatch
  import opened DisjointSets
  import opened NodeDedup
  import opened NodeSelection

  /** The relations that reach the graph: two renumberings of everything found so far. */
  function FinalRelations(found: seq<Relation>, retained: seq<nat>, kept: seq<nat>): seq<Relation>
    requires forall k, m :: 0 <= k < m < |retained| ==> retained[k] < retained[m]
    requires forall k, m :: 0 <= k < m < |kept| ==> kept[k] < kept[m]
  {
    Reindexed(NewPosition(kept), Reindexed(NewPosition(retained), found))
  }

  ghost predicate NoRepeatedKeys(relations: seq<Relation>) {
    forall i, j :: 0 <= i < j < |relations| ==> RelationKey(relations[i]) != RelationKey(relations[j])
  }

  ghost predicate NoLoops(relations: seq<Relation>) {
    forall i :: 0 <= i < |relations| ==> relations[i].source != relations[i].target
  }

  /** Final relation f says of the surviving nodes what r said of the merged ones. */
  ghost predicate Speaks(survivors: seq<nat>, f: Relation, source: int, target: int, r: Relation) {
    && 0 <= f.source < |survivors| && survivors[f.source] == source
    && 0 <= f.target < |survivors| && survivors[f.target] == target
    && f.kind == r.kind
  }

  /** What came out of the merge and the cross-batch pass has no loops and no repetitions. */
  lemma FoundIsClean(newIndex: map<int, nat>, m: nat, relations: seq<Relation>, merged: seq<Relation>,
                     origin: seq<nat>, cross: seq<Relation>)
    requires IsRemap(newIndex, relations, merged, origin)
    requires ExtendsCoverage(m, merged, cross)
    ensures NoLoops(merged + cross) && NoRepeatedKeys(merged + cross)
  {
    RemapConserves(newIndex, relations, merged, origin);
    var found := merged + cross;
    forall i | 0 <= i < |found| ensures found[i].source != found[i].target {
      if i >= |merged| { assert found[i] in cross; }
    }
    forall i, j | 0 <= i < j < |found| ensures RelationKey(found[i]) != RelationKey(found[j]) {
      if i >= |merged| {
        assert PairKey(cross[i - |merged|]) != PairKey(cross[j - |merged|]);
      } else if j >= |merged| {
        assert found[j] in cross && found[i] in merged;
        assert !Joined(merged, found[j].source, found[j].target);
      }
    }
  }

  /** Renumbering keeps a clean list clean. */
  lemma ReindexedIsClean(kept: seq<nat>, found: seq<Relation>)
    requires forall k, m :: 0 <= k < m < |kept| ==> kept[k] < kept[m]
    requires NoLoops(found) && NoRepeatedKeys(found)
    ensures var out := Reindexed(NewPosition(kept), found);
            NoLoops(out) && NoRepeatedKeys(out)
  {
    var position := NewPosition(kept);
    var out := Reindexed(position, found);
    var origin := ReindexKeepsExactly(position, found);
    forall i | 0 <= i < |out| ensures out[i].source != out[i].target {
      assert found[origin[i]].source != found[origin[i]].target;
      PositionInjective(kept, found[origin[i]].source, found[origin[i]].target);
    }
    forall i, j | 0 <= i < j < |out| ensures RelationKey(out[i]) != RelationKey(out[j]) {
      assert RelationKey(found[origin[i]]) != RelationKey(found[origin[j]]);
      MovedKeysDiffer(kept, found[origin[i]], found[origin[j]]);
    }
  }

  lemma PositionInjective(kept: seq<nat>, x: int, y: int)
    requires forall k, m :: 0 <= k < m < |kept| ==> kept[k] < kept[m]
    requires x in NewPosition(kept) && y in NewPosition(kept)
    ensures NewPosition(kept)[x] == NewPosition(kept)[y] <==> x == y
  {
  }

  lemma MovedKeysDiffer(kept: seq<nat>, r: Relation, s: Relation)
    requires forall k, m :: 0 <= k < m < |kept| ==> kept[k] < kept[m]
    requires BothKept(NewPosition(kept), r) && BothKept(NewPosition(kept), s)
    requires RelationKey(r) != RelationKey(s)
    ensures RelationKey(Moved(NewPosition(kept), r)) != RelationKey(Moved(NewPosition(kept), s))
  {
    PositionInjective(kept, r.source, s.source);
    PositionInjective(kept, r.target, s.target);
  }

  lemma SurvivorImage(survivors: seq<nat>, found: seq<Relation>, r: Relation)
    requires forall k, m :: 0 <= k < m < |survivors| ==> survivors[k] < survivors[m]
    requires r in found && BothKept(NewPosition(survivors), r)
    ensures exists f :: f in Reindexed(NewPosition(survivors), found) && Speaks(survivors, f, r.source, r.target, r)
  {
    var position := NewPosition(survivors);
    var out := Reindexed(position, found);
    var origin := ReindexKeepsExactly(position, found);
    var j :| 0 <= j < |found| && found[j] == r;
    var k :| 0 <= k < |origin| && origin[k] == j;
    assert out[k] in out && Speaks(survivors, out[k], r.source, r.target, r);
  }

  lemma SurvivorOrigin(survivors: seq<nat>, found: seq<Relation>, f: Relation)
    requires forall k, m :: 0 <= k < m < |survivors| ==> survivors[k] < survivors[m]
    requires f in Reindexed(NewPosition(survivors), found)
    ensures exists s :: s in found && Speaks(survivors, f, s.source, s.target, s)
  {
    var position := NewPosition(survivors);
    var out := Reindexed(position, found);
    var origin := ReindexKeepsExactly(position, found);
    var k :| 0 <= k < |out| && out[k] == f;
    var s := found[origin[k]];
    assert s in found && Speaks(survivors, f, s.source, s.target, s);
  }

  /** Exactly the found relations with both ends surviving are in the end result, about the same nodes. */
  lemma SurvivorsExactly(survivors: seq<nat>, found: seq<Relation>, r: Relation)
    requires forall k, m :: 0 <= k < m < |survivors| ==> survivors[k] < survivors[m]
    ensures var out := Reindexed(NewPosition(survivors), found);
            && (r in found && r.source in NewPosition(survivors) && r.target in NewPosition(survivors) ==>
                  exists f :: f in out && Speaks(survivors, f, r.source, r.target, r))
            && (forall f :: f in out ==> exists s :: s in found && Speaks(survivors, f, s.source, s.target, s))
  {
    if r in found && BothKept(NewPosition(survivors), r) {
      SurvivorImage(survivors, found, r);
    }
    forall f | f in Reindexed(NewPosition(survivors), found)
      ensures exists s :: s in found && Speaks(survivors, f, s.source, s.target, s)
    {
      SurvivorOrigin(survivors, found, f);
    }
  }

  /**
    The renumberings commute: with survivors the merged nodes that stay to the end, the final
    relations are loop-free and without repetition, an original whose two ends were merged into
    different survivors is represented, and every final relation is an original or a cross-batch
    relation between the very same nodes.
  */
  lemma PipelineRelations(newIndex: map<int, nat>, m: nat, relations: seq<Relation>, merged: seq<Relation>,
                          origin: seq<nat>, cross: seq<Relation>, retained: seq<nat>, kept: seq<nat>)
    requires IsRemap(newIndex, relations, merged, origin)
    requires ExtendsCoverage(m, merged, cross)
    requires KeptOf(retained, m) && KeptOf(kept, |retained|)
    ensures KeptOf(Compose(retained, kept), m)
    ensures NoLoops(FinalRelations(merged + cross, retained, kept))
    ensures NoRepeatedKeys(FinalRelations(merged + cross, retained, kept))
    ensures forall r :: r in relations && Mapped(newIndex, r) ==>
              Represents(newIndex, Compose(retained, kept), FinalRelations(merged + cross, retained, kept), r)
    ensures forall f :: f in FinalRelations(merged + cross, retained, kept) ==>
              Explained(newIndex, Compose(retained, kept), relations, cross, f)
  {
    var found, survivors := merged + cross, Compose(retained, kept);
    var final := FinalRelations(found, retained, kept);
    ReindexTwice(retained, kept, seq(m, i => i), found);
    assert final == Reindexed(NewPosition(survivors), found);
    FoundIsClean(newIndex, m, relations, merged, origin, cross);
    ReindexedIsClean(survivors, found);
    RemapConserves(newIndex, relations, merged, origin);
    forall r | r in relations && Mapped(newIndex, r) ensures Represents(newIndex, survivors, final, r) {
      OriginalRepresented(newIndex, relations, merged, origin, cross, survivors, r);
    }
    forall f | f in final ensures Explained(newIndex, survivors, relations, cross, f) {
      FinalExplained(newIndex, relations, merged, origin, cross, survivors, f);
    }
  }

  ghost predicate Represents(newIndex: map<int, nat>, survivors: seq<nat>, final: seq<Relation>, r: Relation)
    requires Mapped(newIndex, r)
  {
    newIndex[r.source] in survivors && newIndex[r.target] in survivors ==>
      exists f :: f in final && Speaks(survivors, f, newIndex[r.source], newIndex[r.target], r)
  }

  ghost predicate Explained(newIndex: map<int, nat>, survivors: seq<nat>, relations: seq<Relation>,
                            cross: seq<Relation>, f: Relation) {
    || (exists r :: r in relations && Mapped(newIndex, r)
                    && Speaks(survivors, f, newIndex[r.source], newIndex[r.target], r))
    || (exists c :: c in cross && Speaks(survivors, f, c.source, c.target, c))
  }

  lemma OriginalRepresented(newIndex: map<int, nat>, relations: seq<Relation>, merged: seq<Relation>,
                            origin: seq<nat>, cross: seq<Relation>, survivors: seq<nat>, r: Relation)
    requires IsRemap(newIndex, relations, merged, origin) && r in relations && Mapped(newIndex, r)
    requires forall k, m :: 0 <= k < m < |survivors| ==> survivors[k] < survivors[m]
    ensures Represents(newIndex, survivors, Reindexed(NewPosition(survivors), merged + cross), r)
  {
    RemapConserves(newIndex, relations, merged, origin);
    if newIndex[r.source] in survivors && newIndex[r.target] in survivors {
      var j :| 0 <= j < |relations| && relations[j] == r;
      assert Represented(merged, Image(newIndex, relations[j]));
      var s :| s in merged && RelationKey(s) == RelationKey(Image(newIndex, r));
      SurvivorImage(survivors, merged + cross, s);
    }
  }

  lemma FinalExplained(newIndex: map<int, nat>, relations: seq<Relation>, merged: seq<Relation>,
                       origin: seq<nat>, cross: seq<Relation>, survivors: seq<nat>, f: Relation)
    requires IsRemap(newIndex, relations, merged, origin)
    requires forall k, m :: 0 <= k < m < |survivors| ==> survivors[k] < survivors[m]
    requires f in Reindexed(NewPosition(survivors), merged + cross)
    ensures Explained(newIndex, survivors, relations, cross, f)
  {
    RemapConserves(newIndex, relations, merged, origin);
    SurvivorOrigin(survivors, merged + cross, f);
    var s :| s in merged + cross && Speaks(survivors, f, s.source, s.target, s);
    if s in merged {
      var k :| 0 <= k < |merged| && merged[k] == s;
      assert ComesFrom(newIndex, relations, merged[k]);
      var r :| r in relations && Mapped(newIndex, r) && s == Image(newIndex, r);
      assert Speaks(survivors, f, newIndex[r.source], newIndex[r.target], r);
    }
  }

  // ---------------------------------------------------------------- the actual steps

  /** After dedup every relation is in range and no node is related to itself. */
  lemma MergedInRange(root: seq<nat>, newIndex: map<int, nat>, firsts: seq<nat>, relations: seq<Relation>,
                      merged: seq<Relation>, origin: seq<nat>)
    requires NumbersClasses(root, newIndex, firsts) && IsRemap(newIndex, relations, merged, origin)
    ensures RelationsInRange(|firsts|, merged) && Loops(merged) == {}
  {
    RemapConserves(newIndex, relations, merged, origin);
    forall r | r in merged ensures 0 <= r.source < |firsts| && 0 <= r.target < |firsts| && r.source != r.target {
      var k :| 0 <= k < |merged| && merged[k] == r;
      assert ComesFrom(newIndex, relations, merged[k]);
    }
  }

  /** So the number that decides on the cross-batch pass is the number of pairs without a relation. */
  lemma UncoveredAfterMerge(root: seq<nat>, newIndex: map<int, nat>, firsts: seq<nat>, relations: seq<Relation>,
                            merged: seq<Relation>, origin: seq<nat>)
    requires NumbersClasses(root, newIndex, firsts) && IsRemap(newIndex, relations, merged, origin)
    ensures UncoveredPairs(|firsts|, merged) == |OpenPairs(|firsts|, merged)|
  {
    MergedInRange(root, newIndex, firsts, relations, merged, origin);
    UncoveredIsOpenPairs(|firsts|, merged);
  }

  lemma FoundInRange(n: nat, merged: seq<Relation>, cross: seq<Relation>)
    requires RelationsInRange(n, merged) && ExtendsCoverage(n, merged, cross)
    ensures RelationsInRange(n, merged + cross)
  {
  }

  lemma LimitSelects(nodes: seq<Concept>, found: seq<Relation>, chunks: seq<Chunk>)
    requires RelationsInRange(|nodes|, found)
    ensures var selected := SelectedPositions(nodes, chunks);
            LimitDocumentNodes(nodes, found, chunks)
              == (Select(selected, nodes), Reindexed(NewPosition(selected), found))
    ensures |SelectedPositions(nodes, chunks)| == Min(|nodes|, Budget(chunks))
  {
    forall k | 0 <= k < |found| ensures 0 <= found[k].source < |nodes| && 0 <= found[k].target < |nodes| {
      assert found[k] in found;
    }
    LimitIsSelection(nodes, found, chunks);
  }

  /** The table that reaches the exclusion: the budgeted nodes and relations, with an id and a vector per node. */
  ghost predicate IsTable<E>(nodes: seq<Concept>, found: seq<Relation>, chunks: seq<Chunk>, table: NodeTable<E>) {
    table.Aligned() && (table.nodes, table.relations) == LimitDocumentNodes(nodes, found, chunks)
  }

  /** Budget and exclusion as they are written keep the positions that the two kept lists compose to. */
  lemma StepsCompose<E>(nodes: seq<Concept>, found: seq<Relation>, chunks: seq<Chunk>, table: NodeTable<E>,
                        excluded: set<int>)
    requires RelationsInRange(|nodes|, found) && IsTable(nodes, found, chunks, table)
    ensures var retained, kept := SelectedPositions(nodes, chunks), KeptIndexes(table.ids, excluded);
            && KeptOf(kept, |retained|)
            && ExcludeNodes(table, excluded).nodes == Select(Compose(retained, kept), nodes)
            && ExcludeNodes(table, excluded).relations == FinalRelations(found, retained, kept)
  {
    LimitSelects(nodes, found, chunks);
    ReindexTwice(SelectedPositions(nodes, chunks), KeptIndexes(table.ids, excluded), nodes, found);
  }

  /**
    The steps as they are written, from dedup to exclusion: the relations that remain are loop-free and
    without repetition, and say of the remaining nodes what the originals and the cross-batch pass said.
  */
  lemma PipelineSteps<E>(root: seq<nat>, newIndex: map<int, nat>, firsts: seq<nat>, relations: seq<Relation>,
                         merged: seq<Relation>, origin: seq<nat>, cross: seq<Relation>,
                         nodes: seq<Concept>, chunks: seq<Chunk>, table: NodeTable<E>, excluded: set<int>)
    requires NumbersClasses(root, newIndex, firsts) && IsRemap(newIndex, relations, merged, origin)
    requires |nodes| == |firsts| && ExtendsCoverage(|nodes|, merged, cross)
    requires IsTable(nodes, merged + cross, chunks, table)
    ensures var survivors := SurvivingPositions(nodes, chunks, table.ids, excluded);
            var final := ExcludeNodes(table, excluded);
            && KeptOf(survivors, |nodes|) && final.nodes == Select(survivors, nodes)
            && NoLoops(final.relations) && NoRepeatedKeys(final.relations)
            && (forall r :: r in relations && Mapped(newIndex, r) ==>
                  Represents(newIndex, survivors, final.relations, r))
            && (forall f :: f in final.relations ==> Explained(newIndex, survivors, relations, cross, f))
  {
    MergedInRange(root, newIndex, firsts, relations, merged, origin);
    FoundInRange(|nodes|, merged, cross);
    StepsCompose(nodes, merged + cross, chunks, table, excluded);
    PipelineRelations(newIndex, |nodes|, relations, merged, origin, cross,
                      SelectedPositions(nodes, chunks), KeptIndexes(table.ids, excluded));
  }

  /** The positions of the merged nodes that pass both the budget and the exclusion. */
  function SurvivingPositions(nodes: seq<Concept>, chunks: seq<Chunk>, ids: seq<int>, excluded: set<int>): seq<nat> {
    var retained, kept := SelectedPositions(nodes, chunks), KeptIndexes(ids, excluded);
    if |ids| == |retained| then Compose(retained, kept) else []
  }

  const BATCH_SIZE := 15

  /** The cross-batch pass: only for long documents with three or more nodes, and as the reply allows. */
  ghost predicate CrossPass(n: nat, merged: seq<Relation>, chunks: seq<Chunk>, reply: Option<seq<RawRelation>>,
                            cross: seq<Relation>)
  {
    if |chunks| > 15 && n >= 3 && Asked(n, merged) && reply.Some?
    then exists origin :: TakesFresh(n, merged, reply.value, cross, origin)
    else cross == []
  }

  /** The budget pass: selected nodes outrank the others, and the relations between them stay. */
  ghost predicate BudgetPass(nodes: seq<Concept>, found: seq<Relation>, chunks: seq<Chunk>, selected: seq<nat>,
                             kept: seq<Concept>, final: seq<Relation>)
  {
    && KeptOf(selected, |nodes|) && |selected| == Min(|nodes|, Budget(chunks)) && kept == Select(selected, nodes)
    && (forall i: nat, j: nat :: i in selected && j < |nodes| && j !in selected ==> Outranks(nodes, chunks, i, j))
    && exists origin :: ReindexOrigin(NewPosition(selected), found, final, origin)
  }

  lemma LimitIsBudgetPass(nodes: seq<Concept>, found: seq<Relation>, chunks: seq<Chunk>)
    requires RelationsInRange(|nodes|, found)
    ensures var limited := LimitDocumentNodes(nodes, found, chunks);
            BudgetPass(nodes, found, chunks, SelectedPositions(nodes, chunks), limited.0, limited.1)
  {
    LimitSelects(nodes, found, chunks);
    var selected := SelectedPositions(nodes, chunks);
    var origin := ReindexKeepsExactly(NewPosition(selected), found);
    if |nodes| > Budget(chunks) {
      RetainedAreBest(nodes, chunks);
    } else {
      assert forall j: nat :: j < |nodes| ==> selected[j] == j;
    }
  }

  /** The pass over the relations between batches, when the document is long enough for it. */
  method RelateBatches(n: nat, merged: seq<Relation>, chunks: seq<Chunk>, reply: Option<seq<RawRelation>>)
    returns (cross: seq<Relation>)
    ensures CrossPass(n, merged, chunks, reply, cross) && ExtendsCoverage(n, merged, cross)
  {
    cross := [];
    if |chunks| > BATCH_SIZE && n >= 3 {
      ghost var accepted;
      cross, accepted := SynthesizeCrossBatchRelations(n, merged, reply);
    }
  }

  /** The end of the extraction: dedup, the cross-batch pass when it is worth it, and the document budget. */
  method ConsolidateNodes(nodes: seq<ExtractedNode>, relations: seq<Relation>, sims: Matrix, chunks: seq<Chunk>,
                          reply: Option<seq<RawRelation>>)
    returns (kept: seq<Concept>, final: seq<Relation>, ghost survivors: seq<ExtractedNode>,
             ghost newIndex: map<int, nat>, ghost merged: seq<Relation>, ghost cross: seq<Relation>)
    requires Square(sims, |nodes|)
    requires forall i, j :: 0 <= i < j < |nodes| ==> nodes[i] != nodes[j]
    modifies nodes
    ensures |nodes| > 1 ==> Conserves(nodes, old(Views(nodes)), sims, newIndex, survivors)
    ensures |nodes| > 1 ==> exists origin :: IsRemap(newIndex, relations, merged, origin)
    ensures |nodes| > 1 ==> CrossPass(|survivors|, merged, chunks, reply, cross)
    ensures |nodes| > 1 ==> var retained := SelectedPositions(Views(survivors), chunks);
                            BudgetPass(Views(survivors), merged + cross, chunks, retained, kept, final)
    ensures |nodes| > 1 ==> |kept| <= Budget(chunks) && NoLoops(final) && NoRepeatedKeys(final)
    ensures |nodes| > 1 ==> RelationsInRange(|kept|, final)
    ensures |nodes| <= 1 ==> kept == old(Views(nodes)) && final == relations
  {
    var left, found;
    ghost var root, firsts, origin;
    left, found, root, newIndex, firsts, origin := IntraRunDedup(nodes, relations, sims);
    survivors, merged := left, found;
    var more := RelateBatches(|left|, found, chunks, reply);
    cross := more;
    found := found + more;
    var limited := LimitDocumentNodes(Views(left), found, chunks);
    kept, final := limited.0, limited.1;
    if |nodes| > 1 {
      LimitedIsClean(root, newIndex, firsts, relations, merged, origin, cross, Views(survivors), chunks);
    }
  }

  lemma LimitedIsClean(root: seq<nat>, newIndex: map<int, nat>, firsts: seq<nat>, relations: seq<Relation>,
                       merged: seq<Relation>, origin: seq<nat>, cross: seq<Relation>,
                       nodes: seq<Concept>, chunks: seq<Chunk>)
    requires NumbersClasses(root, newIndex, firsts) && IsRemap(newIndex, relations, merged, origin)
    requires |nodes| == |firsts| && ExtendsCoverage(|nodes|, merged, cross)
    ensures var limited := LimitDocumentNodes(nodes, merged + cross, chunks);
            var kept, final := limited.0, limited.1;
            |kept| <= Budget(chunks) && NoLoops(final) && NoRepeatedKeys(final) && RelationsInRange(|kept|, final)
            && BudgetPass(nodes, merged + cross, chunks, SelectedPositions(nodes, chunks), kept, final)
  {
    var found, selected := merged + cross, SelectedPositions(nodes, chunks);
    MergedInRange(root, newIndex, firsts, relations, merged, origin);
    FoundInRange(|nodes|, merged, cross);
    LimitSelects(nodes, found, chunks);
    FoundIsClean(newIndex, |nodes|, relations, merged, origin, cross);
    ReindexedIsClean(selected, found);
    ReindexedInRange(selected, found);
    LimitIsBudgetPass(nodes, found, chunks);
  }

  lemma ReindexedInRange(kept: seq<nat>, found: seq<Relation>)
    requires forall k, m :: 0 <= k < m < |kept| ==> kept[k] < kept[m]
    ensures RelationsInRange(|kept|, Reindexed(NewPosition(kept), found))
  {
    var out := Reindexed(NewPosition(kept), found);
    var origin := ReindexKeepsExactly(NewPosition(kept), found);
    forall r | r in out ensures 0 <= r.source < |kept| && 0 <= r.target < |kept| {
      var k :| 0 <= k < |out| && out[k] == r;
      assert BothKept(NewPosition(kept), found[origin[k]]);
    }
  }
}
