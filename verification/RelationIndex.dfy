/**
  Relations carry positions into a node list, and the pipeline renumbers that list three times:
  when near-duplicates are merged, when the document budget drops nodes, and when nodes without
  chunks are excluded. This module models each renumbering and what all of them do together.
*/
module RelationIndex {
  import opened Knowledge
  import opened Ordering

  type Key = (nat, nat, string)

  // ---------------------------------------------------------------- merging nodes

  /** Both ends are known and they end in different merged nodes. */
  predicate Mapped(newIndex: map<int, nat>, r: Relation) {
    r.source in newIndex && r.target in newIndex && newIndex[r.source] != newIndex[r.target]
  }

  function Image(newIndex: map<int, nat>, r: Relation): Relation
    requires Mapped(newIndex, r)
  {
    r.(source := newIndex[r.source], target := newIndex[r.target])
  }

  /** s is r with its ends renumbered, in the same direction, and everything else as it was. */
  ghost predicate Renumbers(index: map<int, nat>, r: Relation, s: Relation) {
    && r.source in index && s.source == index[r.source]
    && r.target in index && s.target == index[r.target]
    && s.kind == r.kind && s.reason == r.reason && s.strength == r.strength
  }

  function MergeKey(newIndex: map<int, nat>, r: Relation): Option<Key> {
    if Mapped(newIndex, r) then Some((newIndex[r.source], newIndex[r.target], r.kind)) else None
  }

  function MergeKeys(newIndex: map<int, nat>, relations: seq<Relation>): (keys: seq<Option<Key>>)
    ensures |keys| == |relations|
    ensures forall j :: 0 <= j < |relations| ==> keys[j] == MergeKey(newIndex, relations[j])
  {
    seq(|relations|, j requires 0 <= j < |relations| => MergeKey(newIndex, relations[j]))
  }

  /** out holds, in order, the image of the first relation with each (source, target, kind) after merging. */
  ghost predicate IsRemap(newIndex: map<int, nat>, relations: seq<Relation>, out: seq<Relation>, origin: seq<nat>) {
    && FirstPositions(MergeKeys(newIndex, relations), |relations|, origin)
    && |out| == |origin|
    && forall k :: 0 <= k < |out| ==>
      Mapped(newIndex, relations[origin[k]]) && out[k] == Image(newIndex, relations[origin[k]])
  }

  method RemapRelations(newIndex: map<int, nat>, relations: seq<Relation>)
    returns (out: seq<Relation>, ghost origin: seq<nat>)
    ensures IsRemap(newIndex, relations, out, origin)
    ensures exists positions :: IsRemap(newIndex, relations, out, positions)
    ensures |out| == |origin| && forall k :: 0 <= k < |out| ==>
              origin[k] < |relations| && Renumbers(newIndex, relations[origin[k]], out[k])
  {
    out, origin := [], [];
    var seen: set<Key> := {};
    ghost var keys := MergeKeys(newIndex, relations);
    for i := 0 to |relations|
      invariant FirstPositions(keys, i, origin) && |out| == |origin|
      invariant forall k :: 0 <= k < |out| ==>
                  Mapped(newIndex, relations[origin[k]]) && out[k] == Image(newIndex, relations[origin[k]])
      invariant forall key :: key in seen <==> exists k :: 0 <= k < |origin| && keys[origin[k]] == Some(key)
    {
      var r := relations[i];
      if !Mapped(newIndex, r) {
        FirstPositionsSkip(keys, i, origin);
        continue;
      }
      var key := (newIndex[r.source], newIndex[r.target], r.kind);
      assert keys[i] == Some(key);
      if key in seen {
        FirstPositionsSkip(keys, i, origin);
        continue;
      }
      FirstPositionsTake(keys, i, origin);
      ghost var was := origin;
      seen, out, origin := seen + {key}, out + [Image(newIndex, r)], origin + [i];
      assert forall k :: 0 <= k < |was| ==> origin[k] == was[k];
      assert origin[|was|] == i;
    }
    assert IsRemap(newIndex, relations, out, origin);
  }

  function RelationKey(r: Relation): (int, int, string) { (r.source, r.target, r.kind) }

  ghost predicate ComesFrom(newIndex: map<int, nat>, relations: seq<Relation>, image: Relation) {
    exists r :: r in relations && Mapped(newIndex, r) && image == Image(newIndex, r)
  }

  ghost predicate Represented(out: seq<Relation>, image: Relation) {
    exists r :: r in out && RelationKey(r) == RelationKey(image)
  }

  /**
    What merging leaves: no self-loop, no repeated (source, target, kind), every survivor the image
    of an original, every original between two different merged nodes represented.
  */
  lemma RemapConserves(newIndex: map<int, nat>, relations: seq<Relation>, out: seq<Relation>, origin: seq<nat>)
    requires IsRemap(newIndex, relations, out, origin)
    ensures forall k :: 0 <= k < |out| ==> out[k].source != out[k].target
    ensures forall k, m :: 0 <= k < m < |out| ==> RelationKey(out[k]) != RelationKey(out[m])
    ensures forall k :: 0 <= k < |out| ==> ComesFrom(newIndex, relations, out[k])
    ensures forall j :: 0 <= j < |relations| && Mapped(newIndex, relations[j]) ==>
              Represented(out, Image(newIndex, relations[j]))
  {
    var keys := MergeKeys(newIndex, relations);
    forall j | 0 <= j < |relations| && Mapped(newIndex, relations[j])
      ensures Represented(out, Image(newIndex, relations[j]))
    {
      assert Seen(keys, origin, j);
      var k :| 0 <= k < |origin| && origin[k] <= j && keys[origin[k]] == keys[j];
      assert out[k] in out && RelationKey(out[k]) == RelationKey(Image(newIndex, relations[j]));
    }
    forall k | 0 <= k < |out| ensures ComesFrom(newIndex, relations, out[k]) {
      assert relations[origin[k]] in relations;
    }
    forall k, m | 0 <= k < m < |out| ensures RelationKey(out[k]) != RelationKey(out[m]) {
      assert keys[origin[k]] != keys[origin[m]];
    }
  }

  /** The remap is a function of its input, reasons and strengths included. */
  lemma RemapUnique(newIndex: map<int, nat>, relations: seq<Relation>,
                    out1: seq<Relation>, origin1: seq<nat>, out2: seq<Relation>, origin2: seq<nat>)
    requires IsRemap(newIndex, relations, out1, origin1) && IsRemap(newIndex, relations, out2, origin2)
    ensures out1 == out2
  {
    FirstPositionsUnique(MergeKeys(newIndex, relations), origin1, origin2);
  }

  // ---------------------------------------------------------------- keeping a sublist of nodes

  /** Where each kept position goes: its place in the list of kept positions. */
  function NewPosition(kept: seq<nat>): (position: map<int, nat>)
    requires forall k, m :: 0 <= k < m < |kept| ==> kept[k] < kept[m]
    ensures forall x: int :: x in position ==> position[x] < |kept| && kept[position[x]] == x
    ensures forall k :: 0 <= k < |kept| ==> kept[k] in position && position[kept[k]] == k
  {
    map k: nat | k < |kept| :: kept[k] := k
  }

  predicate BothKept(position: map<int, nat>, r: Relation) { r.source in position && r.target in position }

  function Moved(position: map<int, nat>, r: Relation): Relation
    requires BothKept(position, r)
  {
    r.(source := position[r.source], target := position[r.target])
  }

  /** The comprehension that renumbers the relations whose two ends are kept. */
  function Reindexed(position: map<int, nat>, relations: seq<Relation>): seq<Relation> {
    if relations == [] then []
    else
      var r := relations[|relations| - 1];
      Reindexed(position, relations[..|relations| - 1]) + (if BothKept(position, r) then [Moved(position, r)] else [])
  }

  lemma ReindexLast(position: map<int, nat>, init: seq<Relation>, r: Relation)
    ensures Reindexed(position, init + [r])
         == Reindexed(position, init) + if BothKept(position, r) then [Moved(position, r)] else []
  {
    assert (init + [r])[..|init|] == init;
  }

  /** The positions kept by one renumbering after another. */
  function Compose(first: seq<nat>, second: seq<nat>): (r: seq<nat>)
    requires KeptOf(second, |first|)
    ensures |r| == |second|
    ensures forall k :: 0 <= k < |second| ==> r[k] == first[second[k]]
  {
    seq(|second|, k requires 0 <= k < |second| => first[second[k]])
  }

  ghost predicate Composes(once: map<int, nat>, twice: map<int, nat>, both: map<int, nat>) {
    forall e: int :: (e in both <==> e in once && once[e] in twice) && (e in both ==> both[e] == twice[once[e]])
  }

  lemma {:induction false} ReindexComposes(once: map<int, nat>, twice: map<int, nat>, both: map<int, nat>,
                                           relations: seq<Relation>)
    requires Composes(once, twice, both)
    ensures Reindexed(twice, Reindexed(once, relations)) == Reindexed(both, relations)
    decreases |relations|
  {
    if relations != [] {
      var init, r := relations[..|relations| - 1], relations[|relations| - 1];
      ReindexComposes(once, twice, both, init);
      ReindexLast(once, init, r);
      ReindexLast(both, init, r);
      assert relations == init + [r];
      if BothKept(once, r) {
        ReindexLast(twice, Reindexed(once, init), Moved(once, r));
      } else {
        assert Reindexed(once, relations) == Reindexed(once, init);
      }
    }
  }

  /** Renumbering twice is renumbering once, for nodes (and ids and vectors) and for relations alike. */
  lemma ReindexTwice<T>(first: seq<nat>, second: seq<nat>, xs: seq<T>, relations: seq<Relation>)
    requires KeptOf(first, |xs|) && KeptOf(second, |first|)
    ensures KeptOf(Compose(first, second), |xs|)
    ensures Select(second, Select(first, xs)) == Select(Compose(first, second), xs)
    ensures Reindexed(NewPosition(second), Reindexed(NewPosition(first), relations))
         == Reindexed(NewPosition(Compose(first, second)), relations)
  {
    ComposeKept(first, second, |xs|);
    PositionsCompose(first, second, |xs|);
    ReindexComposes(NewPosition(first), NewPosition(second), NewPosition(Compose(first, second)), relations);
  }

  lemma ComposeKept(first: seq<nat>, second: seq<nat>, n: nat)
    requires KeptOf(first, n) && KeptOf(second, |first|)
    ensures KeptOf(Compose(first, second), n)
  {
  }

  lemma PositionsCompose(first: seq<nat>, second: seq<nat>, n: nat)
    requires KeptOf(first, n) && KeptOf(second, |first|) && KeptOf(Compose(first, second), n)
    ensures Composes(NewPosition(first), NewPosition(second), NewPosition(Compose(first, second)))
  {
    var both := Compose(first, second);
    forall e: int
      ensures e in NewPosition(both) <==> e in NewPosition(first) && NewPosition(first)[e] in NewPosition(second)
      ensures e in NewPosition(both) ==> NewPosition(both)[e] == NewPosition(second)[NewPosition(first)[e]]
    {
      if e in NewPosition(both) {
        assert first[second[NewPosition(both)[e]]] == e;
      }
      if e in NewPosition(first) && NewPosition(first)[e] in NewPosition(second) {
        assert both[NewPosition(second)[NewPosition(first)[e]]] == e;
      }
    }
  }

  /** origin lists, in order, the relations with both ends in the map; out is their images. */
  ghost predicate ReindexOrigin(position: map<int, nat>, relations: seq<Relation>, out: seq<Relation>,
                                origin: seq<nat>)
  {
    && |out| == |origin|
    && (forall k, m :: 0 <= k < m < |origin| ==> origin[k] < origin[m])
    && (forall k :: 0 <= k < |out| ==> origin[k] < |relations| && BothKept(position, relations[origin[k]])
                                       && out[k] == Moved(position, relations[origin[k]]))
    && (forall j: nat :: j < |relations| && BothKept(position, relations[j]) ==> j in origin)
  }

  lemma ReindexOriginNext(position: map<int, nat>, init: seq<Relation>, r: Relation, out: seq<Relation>,
                          origin: seq<nat>)
    requires ReindexOrigin(position, init, out, origin)
    ensures if BothKept(position, r)
            then ReindexOrigin(position, init + [r], out + [Moved(position, r)], origin + [|init|])
            else ReindexOrigin(position, init + [r], out, origin)
  {
    var more := init + [r];
    assert forall j :: 0 <= j < |init| ==> more[j] == init[j];
    assert forall j: nat :: j in origin + [|init|] <==> j in origin || j == |init|;
  }

  lemma {:induction false} ReindexKeepsExactly(position: map<int, nat>, relations: seq<Relation>)
    returns (origin: seq<nat>)
    ensures ReindexOrigin(position, relations, Reindexed(position, relations), origin)
    ensures forall k :: 0 <= k < |origin| ==>
              Renumbers(position, relations[origin[k]], Reindexed(position, relations)[k])
    decreases |relations|
  {
    origin := [];
    if relations != [] {
      var init, r := relations[..|relations| - 1], relations[|relations| - 1];
      origin := ReindexKeepsExactly(position, init);
      assert relations == init + [r];
      ReindexLast(position, init, r);
      ReindexOriginNext(position, init, r, Reindexed(position, init), origin);
      origin := if BothKept(position, r) then origin + [|init|] else origin;
    }
  }

  /** The new ends of a surviving relation point at the very nodes its old ends pointed at. */
  lemma EndsFollowNodes<T>(kept: seq<nat>, xs: seq<T>, r: Relation)
    requires KeptOf(kept, |xs|)
    requires BothKept(NewPosition(kept), r)
    ensures var moved := Moved(NewPosition(kept), r);
            && 0 <= moved.source < |kept| && 0 <= moved.target < |kept|
            && 0 <= r.source < |xs| && 0 <= r.target < |xs|
            && Select(kept, xs)[moved.source] == xs[r.source]
            && Select(kept, xs)[moved.target] == xs[r.target]
            && (moved.source == moved.target <==> r.source == r.target)
            && moved.kind == r.kind && moved.reason == r.reason && moved.strength == r.strength
  {
  }
}
