/**
  Giving database ids to extracted nodes: a node close to a stored one reuses its id, the others
  are inserted, and the two kinds of ids are interleaved back into the order of the node list.
*/
module NodeIdentity {
  import opened Knowledge
  import opened Ordering

  const DEDUP_HARD_THRESHOLD := 0.90
  const DEDUP_SOFT_THRESHOLD := 0.82

  // ---------------------------------------------------------------- argmax

  /** The first position of a largest entry, as `argmax` and `max` answer it. */
  ghost predicate IsFirstMax(row: seq<real>, j: nat) {
    && j < |row|
    && (forall k :: 0 <= k < |row| ==> row[k] <= row[j])
    && (forall k :: 0 <= k < j ==> row[k] < row[j])
  }

  function ArgMax(row: seq<real>): (j: nat)
    requires row != []
    ensures IsFirstMax(row, j)
  {
    if |row| == 1 then 0
    else
      var last := |row| - 1;
      var j := ArgMax(row[..last]);
      assert forall k :: 0 <= k < last ==> row[..last][k] == row[k];
      if row[last] > row[j] then last else j
  }

  // ---------------------------------------------------------------- reuse or insert

  datatype Stored = Stored(ids: seq<int>, names: seq<string>)

  /** Scores against the stored nodes, one row per new node. */
  ghost predicate Scored(n: nat, stored: Stored, sims: seq<seq<real>>) {
    && stored.ids != [] && |stored.names| == |stored.ids| && |sims| == n
    && forall i :: 0 <= i < n ==> |sims[i]| == |stored.ids|
  }

  /** The best match decides: close enough, or fairly close and with a matching name. */
  predicate Reuses(name: string, row: seq<real>, stored: Stored, canonical: (string, string) -> bool)
    requires stored.ids != [] && |stored.names| == |stored.ids| == |row|
  {
    var best := ArgMax(row);
    || row[best] >= DEDUP_HARD_THRESHOLD
    || (row[best] >= DEDUP_SOFT_THRESHOLD && canonical(name, stored.names[best]))
  }

  /** Positions below n that reuse no stored node, ascending. */
  function NewPositions(reused: map<int, int>, n: nat): seq<nat> {
    if n == 0 then [] else NewPositions(reused, n - 1) + if n - 1 in reused then [] else [n - 1]
  }

  lemma {:induction false} NewPositionsExact(reused: map<int, int>, n: nat)
    ensures KeptOf(NewPositions(reused, n), n)
    ensures forall i: nat :: i in NewPositions(reused, n) <==> i < n && i !in reused
  {
    if n > 0 {
      NewPositionsExact(reused, n - 1);
      OneMorePosition(NewPositions(reused, n - 1), n - 1);
    }
  }

  lemma OneMorePosition(kept: seq<nat>, n: nat)
    requires KeptOf(kept, n)
    ensures KeptOf(kept, n + 1) && KeptOf(kept + [n], n + 1)
    ensures forall i: nat :: i in kept + [n] <==> i in kept || i == n
  {
  }

  /** The id of a best match. */
  ghost predicate IsBestId(stored: Stored, row: seq<real>, id: int)
    requires |row| == |stored.ids|
  {
    exists best: nat :: IsFirstMax(row, best) && id == stored.ids[best]
  }

  /** reused maps exactly the positions below n that reuse a stored node to the id of a best match. */
  ghost predicate Decided(nodes: seq<Concept>, stored: Stored, sims: seq<seq<real>>,
                          canonical: (string, string) -> bool, n: nat, reused: map<int, int>)
    requires Scored(|nodes|, stored, sims) && n <= |nodes|
  {
    && (forall i: int :: i in reused <==> 0 <= i < n && Reuses(nodes[i].name, sims[i], stored, canonical))
    && (forall i: int :: i in reused ==> IsBestId(stored, sims[i], reused[i]))
  }

  lemma DecideNext(nodes: seq<Concept>, stored: Stored, sims: seq<seq<real>>,
                   canonical: (string, string) -> bool, n: nat, reused: map<int, int>)
    requires Scored(|nodes|, stored, sims) && n < |nodes| && Decided(nodes, stored, sims, canonical, n, reused)
    ensures if Reuses(nodes[n].name, sims[n], stored, canonical)
            then Decided(nodes, stored, sims, canonical, n + 1, reused[n as int := stored.ids[ArgMax(sims[n])]])
            else Decided(nodes, stored, sims, canonical, n + 1, reused)
  {
    assert IsBestId(stored, sims[n], stored.ids[ArgMax(sims[n])]);
  }

  lemma SelectNext<T>(reused: map<int, int>, id: int, i: nat, xs: seq<T>)
    requires i < |xs| && i !in reused && KeptOf(NewPositions(reused, i), |xs|)
    ensures NewPositions(reused[i as int := id], i + 1) == NewPositions(reused, i)
    ensures KeptOf(NewPositions(reused, i + 1), |xs|)
    ensures Select(NewPositions(reused, i + 1), xs) == Select(NewPositions(reused, i), xs) + [xs[i]]
  {
    NewPositionsFrame(reused, reused[i as int := id], i);
    NewPositionsExact(reused, i);
    SelectAppend(NewPositions(reused, i), i, xs);
  }

  lemma SelectAppend<T>(kept: seq<nat>, i: nat, xs: seq<T>)
    requires i < |xs| && KeptOf(kept, i)
    ensures KeptOf(kept + [i], |xs|) && Select(kept + [i], xs) == Select(kept, xs) + [xs[i]]
  {
  }

  /**
    The first best match decides: at 0.90 its id is reused, at 0.82 if the name matches the stored one,
    and otherwise the node is new.
  */
  ghost predicate MatchDecides(name: string, row: seq<real>, stored: Stored, canonical: (string, string) -> bool,
                               id: Option<int>)
    requires stored.ids != [] && |stored.names| == |stored.ids| == |row|
  {
    exists best: nat :: IsFirstMax(row, best)
      && if row[best] >= 0.90 || (row[best] >= 0.82 && canonical(name, stored.names[best]))
         then id == Some(stored.ids[best]) else id == None
  }

  lemma DecidedByMatch(nodes: seq<Concept>, stored: Stored, sims: seq<seq<real>>,
                       canonical: (string, string) -> bool, reused: map<int, int>, i: nat)
    requires Scored(|nodes|, stored, sims) && i < |nodes|
    requires Decided(nodes, stored, sims, canonical, |nodes|, reused)
    ensures MatchDecides(nodes[i].name, sims[i], stored, canonical, if i in reused then Some(reused[i]) else None)
  {
    var best := ArgMax(sims[i]);
    if i in reused {
      assert IsBestId(stored, sims[i], reused[i]);
      var other: nat :| IsFirstMax(sims[i], other) && reused[i] == stored.ids[other];
      FirstMaxUnique(sims[i], best, other);
    }
    assert IsFirstMax(sims[i], best);
  }

  lemma FirstMaxUnique(row: seq<real>, i: nat, j: nat)
    requires IsFirstMax(row, i) && IsFirstMax(row, j)
    ensures i == j
  {
    assert row[i] == row[j];
  }

  method ComputeDedup<E>(nodes: seq<Concept>, embeddings: seq<E>, stored: Stored, sims: seq<seq<real>>,
                         canonical: (string, string) -> bool)
    returns (newNodes: seq<Concept>, newEmbeddings: seq<E>, reused: map<int, int>)
    requires |embeddings| == |nodes| && Scored(|nodes|, stored, sims)
    ensures Decided(nodes, stored, sims, canonical, |nodes|, reused)
    ensures KeptOf(NewPositions(reused, |nodes|), |nodes|)
    ensures newNodes == Select(NewPositions(reused, |nodes|), nodes)
    ensures newEmbeddings == Select(NewPositions(reused, |nodes|), embeddings)
    ensures forall i :: 0 <= i < |nodes| ==>
              MatchDecides(nodes[i].name, sims[i], stored, canonical, if i in reused then Some(reused[i]) else None)
  {
    newNodes, newEmbeddings, reused := [], [], map[];
    for i := 0 to |nodes|
      invariant Decided(nodes, stored, sims, canonical, i, reused)
      invariant KeptOf(NewPositions(reused, i), |nodes|)
      invariant newNodes == Select(NewPositions(reused, i), nodes)
      invariant newEmbeddings == Select(NewPositions(reused, i), embeddings)
    {
      DecideNext(nodes, stored, sims, canonical, i, reused);
      SelectNext(reused, stored.ids[ArgMax(sims[i])], i, nodes);
      SelectNext(reused, stored.ids[ArgMax(sims[i])], i, embeddings);
      var best := ArgMax(sims[i]);
      if || sims[i][best] >= DEDUP_HARD_THRESHOLD
         || (sims[i][best] >= DEDUP_SOFT_THRESHOLD && canonical(nodes[i].name, stored.names[best])) {
        reused := reused[i := stored.ids[best]];
      } else {
        newNodes, newEmbeddings := newNodes + [nodes[i]], newEmbeddings + [embeddings[i]];
      }
    }
    forall i | 0 <= i < |nodes|
      ensures MatchDecides(nodes[i].name, sims[i], stored, canonical, if i in reused then Some(reused[i]) else None)
    {
      DecidedByMatch(nodes, stored, sims, canonical, reused, i);
    }
  }

  lemma {:induction false} NewPositionsFrame(a: map<int, int>, b: map<int, int>, n: nat)
    requires forall x :: 0 <= x < n ==> (x in a <==> x in b)
    ensures NewPositions(a, n) == NewPositions(b, n)
  {
    if n > 0 {
      NewPositionsFrame(a, b, n - 1);
    }
  }

  // ---------------------------------------------------------------- interleaving the ids

  /** The position gets an id: it reuses one, or the inserted ids reach as far as it. */
  predicate GetsId(reused: map<int, int>, inserted: seq<int>, i: nat) {
    i in reused || |NewPositions(reused, i)| < |inserted|
  }

  function IdOf(reused: map<int, int>, inserted: seq<int>, i: nat): int
    requires GetsId(reused, inserted, i)
  {
    if i in reused then reused[i] else inserted[|NewPositions(reused, i)|]
  }

  /** Entry k of the combined lists belongs to position kept[k]. */
  ghost predicate EntryOk<E>(embeddings: seq<E>, reused: map<int, int>, inserted: seq<int>,
                             i: nat, id: int, embedding: E)
    requires i < |embeddings|
  {
    GetsId(reused, inserted, i) && id == IdOf(reused, inserted, i) && embedding == embeddings[i]
  }

  /** Result of the interleaving loop: the positions below n that get an id, with their ids and vectors. */
  ghost predicate IsInterleaving<E>(embeddings: seq<E>, reused: map<int, int>, inserted: seq<int>, n: nat,
                                    ids: seq<int>, outEmbeddings: seq<E>, kept: seq<nat>)
    requires n <= |embeddings|
  {
    && KeptOf(kept, n) && |ids| == |kept| && |outEmbeddings| == |kept|
    && (forall i: nat :: i < n && GetsId(reused, inserted, i) ==> i in kept)
    && (forall k :: 0 <= k < |kept| ==> EntryOk(embeddings, reused, inserted, kept[k], ids[k], outEmbeddings[k]))
  }

  lemma InterleaveSkip<E>(embeddings: seq<E>, reused: map<int, int>, inserted: seq<int>, n: nat,
                          ids: seq<int>, outEmbeddings: seq<E>, kept: seq<nat>)
    requires n < |embeddings| && IsInterleaving(embeddings, reused, inserted, n, ids, outEmbeddings, kept)
    requires !GetsId(reused, inserted, n)
    ensures IsInterleaving(embeddings, reused, inserted, n + 1, ids, outEmbeddings, kept)
  {
  }

  lemma InterleaveTake<E>(embeddings: seq<E>, reused: map<int, int>, inserted: seq<int>, n: nat,
                          ids: seq<int>, outEmbeddings: seq<E>, kept: seq<nat>)
    requires n < |embeddings| && IsInterleaving(embeddings, reused, inserted, n, ids, outEmbeddings, kept)
    requires GetsId(reused, inserted, n)
    ensures IsInterleaving(embeddings, reused, inserted, n + 1, ids + [IdOf(reused, inserted, n)],
                           outEmbeddings + [embeddings[n]], kept + [n])
  {
    var kept' := kept + [n];
    forall i: nat | i < n + 1 && GetsId(reused, inserted, i) ensures i in kept' {
      if i == n { assert kept'[|kept|] == n; }
    }
  }

  method BuildCombinedNodeList<E>(embeddings: seq<E>, reused: map<int, int>, inserted: seq<int>)
    returns (ids: seq<int>, outEmbeddings: seq<E>, ghost kept: seq<nat>)
    ensures IsInterleaving(embeddings, reused, inserted, |embeddings|, ids, outEmbeddings, kept)
    ensures exists positions ::
              IsInterleaving(embeddings, reused, inserted, |embeddings|, ids, outEmbeddings, positions)
  {
    ids, outEmbeddings, kept := [], [], [];
    var cursor := 0;
    for i := 0 to |embeddings|
      invariant 0 <= cursor <= |inserted|
      invariant cursor == Min(|NewPositions(reused, i)|, |inserted|)
      invariant IsInterleaving(embeddings, reused, inserted, i, ids, outEmbeddings, kept)
    {
      if GetsId(reused, inserted, i) {
        InterleaveTake(embeddings, reused, inserted, i, ids, outEmbeddings, kept);
      } else {
        InterleaveSkip(embeddings, reused, inserted, i, ids, outEmbeddings, kept);
      }
      if i in reused {
        ids, outEmbeddings, kept := ids + [reused[i]], outEmbeddings + [embeddings[i]], kept + [i];
      } else if cursor < |inserted| {
        ids, outEmbeddings, kept := ids + [inserted[cursor]], outEmbeddings + [embeddings[i]], kept + [i];
        cursor := cursor + 1;
      }
    }
  }

  /**
    Ids and vectors line up with the node list exactly when every new node has an inserted id.
    Then position i carries the id it reuses, or the id inserted for it.
  */
  lemma CombinedAligned<E>(embeddings: seq<E>, reused: map<int, int>, inserted: seq<int>,
                           ids: seq<int>, outEmbeddings: seq<E>, kept: seq<nat>)
    requires IsInterleaving(embeddings, reused, inserted, |embeddings|, ids, outEmbeddings, kept)
    ensures |ids| == |embeddings| <==> |NewPositions(reused, |embeddings|)| <= |inserted|
    ensures |ids| == |embeddings| ==> Lined(embeddings, reused, inserted, ids, outEmbeddings)
  {
    var n, added := |embeddings|, NewPositions(reused, |embeddings|);
    NewPositionsExact(reused, n);
    FullList(kept, n);
    if |added| <= |inserted| {
      forall i: nat | i < n ensures i in kept {
        NewIsCounted(reused, i, n);
      }
    } else {
      var i := added[|inserted|];
      NewAt(reused, n, |inserted|);
      assert i !in kept;
    }
    if |ids| == n {
      AlignedEntries(embeddings, reused, inserted, ids, outEmbeddings, kept);
    }
  }

  /** Row i speaks of node i: its vector, and the id it reuses or the one inserted for it. */
  ghost predicate Lined<E>(embeddings: seq<E>, reused: map<int, int>, inserted: seq<int>,
                           ids: seq<int>, outEmbeddings: seq<E>)
    requires |ids| == |embeddings|
  {
    var added := NewPositions(reused, |embeddings|);
    && outEmbeddings == embeddings
    && (forall i :: 0 <= i < |ids| && i in reused ==> ids[i] == reused[i])
    && |added| <= |inserted|
    && (forall k :: 0 <= k < |added| ==> added[k] < |ids| && ids[added[k]] == inserted[k])
  }

  lemma AlignedEntries<E>(embeddings: seq<E>, reused: map<int, int>, inserted: seq<int>,
                          ids: seq<int>, outEmbeddings: seq<E>, kept: seq<nat>)
    requires IsInterleaving(embeddings, reused, inserted, |embeddings|, ids, outEmbeddings, kept)
    requires |ids| == |embeddings| && |NewPositions(reused, |embeddings|)| <= |inserted|
    requires forall i :: 0 <= i < |kept| ==> kept[i] == i
    ensures Lined(embeddings, reused, inserted, ids, outEmbeddings)
  {
    var n, added := |embeddings|, NewPositions(reused, |embeddings|);
    NewPositionsExact(reused, n);
    forall i | 0 <= i < n ensures outEmbeddings[i] == embeddings[i] && ids[i] == IdOf(reused, inserted, i) {
      assert EntryOk(embeddings, reused, inserted, kept[i], ids[i], outEmbeddings[i]);
    }
    forall k | 0 <= k < |added| ensures added[k] < n && ids[added[k]] == inserted[k] {
      NewAt(reused, n, k);
    }
  }

  /** The k-th new position has k new positions before it. */
  lemma {:induction false} NewAt(reused: map<int, int>, n: nat, k: nat)
    requires k < |NewPositions(reused, n)|
    ensures NewPositions(reused, n)[k] < n && NewPositions(reused, n)[k] !in reused
    ensures |NewPositions(reused, NewPositions(reused, n)[k])| == k
  {
    if k < |NewPositions(reused, n - 1)| {
      NewAt(reused, n - 1, k);
    }
  }

  lemma {:induction false} NewIsCounted(reused: map<int, int>, i: nat, n: nat)
    requires i < n
    ensures i in reused || |NewPositions(reused, i)| < |NewPositions(reused, n)|
    ensures |NewPositions(reused, i)| <= |NewPositions(reused, n)|
    decreases n
  {
    if i < n - 1 {
      NewIsCounted(reused, i, n - 1);
    }
  }

  // ---------------------------------------------------------------- cited evidence

  /** Node i is the first of the first n nodes that cites the chunk. */
  ghost predicate FirstCitedBy(nodes: seq<Concept>, chunk: int, i: nat) {
    && i < |nodes| && chunk in nodes[i].evidence
    && forall j :: 0 <= j < i ==> chunk !in nodes[j].evidence
  }

  ghost predicate CitedBelow(nodes: seq<Concept>, chunk: int, n: nat) {
    exists j: nat :: j < n && FirstCitedBy(nodes, chunk, j)
  }

  /** If some node below n cites the chunk, one is the first to. */
  lemma {:induction false} SomeFirst(nodes: seq<Concept>, chunk: int, n: nat)
    requires n <= |nodes| && exists j :: 0 <= j < n && chunk in nodes[j].evidence
    ensures CitedBelow(nodes, chunk, n)
  {
    if exists j :: 0 <= j < n - 1 && chunk in nodes[j].evidence {
      SomeFirst(nodes, chunk, n - 1);
    } else {
      assert FirstCitedBy(nodes, chunk, n - 1);
    }
  }

  lemma NotCitedBelow(nodes: seq<Concept>, ids: seq<int>, chunk: int, n: nat, assignments: map<int, int>)
    requires n < |nodes| == |ids| && chunk !in assignments && chunk in nodes[n].evidence
    requires forall c: int, j: nat :: j < n && FirstCitedBy(nodes, c, j) ==>
               c in assignments && assignments[c] == ids[j]
    ensures CitedBelow(nodes, chunk, n + 1)
  {
    if exists j :: 0 <= j < n && chunk in nodes[j].evidence {
      SomeFirst(nodes, chunk, n);
    } else {
      assert FirstCitedBy(nodes, chunk, n);
    }
  }

  /** The loop over nodes and ids, which stops at the end of the shorter list. */
  method BuildEvidenceAssignments(nodes: seq<Concept>, ids: seq<int>) returns (assignments: map<int, int>)
    ensures var paired := nodes[..Min(|nodes|, |ids|)];
            && (forall c: int :: c in assignments <==> exists i: nat :: FirstCitedBy(paired, c, i))
            && (forall c: int, i: nat :: FirstCitedBy(paired, c, i) ==> c in assignments && assignments[c] == ids[i])
  {
    var n := Min(|nodes|, |ids|);
    assignments := AssignCited(nodes[..n], ids[..n]);
  }

  method AssignCited(nodes: seq<Concept>, ids: seq<int>) returns (assignments: map<int, int>)
    requires |ids| == |nodes|
    ensures forall c: int :: c in assignments <==> exists i: nat :: FirstCitedBy(nodes, c, i)
    ensures forall c: int, i: nat :: FirstCitedBy(nodes, c, i) ==> c in assignments && assignments[c] == ids[i]
  {
    assignments := map[];
    for i := 0 to |nodes|
      invariant forall c: int :: c in assignments ==> CitedBelow(nodes, c, i)
      invariant forall c: int, j: nat :: j < i && FirstCitedBy(nodes, c, j) ==>
                  c in assignments && assignments[c] == ids[j]
    {
      ghost var before := assignments;
      assignments := CiteAll(nodes, ids, i, assignments);
      forall c: int | c in assignments ensures CitedBelow(nodes, c, i + 1) {
        if c in before {
          assert CitedBelow(nodes, c, i);
        } else {
          NotCitedBelow(nodes, ids, c, i, before);
        }
      }
    }
  }

  method CiteAll(nodes: seq<Concept>, ids: seq<int>, i: nat, before: map<int, int>) returns (after: map<int, int>)
    requires |ids| == |nodes| && i < |nodes|
    ensures forall c: int :: c in after <==> c in before || c in nodes[i].evidence
    ensures forall c: int :: c in after ==> after[c] == if c in before then before[c] else ids[i]
  {
    after := before;
    var evidence := nodes[i].evidence;
    for k := 0 to |evidence|
      invariant forall c: int :: c in after <==> c in before || c in evidence[..k]
      invariant forall c: int :: c in after ==> after[c] == if c in before then before[c] else ids[i]
    {
      if evidence[k] !in after {
        after := after[evidence[k] := ids[i]];
      }
    }
    assert evidence[..|evidence|] == evidence;
  }
}
