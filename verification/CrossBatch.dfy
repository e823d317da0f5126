/**
  The pass that asks a model for relations between nodes of different batches: how many node pairs
  no relation joins yet, and which of the model's replies are accepted. The reply is arbitrary.
*/
module CrossBatch {
  import opened Knowledge
  import opened Ordering
  import opened RelationIndex

  /** One entry of the model's reply; None is a missing key or, for an index, a value that is no integer. */
  datatype RawRelation = RawRelation(source: Option<int>, target: Option<int>, kind: Option<string>,
                                     reason: Option<string>, strength: Option<real>)

  const MAX_UNCOVERED_PAIRS := 66

  // ---------------------------------------------------------------- counting pairs

  /** The set the code builds: every related pair of positions, in both directions. */
  function ExistingPairs(relations: seq<Relation>): (pairs: set<(int, int)>)
    ensures forall p :: p in pairs <==> Joined(relations, p.0, p.1)
  {
    (set r | r in relations :: (r.source, r.target)) + (set r | r in relations :: (r.target, r.source))
  }

  ghost predicate Joined(relations: seq<Relation>, x: int, y: int) {
    exists r :: r in relations && ((r.source == x && r.target == y) || (r.source == y && r.target == x))
  }

  function UncoveredPairs(n: nat, relations: seq<Relation>): int {
    n * (n - 1) / 2 - |ExistingPairs(relations)| / 2
  }

  function PairsBelow(n: nat): (pairs: set<(int, int)>)
    ensures forall p :: p in pairs <==> 0 <= p.0 < p.1 < n
  {
    set x, y | 0 <= x < n && 0 <= y < n && x < y :: (x, y)
  }

  /** The unordered pairs of distinct nodes that no relation joins. */
  ghost function OpenPairs(n: nat, relations: seq<Relation>): set<(int, int)> {
    set p | p in PairsBelow(n) && !Joined(relations, p.0, p.1)
  }

  ghost function Loops(relations: seq<Relation>): set<(int, int)> {
    set p | p in ExistingPairs(relations) && p.0 == p.1
  }

  ghost predicate RelationsInRange(n: nat, relations: seq<Relation>) {
    forall r :: r in relations ==> 0 <= r.source < n && 0 <= r.target < n
  }

  lemma {:induction false} CountColumn(n: nat, k: nat, column: set<(int, int)>)
    requires k <= n
    requires forall p :: p in column <==> 0 <= p.0 < k && p.1 == n
    ensures |column| == k
  {
    if k == 0 {
      assert column == {};
    } else {
      CountColumn(n, k - 1, column - {(k - 1, n)});
    }
  }

  lemma Triangle(n: int)
    ensures n * (n - 1) / 2 == (n - 1) * (n - 2) / 2 + (n - 1)
  {
    assert n * (n - 1) == (n - 1) * (n - 2) + 2 * (n - 1);
  }

  lemma {:induction false} CountPairs(n: nat)
    ensures |PairsBelow(n)| == n * (n - 1) / 2
  {
    if n == 0 {
      assert PairsBelow(0) == {};
    } else {
      CountPairs(n - 1);
      var column := set p | p in PairsBelow(n) && p.1 == n - 1;
      CountColumn(n - 1, n - 1, column);
      assert PairsBelow(n) == PairsBelow(n - 1) + column;
      Triangle(n);
    }
  }

  function Flip(p: (int, int)): (int, int) { (p.1, p.0) }

  lemma {:induction false} FlippedCount(pairs: set<(int, int)>, flipped: set<(int, int)>)
    requires forall p :: p in flipped <==> Flip(p) in pairs
    ensures |flipped| == |pairs|
    decreases |pairs|
  {
    if pairs == {} {
      assert flipped == {};
    } else {
      var p :| p in pairs;
      assert Flip(Flip(p)) == p;
      FlippedCount(pairs - {p}, flipped - {Flip(p)});
    }
  }

  /** A set of pairs closed under flipping is its upper half twice, and its diagonal. */
  lemma SymmetricCount(pairs: set<(int, int)>, up: set<(int, int)>, diagonal: set<(int, int)>)
    requires forall p :: p in pairs ==> Flip(p) in pairs
    requires up == set p | p in pairs && p.0 < p.1
    requires diagonal == set p | p in pairs && p.0 == p.1
    ensures |pairs| == 2 * |up| + |diagonal|
  {
    var down := set p | p in pairs && p.1 < p.0;
    forall p ensures p in down <==> Flip(p) in up {
      assert Flip(Flip(p)) == p;
    }
    FlippedCount(up, down);
    assert pairs == (up + down) + diagonal;
    assert |up + down| == |up| + |down|;
  }

  /** The closed form the code computes, against the pairs it is meant to count. */
  lemma UncoveredCounts(n: nat, relations: seq<Relation>)
    requires RelationsInRange(n, relations)
    ensures UncoveredPairs(n, relations) == |OpenPairs(n, relations)| - |Loops(relations)| / 2
  {
    var all, open, existing := PairsBelow(n), OpenPairs(n, relations), ExistingPairs(relations);
    var up := set p | p in existing && p.0 < p.1;
    forall p | p in existing ensures Flip(p) in existing && 0 <= p.0 < n && 0 <= p.1 < n {
      assert Joined(relations, p.0, p.1) && Joined(relations, p.1, p.0);
    }
    SymmetricCount(existing, up, Loops(relations));
    assert all == open + up;
    CountPairs(n);
  }

  /** It is the number of open pairs exactly when at most one node is related to itself. */
  lemma UncoveredIsOpenPairs(n: nat, relations: seq<Relation>)
    requires RelationsInRange(n, relations)
    ensures UncoveredPairs(n, relations) == |OpenPairs(n, relations)| <==> |Loops(relations)| < 2
  {
    UncoveredCounts(n, relations);
  }

  // ---------------------------------------------------------------- accepting replies

  predicate Acceptable(n: nat, existing: set<(int, int)>, r: RawRelation) {
    && r.source.Some? && r.target.Some?
    && 0 <= r.source.value < n && 0 <= r.target.value < n && r.source.value != r.target.value
    && (r.source.value, r.target.value) !in existing && (r.target.value, r.source.value) !in existing
  }

  function Accepted(r: RawRelation): Relation
    requires r.source.Some? && r.target.Some?
  {
    Relation(r.source.value, r.target.value,
             if r.kind.Some? then r.kind.value else "related",
             if r.reason.Some? then r.reason.value else "",
             if r.strength.Some? then r.strength.value else 0.80)
  }

  function PairKey(r: Relation): (int, int, string) {
    if r.source <= r.target then (r.source, r.target, r.kind) else (r.target, r.source, r.kind)
  }

  function ReplyKeys(n: nat, existing: set<(int, int)>, raw: seq<RawRelation>): (keys: seq<Option<(int, int, string)>>)
    ensures |keys| == |raw|
    ensures forall j :: 0 <= j < |raw| ==>
              keys[j] == if Acceptable(n, existing, raw[j]) then Some(PairKey(Accepted(raw[j]))) else None
  {
    seq(|raw|, j requires 0 <= j < |raw| =>
      if Acceptable(n, existing, raw[j]) then Some(PairKey(Accepted(raw[j]))) else None)
  }

  /** Whether the model is asked at all. */
  predicate Asked(n: nat, relations: seq<Relation>) {
    n >= 3 && 0 < UncoveredPairs(n, relations) <= MAX_UNCOVERED_PAIRS
  }

  /** What the loop over the reply has collected from its first i entries. */
  ghost predicate AcceptedSoFar(n: nat, existing: set<(int, int)>, raw: seq<RawRelation>, i: nat,
                                out: seq<Relation>, origin: seq<nat>, seen: set<(int, int, string)>)
    requires i <= |raw|
  {
    var keys := ReplyKeys(n, existing, raw);
    && FirstPositions(keys, i, origin) && |out| == |origin|
    && (forall k :: 0 <= k < |out| ==>
          Acceptable(n, existing, raw[origin[k]]) && out[k] == Accepted(raw[origin[k]]))
    && (forall key :: key in seen <==> exists k :: 0 <= k < |origin| && keys[origin[k]] == Some(key))
  }

  lemma AcceptSkips(n: nat, existing: set<(int, int)>, raw: seq<RawRelation>, i: nat,
                    out: seq<Relation>, origin: seq<nat>, seen: set<(int, int, string)>)
    requires i < |raw| && AcceptedSoFar(n, existing, raw, i, out, origin, seen)
    requires Acceptable(n, existing, raw[i]) ==> PairKey(Accepted(raw[i])) in seen
    ensures AcceptedSoFar(n, existing, raw, i + 1, out, origin, seen)
  {
    FirstPositionsSkip(ReplyKeys(n, existing, raw), i, origin);
  }

  lemma AcceptTakes(n: nat, existing: set<(int, int)>, raw: seq<RawRelation>, i: nat,
                    out: seq<Relation>, origin: seq<nat>, seen: set<(int, int, string)>)
    requires i < |raw| && AcceptedSoFar(n, existing, raw, i, out, origin, seen)
    requires Acceptable(n, existing, raw[i]) && PairKey(Accepted(raw[i])) !in seen
    ensures var accepted := Accepted(raw[i]);
            AcceptedSoFar(n, existing, raw, i + 1, out + [accepted], origin + [i], seen + {PairKey(accepted)})
  {
    var keys, key := ReplyKeys(n, existing, raw), PairKey(Accepted(raw[i]));
    FirstPositionsTake(keys, i, origin);
    var more := origin + [i];
    forall other ensures other in seen + {key} <==> exists k :: 0 <= k < |more| && keys[more[k]] == Some(other) {
      if other in seen {
        var k :| 0 <= k < |origin| && keys[origin[k]] == Some(other);
        assert more[k] == origin[k];
      }
      assert more[|origin|] == i && keys[i] == Some(key);
    }
  }

  // ---------------------------------------------------------------- what is accepted, on the entries themselves

  /** The entry names two different nodes that no relation joins in either direction. */
  ghost predicate Fresh(n: nat, relations: seq<Relation>, r: RawRelation) {
    && r.source.Some? && r.target.Some?
    && 0 <= r.source.value < n && 0 <= r.target.value < n && r.source.value != r.target.value
    && !Joined(relations, r.source.value, r.target.value)
  }

  /** The relation says what the entry says, from the same node to the same node, with defaults for what is missing. */
  ghost predicate Says(r: RawRelation, s: Relation) {
    && r.source == Some(s.source) && r.target == Some(s.target)
    && (r.kind == Some(s.kind) || (r.kind.None? && s.kind == "related"))
    && (r.reason == Some(s.reason) || (r.reason.None? && s.reason == ""))
    && (r.strength == Some(s.strength) || (r.strength.None? && s.strength == 0.8))
  }

  /** The same two nodes, in either direction, and the same kind. */
  ghost predicate SamePair(r: Relation, s: Relation) {
    r.kind == s.kind
    && ((r.source == s.source && r.target == s.target) || (r.source == s.target && r.target == s.source))
  }

  /** Entry j is accepted or repeats the pair and the kind of an accepted entry before it. */
  ghost predicate Covers(out: seq<Relation>, origin: seq<nat>, j: nat, said: Relation)
    requires |out| == |origin|
  {
    exists k :: 0 <= k < |out| && origin[k] <= j && SamePair(out[k], said)
  }

  /** Accepted are, in order, fresh entries as they are said, and every fresh entry is covered by one. */
  ghost predicate TakesFresh(n: nat, relations: seq<Relation>, raw: seq<RawRelation>, out: seq<Relation>,
                             origin: seq<nat>)
  {
    && |out| == |origin| && KeptOf(origin, |raw|)
    && (forall k :: 0 <= k < |out| ==> Fresh(n, relations, raw[origin[k]]) && Says(raw[origin[k]], out[k]))
    && (forall j, said :: 0 <= j < |raw| && Fresh(n, relations, raw[j]) && Says(raw[j], said) ==>
          Covers(out, origin, j, said))
  }

  lemma AcceptableIsFresh(n: nat, relations: seq<Relation>, r: RawRelation)
    ensures Acceptable(n, ExistingPairs(relations), r) <==> Fresh(n, relations, r)
    ensures Fresh(n, relations, r) ==> forall said :: Says(r, said) <==> said == Accepted(r)
  {
  }

  lemma SameKeySamePair(r: Relation, s: Relation)
    ensures PairKey(r) == PairKey(s) <==> SamePair(r, s)
  {
  }

  lemma AcceptedAreFresh(n: nat, relations: seq<Relation>, raw: seq<RawRelation>, out: seq<Relation>, origin: seq<nat>)
    requires FirstPositions(ReplyKeys(n, ExistingPairs(relations), raw), |raw|, origin) && |out| == |origin|
    requires forall k :: 0 <= k < |out| ==>
               Acceptable(n, ExistingPairs(relations), raw[origin[k]]) && out[k] == Accepted(raw[origin[k]])
    ensures TakesFresh(n, relations, raw, out, origin)
  {
    var keys := ReplyKeys(n, ExistingPairs(relations), raw);
    forall k | 0 <= k < |out| ensures Fresh(n, relations, raw[origin[k]]) && Says(raw[origin[k]], out[k]) {
      AcceptableIsFresh(n, relations, raw[origin[k]]);
    }
    forall j, said | 0 <= j < |raw| && Fresh(n, relations, raw[j]) && Says(raw[j], said)
      ensures Covers(out, origin, j, said)
    {
      AcceptableIsFresh(n, relations, raw[j]);
      assert Seen(keys, origin, j);
      var k :| 0 <= k < |origin| && origin[k] <= j && keys[origin[k]] == keys[j];
      SameKeySamePair(out[k], said);
    }
  }

  /** Without self-relations the model is asked exactly while 1 to 66 of the pairs of three or more nodes are open. */
  lemma AskedIffOpen(n: nat, relations: seq<Relation>)
    requires RelationsInRange(n, relations) && Loops(relations) == {}
    ensures Asked(n, relations) <==> n >= 3 && 1 <= |OpenPairs(n, relations)| <= 66
  {
    UncoveredIsOpenPairs(n, relations);
  }

  /** A reply of None is a failed call. */
  method SynthesizeCrossBatchRelations(n: nat, relations: seq<Relation>, reply: Option<seq<RawRelation>>)
    returns (out: seq<Relation>, ghost origin: seq<nat>)
    ensures !Asked(n, relations) || reply.None? ==> out == []
    ensures Asked(n, relations) && reply.Some? ==>
              && FirstPositions(ReplyKeys(n, ExistingPairs(relations), reply.value), |reply.value|, origin)
              && |out| == |origin|
              && forall k :: 0 <= k < |out| ==>
                   Acceptable(n, ExistingPairs(relations), reply.value[origin[k]])
                   && out[k] == Accepted(reply.value[origin[k]])
    ensures ExtendsCoverage(n, relations, out)
    ensures Asked(n, relations) && reply.Some? ==> TakesFresh(n, relations, reply.value, out, origin)
  {
    out, origin := [], [];
    var existing := ExistingPairs(relations);
    if n < 3 {
      return;
    }
    var uncovered := n * (n - 1) / 2 - |existing| / 2;
    if uncovered <= 0 || uncovered > MAX_UNCOVERED_PAIRS || reply.None? {
      return;
    }
    var raw := reply.value;
    var seen: set<(int, int, string)> := {};
    for i := 0 to |raw|
      invariant AcceptedSoFar(n, existing, raw, i, out, origin, seen)
    {
      if !Acceptable(n, existing, raw[i]) {
        AcceptSkips(n, existing, raw, i, out, origin, seen);
        continue;
      }
      var accepted := Accepted(raw[i]);
      var key := PairKey(accepted);
      if key in seen {
        AcceptSkips(n, existing, raw, i, out, origin, seen);
        continue;
      }
      AcceptTakes(n, existing, raw, i, out, origin, seen);
      seen, out, origin := seen + {key}, out + [accepted], origin + [i];
    }
    AcceptedExtendCoverage(n, relations, raw, out, origin);
    AcceptedAreFresh(n, relations, raw, out, origin);
  }

  /** New relations join distinct nodes that nothing joined before, each pair and kind once. */
  ghost predicate ExtendsCoverage(n: nat, relations: seq<Relation>, out: seq<Relation>) {
    && (forall r :: r in out ==> 0 <= r.source < n && 0 <= r.target < n && r.source != r.target)
    && (forall r :: r in out ==> !Joined(relations, r.source, r.target))
    && (forall k, m :: 0 <= k < m < |out| ==> PairKey(out[k]) != PairKey(out[m]))
  }

  lemma AcceptedExtendCoverage(n: nat, relations: seq<Relation>, raw: seq<RawRelation>,
                               out: seq<Relation>, origin: seq<nat>)
    requires FirstPositions(ReplyKeys(n, ExistingPairs(relations), raw), |raw|, origin) && |out| == |origin|
    requires forall k :: 0 <= k < |out| ==>
               Acceptable(n, ExistingPairs(relations), raw[origin[k]]) && out[k] == Accepted(raw[origin[k]])
    ensures ExtendsCoverage(n, relations, out)
  {
    var keys := ReplyKeys(n, ExistingPairs(relations), raw);
    forall k, m | 0 <= k < m < |out| ensures PairKey(out[k]) != PairKey(out[m]) {
      assert keys[origin[k]] != keys[origin[m]];
    }
  }
}
