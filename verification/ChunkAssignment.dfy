/**
  Attaching chunks to graph nodes: cited evidence first, then the best node if it is similar
  enough, and at the end a rescue pass that offers unassigned chunks to nodes that won none.
  The similarities are an arbitrary matrix, one row per chunk and one column per node.
*/
module ChunkAssignment {
  import opened Knowledge
  import opened Ordering
  import opened NodeIdentity

  type Assignment = seq<Option<int>>

  const MIN_CHUNK_TO_NODE_SIMILARITY := 0.52
  const FALLBACK_CHUNK_TO_NODE_SIMILARITY := 0.45

  ghost predicate Shaped(chunks: seq<Chunk>, ids: seq<int>, sims: Matrix) {
    |sims| == |chunks| && forall i :: 0 <= i < |chunks| ==> |sims[i]| == |ids|
  }

  // ---------------------------------------------------------------- primary pass

  /** What the primary pass decides for one chunk. */
  ghost predicate PrimaryChoice(chunk: Chunk, row: seq<real>, ids: seq<int>, cited: map<int, int>, choice: Option<int>)
    requires |row| == |ids| && ids != []
  {
    if chunk.index in cited then choice == Some(cited[chunk.index])
    else if chunk.artifact || (forall x :: 0 <= x < |row| ==> row[x] < MIN_CHUNK_TO_NODE_SIMILARITY) then choice == None
    else exists x: nat :: IsFirstMax(row, x) && choice == Some(ids[x])
  }

  method AssignPrimary(chunks: seq<Chunk>, ids: seq<int>, sims: Matrix, cited: map<int, int>)
    returns (owners: Assignment)
    requires Shaped(chunks, ids, sims) && ids != []
    ensures |owners| == |chunks|
    ensures forall i :: 0 <= i < |chunks| ==> PrimaryChoice(chunks[i], sims[i], ids, cited, owners[i])
  {
    owners := seq(|chunks|, i => None);
    for i := 0 to |chunks|
      invariant |owners| == |chunks|
      invariant forall k :: 0 <= k < i ==> PrimaryChoice(chunks[k], sims[k], ids, cited, owners[k])
      invariant forall k :: i <= k < |chunks| ==> owners[k] == None
    {
      var best := ArgMax(sims[i]);
      if chunks[i].index in cited {
        owners := owners[i := Some(cited[chunks[i].index])];
      } else if sims[i][best] >= MIN_CHUNK_TO_NODE_SIMILARITY && !chunks[i].artifact {
        owners := owners[i := Some(ids[best])];
      }
    }
  }

  // ---------------------------------------------------------------- rescue pass

  ghost predicate Ascending(pool: seq<nat>) {
    forall k, m :: 0 <= k < m < |pool| ==> pool[k] < pool[m]
  }

  /** Node positions whose id no chunk carries. */
  function ZeroChunkNodes(ids: seq<int>, owners: Assignment, n: nat): (zero: seq<nat>)
    requires n <= |ids|
    ensures forall x: nat :: x in zero <==> x < n && Some(ids[x]) !in owners
    ensures Ascending(zero)
  {
    if n == 0 then []
    else
      var before := ZeroChunkNodes(ids, owners, n - 1);
      assert forall k :: 0 <= k < |before| ==> before[k] in before;
      before + if Some(ids[n - 1]) in owners then [] else [n - 1]
  }

  /** Chunks without a node that are no artifacts. */
  function UnassignedPool(chunks: seq<Chunk>, owners: Assignment, n: nat): (pool: seq<nat>)
    requires n <= |chunks| == |owners|
    ensures Ascending(pool)
    ensures forall i: nat :: i in pool <==> i < n && owners[i] == None && !chunks[i].artifact
  {
    if n == 0 then []
    else
      var before := UnassignedPool(chunks, owners, n - 1);
      assert forall k :: 0 <= k < |before| ==> before[k] in before;
      before + if owners[n - 1] == None && !chunks[n - 1].artifact then [n - 1] else []
  }

  ghost predicate InColumn(pool: seq<nat>, sims: Matrix, x: nat) {
    forall c: nat :: c in pool ==> c < |sims| && x < |sims[c]|
  }

  /** The chunk of the pool with the highest score for node x, the first of them on a tie. */
  ghost predicate IsBestOf(pool: seq<nat>, sims: Matrix, x: nat, best: nat)
    requires InColumn(pool, sims, x)
  {
    && best in pool
    && forall c: nat :: c in pool ==> sims[c][x] < sims[best][x] || (sims[c][x] == sims[best][x] && best <= c)
  }

  function BestOf(pool: seq<nat>, sims: Matrix, x: nat): (best: nat)
    requires pool != [] && Ascending(pool) && InColumn(pool, sims, x)
    ensures IsBestOf(pool, sims, x, best)
  {
    var last := pool[|pool| - 1];
    assert last in pool;
    if |pool| == 1 then last
    else
      var init := pool[..|pool| - 1];
      assert forall c: nat :: c in pool <==> c in init || c == last;
      var best := BestOf(init, sims, x);
      if sims[last][x] > sims[best][x] then last else best
  }

  /** The pool without its first entry equal to c. */
  function Remove(pool: seq<nat>, c: nat): (rest: seq<nat>)
    requires Ascending(pool)
    ensures Ascending(rest)
    ensures forall i: nat :: i in rest <==> i in pool && i != c
  {
    if pool == [] then []
    else
      assert forall i: nat :: i in pool <==> i == pool[0] || i in pool[1..];
      if pool[0] == c then pool[1..]
      else
        var rest := Remove(pool[1..], c);
        assert forall k :: 0 <= k < |rest| ==> rest[k] in rest;
        [pool[0]] + rest
  }

  /** The pool is ascending and has a score for each of the nodes. */
  ghost predicate Playable(sims: Matrix, zero: seq<nat>, pool: seq<nat>) {
    Ascending(pool) && forall k :: 0 <= k < |zero| ==> InColumn(pool, sims, zero[k])
  }

  lemma PlayableNext(sims: Matrix, zero: seq<nat>, pool: seq<nat>, c: nat)
    requires Playable(sims, zero, pool) && zero != []
    ensures Playable(sims, zero[1..], pool) && Playable(sims, zero[1..], Remove(pool, c))
  {
    forall k | 0 <= k < |zero[1..]|
      ensures InColumn(pool, sims, zero[1..][k]) && InColumn(Remove(pool, c), sims, zero[1..][k])
    {
      assert InColumn(pool, sims, zero[k + 1]);
    }
  }

  /** For each node in turn, the chunk it is rescued with. */
  function Rescues(sims: Matrix, zero: seq<nat>, pool: seq<nat>): (picks: seq<Option<nat>>)
    requires Playable(sims, zero, pool)
    ensures |picks| == |zero|
    decreases |zero|
  {
    if zero == [] then []
    else if pool == [] then PlayableNext(sims, zero, pool, 0); [None] + Rescues(sims, zero[1..], pool)
    else
      var best := BestOf(pool, sims, zero[0]);
      PlayableNext(sims, zero, pool, best);
      if sims[best][zero[0]] >= FALLBACK_CHUNK_TO_NODE_SIMILARITY
      then [Some(best)] + Rescues(sims, zero[1..], Remove(pool, best))
      else [None] + Rescues(sims, zero[1..], pool)
  }

  /** What is left of the pool when all nodes have had their turn. */
  ghost predicate Left(pool: seq<nat>, picks: seq<Option<nat>>, c: nat) {
    c in pool && Some(c) !in picks
  }

  /** The pool after the first turn. */
  ghost function NextPool(sims: Matrix, zero: seq<nat>, pool: seq<nat>): (rest: seq<nat>)
    requires Playable(sims, zero, pool) && zero != []
    ensures Playable(sims, zero[1..], rest)
    ensures Rescues(sims, zero, pool) == [Rescues(sims, zero, pool)[0]] + Rescues(sims, zero[1..], rest)
    ensures forall c: nat :: c in rest <==> c in pool && Rescues(sims, zero, pool)[0] != Some(c)
    ensures Rescues(sims, zero, pool)[0].Some? ==>
              var best := Rescues(sims, zero, pool)[0].value;
              IsBestOf(pool, sims, zero[0], best) && sims[best][zero[0]] >= FALLBACK_CHUNK_TO_NODE_SIMILARITY
  {
    PlayableNext(sims, zero, pool, if pool == [] then 0 else BestOf(pool, sims, zero[0]));
    match Rescues(sims, zero, pool)[0]
    case None => pool
    case Some(best) => Remove(pool, best)
  }

  lemma {:induction false} RescuedFromPool(sims: Matrix, zero: seq<nat>, pool: seq<nat>, k: nat)
    requires Playable(sims, zero, pool) && k < |zero|
    ensures var pick := Rescues(sims, zero, pool)[k];
            pick.Some? ==> pick.value in pool && pick.value < |sims| && zero[k] < |sims[pick.value]|
    decreases |zero|
  {
    if k > 0 {
      var rest := NextPool(sims, zero, pool);
      RescuedFromPool(sims, zero[1..], rest, k - 1);
    }
    assert InColumn(pool, sims, zero[k]);
  }

  lemma LaterRescue(sims: Matrix, zero: seq<nat>, pool: seq<nat>, rest: seq<nat>, k: nat)
    requires Playable(sims, zero, pool) && 0 < k < |zero| && rest == NextPool(sims, zero, pool)
    ensures Rescues(sims, zero, pool)[k] == Rescues(sims, zero[1..], rest)[k - 1]
  {
  }

  /** No chunk is given to two nodes. */
  lemma {:induction false} RescuedOnce(sims: Matrix, zero: seq<nat>, pool: seq<nat>, k: nat, m: nat)
    requires Playable(sims, zero, pool) && k < m < |zero|
    ensures Rescues(sims, zero, pool)[k].Some? ==> Rescues(sims, zero, pool)[k] != Rescues(sims, zero, pool)[m]
    decreases |zero|
  {
    var rest := NextPool(sims, zero, pool);
    LaterRescue(sims, zero, pool, rest, m);
    if k > 0 {
      LaterRescue(sims, zero, pool, rest, k);
      RescuedOnce(sims, zero[1..], rest, k - 1, m - 1);
    } else {
      RescuedFromPool(sims, zero[1..], rest, m - 1);
    }
  }

  /**
    Turn k is fair: a rescue reaches the threshold and beats every chunk left over; a refusal had no
    chunk left that reaches it.
  */
  ghost predicate FairTurn(sims: Matrix, x: nat, pick: Option<nat>, c: nat)
    requires c < |sims| && x < |sims[c]|
    requires pick.Some? ==> pick.value < |sims| && x < |sims[pick.value]|
  {
    if pick.Some? then sims[pick.value][x] >= FALLBACK_CHUNK_TO_NODE_SIMILARITY && sims[c][x] <= sims[pick.value][x]
    else sims[c][x] < FALLBACK_CHUNK_TO_NODE_SIMILARITY
  }

  lemma {:induction false} RescuesFair(sims: Matrix, zero: seq<nat>, pool: seq<nat>, k: nat, c: nat)
    requires Playable(sims, zero, pool)
    requires k < |zero| && Left(pool, Rescues(sims, zero, pool), c)
    ensures var pick := Rescues(sims, zero, pool)[k];
            && (pick.Some? ==> pick.value in pool) && InColumn(pool, sims, zero[k])
            && FairTurn(sims, zero[k], pick, c)
    decreases |zero|
  {
    var rest, picks := NextPool(sims, zero, pool), Rescues(sims, zero, pool);
    assert picks[0] in picks;
    if k > 0 {
      assert Left(rest, picks[1..], c);
      RescuesFair(sims, zero[1..], rest, k - 1, c);
    }
  }

  ghost predicate InBounds(owners: Assignment, ids: seq<int>, zero: seq<nat>, picks: seq<Option<nat>>) {
    && |picks| == |zero|
    && forall k :: 0 <= k < |zero| ==> zero[k] < |ids| && (picks[k].Some? ==> picks[k].value < |owners|)
  }

  /** The rescued chunks written into the assignment, one node after the other. */
  function Applied(owners: Assignment, ids: seq<int>, zero: seq<nat>, picks: seq<Option<nat>>): (r: Assignment)
    requires InBounds(owners, ids, zero, picks)
    ensures |r| == |owners|
    decreases |zero|
  {
    if zero == [] then owners
    else
      var next := if picks[0].Some? then owners[picks[0].value := Some(ids[zero[0]])] else owners;
      Applied(next, ids, zero[1..], picks[1..])
  }

  lemma {:induction false} AppliedElsewhere(owners: Assignment, ids: seq<int>, zero: seq<nat>,
                                            picks: seq<Option<nat>>, c: nat)
    requires InBounds(owners, ids, zero, picks) && c < |owners| && Some(c) !in picks
    ensures Applied(owners, ids, zero, picks)[c] == owners[c]
    decreases |zero|
  {
    if zero != [] {
      assert picks[0] in picks;
      AppliedElsewhere(if picks[0].Some? then owners[picks[0].value := Some(ids[zero[0]])] else owners,
                       ids, zero[1..], picks[1..], c);
    }
  }

  lemma {:induction false} AppliedAt(owners: Assignment, ids: seq<int>, zero: seq<nat>, picks: seq<Option<nat>>, k: nat)
    requires InBounds(owners, ids, zero, picks) && k < |zero| && picks[k].Some?
    requires forall a, b :: 0 <= a < b < |picks| && picks[a].Some? ==> picks[a] != picks[b]
    ensures Applied(owners, ids, zero, picks)[picks[k].value] == Some(ids[zero[k]])
    decreases |zero|
  {
    var next := if picks[0].Some? then owners[picks[0].value := Some(ids[zero[0]])] else owners;
    if k == 0 {
      AppliedElsewhere(next, ids, zero[1..], picks[1..], picks[0].value);
    } else {
      AppliedAt(next, ids, zero[1..], picks[1..], k - 1);
    }
  }

  lemma {:induction false} NothingApplied(sims: Matrix, owners: Assignment, ids: seq<int>, zero: seq<nat>)
    requires forall k :: 0 <= k < |zero| ==> zero[k] < |ids|
    ensures Playable(sims, zero, []) && forall k :: 0 <= k < |zero| ==> Rescues(sims, zero, [])[k] == None
    ensures Applied(owners, ids, zero, Rescues(sims, zero, [])) == owners
    decreases |zero|
  {
    if zero != [] {
      NothingApplied(sims, owners, ids, zero[1..]);
      assert Rescues(sims, zero, [])[1..] == Rescues(sims, zero[1..], []);
    }
  }

  // ---------------------------------------------------------------- both passes together

  /** The nodes in need and the chunks on offer when the rescue pass starts. */
  ghost predicate RescueStart(chunks: seq<Chunk>, ids: seq<int>, sims: Matrix, primary: Assignment,
                              zero: seq<nat>, pool: seq<nat>)
    requires |primary| == |chunks|
  {
    && Shaped(chunks, ids, sims)
    && zero == ZeroChunkNodes(ids, primary, |ids|) && pool == UnassignedPool(chunks, primary, |chunks|)
  }

  lemma StartIsPlayable(chunks: seq<Chunk>, ids: seq<int>, sims: Matrix, primary: Assignment,
                        zero: seq<nat>, pool: seq<nat>)
    requires |primary| == |chunks| && RescueStart(chunks, ids, sims, primary, zero, pool)
    ensures Playable(sims, zero, pool) && InBounds(primary, ids, zero, Rescues(sims, zero, pool))
  {
    forall k | 0 <= k < |zero| ensures InColumn(pool, sims, zero[k]) {
      assert zero[k] in zero;
    }
    var picks := Rescues(sims, zero, pool);
    forall k | 0 <= k < |zero| ensures zero[k] < |ids| && (picks[k].Some? ==> picks[k].value < |primary|) {
      assert zero[k] in zero;
      RescuedFromPool(sims, zero, pool, k);
    }
  }

  /** Where the rescue of the remaining nodes leads from here. */
  ghost function Outcome(sims: Matrix, ids: seq<int>, owners: Assignment, zero: seq<nat>, pool: seq<nat>): Assignment
    requires Playable(sims, zero, pool) && InBounds(owners, ids, zero, Rescues(sims, zero, pool))
  {
    Applied(owners, ids, zero, Rescues(sims, zero, pool))
  }

  ghost predicate Underway(sims: Matrix, ids: seq<int>, owners: Assignment, zero: seq<nat>, pool: seq<nat>,
                           goal: Assignment)
  {
    && |owners| == |sims|
    && Playable(sims, zero, pool) && InBounds(owners, ids, zero, Rescues(sims, zero, pool))
    && Outcome(sims, ids, owners, zero, pool) == goal
  }

  lemma Turn(sims: Matrix, ids: seq<int>, owners: Assignment, zero: seq<nat>, pool: seq<nat>, goal: Assignment,
             best: nat)
    requires Underway(sims, ids, owners, zero, pool, goal)
    requires zero != [] && pool != [] && best == BestOf(pool, sims, zero[0])
    ensures best < |owners| && best < |sims| && zero[0] < |sims[best]| && zero[0] < |ids|
    ensures if sims[best][zero[0]] >= FALLBACK_CHUNK_TO_NODE_SIMILARITY
            then Underway(sims, ids, owners[best := Some(ids[zero[0]])], zero[1..], Remove(pool, best), goal)
            else Underway(sims, ids, owners, zero[1..], pool, goal)
  {
    PlayableNext(sims, zero, pool, best);
    var picks := Rescues(sims, zero, pool);
    assert InColumn(pool, sims, zero[0]);
    assert picks[0].Some? ==> picks[1..] == Rescues(sims, zero[1..], Remove(pool, best));
    assert picks[0].None? ==> picks[1..] == Rescues(sims, zero[1..], pool);
  }

  /** The loop over the nodes in need. */
  method OfferChunks(sims: Matrix, ids: seq<int>, primary: Assignment, zero: seq<nat>, pool: seq<nat>)
    returns (owners: Assignment)
    requires Playable(sims, zero, pool) && |primary| == |sims|
    requires InBounds(primary, ids, zero, Rescues(sims, zero, pool))
    ensures owners == Applied(primary, ids, zero, Rescues(sims, zero, pool))
  {
    ghost var goal := Outcome(sims, ids, primary, zero, pool);
    var needy, offer := zero, pool;
    owners := primary;
    while needy != [] && offer != []
      invariant Underway(sims, ids, owners, needy, offer, goal)
      decreases |needy|
    {
      var x := needy[0];
      var best := BestOf(offer, sims, x);
      Turn(sims, ids, owners, needy, offer, goal, best);
      if sims[best][x] >= FALLBACK_CHUNK_TO_NODE_SIMILARITY {
        owners := owners[best := Some(ids[x])];
        offer := Remove(offer, best);
      }
      needy := needy[1..];
    }
    if needy != [] {
      NothingApplied(sims, owners, ids, needy);
    }
  }

  /** Node after node takes its first best chunk of what is left, if that scores high enough. */
  ghost predicate IsRescue(chunks: seq<Chunk>, ids: seq<int>, sims: Matrix, primary: Assignment, owners: Assignment)
    requires Shaped(chunks, ids, sims) && |primary| == |chunks|
  {
    var zero, pool := ZeroChunkNodes(ids, primary, |ids|), UnassignedPool(chunks, primary, |chunks|);
    && Playable(sims, zero, pool) && InBounds(primary, ids, zero, Rescues(sims, zero, pool))
    && owners == Outcome(sims, ids, primary, zero, pool)
  }

  method RescueZeroChunkNodes(chunks: seq<Chunk>, ids: seq<int>, sims: Matrix, primary: Assignment)
    returns (owners: Assignment)
    requires Shaped(chunks, ids, sims) && |primary| == |chunks|
    ensures |owners| == |chunks| && IsRescue(chunks, ids, sims, primary, owners)
    ensures RescueMaximal(chunks, ids, sims, primary, owners)
  {
    var zero, pool := ZeroChunkNodes(ids, primary, |ids|), UnassignedPool(chunks, primary, |chunks|);
    StartIsPlayable(chunks, ids, sims, primary, zero, pool);
    owners := OfferChunks(sims, ids, primary, zero, pool);
    RescueIsMaximal(chunks, ids, sims, primary, zero, pool);
  }

  /** What the final assignment guarantees about the chunks left over and about the rescued ones. */
  ghost predicate RescueMaximal(chunks: seq<Chunk>, ids: seq<int>, sims: Matrix, primary: Assignment,
                                owners: Assignment)
    requires Shaped(chunks, ids, sims) && |primary| == |owners| == |chunks|
  {
    && (forall c :: 0 <= c < |chunks| && primary[c].Some? ==> owners[c] == primary[c])
    && (forall c :: 0 <= c < |chunks| && owners[c] != primary[c] ==>
          RescuedChunk(chunks, ids, sims, primary, owners, c))
    && (forall x, c :: 0 <= x < |ids| && Some(ids[x]) !in owners && 0 <= c < |chunks| && Offered(chunks, owners, c) ==>
          sims[c][x] < FALLBACK_CHUNK_TO_NODE_SIMILARITY)
    && (Distinct(ids) ==>
          forall c, d :: 0 <= c < d < |chunks| && owners[c] != primary[c] && owners[d] != primary[d] ==>
            owners[c] != owners[d])
  }

  ghost predicate Offered(chunks: seq<Chunk>, owners: Assignment, c: nat)
    requires c < |chunks| == |owners|
  {
    owners[c] == None && !chunks[c].artifact
  }

  /** Chunk c went to a node that had none, scores high enough for it, and no chunk left over scores higher. */
  ghost predicate RescuedChunk(chunks: seq<Chunk>, ids: seq<int>, sims: Matrix, primary: Assignment,
                               owners: Assignment, c: nat)
    requires Shaped(chunks, ids, sims) && |primary| == |owners| == |chunks| && c < |chunks|
  {
    && Offered(chunks, primary, c)
    && exists x: nat ::
         && x < |ids| && owners[c] == Some(ids[x]) && Some(ids[x]) !in primary
         && sims[c][x] >= FALLBACK_CHUNK_TO_NODE_SIMILARITY
         && forall d: nat :: d < |chunks| && Offered(chunks, owners, d) ==> sims[d][x] <= sims[c][x]
  }

  lemma LeftIsOffered(chunks: seq<Chunk>, ids: seq<int>, sims: Matrix, primary: Assignment,
                      zero: seq<nat>, pool: seq<nat>, c: nat)
    requires |primary| == |chunks| && RescueStart(chunks, ids, sims, primary, zero, pool)
    requires Playable(sims, zero, pool) && InBounds(primary, ids, zero, Rescues(sims, zero, pool)) && c < |chunks|
    ensures var picks := Rescues(sims, zero, pool);
            var owners := Applied(primary, ids, zero, picks);
            && (Some(c) !in picks ==> owners[c] == primary[c])
            && (Some(c) in picks ==> Offered(chunks, primary, c) && owners[c].Some?)
            && (Offered(chunks, owners, c) ==> Left(pool, picks, c))
  {
    var picks := Rescues(sims, zero, pool);
    if Some(c) in picks {
      var k :| 0 <= k < |picks| && picks[k] == Some(c);
      TakenBy(chunks, ids, sims, primary, zero, pool, k);
    } else {
      AppliedElsewhere(primary, ids, zero, picks, c);
    }
  }

  lemma TakenBy(chunks: seq<Chunk>, ids: seq<int>, sims: Matrix, primary: Assignment,
                zero: seq<nat>, pool: seq<nat>, k: nat)
    requires |primary| == |chunks| && RescueStart(chunks, ids, sims, primary, zero, pool)
    requires Playable(sims, zero, pool) && InBounds(primary, ids, zero, Rescues(sims, zero, pool))
    requires k < |zero| && Rescues(sims, zero, pool)[k].Some?
    ensures var picks := Rescues(sims, zero, pool);
            && picks[k].value in pool
            && Applied(primary, ids, zero, picks)[picks[k].value] == Some(ids[zero[k]])
  {
    var picks := Rescues(sims, zero, pool);
    RescuedFromPool(sims, zero, pool, k);
    forall a, b | 0 <= a < b < |picks| && picks[a].Some? ensures picks[a] != picks[b] {
      RescuedOnce(sims, zero, pool, a, b);
    }
    AppliedAt(primary, ids, zero, picks, k);
  }

  /** Every promise of the rescue pass, for every similarity matrix. */
  lemma RescueIsMaximal(chunks: seq<Chunk>, ids: seq<int>, sims: Matrix, primary: Assignment,
                        zero: seq<nat>, pool: seq<nat>)
    requires |primary| == |chunks| && RescueStart(chunks, ids, sims, primary, zero, pool)
    requires Playable(sims, zero, pool) && InBounds(primary, ids, zero, Rescues(sims, zero, pool))
    ensures RescueMaximal(chunks, ids, sims, primary, Applied(primary, ids, zero, Rescues(sims, zero, pool)))
  {
    var picks := Rescues(sims, zero, pool);
    var owners := Applied(primary, ids, zero, picks);
    forall c: nat | c < |chunks| && primary[c].Some? ensures owners[c] == primary[c] {
      LeftIsOffered(chunks, ids, sims, primary, zero, pool, c);
    }
    forall c: nat | c < |chunks| && owners[c] != primary[c]
      ensures RescuedChunk(chunks, ids, sims, primary, owners, c)
    {
      RescuedWell(chunks, ids, sims, primary, zero, pool, c);
    }
    forall x: nat, c: nat | x < |ids| && Some(ids[x]) !in owners && c < |chunks| && Offered(chunks, owners, c)
      ensures sims[c][x] < FALLBACK_CHUNK_TO_NODE_SIMILARITY
    {
      RefusedWell(chunks, ids, sims, primary, zero, pool, x, c);
    }
    if Distinct(ids) {
      forall c: nat, d: nat | c < d < |chunks| && owners[c] != primary[c] && owners[d] != primary[d]
        ensures owners[c] != owners[d]
      {
        OneChunkEach(chunks, ids, sims, primary, zero, pool, c, d);
      }
    }
  }

  /** The turn in which a rescued chunk was taken. */
  lemma TurnOf(chunks: seq<Chunk>, ids: seq<int>, sims: Matrix, primary: Assignment,
               zero: seq<nat>, pool: seq<nat>, c: nat) returns (k: nat)
    requires |primary| == |chunks| && RescueStart(chunks, ids, sims, primary, zero, pool)
    requires Playable(sims, zero, pool) && InBounds(primary, ids, zero, Rescues(sims, zero, pool)) && c < |chunks|
    requires Applied(primary, ids, zero, Rescues(sims, zero, pool))[c] != primary[c]
    ensures k < |zero| && zero[k] < |ids| && Rescues(sims, zero, pool)[k] == Some(c)
    ensures Applied(primary, ids, zero, Rescues(sims, zero, pool))[c] == Some(ids[zero[k]])
  {
    var picks := Rescues(sims, zero, pool);
    LeftIsOffered(chunks, ids, sims, primary, zero, pool, c);
    k :| 0 <= k < |picks| && picks[k] == Some(c);
    TakenBy(chunks, ids, sims, primary, zero, pool, k);
    assert zero[k] in zero;
  }

  /** With distinct ids no node is rescued with two chunks. */
  lemma OneChunkEach(chunks: seq<Chunk>, ids: seq<int>, sims: Matrix, primary: Assignment,
                     zero: seq<nat>, pool: seq<nat>, c: nat, d: nat)
    requires |primary| == |chunks| && RescueStart(chunks, ids, sims, primary, zero, pool)
    requires Playable(sims, zero, pool) && InBounds(primary, ids, zero, Rescues(sims, zero, pool))
    requires Distinct(ids) && c < d < |chunks|
    requires Applied(primary, ids, zero, Rescues(sims, zero, pool))[c] != primary[c]
    requires Applied(primary, ids, zero, Rescues(sims, zero, pool))[d] != primary[d]
    ensures Applied(primary, ids, zero, Rescues(sims, zero, pool))[c]
         != Applied(primary, ids, zero, Rescues(sims, zero, pool))[d]
  {
    var k := TurnOf(chunks, ids, sims, primary, zero, pool, c);
    var m := TurnOf(chunks, ids, sims, primary, zero, pool, d);
    assert k != m;
    NeedyOnce(ids, primary, zero, k, m);
  }

  /** The nodes in need are listed once each. */
  lemma NeedyOnce(ids: seq<int>, primary: Assignment, zero: seq<nat>, k: nat, m: nat)
    requires zero == ZeroChunkNodes(ids, primary, |ids|) && k < |zero| && m < |zero| && k != m
    ensures zero[k] != zero[m]
  {
  }

  lemma RescuedWell(chunks: seq<Chunk>, ids: seq<int>, sims: Matrix, primary: Assignment,
                    zero: seq<nat>, pool: seq<nat>, c: nat)
    requires |primary| == |chunks| && RescueStart(chunks, ids, sims, primary, zero, pool)
    requires Playable(sims, zero, pool) && InBounds(primary, ids, zero, Rescues(sims, zero, pool)) && c < |chunks|
    requires Applied(primary, ids, zero, Rescues(sims, zero, pool))[c] != primary[c]
    ensures RescuedChunk(chunks, ids, sims, primary, Applied(primary, ids, zero, Rescues(sims, zero, pool)), c)
  {
    var picks := Rescues(sims, zero, pool);
    var owners := Applied(primary, ids, zero, picks);
    LeftIsOffered(chunks, ids, sims, primary, zero, pool, c);
    var k :| 0 <= k < |picks| && picks[k] == Some(c);
    TakenBy(chunks, ids, sims, primary, zero, pool, k);
    var x := zero[k];
    assert x in zero;
    ReachesThreshold(sims, zero, pool, k);
    forall d: nat | d < |chunks| && Offered(chunks, owners, d) ensures sims[d][x] <= sims[c][x] {
      LeftIsOffered(chunks, ids, sims, primary, zero, pool, d);
      RescuesFair(sims, zero, pool, k, d);
    }
  }

  ghost predicate Reaches(sims: Matrix, x: nat, pick: Option<nat>) {
    pick.Some? ==>
      pick.value < |sims| && x < |sims[pick.value]| && sims[pick.value][x] >= FALLBACK_CHUNK_TO_NODE_SIMILARITY
  }

  lemma FirstReaches(sims: Matrix, zero: seq<nat>, pool: seq<nat>)
    requires Playable(sims, zero, pool) && zero != []
    ensures Reaches(sims, zero[0], Rescues(sims, zero, pool)[0])
  {
    var rest := NextPool(sims, zero, pool);
    assert InColumn(pool, sims, zero[0]);
  }

  lemma {:induction false} ReachesThreshold(sims: Matrix, zero: seq<nat>, pool: seq<nat>, k: nat)
    requires Playable(sims, zero, pool) && k < |zero|
    ensures Reaches(sims, zero[k], Rescues(sims, zero, pool)[k])
    decreases |zero|
  {
    if k == 0 {
      FirstReaches(sims, zero, pool);
    } else {
      var rest := NextPool(sims, zero, pool);
      ReachesThreshold(sims, zero[1..], rest, k - 1);
      assert Rescues(sims, zero, pool)[k] == Rescues(sims, zero[1..], rest)[k - 1];
    }
  }

  lemma OwnersStay(chunks: seq<Chunk>, ids: seq<int>, sims: Matrix, primary: Assignment,
                   zero: seq<nat>, pool: seq<nat>, id: int)
    requires |primary| == |chunks| && RescueStart(chunks, ids, sims, primary, zero, pool)
    requires Playable(sims, zero, pool) && InBounds(primary, ids, zero, Rescues(sims, zero, pool))
    ensures Some(id) in primary ==> Some(id) in Applied(primary, ids, zero, Rescues(sims, zero, pool))
  {
    if Some(id) in primary {
      var d :| 0 <= d < |primary| && primary[d] == Some(id);
      LeftIsOffered(chunks, ids, sims, primary, zero, pool, d);
      assert Applied(primary, ids, zero, Rescues(sims, zero, pool))[d] == Some(id);
    }
  }

  lemma RescuedOwns(chunks: seq<Chunk>, ids: seq<int>, sims: Matrix, primary: Assignment,
                    zero: seq<nat>, pool: seq<nat>, k: nat)
    requires |primary| == |chunks| && RescueStart(chunks, ids, sims, primary, zero, pool)
    requires Playable(sims, zero, pool) && InBounds(primary, ids, zero, Rescues(sims, zero, pool)) && k < |zero|
    ensures Rescues(sims, zero, pool)[k].Some? ==>
              Some(ids[zero[k]]) in Applied(primary, ids, zero, Rescues(sims, zero, pool))
  {
    if Rescues(sims, zero, pool)[k].Some? {
      TakenBy(chunks, ids, sims, primary, zero, pool, k);
    }
  }

  lemma RefusedWell(chunks: seq<Chunk>, ids: seq<int>, sims: Matrix, primary: Assignment,
                    zero: seq<nat>, pool: seq<nat>, x: nat, c: nat)
    requires |primary| == |chunks| && RescueStart(chunks, ids, sims, primary, zero, pool)
    requires Playable(sims, zero, pool) && InBounds(primary, ids, zero, Rescues(sims, zero, pool))
    requires x < |ids| && c < |chunks|
    requires var owners := Applied(primary, ids, zero, Rescues(sims, zero, pool));
             Some(ids[x]) !in owners && Offered(chunks, owners, c)
    ensures sims[c][x] < FALLBACK_CHUNK_TO_NODE_SIMILARITY
  {
    var picks := Rescues(sims, zero, pool);
    var owners := Applied(primary, ids, zero, picks);
    OwnersStay(chunks, ids, sims, primary, zero, pool, ids[x]);
    assert x in zero;
    var k :| 0 <= k < |zero| && zero[k] == x;
    RescuedOwns(chunks, ids, sims, primary, zero, pool, k);
    LeftIsOffered(chunks, ids, sims, primary, zero, pool, c);
    RescuesFair(sims, zero, pool, k, c);
  }

  // ---------------------------------------------------------------- the rescue turn by turn

  /** Chunk c is on offer in turn k: free at the start and not taken in an earlier turn. */
  ghost predicate OnOffer(chunks: seq<Chunk>, primary: Assignment, picks: seq<Option<nat>>, k: nat, c: nat)
    requires |primary| == |chunks| && k <= |picks|
  {
    c < |chunks| && Offered(chunks, primary, c) && forall m :: 0 <= m < k ==> picks[m] != Some(c)
  }

  /** In turn k node x takes the first best chunk on offer at 0.45 or more, or none if there is none. */
  ghost predicate TakesBest(chunks: seq<Chunk>, sims: Matrix, primary: Assignment, picks: seq<Option<nat>>, k: nat,
                            x: nat)
    requires |primary| == |chunks| == |sims| && k < |picks| && forall c :: 0 <= c < |sims| ==> x < |sims[c]|
  {
    match picks[k]
    case None => forall d: nat :: OnOffer(chunks, primary, picks, k, d) ==> sims[d][x] < 0.45
    case Some(c) =>
      && OnOffer(chunks, primary, picks, k, c) && sims[c][x] >= 0.45
      && forall d: nat :: OnOffer(chunks, primary, picks, k, d) ==>
           sims[d][x] < sims[c][x] || (sims[d][x] == sims[c][x] && c <= d)
  }

  /** needy lists, in order, the nodes that own no chunk. */
  ghost predicate AreNeedy(ids: seq<int>, primary: Assignment, needy: seq<nat>) {
    KeptOf(needy, |ids|) && forall x: nat :: x in needy <==> x < |ids| && Some(ids[x]) !in primary
  }

  /** Node after node in need takes the best chunk on offer; the others keep what they have. */
  ghost predicate RescueTurns(chunks: seq<Chunk>, ids: seq<int>, sims: Matrix, primary: Assignment,
                              owners: Assignment, needy: seq<nat>, picks: seq<Option<nat>>)
    requires Shaped(chunks, ids, sims) && |primary| == |owners| == |chunks|
  {
    && AreNeedy(ids, primary, needy) && |picks| == |needy|
    && (forall k :: 0 <= k < |needy| ==> TakesBest(chunks, sims, primary, picks, k, needy[k]))
    && (forall k :: 0 <= k < |needy| && picks[k].Some? ==>
          picks[k].value < |owners| && owners[picks[k].value] == Some(ids[needy[k]]))
    && (forall c: nat :: c < |chunks| && Some(c) !in picks ==> owners[c] == primary[c])
  }

  /** Waiting in turn k. */
  ghost predicate StillIn(pool: seq<nat>, picks: seq<Option<nat>>, k: nat, c: nat)
    requires k <= |picks|
  {
    c in pool && Some(c) !in picks[..k]
  }

  /** Turn k of the rescues, on the pool. */
  ghost predicate FairPick(sims: Matrix, x: nat, pool: seq<nat>, picks: seq<Option<nat>>, k: nat)
    requires InColumn(pool, sims, x) && k < |picks|
  {
    match picks[k]
    case None => forall d: nat :: StillIn(pool, picks, k, d) ==> sims[d][x] < 0.45
    case Some(c) =>
      && StillIn(pool, picks, k, c) && sims[c][x] >= 0.45
      && forall d: nat :: StillIn(pool, picks, k, d) ==>
           sims[d][x] < sims[c][x] || (sims[d][x] == sims[c][x] && c <= d)
  }

  lemma FirstPick(sims: Matrix, zero: seq<nat>, pool: seq<nat>)
    requires Playable(sims, zero, pool) && zero != []
    ensures InColumn(pool, sims, zero[0])
    ensures FairPick(sims, zero[0], pool, Rescues(sims, zero, pool), 0)
  {
    assert InColumn(pool, sims, zero[0]);
    var picks := Rescues(sims, zero, pool);
    if pool != [] {
      var best := BestOf(pool, sims, zero[0]);
      assert IsBestOf(pool, sims, zero[0], best);
    }
  }

  lemma StillInNext(pool: seq<nat>, rest: seq<nat>, picks: seq<Option<nat>>, k: nat, c: nat)
    requires 0 < k <= |picks| && (c in rest <==> c in pool && picks[0] != Some(c))
    ensures StillIn(pool, picks, k, c) <==> StillIn(rest, picks[1..], k - 1, c)
  {
    assert picks[..k] == [picks[0]] + picks[1..][..k - 1];
  }

  lemma FairPickCarries(sims: Matrix, x: nat, pool: seq<nat>, rest: seq<nat>, picks: seq<Option<nat>>, k: nat)
    requires 0 < k < |picks| && InColumn(pool, sims, x) && InColumn(rest, sims, x)
    requires forall c: nat :: c in rest <==> c in pool && picks[0] != Some(c)
    requires FairPick(sims, x, rest, picks[1..], k - 1)
    ensures FairPick(sims, x, pool, picks, k)
  {
    forall c: nat ensures StillIn(pool, picks, k, c) <==> StillIn(rest, picks[1..], k - 1, c) {
      StillInNext(pool, rest, picks, k, c);
    }
    assert picks[k] == picks[1..][k - 1];
  }

  lemma LaterPick(sims: Matrix, zero: seq<nat>, pool: seq<nat>, rest: seq<nat>, k: nat)
    requires Playable(sims, zero, pool) && 0 < k < |zero| && rest == NextPool(sims, zero, pool)
    requires InColumn(pool, sims, zero[k]) && InColumn(rest, sims, zero[k])
    requires FairPick(sims, zero[k], rest, Rescues(sims, zero[1..], rest), k - 1)
    ensures FairPick(sims, zero[k], pool, Rescues(sims, zero, pool), k)
  {
    var picks := Rescues(sims, zero, pool);
    assert picks[1..] == Rescues(sims, zero[1..], rest);
    FairPickCarries(sims, zero[k], pool, rest, picks, k);
  }

  lemma {:induction false} PicksFair(sims: Matrix, zero: seq<nat>, pool: seq<nat>, k: nat, x: nat)
    requires Playable(sims, zero, pool) && k < |zero| && zero[k] == x
    ensures InColumn(pool, sims, x) && FairPick(sims, x, pool, Rescues(sims, zero, pool), k)
    decreases |zero|
  {
    if k == 0 {
      FirstPick(sims, zero, pool);
    } else {
      var rest := NextPool(sims, zero, pool);
      PicksFair(sims, zero[1..], rest, k - 1, x);
      LaterPick(sims, zero, pool, rest, k);
    }
  }

  lemma OfferIsPool(chunks: seq<Chunk>, primary: Assignment, pool: seq<nat>, picks: seq<Option<nat>>, k: nat, c: nat)
    requires |primary| == |chunks| && pool == UnassignedPool(chunks, primary, |chunks|) && k <= |picks|
    ensures OnOffer(chunks, primary, picks, k, c) <==> StillIn(pool, picks, k, c)
  {
    assert Some(c) in picks[..k] <==> exists m :: 0 <= m < k && picks[m] == Some(c);
  }

  lemma TurnTakesBest(chunks: seq<Chunk>, ids: seq<int>, sims: Matrix, primary: Assignment,
                      zero: seq<nat>, pool: seq<nat>, k: nat)
    requires |primary| == |chunks| && RescueStart(chunks, ids, sims, primary, zero, pool)
    requires Playable(sims, zero, pool) && k < |zero|
    ensures zero[k] < |ids| && TakesBest(chunks, sims, primary, Rescues(sims, zero, pool), k, zero[k])
  {
    assert zero[k] in zero;
    var picks := Rescues(sims, zero, pool);
    PicksFair(sims, zero, pool, k, zero[k]);
    forall c: nat ensures OnOffer(chunks, primary, picks, k, c) <==> StillIn(pool, picks, k, c) {
      OfferIsPool(chunks, primary, pool, picks, k, c);
    }
  }

  ghost predicate RescuedInTurns(chunks: seq<Chunk>, ids: seq<int>, sims: Matrix, primary: Assignment,
                                 owners: Assignment)
    requires Shaped(chunks, ids, sims) && |primary| == |owners| == |chunks|
  {
    exists needy, picks :: RescueTurns(chunks, ids, sims, primary, owners, needy, picks)
  }

  /** The rescue, without its own recursion: who is in need, who takes what, and what everyone owns then. */
  lemma RescueInTurns(chunks: seq<Chunk>, ids: seq<int>, sims: Matrix, primary: Assignment, owners: Assignment)
    returns (needy: seq<nat>, picks: seq<Option<nat>>)
    requires Shaped(chunks, ids, sims) && |primary| == |owners| == |chunks|
    requires IsRescue(chunks, ids, sims, primary, owners)
    ensures RescueTurns(chunks, ids, sims, primary, owners, needy, picks)
  {
    var pool := UnassignedPool(chunks, primary, |chunks|);
    needy := ZeroChunkNodes(ids, primary, |ids|);
    picks := Rescues(sims, needy, pool);
    forall k | 0 <= k < |needy| ensures needy[k] < |ids| {
      assert needy[k] in needy;
    }
    forall k | 0 <= k < |needy| ensures TakesBest(chunks, sims, primary, picks, k, needy[k]) {
      TurnTakesBest(chunks, ids, sims, primary, needy, pool, k);
    }
    forall k | 0 <= k < |needy| && picks[k].Some?
      ensures picks[k].value < |owners| && owners[picks[k].value] == Some(ids[needy[k]])
    {
      TakenBy(chunks, ids, sims, primary, needy, pool, k);
    }
    forall c: nat | c < |chunks| && Some(c) !in picks ensures owners[c] == primary[c] {
      AppliedElsewhere(primary, ids, needy, picks, c);
    }
  }

  // ---------------------------------------------------------------- the assignment part of _chunk_and_store

  method AssignChunks(chunks: seq<Chunk>, ids: seq<int>, sims: Matrix, cited: map<int, int>)
    returns (owners: Assignment, ghost primary: Assignment)
    requires Shaped(chunks, ids, sims)
    ensures |owners| == |primary| == |chunks|
    ensures ids == [] ==> forall c :: 0 <= c < |chunks| ==> owners[c] == None
    ensures ids != [] ==> forall c :: 0 <= c < |chunks| ==> PrimaryChoice(chunks[c], sims[c], ids, cited, primary[c])
    ensures ids != [] ==>
              && IsRescue(chunks, ids, sims, primary, owners)
              && RescueMaximal(chunks, ids, sims, primary, owners)
    ensures ids != [] ==> RescuedInTurns(chunks, ids, sims, primary, owners)
  {
    owners := seq(|chunks|, i => None);
    primary := owners;
    if ids != [] {
      owners := AssignPrimary(chunks, ids, sims, cited);
      primary := owners;
      owners := RescueZeroChunkNodes(chunks, ids, sims, owners);
      ghost var needy, picks := RescueInTurns(chunks, ids, sims, primary, owners);
    }
  }
}
