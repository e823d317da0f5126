/**
  Ranking of course candidates: filter, stable sort by score, and for discovery a greedy re-ranking
  that charges each category for the courses of it already placed. Scores are arbitrary reals.
*/
module DiversityRanking {
  import opened Knowledge
  import opened Ordering

  /** category is the lower-cased category, empty if there is none. */
  datatype Candidate = Candidate(id: int, category: string, enrolled: bool, progress: Option<real>)

  datatype Scored = Scored(score: real, candidate: Candidate)

  const CATEGORY_PENALTY := 0.08

  // ---------------------------------------------------------------- base order

  predicate Eligible(discovery: bool, c: Candidate) {
    if discovery then !c.enrolled
    else c.enrolled && (c.progress.None? || c.progress.value < 100.0)
  }

  function Keys(entries: seq<Scored>): (keys: seq<SortKey>)
    ensures |keys| == |entries|
    ensures forall i :: 0 <= i < |entries| ==>
              keys[i] == SortKey(-entries[i].score, entries[i].candidate.id as real, 0.0)
  {
    seq(|entries|, i requires 0 <= i < |entries| => SortKey(-entries[i].score, entries[i].candidate.id as real, 0.0))
  }

  /** Higher score first, lower id on equal scores. */
  predicate AtLeastAsGood(a: Scored, b: Scored) {
    a.score > b.score || (a.score == b.score && a.candidate.id <= b.candidate.id)
  }

  ghost predicate Ranked(entries: seq<Scored>) {
    forall i, j :: 0 <= i < j < |entries| ==> AtLeastAsGood(entries[i], entries[j])
  }

  /** Larger scores first; equal scores by ascending id. */
  function SortScored(entries: seq<Scored>): (sorted: seq<Scored>)
    ensures |sorted| == |entries|
  {
    Pick(entries, StableSort(Keys(entries)))
  }

  lemma SortScoredRanks(entries: seq<Scored>)
    ensures Ranked(SortScored(entries)) && multiset(SortScored(entries)) == multiset(entries)
  {
    var order := StableSort(Keys(entries));
    OrderIsDistinct(Keys(entries), order);
    PickKeepsEntries(entries, order);
    forall i, j | 0 <= i < j < |order| ensures AtLeastAsGood(entries[order[i]], entries[order[j]]) {
      assert Precedes(Keys(entries), order[i], order[j]);
    }
  }

  // ---------------------------------------------------------------- the greedy loop

  /** Entries of the category already placed; the empty category is never charged. */
  function Placed(base: seq<Scored>, placed: seq<nat>, category: string): nat
    requires forall k :: 0 <= k < |placed| ==> placed[k] < |base|
  {
    if placed == [] || category == "" then 0
    else
      Placed(base, placed[..|placed| - 1], category)
      + if base[placed[|placed| - 1]].candidate.category == category then 1 else 0
  }

  function Charge(placed: nat): real {
    CATEGORY_PENALTY * (placed as real)
  }

  /** The selection key of position i, first component. */
  function Charged(base: seq<Scored>, placed: seq<nat>, i: nat): real
    requires i < |base| && forall k :: 0 <= k < |placed| ==> placed[k] < |base|
  {
    base[i].score - Charge(Placed(base, placed, base[i].candidate.category))
  }

  /** `max` prefers a over b: larger charged score, then lower id, then the earlier place. */
  ghost predicate Preferred(base: seq<Scored>, placed: seq<nat>, a: nat, b: nat)
    requires a < |base| && b < |base| && forall k :: 0 <= k < |placed| ==> placed[k] < |base|
  {
    var ka, kb := Charged(base, placed, a), Charged(base, placed, b);
    ka > kb || (ka == kb && (base[a].candidate.id < base[b].candidate.id
                             || (base[a].candidate.id == base[b].candidate.id && a <= b)))
  }

  /**
    perm lists positions of the base order: each position once, and each turn takes a position that
    is preferred over all that are still waiting.
  */
  ghost predicate GreedyTrace(base: seq<Scored>, perm: seq<nat>) {
    && (forall k :: 0 <= k < |perm| ==> perm[k] < |base|)
    && (forall k, m :: 0 <= k < m < |perm| ==> perm[k] != perm[m])
    && (forall k, m :: 0 <= k < m < |perm| ==> Preferred(base, perm[..k], perm[k], perm[m]))
  }

  // ---------------------------------------------------------------- what greedy diversity guarantees

  /** What an inversion in the trace says about the two entries. */
  lemma Overtaking(base: seq<Scored>, perm: seq<nat>, k: nat, m: nat)
    requires Ranked(base) && GreedyTrace(base, perm) && k < m < |perm|
    ensures Preferred(base, perm[..k], perm[k], perm[m]) && perm[k] != perm[m]
    ensures perm[m] < perm[k] ==> AtLeastAsGood(base[perm[m]], base[perm[k]])
  {
  }

  /** Inside one category the base order is kept. */
  lemma CategoryOrderKept(base: seq<Scored>, perm: seq<nat>, k: nat, m: nat)
    requires Ranked(base) && GreedyTrace(base, perm) && k < m < |perm|
    requires base[perm[k]].candidate.category == base[perm[m]].candidate.category
    ensures perm[k] < perm[m]
  {
    Overtaking(base, perm, k, m);
  }

  /** A candidate never gets ahead of an uncategorised one that it followed in the base order. */
  lemma UncategorisedNeverOvertaken(base: seq<Scored>, perm: seq<nat>, k: nat, m: nat)
    requires Ranked(base) && GreedyTrace(base, perm) && k < m < |perm|
    requires base[perm[m]].candidate.category == ""
    ensures perm[k] < perm[m]
  {
    Overtaking(base, perm, k, m);
  }

  /** An inversion is paid for: the lead it overcomes is covered by the charges of the overtaken category. */
  lemma InversionIsPaidFor(base: seq<Scored>, perm: seq<nat>, k: nat, m: nat)
    requires Ranked(base) && GreedyTrace(base, perm) && k < m < |perm|
    requires perm[m] < perm[k]
    ensures var a, b := base[perm[k]], base[perm[m]];
            0.0 <= b.score - a.score <= Charge(Placed(base, perm[..k], b.candidate.category))
  {
    Overtaking(base, perm, k, m);
  }

  /** No two scores differ by more than spread. */
  ghost predicate SpreadAtMost(base: seq<Scored>, spread: real) {
    forall i, j :: 0 <= i < |base| && 0 <= j < |base| ==> base[i].score - base[j].score <= spread
  }

  lemma PickedWithinSpread(base: seq<Scored>, placed: seq<nat>, a: nat, b: nat, spread: real)
    requires a < |base| && b < |base| && forall k :: 0 <= k < |placed| ==> placed[k] < |base|
    requires Preferred(base, placed, a, b) && SpreadAtMost(base, spread)
    ensures Charge(Placed(base, placed, base[a].candidate.category))
            <= Charge(Placed(base, placed, base[b].candidate.category)) + spread
  {
    assert base[a].score - base[b].score <= spread;
  }

  /** The claim about one prefix, on numbers: a category, the waiting one, and the spread. */
  predicate Ahead(category: nat, waiting: nat, spread: real) {
    Charge(category) <= Charge(waiting + 1) + spread
  }

  lemma AheadGrows(category: nat, waiting: nat, step: nat, spread: real)
    ensures Charge(category) <= Charge(waiting) + spread ==> Ahead(category + 1, waiting, spread)
    ensures Ahead(category, waiting, spread) ==> Ahead(category, waiting + step, spread)
  {
  }

  /** One turn, in which position a is preferred over the waiting position b, keeps the claim. */
  lemma AheadKept(base: seq<Scored>, placed: seq<nat>, a: nat, b: nat, category: string, spread: real)
    requires a < |base| && b < |base| && forall k :: 0 <= k < |placed| ==> placed[k] < |base|
    requires Preferred(base, placed, a, b) && SpreadAtMost(base, spread)
    requires base[b].candidate.category != category
    requires Ahead(Placed(base, placed, category), Placed(base, placed, base[b].candidate.category), spread)
    ensures Ahead(Placed(base, placed + [a], category), Placed(base, placed + [a], base[b].candidate.category), spread)
  {
    assert (placed + [a])[..|placed|] == placed;
    PickedWithinSpread(base, placed, a, b, spread);
    AheadGrows(Placed(base, placed, category), Placed(base, placed, base[b].candidate.category), 1, spread);
  }

  lemma TurnPrefers(base: seq<Scored>, perm: seq<nat>, k: nat, m: nat)
    requires GreedyTrace(base, perm) && k < m < |perm|
    ensures perm[k] < |base| && perm[m] < |base| && forall i :: 0 <= i < k ==> perm[..k][i] < |base|
    ensures Preferred(base, perm[..k], perm[k], perm[m])
    ensures perm[..k + 1] == perm[..k] + [perm[k]]
  {
  }

  lemma TurnKeepsAhead(base: seq<Scored>, perm: seq<nat>, k: nat, m: nat, category: string, spread: real)
    requires GreedyTrace(base, perm) && k < m < |perm|
    requires base[perm[m]].candidate.category != category && SpreadAtMost(base, spread)
    requires Ahead(Placed(base, perm[..k], category), Placed(base, perm[..k], base[perm[m]].candidate.category), spread)
    ensures Ahead(Placed(base, perm[..k + 1], category),
                  Placed(base, perm[..k + 1], base[perm[m]].candidate.category), spread)
  {
    TurnPrefers(base, perm, k, m);
    AheadKept(base, perm[..k], perm[k], perm[m], category, spread);
  }

  /**
    No category takes over the slate: as long as a candidate of another category waits, a category
    is ahead of it by at most one course plus one for each 0.08 of the spread of the scores.
  */
  lemma {:induction false} NoCategoryTakesOver(base: seq<Scored>, perm: seq<nat>, k: nat, m: nat, category: string,
                                               spread: real)
    requires GreedyTrace(base, perm) && k <= m < |perm|
    requires base[perm[m]].candidate.category != category && SpreadAtMost(base, spread)
    ensures Ahead(Placed(base, perm[..k], category), Placed(base, perm[..k], base[perm[m]].candidate.category), spread)
    decreases k
  {
    if k == 0 {
      assert base[perm[m]].score - base[perm[m]].score <= spread;
    } else {
      NoCategoryTakesOver(base, perm, k - 1, m, category, spread);
      TurnKeepsAhead(base, perm, k - 1, m, category, spread);
    }
  }

  lemma SamePrefix(p: seq<nat>, q: seq<nat>, k: nat)
    requires k <= |p| && k <= |q| && p[..k] == q[..k]
    ensures forall i :: 0 <= i < k ==> p[i] == q[i]
  {
    forall i | 0 <= i < k ensures p[i] == q[i] {
      assert p[i] == p[..k][i];
    }
  }

  /** The next choice of one trace is preferred over the next choice of another that agrees so far. */
  lemma NextChoice(base: seq<Scored>, p: seq<nat>, q: seq<nat>, k: nat)
    requires GreedyTrace(base, p) && GreedyTrace(base, q)
    requires |p| == |q| == |base| && k < |base| && p[..k] == q[..k]
    ensures p[k] == q[k] || Preferred(base, p[..k], p[k], q[k])
  {
    var n := PlaceOf(base, p, q[k]);
    SamePrefix(p, q, k);
    if n < k { assert false; }
  }

  /** The greedy order is determined by the base order. */
  lemma {:induction false} GreedyOrderUnique(base: seq<Scored>, p: seq<nat>, q: seq<nat>, k: nat)
    requires GreedyTrace(base, p) && GreedyTrace(base, q)
    requires |p| == |q| == |base| && k <= |base|
    ensures p[..k] == q[..k]
  {
    if k > 0 {
      GreedyOrderUnique(base, p, q, k - 1);
      NextChoice(base, p, q, k - 1);
      NextChoice(base, q, p, k - 1);
      SamePreference(base, p[..k - 1], p[k - 1], q[k - 1]);
      assert p[..k] == p[..k - 1] + [p[k - 1]];
      assert q[..k] == q[..k - 1] + [q[k - 1]];
    }
  }

  lemma SamePreference(base: seq<Scored>, placed: seq<nat>, a: nat, b: nat)
    requires a < |base| && b < |base| && forall k :: 0 <= k < |placed| ==> placed[k] < |base|
    requires a == b || Preferred(base, placed, a, b)
    requires a == b || Preferred(base, placed, b, a)
    ensures a == b
  {
  }

  /** A trace as long as the base order misses no position. */
  lemma PlaceOf(base: seq<Scored>, perm: seq<nat>, i: nat) returns (m: nat)
    requires GreedyTrace(base, perm) && |perm| == |base| && i < |base|
    ensures m < |perm| && perm[m] == i
  {
    AllPositions(perm, |base|, i);
    m :| 0 <= m < |perm| && perm[m] == i;
  }

  // ---------------------------------------------------------------- the choices, in numbers

  /** The turns before turn k that placed an entry of the category. */
  ghost function TurnsOf(base: seq<Scored>, perm: seq<nat>, k: nat, category: string): set<nat>
    requires k <= |perm| && forall j :: 0 <= j < |perm| ==> perm[j] < |base|
  {
    set j: nat | j < k && base[perm[j]].candidate.category == category
  }

  lemma {:induction false} PlacedCountsTurns(base: seq<Scored>, perm: seq<nat>, k: nat, category: string)
    requires k <= |perm| && forall j :: 0 <= j < |perm| ==> perm[j] < |base|
    ensures Placed(base, perm[..k], category) == if category == "" then 0 else |TurnsOf(base, perm, k, category)|
    decreases k
  {
    if k == 0 {
      assert TurnsOf(base, perm, 0, category) == {};
    } else {
      PlacedCountsTurns(base, perm, k - 1, category);
      assert perm[..k][..k - 1] == perm[..k - 1];
      var before := TurnsOf(base, perm, k - 1, category);
      assert TurnsOf(base, perm, k, category)
          == before + if base[perm[k - 1]].candidate.category == category then {k - 1} else {};
    }
  }

  /** The score of an entry less 0.08 for each entry of its category placed before turn k; none without a category. */
  ghost function Worth(base: seq<Scored>, perm: seq<nat>, k: nat, i: nat): real
    requires k <= |perm| && i < |base| && forall j :: 0 <= j < |perm| ==> perm[j] < |base|
  {
    var category := base[i].candidate.category;
    base[i].score - if category == "" then 0.0 else 0.08 * |TurnsOf(base, perm, k, category)| as real
  }

  /** What turn k places is worth most of what waits; on equal worth the lower id, then the earlier place. */
  ghost predicate WorthMost(base: seq<Scored>, perm: seq<nat>, k: nat, m: nat)
    requires k < m < |perm| && forall j :: 0 <= j < |perm| ==> perm[j] < |base|
  {
    var a, b := Worth(base, perm, k, perm[k]), Worth(base, perm, k, perm[m]);
    var x, y := base[perm[k]].candidate.id, base[perm[m]].candidate.id;
    a > b || (a == b && (x < y || (x == y && perm[k] < perm[m])))
  }

  ghost predicate AlwaysWorthMost(base: seq<Scored>, perm: seq<nat>) {
    && (forall j :: 0 <= j < |perm| ==> perm[j] < |base|)
    && (forall k, m :: 0 <= k < m < |perm| ==> WorthMost(base, perm, k, m))
  }

  lemma GreedyTakesWorthiest(base: seq<Scored>, perm: seq<nat>)
    requires GreedyTrace(base, perm)
    ensures AlwaysWorthMost(base, perm)
  {
    forall k, m | 0 <= k < m < |perm| ensures WorthMost(base, perm, k, m) {
      PreferredIsWorthMost(base, perm, k, m);
    }
  }

  lemma PreferredIsWorthMost(base: seq<Scored>, perm: seq<nat>, k: nat, m: nat)
    requires GreedyTrace(base, perm) && k < m < |perm|
    ensures WorthMost(base, perm, k, m)
  {
    TurnPrefers(base, perm, k, m);
    PlacedCountsTurns(base, perm, k, base[perm[k]].candidate.category);
    PlacedCountsTurns(base, perm, k, base[perm[m]].candidate.category);
  }

  // ---------------------------------------------------------------- permutations of positions

  /** Positions below n, each at most once. */
  ghost predicate Placement(perm: seq<nat>, n: nat) {
    (forall k :: 0 <= k < |perm| ==> perm[k] < n) && Distinct(perm)
  }

  function Without<T>(xs: seq<T>, k: nat): (r: seq<T>)
    requires k < |xs|
    ensures |r| == |xs| - 1
    ensures forall i :: 0 <= i < |r| ==> r[i] == if i < k then xs[i] else xs[i + 1]
  {
    xs[..k] + xs[k + 1..]
  }

  lemma {:induction false} PlacementFits(perm: seq<nat>, n: nat)
    requires Placement(perm, n)
    ensures |perm| <= n
    decreases n
  {
    if n > 0 {
      if k :| 0 <= k < |perm| && perm[k] == n - 1 {
        PlacementFits(Without(perm, k), n - 1);
      } else {
        PlacementFits(perm, n - 1);
      }
    } else {
      NonEmptyRange(perm, n);
    }
  }

  lemma NonEmptyRange(perm: seq<nat>, n: nat)
    requires Placement(perm, n)
    ensures perm != [] ==> n > 0
  {
    if perm != [] {
      assert perm[0] < n;
    }
  }

  lemma AllPositions(perm: seq<nat>, n: nat, i: nat)
    requires Placement(perm, n) && |perm| == n && i < n
    ensures i in perm
  {
    if i !in perm {
      var more := perm + [i];
      assert Placement(more, n);
      PlacementFits(more, n);
      assert false;
    }
  }

  function Pick<T>(xs: seq<T>, perm: seq<nat>): (r: seq<T>)
    requires forall k :: 0 <= k < |perm| ==> perm[k] < |xs|
    ensures |r| == |perm|
    ensures forall k :: 0 <= k < |perm| ==> r[k] == xs[perm[k]]
  {
    seq(|perm|, k requires 0 <= k < |perm| => xs[perm[k]])
  }

  /** Picking by a permutation of the positions keeps every entry, with its multiplicity. */
  lemma {:induction false} PickKeepsEntries<T>(xs: seq<T>, perm: seq<nat>)
    requires Placement(perm, |xs|) && |perm| == |xs|
    ensures multiset(Pick(xs, perm)) == multiset(xs)
    decreases |xs|
  {
    if xs == [] {
      assert Pick(xs, perm) == [];
    } else {
      var n := |xs| - 1;
      AllPositions(perm, |xs|, n);
      var k :| 0 <= k < |perm| && perm[k] == n;
      PickWithout(xs, perm, k);
      PickKeepsEntries(xs[..n], Without(perm, k));
      WithoutOne(Pick(xs, perm), k);
      WithoutOne(xs, n);
      assert Without(xs, n) == xs[..n];
    }
  }

  lemma PickWithout<T>(xs: seq<T>, perm: seq<nat>, k: nat)
    requires Placement(perm, |xs|) && k < |perm| && perm[k] == |xs| - 1
    ensures Placement(Without(perm, k), |xs| - 1)
    ensures Pick(xs[..|xs| - 1], Without(perm, k)) == Without(Pick(xs, perm), k)
  {
    var fewer := Without(perm, k);
    forall i | 0 <= i < |fewer| ensures fewer[i] < |xs| - 1 {
      assert fewer[i] == perm[if i < k then i else i + 1];
    }
  }

  lemma WithoutOne<T>(xs: seq<T>, k: nat)
    requires k < |xs|
    ensures multiset(xs) == multiset(Without(xs, k)) + multiset{xs[k]}
  {
    assert xs == xs[..k] + [xs[k]] + xs[k + 1..];
  }

  // ---------------------------------------------------------------- the loop

  function Count(counts: map<string, nat>, category: string): nat {
    if category in counts then counts[category] else 0
  }

  /** counts holds, for every category, the number of entries placed; the empty one has no entry. */
  ghost predicate CountsPlaced(base: seq<Scored>, perm: seq<nat>, counts: map<string, nat>)
    requires forall k :: 0 <= k < |perm| ==> perm[k] < |base|
  {
    forall category :: Count(counts, category) == Placed(base, perm, category)
  }

  /** a comes before b in `max`'s order of the keys, or has the same key. */
  predicate KeyAtLeast(counts: map<string, nat>, a: Scored, b: Scored) {
    var ka := a.score - Charge(Count(counts, a.candidate.category));
    var kb := b.score - Charge(Count(counts, b.candidate.category));
    ka > kb || (ka == kb && a.candidate.id <= b.candidate.id)
  }

  /** The first entry with the largest key. */
  method FirstMax(remaining: seq<Scored>, counts: map<string, nat>) returns (b: nat)
    requires remaining != []
    ensures b < |remaining|
    ensures forall j :: 0 <= j < |remaining| ==> KeyAtLeast(counts, remaining[b], remaining[j])
    ensures forall j :: 0 <= j < b ==> !KeyAtLeast(counts, remaining[j], remaining[b])
  {
    b := 0;
    for i := 1 to |remaining|
      invariant b < i
      invariant forall j :: 0 <= j < i ==> KeyAtLeast(counts, remaining[b], remaining[j])
      invariant forall j :: 0 <= j < b ==> !KeyAtLeast(counts, remaining[j], remaining[b])
    {
      if !KeyAtLeast(counts, remaining[b], remaining[i]) {
        b := i;
      }
    }
  }

  /** The list without its first entry equal to x. */
  function Remove(remaining: seq<Scored>, x: Scored): (r: seq<Scored>)
    requires x in remaining
    ensures |r| == |remaining| - 1
  {
    if remaining[0] == x then remaining[1..] else [remaining[0]] + Remove(remaining[1..], x)
  }

  lemma {:induction false} RemoveFirst(remaining: seq<Scored>, b: nat)
    requires b < |remaining| && forall j :: 0 <= j < b ==> remaining[j] != remaining[b]
    ensures Remove(remaining, remaining[b]) == Without(remaining, b)
  {
    if b > 0 {
      assert remaining[1..][b - 1] == remaining[b];
      RemoveFirst(remaining[1..], b - 1);
    }
  }

  /** perm lists the placed positions and spots, in ascending order, those that still wait. */
  ghost predicate Progress(base: seq<Scored>, perm: seq<nat>, spots: seq<nat>) {
    && GreedyTrace(base, perm)
    && KeptOf(spots, |base|)
    && |perm| + |spots| == |base|
    && (forall k, m :: 0 <= k < |perm| && 0 <= m < |spots| ==>
          perm[k] != spots[m] && Preferred(base, perm[..k], perm[k], spots[m]))
  }

  ghost predicate Mirrors(base: seq<Scored>, places: seq<nat>, entries: seq<Scored>) {
    |entries| == |places| && forall k :: 0 <= k < |places| ==> places[k] < |base| && entries[k] == base[places[k]]
  }

  lemma PreferredByCounts(base: seq<Scored>, perm: seq<nat>, counts: map<string, nat>, a: nat, b: nat)
    requires a < |base| && b < |base| && forall k :: 0 <= k < |perm| ==> perm[k] < |base|
    requires CountsPlaced(base, perm, counts)
    requires KeyAtLeast(counts, base[a], base[b])
    requires b < a ==> !KeyAtLeast(counts, base[b], base[a])
    ensures Preferred(base, perm, a, b)
  {
    assert Count(counts, base[a].candidate.category) == Placed(base, perm, base[a].candidate.category);
    assert Count(counts, base[b].candidate.category) == Placed(base, perm, base[b].candidate.category);
  }

  lemma MaxIsPreferred(base: seq<Scored>, perm: seq<nat>, counts: map<string, nat>, spots: seq<nat>,
                       remaining: seq<Scored>, b: nat)
    requires forall k :: 0 <= k < |perm| ==> perm[k] < |base|
    requires CountsPlaced(base, perm, counts)
    requires KeptOf(spots, |base|) && Mirrors(base, spots, remaining) && b < |spots|
    requires forall j :: 0 <= j < |remaining| ==> KeyAtLeast(counts, remaining[b], remaining[j])
    requires forall j :: 0 <= j < b ==> !KeyAtLeast(counts, remaining[j], remaining[b])
    ensures forall j :: 0 <= j < |spots| ==> Preferred(base, perm, spots[b], spots[j])
  {
    forall j | 0 <= j < |spots| ensures Preferred(base, perm, spots[b], spots[j]) {
      assert j < b ==> !KeyAtLeast(counts, remaining[j], remaining[b]);
      PreferredByCounts(base, perm, counts, spots[b], spots[j]);
    }
  }

  lemma SpotsLeft(spots: seq<nat>, n: nat, b: nat)
    requires KeptOf(spots, n) && b < |spots|
    ensures KeptOf(Without(spots, b), n)
    ensures forall m :: 0 <= m < |spots| - 1 ==> Without(spots, b)[m] != spots[b]
  {
  }

  lemma WaitingStayBehind(base: seq<Scored>, perm: seq<nat>, spots: seq<nat>, b: nat, k: nat, m: nat)
    requires Progress(base, perm, spots) && b < |spots| && k <= |perm| && m < |spots| - 1
    requires forall j :: 0 <= j < |spots| ==> Preferred(base, perm, spots[b], spots[j])
    ensures var next, left := perm + [spots[b]], Without(spots, b);
            left[m] < |base| && next[k] != left[m] && Preferred(base, next[..k], next[k], left[m])
  {
    var next := perm + [spots[b]];
    SpotsLeft(spots, |base|, b);
    assert next[..k] == perm[..k];
    assert perm[..|perm|] == perm;
  }

  lemma ProgressStep(base: seq<Scored>, perm: seq<nat>, spots: seq<nat>, b: nat)
    requires Progress(base, perm, spots) && b < |spots|
    requires forall j :: 0 <= j < |spots| ==> Preferred(base, perm, spots[b], spots[j])
    ensures Progress(base, perm + [spots[b]], Without(spots, b))
  {
    var next, left := perm + [spots[b]], Without(spots, b);
    SpotsLeft(spots, |base|, b);
    TraceGrows(base, perm, spots, b);
    forall k, m | 0 <= k < |next| && 0 <= m < |left|
      ensures next[k] != left[m] && Preferred(base, next[..k], next[k], left[m])
    {
      WaitingStayBehind(base, perm, spots, b, k, m);
    }
  }

  lemma TraceGrows(base: seq<Scored>, perm: seq<nat>, spots: seq<nat>, b: nat)
    requires Progress(base, perm, spots) && b < |spots|
    ensures GreedyTrace(base, perm + [spots[b]])
  {
    var next := perm + [spots[b]];
    forall k, m | 0 <= k < m < |next| ensures Preferred(base, next[..k], next[k], next[m]) && next[k] != next[m] {
      assert next[..k] == perm[..k];
    }
  }

  /** The counts after a placement: a candidate without a category counts for none. */
  function Counted(counts: map<string, nat>, category: string): map<string, nat> {
    if category != "" then counts[category := Count(counts, category) + 1] else counts
  }

  lemma CountsGrow(base: seq<Scored>, perm: seq<nat>, counts: map<string, nat>, i: nat)
    requires i < |base| && forall k :: 0 <= k < |perm| ==> perm[k] < |base|
    requires CountsPlaced(base, perm, counts)
    ensures CountsPlaced(base, perm + [i], Counted(counts, base[i].candidate.category))
  {
    var more := perm + [i];
    var after := Counted(counts, base[i].candidate.category);
    forall category ensures Count(after, category) == Placed(base, more, category) {
      assert more[..|perm|] == perm;
      assert Count(counts, category) == Placed(base, perm, category);
    }
  }

  /** What the loop keeps: the placed entries, the waiting ones and the counts all follow the trace. */
  ghost predicate LoopState(base: seq<Scored>, perm: seq<nat>, spots: seq<nat>, diversified: seq<Scored>,
                            remaining: seq<Scored>, counts: map<string, nat>)
  {
    && Progress(base, perm, spots)
    && Mirrors(base, spots, remaining)
    && Mirrors(base, perm, diversified)
    && CountsPlaced(base, perm, counts)
  }

  lemma LoopStarts(base: seq<Scored>, spots: seq<nat>)
    requires |spots| == |base| && forall i :: 0 <= i < |base| ==> spots[i] == i
    ensures LoopState(base, [], spots, [], base, map[])
  {
  }

  lemma LoopStep(base: seq<Scored>, perm: seq<nat>, spots: seq<nat>, diversified: seq<Scored>,
                 remaining: seq<Scored>, counts: map<string, nat>, b: nat)
    requires LoopState(base, perm, spots, diversified, remaining, counts) && b < |remaining|
    requires forall j :: 0 <= j < |remaining| ==> KeyAtLeast(counts, remaining[b], remaining[j])
    requires forall j :: 0 <= j < b ==> !KeyAtLeast(counts, remaining[j], remaining[b])
    ensures LoopState(base, perm + [spots[b]], Without(spots, b), diversified + [remaining[b]],
                      Without(remaining, b), Counted(counts, remaining[b].candidate.category))
  {
    MaxIsPreferred(base, perm, counts, spots, remaining, b);
    CountsGrow(base, perm, counts, spots[b]);
    ProgressStep(base, perm, spots, b);
  }

  lemma LoopEnds(base: seq<Scored>, perm: seq<nat>, spots: seq<nat>, diversified: seq<Scored>, counts: map<string, nat>)
    requires LoopState(base, perm, spots, diversified, [], counts)
    ensures GreedyTrace(base, perm) && |perm| == |base|
    ensures diversified == Pick(base, perm) && multiset(diversified) == multiset(base)
  {
    PickKeepsEntries(base, perm);
  }

  /** The greedy loop: the result is the base order rearranged along a greedy trace of all its positions. */
  method Diversify(base: seq<Scored>) returns (diversified: seq<Scored>, ghost perm: seq<nat>)
    ensures GreedyTrace(base, perm) && |perm| == |base|
    ensures diversified == Pick(base, perm)
    ensures multiset(diversified) == multiset(base)
  {
    var remaining := base;
    diversified, perm := [], [];
    var counts: map<string, nat> := map[];
    ghost var spots: seq<nat> := seq(|base|, i => i);
    LoopStarts(base, spots);
    while remaining != []
      invariant LoopState(base, perm, spots, diversified, remaining, counts)
      decreases |remaining|
    {
      var b := FirstMax(remaining, counts);
      var best := remaining[b];
      LoopStep(base, perm, spots, diversified, remaining, counts, b);
      RemoveFirst(remaining, b);
      remaining := Remove(remaining, best);
      diversified := diversified + [best];
      var category := best.candidate.category;
      if category != "" {
        counts := counts[category := Count(counts, category) + 1];
      }
      perm, spots := perm + [spots[b]], Without(spots, b);
    }
    LoopEnds(base, perm, spots, diversified, counts);
  }

  // ---------------------------------------------------------------- the whole ranking

  function Shortlist(discovery: bool, candidates: seq<Candidate>): (r: seq<Candidate>)
    ensures forall c :: multiset(r)[c] == if Eligible(discovery, c) then multiset(candidates)[c] else 0
  {
    if candidates == [] then []
    else
      var last := candidates[|candidates| - 1];
      var before := Shortlist(discovery, candidates[..|candidates| - 1]);
      assert candidates == candidates[..|candidates| - 1] + [last];
      if Eligible(discovery, last) then before + [last] else before
  }

  /** Each course of the shortlist once, in the order of the list, with its score for this request. */
  function ScoreAll(shortlist: seq<Candidate>, score: Candidate -> real): (r: seq<Scored>)
    ensures |r| == |shortlist|
    ensures forall i :: 0 <= i < |r| ==> r[i] == Scored(score(shortlist[i]), shortlist[i])
  {
    seq(|shortlist|, i requires 0 <= i < |shortlist| => Scored(score(shortlist[i]), shortlist[i]))
  }

  lemma OnlyEligible(discovery: bool, candidates: seq<Candidate>, score: Candidate -> real, base: seq<Scored>)
    requires multiset(base) == multiset(ScoreAll(Shortlist(discovery, candidates), score))
    ensures forall i :: 0 <= i < |base| ==> Eligible(discovery, base[i].candidate)
  {
    var shortlist := Shortlist(discovery, candidates);
    var entries := ScoreAll(shortlist, score);
    forall i | 0 <= i < |base| ensures Eligible(discovery, base[i].candidate) {
      assert base[i] in multiset(base);
      var j :| 0 <= j < |entries| && entries[j] == base[i];
      assert shortlist[j] in multiset(shortlist);
    }
  }

  /** Discovery offers what the learner has not joined; otherwise only joined courses that are not finished. */
  ghost predicate Suits(discovery: bool, c: Candidate) {
    && (discovery ==> !c.enrolled)
    && (!discovery ==> c.enrolled && (c.progress == None || c.progress.value < 100.0))
  }

  /** The entries are the suitable candidates, each as often as it is given, with their scores. */
  ghost predicate ScoresSuitable(discovery: bool, candidates: seq<Candidate>, score: Candidate -> real,
                                 entries: seq<Scored>)
  {
    forall e :: HeldAsGiven(discovery, candidates, score, entries, e)
  }

  ghost predicate HeldAsGiven(discovery: bool, candidates: seq<Candidate>, score: Candidate -> real,
                              entries: seq<Scored>, e: Scored)
  {
    multiset(entries)[e] ==
      if Suits(discovery, e.candidate) && e.score == score(e.candidate) then multiset(candidates)[e.candidate] else 0
  }

  lemma {:induction false} ScoredCount(shortlist: seq<Candidate>, score: Candidate -> real, e: Scored)
    ensures multiset(ScoreAll(shortlist, score))[e] ==
      if e.score == score(e.candidate) then multiset(shortlist)[e.candidate] else 0
    decreases |shortlist|
  {
    if shortlist != [] {
      var init, last := shortlist[..|shortlist| - 1], shortlist[|shortlist| - 1];
      ScoredCount(init, score, e);
      assert shortlist == init + [last];
      assert ScoreAll(shortlist, score) == ScoreAll(init, score) + [Scored(score(last), last)];
    }
  }

  lemma ShortlistSuits(discovery: bool, candidates: seq<Candidate>, score: Candidate -> real, base: seq<Scored>)
    requires multiset(base) == multiset(ScoreAll(Shortlist(discovery, candidates), score))
    ensures ScoresSuitable(discovery, candidates, score, base)
  {
    forall e ensures HeldAsGiven(discovery, candidates, score, base, e) {
      EntrySuits(discovery, candidates, score, base, e);
    }
  }

  lemma EntrySuits(discovery: bool, candidates: seq<Candidate>, score: Candidate -> real, base: seq<Scored>, e: Scored)
    requires multiset(base) == multiset(ScoreAll(Shortlist(discovery, candidates), score))
    ensures HeldAsGiven(discovery, candidates, score, base, e)
  {
    ScoredCount(Shortlist(discovery, candidates), score, e);
  }

  /** Ranked, or in discovery the greedy order of the ranked entries. */
  method ArrangeEntries(discovery: bool, base: seq<Scored>) returns (arranged: seq<Scored>, ghost perm: seq<nat>)
    ensures |perm| == |base| && Placement(perm, |base|)
    ensures if discovery then GreedyTrace(base, perm) else forall k :: 0 <= k < |perm| ==> perm[k] == k
    ensures arranged == Pick(base, perm)
  {
    if discovery {
      arranged, perm := Diversify(base);
    } else {
      arranged, perm := base, seq(|base|, k => k);
    }
  }

  /**
    The slate is a prefix of an arrangement of the shortlist: the ranked one, or in discovery the one
    along the greedy trace of the ranked one. Nothing is dropped before the limit.
  */
  method RankCourseCandidates(discovery: bool, candidates: seq<Candidate>, score: Candidate -> real, limit: nat)
    returns (slate: seq<Scored>, ghost base: seq<Scored>, ghost perm: seq<nat>)
    ensures Ranked(base) && multiset(base) == multiset(ScoreAll(Shortlist(discovery, candidates), score))
    ensures |perm| == |base| && Placement(perm, |base|)
    ensures if discovery then GreedyTrace(base, perm) else forall k :: 0 <= k < |perm| ==> perm[k] == k
    ensures |slate| == if limit < |base| then limit else |base|
    ensures forall k :: 0 <= k < |slate| ==> slate[k] == base[perm[k]]
    ensures forall k :: 0 <= k < |slate| ==> Eligible(discovery, slate[k].candidate)
    ensures ScoresSuitable(discovery, candidates, score, base)
    ensures discovery ==> AlwaysWorthMost(base, perm)
  {
    var shortlist := Shortlist(discovery, candidates);
    var scored := ScoreAll(shortlist, score);
    SortScoredRanks(scored);
    scored := SortScored(scored);
    base := scored;
    scored, perm := ArrangeEntries(discovery, scored);
    slate := if limit < |scored| then scored[..limit] else scored;
    SlateSuits(discovery, candidates, score, base, perm);
  }

  lemma SlateSuits(discovery: bool, candidates: seq<Candidate>, score: Candidate -> real, base: seq<Scored>,
                   perm: seq<nat>)
    requires multiset(base) == multiset(ScoreAll(Shortlist(discovery, candidates), score))
    requires discovery ==> GreedyTrace(base, perm)
    ensures ScoresSuitable(discovery, candidates, score, base)
    ensures forall i :: 0 <= i < |base| ==> Eligible(discovery, base[i].candidate)
    ensures discovery ==> AlwaysWorthMost(base, perm)
  {
    OnlyEligible(discovery, candidates, score, base);
    ShortlistSuits(discovery, candidates, score, base);
    if discovery {
      GreedyTakesWorthiest(base, perm);
    }
  }
}
