/**
  Reciprocal rank fusion of result lists. An item carries the id its caller extracts and a similarity
  if it has one; dictionaries keep their keys in the order of first insertion.
*/
module RankFusion {
  import opened Knowledge
  import opened Ordering

  datatype Item = Item(id: string, similarity: Option<real>, text: string)

  /** An item at a rank of some list, as the nested loops meet it. */
  datatype Hit = Hit(rank: nat, item: Item)

  function Hits(list: seq<Item>): (hits: seq<Hit>)
    ensures |hits| == |list|
    ensures forall r :: 0 <= r < |list| ==> hits[r] == Hit(r, list[r])
  {
    seq(|list|, r requires 0 <= r < |list| => Hit(r, list[r]))
  }

  /** All hits of all lists, in the order of the nested loops. */
  function AllHits(lists: seq<seq<Item>>): seq<Hit> {
    if lists == [] then [] else AllHits(lists[..|lists| - 1]) + Hits(lists[|lists| - 1])
  }

  // ---------------------------------------------------------------- what the dictionaries hold

  /** What a hit at a rank earns; the expression has no value where the sum below the line is zero. */
  function Credit(k: int, rank: nat): (credit: real)
    ensures k >= 0 ==> credit > 0.0
    ensures RankDefined(k, rank) ==> credit * (k + rank + 1) as real == 1.0
  {
    if k + rank + 1 == 0 then 0.0 else 1.0 / (k + rank + 1) as real
  }

  predicate RankDefined(k: int, rank: nat) {
    k + rank + 1 != 0
  }

  /** No rank of the list divides by zero. */
  predicate ListDefined(list: seq<Item>, k: int) {
    forall r :: 0 <= r < |list| ==> RankDefined(k, r)
  }

  predicate Defined(lists: seq<seq<Item>>, k: int) {
    forall i :: 0 <= i < |lists| ==> ListDefined(lists[i], k)
  }

  /** The credits of an id, added up. */
  function Score(hits: seq<Hit>, k: int, id: string): real {
    if hits == [] then 0.0
    else
      var last := hits[|hits| - 1];
      Score(hits[..|hits| - 1], k, id) + if last.item.id == id then Credit(k, last.rank) else 0.0
  }

  /** The item replaces the existing one: both have a similarity, and its own is larger. */
  predicate Replaces(item: Item, existing: Item) {
    item.similarity.Some? && existing.similarity.Some? && item.similarity.value > existing.similarity.value
  }

  /** The item stored for an id after the hits. */
  function Kept(hits: seq<Hit>, id: string): Option<Item> {
    if hits == [] then None
    else
      var last, before := hits[|hits| - 1].item, Kept(hits[..|hits| - 1], id);
      if last.id != id then before
      else if before.None? || Replaces(last, before.value) then Some(last)
      else before
  }

  /** The ids in the order of their first hit. */
  function FirstSeen(hits: seq<Hit>): seq<string> {
    if hits == [] then []
    else
      var before, id := FirstSeen(hits[..|hits| - 1]), hits[|hits| - 1].item.id;
      if id in before then before else before + [id]
  }

  predicate IsHit(hits: seq<Hit>, h: nat, id: string) {
    h < |hits| && hits[h].item.id == id
  }

  ghost predicate Occurs(hits: seq<Hit>, id: string) {
    exists h :: IsHit(hits, h, id)
  }

  /** h is the first hit of the id. */
  ghost predicate IsFirstHit(hits: seq<Hit>, h: nat, id: string) {
    IsHit(hits, h, id) && forall g :: 0 <= g < h ==> !IsHit(hits, g, id)
  }

  lemma FirstHitUnique(hits: seq<Hit>, h: nat, g: nat, id: string)
    requires IsFirstHit(hits, h, id) && IsFirstHit(hits, g, id)
    ensures h == g
  {
    assert h < g ==> !IsHit(hits, h, id);
    assert g < h ==> !IsHit(hits, g, id);
  }

  /** The index of the first hit, or the number of hits. */
  function FirstPlace(hits: seq<Hit>, id: string): (place: nat)
    ensures place <= |hits|
  {
    if hits == [] then 0
    else
      var place := FirstPlace(hits[..|hits| - 1], id);
      if place == |hits| - 1 && hits[|hits| - 1].item.id != id then |hits| else place
  }

  lemma HitsSplit(hits: seq<Hit>, id: string)
    requires hits != []
    ensures forall h :: 0 <= h < |hits| - 1 ==> (IsHit(hits, h, id) <==> IsHit(hits[..|hits| - 1], h, id))
    ensures Occurs(hits, id) <==> Occurs(hits[..|hits| - 1], id) || hits[|hits| - 1].item.id == id
  {
    var before := hits[..|hits| - 1];
    forall h | 0 <= h < |hits| - 1 ensures IsHit(hits, h, id) <==> IsHit(before, h, id) {
    }
    if Occurs(before, id) {
      var h :| IsHit(before, h, id);
      assert IsHit(hits, h, id);
    }
    if hits[|hits| - 1].item.id == id {
      assert IsHit(hits, |hits| - 1, id);
    }
  }

  /** An id has a stored item, and a place in the order, exactly if it has a hit. */
  lemma {:induction false} StoredIffOccurs(hits: seq<Hit>, id: string)
    ensures Kept(hits, id).Some? <==> Occurs(hits, id)
    ensures id in FirstSeen(hits) <==> Occurs(hits, id)
    ensures Kept(hits, id).Some? ==> Kept(hits, id).value.id == id
    ensures !Occurs(hits, id) ==> Score(hits, 0, id) == 0.0
    decreases |hits|
  {
    if hits != [] {
      StoredIffOccurs(hits[..|hits| - 1], id);
      HitsSplit(hits, id);
    }
  }

  lemma {:induction false} FirstPlaceMeaning(hits: seq<Hit>, id: string)
    ensures FirstPlace(hits, id) < |hits| <==> Occurs(hits, id)
    ensures Occurs(hits, id) ==> IsFirstHit(hits, FirstPlace(hits, id), id)
    decreases |hits|
  {
    if hits != [] {
      var before := hits[..|hits| - 1];
      FirstPlaceMeaning(before, id);
      HitsSplit(hits, id);
      if Occurs(before, id) {
        forall g: nat | g < FirstPlace(before, id) ensures !IsHit(hits, g, id) {
          assert !IsHit(before, g, id);
        }
      } else if Occurs(hits, id) {
        OnlyHit(hits, id);
      }
    }
  }

  // ---------------------------------------------------------------- which item is kept

  /** No hit of the id with a similarity beats h, and earlier ones are strictly below it. */
  ghost predicate BestHit(hits: seq<Hit>, h: nat, id: string) {
    && IsHit(hits, h, id) && hits[h].item.similarity.Some?
    && forall g: nat :: IsHit(hits, g, id) && hits[g].item.similarity.Some? ==>
         var a, b := hits[g].item.similarity.value, hits[h].item.similarity.value;
         a <= b && (g < h ==> a < b)
  }

  lemma BestHitStays(hits: seq<Hit>, h: nat, id: string)
    requires hits != [] && BestHit(hits[..|hits| - 1], h, id)
    ensures var last := |hits| - 1;
            if hits[last].item.id == id && Replaces(hits[last].item, hits[h].item)
            then BestHit(hits, last, id) else BestHit(hits, h, id)
  {
    var last := |hits| - 1;
    var before := hits[..last];
    var best := if hits[last].item.id == id && Replaces(hits[last].item, hits[h].item) then last else h;
    assert IsHit(hits, best, id);
    forall g: nat | IsHit(hits, g, id) && hits[g].item.similarity.Some?
      ensures var a, b := hits[g].item.similarity.value, hits[best].item.similarity.value;
              a <= b && (g < best ==> a < b)
    {
      assert g < last ==> IsHit(before, g, id);
    }
  }

  lemma OnlyHit(hits: seq<Hit>, id: string)
    requires hits != [] && !Occurs(hits[..|hits| - 1], id) && hits[|hits| - 1].item.id == id
    ensures IsFirstHit(hits, |hits| - 1, id)
    ensures hits[|hits| - 1].item.similarity.Some? ==> BestHit(hits, |hits| - 1, id)
  {
    var last := |hits| - 1;
    forall g: nat | g < last ensures !IsHit(hits, g, id) {
      assert !IsHit(hits[..last], g, id);
    }
  }

  /**
    The kept item is the first hit if that has no similarity, and otherwise the earliest hit with
    the largest similarity.
  */
  lemma {:induction false} KeptMeaning(hits: seq<Hit>, id: string) returns (first: nat, kept: nat)
    requires Occurs(hits, id)
    ensures IsFirstHit(hits, first, id) && IsHit(hits, kept, id)
    ensures Kept(hits, id) == Some(hits[kept].item)
    ensures if hits[first].item.similarity.None? then kept == first else BestHit(hits, kept, id)
    decreases |hits|
  {
    assert hits != [];
    var last := |hits| - 1;
    var before := hits[..last];
    HitsSplit(hits, id);
    StoredIffOccurs(before, id);
    if Occurs(before, id) {
      first, kept := KeptMeaning(before, id);
      assert IsHit(hits, first, id) && IsHit(hits, kept, id);
      assert forall g :: 0 <= g < first ==> !IsHit(before, g, id);
      if BestHit(before, kept, id) {
        BestHitStays(hits, kept, id);
      }
      if hits[last].item.id == id && Replaces(hits[last].item, hits[kept].item) {
        kept := last;
      }
    } else {
      OnlyHit(hits, id);
      first, kept := last, last;
    }
  }

  /** An item with a similarity that the kept one does not have or does not reach. */
  predicate Beats(item: Item, kept: Item) {
    item.similarity.Some? && (kept.similarity.None? || item.similarity.value > kept.similarity.value)
  }

  /** A hit of the id beats the kept item. */
  ghost predicate LosesLarger(hits: seq<Hit>, id: string) {
    Kept(hits, id).Some? && exists h: nat :: IsHit(hits, h, id) && Beats(hits[h].item, Kept(hits, id).value)
  }

  ghost predicate SomeSimilarity(hits: seq<Hit>, id: string) {
    exists h: nat :: IsHit(hits, h, id) && hits[h].item.similarity.Some?
  }

  /** A larger similarity is lost exactly when the first hit has none and a later one does. */
  lemma LosesLargerIff(hits: seq<Hit>, id: string, first: nat)
    requires IsFirstHit(hits, first, id)
    ensures LosesLarger(hits, id) <==> hits[first].item.similarity.None? && SomeSimilarity(hits, id)
  {
    var f, kept := KeptMeaning(hits, id);
    FirstHitUnique(hits, f, first, id);
    if hits[first].item.similarity.None? && SomeSimilarity(hits, id) {
      var h: nat :| IsHit(hits, h, id) && hits[h].item.similarity.Some?;
      assert Beats(hits[h].item, hits[kept].item);
    }
  }

  /** Two lists in which that happens. */
  lemma FirstWithoutSimilarityStays(id: string, first: string, second: string, similarity: real)
    ensures var lists := [[Item(id, None, first)], [Item(id, Some(similarity), second)]];
            LosesLarger(AllHits(lists), id)
  {
    var a, b := Item(id, None, first), Item(id, Some(similarity), second);
    var lists := [[a], [b]];
    assert lists[..1] == [[a]] && [[a]][..0] == [];
    assert AllHits([[a]]) == AllHits([]) + Hits([a]);
    var hits := AllHits(lists);
    assert hits == [Hit(0, a), Hit(0, b)];
    assert IsHit(hits, 0, id) && IsHit(hits, 1, id);
    assert IsFirstHit(hits, 0, id);
    LosesLargerIff(hits, id, 0);
  }

  // ---------------------------------------------------------------- scores list after list

  predicate DistinctIds(list: seq<Item>) {
    forall r, s :: 0 <= r < s < |list| ==> list[r].id != list[s].id
  }

  ghost predicate AllDistinct(lists: seq<seq<Item>>) {
    forall i :: 0 <= i < |lists| ==> DistinctIds(lists[i])
  }

  ghost predicate At(list: seq<Item>, r: nat, id: string) {
    r < |list| && list[r].id == id
  }

  ghost predicate InList(list: seq<Item>, id: string) {
    exists r :: At(list, r, id)
  }

  lemma {:induction false} ScoreConcat(a: seq<Hit>, b: seq<Hit>, k: int, id: string)
    ensures Score(a + b, k, id) == Score(a, k, id) + Score(b, k, id)
    decreases |b|
  {
    if b == [] {
      assert a + b == a;
    } else {
      assert (a + b)[..|a + b| - 1] == a + b[..|b| - 1];
      ScoreConcat(a, b[..|b| - 1], k, id);
    }
  }

  /** In a list with distinct ids an id earns the credit of its rank, or nothing. */
  lemma {:induction false} ListScore(list: seq<Item>, k: int, id: string, n: nat, r: nat)
    requires DistinctIds(list) && n <= |list|
    ensures At(list, r, id) ==> Score(Hits(list)[..n], k, id) == if r < n then Credit(k, r) else 0.0
    ensures !InList(list, id) ==> Score(Hits(list)[..n], k, id) == 0.0
    decreases n
  {
    if n > 0 {
      ListScore(list, k, id, n - 1, r);
      assert Hits(list)[..n][..n - 1] == Hits(list)[..n - 1];
      assert list[n - 1].id == id ==> At(list, n - 1, id);
    }
  }

  /** Every list that contains y also contains x, at an earlier rank. */
  ghost predicate Unanimous(lists: seq<seq<Item>>, x: string, y: string) {
    forall i :: 0 <= i < |lists| ==> Prefers(lists[i], x, y)
  }

  ghost predicate Prefers(list: seq<Item>, x: string, y: string) {
    forall s :: At(list, s, y) ==> exists r :: r < s && At(list, r, x)
  }

  lemma PrefersScores(list: seq<Item>, k: int, x: string, y: string)
    requires k >= 0 && DistinctIds(list) && Prefers(list, x, y)
    ensures Score(Hits(list), k, x) >= Score(Hits(list), k, y)
    ensures InList(list, y) ==> Score(Hits(list), k, x) > Score(Hits(list), k, y)
  {
    assert Hits(list)[..|list|] == Hits(list);
    ScoreNotNegative(Hits(list), k, x);
    if InList(list, y) {
      var s :| At(list, s, y);
      var r :| r < s && At(list, r, x);
      ListScore(list, k, x, |list|, r);
      ListScore(list, k, y, |list|, s);
      CreditFalls(k, r, s);
    } else {
      ListScore(list, k, y, |list|, 0);
    }
  }

  lemma CreditFalls(k: int, r: nat, s: nat)
    requires k >= 0 && r < s
    ensures Credit(k, r) > Credit(k, s)
  {
    var a, b := (k + r + 1) as real, (k + s + 1) as real;
    assert 0.0 < a < b;
    assert 1.0 / a - 1.0 / b == (b - a) / (a * b);
  }

  lemma {:induction false} ScoreNotNegative(hits: seq<Hit>, k: int, id: string)
    requires k >= 0
    ensures Score(hits, k, id) >= 0.0
    decreases |hits|
  {
    if hits != [] {
      ScoreNotNegative(hits[..|hits| - 1], k, id);
    }
  }

  lemma LastListScore(lists: seq<seq<Item>>, k: int, id: string)
    requires lists != []
    ensures var last := |lists| - 1;
            Score(AllHits(lists), k, id) == Score(AllHits(lists[..last]), k, id) + Score(Hits(lists[last]), k, id)
  {
    ScoreConcat(AllHits(lists[..|lists| - 1]), Hits(lists[|lists| - 1]), k, id);
  }

  lemma UnanimousPrefix(lists: seq<seq<Item>>, x: string, y: string)
    requires lists != [] && Unanimous(lists, x, y) && AllDistinct(lists)
    ensures Unanimous(lists[..|lists| - 1], x, y)
    ensures Prefers(lists[|lists| - 1], x, y)
    ensures AllDistinct(lists[..|lists| - 1])
  {
  }

  /** If every list that contains y ranks x before it, x scores at least y, and more once a list has y. */
  lemma {:induction false} UnanimousScores(lists: seq<seq<Item>>, k: int, x: string, y: string, i: nat)
    requires k >= 0 && Unanimous(lists, x, y) && AllDistinct(lists)
    ensures Score(AllHits(lists), k, x) >= Score(AllHits(lists), k, y)
    ensures i < |lists| && InList(lists[i], y) ==> Score(AllHits(lists), k, x) > Score(AllHits(lists), k, y)
    decreases |lists|
  {
    if lists != [] {
      var last := |lists| - 1;
      UnanimousPrefix(lists, x, y);
      UnanimousScores(lists[..last], k, x, y, i);
      PrefersScores(lists[last], k, x, y);
      LastListScore(lists, k, x);
      LastListScore(lists, k, y);
    }
  }

  // ---------------------------------------------------------------- the fused list

  /** a was first met before b. */
  ghost predicate SeenBefore(hits: seq<Hit>, a: string, b: string) {
    FirstPlace(hits, a) < FirstPlace(hits, b)
  }

  /** a comes before b: a larger score, or the same score and met earlier. */
  ghost predicate Ahead(hits: seq<Hit>, k: int, a: string, b: string) {
    || Score(hits, k, a) > Score(hits, k, b)
    || (Score(hits, k, a) == Score(hits, k, b) && SeenBefore(hits, a, b))
  }

  /** Each id with a hit once, with its kept item, ordered by score and then by first hit. */
  ghost predicate IsFusion(hits: seq<Hit>, k: int, fused: seq<Item>) {
    && (forall i :: 0 <= i < |fused| ==> Kept(hits, fused[i].id) == Some(fused[i]))
    && (forall id :: Occurs(hits, id) ==> Listed(fused, id))
    && (forall i, j :: 0 <= i < j < |fused| ==> Ahead(hits, k, fused[i].id, fused[j].id))
  }

  ghost predicate Listed(fused: seq<Item>, id: string) {
    exists i :: 0 <= i < |fused| && fused[i].id == id
  }

  lemma NeverAheadBothWays(hits: seq<Hit>, k: int, a: string, b: string)
    ensures !(Ahead(hits, k, a, b) && Ahead(hits, k, b, a))
  {
  }

  /** Each id occurs exactly once in the fused list. */
  lemma EachIdOnce(hits: seq<Hit>, k: int, fused: seq<Item>, id: string)
    requires IsFusion(hits, k, fused)
    ensures Listed(fused, id) <==> Occurs(hits, id)
    ensures forall i, j :: 0 <= i < j < |fused| ==> fused[i].id != fused[j].id
  {
    StoredIffOccurs(hits, id);
    forall i, j | 0 <= i < j < |fused| ensures fused[i].id != fused[j].id {
      NeverAheadBothWays(hits, k, fused[i].id, fused[j].id);
    }
  }

  /**
    Unanimity: if every list that contains y ranks x before it, x comes before y. The constants -1 and
    -2 divide by zero on any list that ranks two ids.
  */
  lemma UnanimityHolds(lists: seq<seq<Item>>, k: int, fused: seq<Item>, i: nat, j: nat)
    requires k >= -2 && Defined(lists, k) && AllDistinct(lists)
    requires IsFusion(AllHits(lists), k, fused) && i < |fused| && j < |fused|
    requires Unanimous(lists, fused[i].id, fused[j].id)
    ensures i < j
  {
    var x, y := fused[i].id, fused[j].id;
    var hits := AllHits(lists);
    StoredIffOccurs(hits, y);
    SomeListHas(lists, y);
    var l :| 0 <= l < |lists| && InList(lists[l], y);
    RankedPairIsPositive(lists[l], k, x, y);
    UnanimousScores(lists, k, x, y, l);
    NotBehind(hits, k, fused, i, j);
  }

  lemma NotBehind(hits: seq<Hit>, k: int, fused: seq<Item>, i: nat, j: nat)
    requires IsFusion(hits, k, fused) && i < |fused| && j < |fused|
    requires Score(hits, k, fused[i].id) > Score(hits, k, fused[j].id)
    ensures i < j
  {
    assert j < i ==> Ahead(hits, k, fused[j].id, fused[i].id);
  }

  lemma RankedPairIsPositive(list: seq<Item>, k: int, x: string, y: string)
    requires k >= -2 && ListDefined(list, k) && Prefers(list, x, y) && InList(list, y)
    ensures k >= 0
  {
    var s :| At(list, s, y);
    var r :| r < s && At(list, r, x);
    assert RankDefined(k, 0) && RankDefined(k, 1);
  }

  lemma ScoreStep(hits: seq<Hit>, hit: Hit, k: int)
    ensures forall id :: Score(hits + [hit], k, id)
              == Score(hits, k, id) + if hit.item.id == id then Credit(k, hit.rank) else 0.0
  {
    assert (hits + [hit])[..|hits|] == hits;
  }

  lemma ThreeLists(k: int, x: Item, y: Item)
    requires x.id != y.id
    ensures var hits := AllHits([[x, y], [x], [x]]);
            && Score(hits, k, x.id) == 3.0 * Credit(k, 0)
            && Score(hits, k, y.id) == Credit(k, 1)
  {
    var lists := [[x, y], [x], [x]];
    assert lists[..2] == [[x, y], [x]] && [[x, y], [x]][..1] == [[x, y]] && [[x, y]][..0] == [];
    assert AllHits([[x, y]]) == AllHits([]) + Hits([x, y]);
    assert AllHits([[x, y], [x]]) == AllHits([[x, y]]) + Hits([x]);
    var hits := [Hit(0, x), Hit(1, y)];
    assert AllHits(lists) == hits + [Hit(0, x)] + [Hit(0, x)];
    ScoreStep([], Hit(0, x), k);
    assert [] + [Hit(0, x)] == [Hit(0, x)] && [Hit(0, x)] + [Hit(1, y)] == hits;
    ScoreStep([Hit(0, x)], Hit(1, y), k);
    ScoreStep(hits, Hit(0, x), k);
    ScoreStep(hits + [Hit(0, x)], Hit(0, x), k);
  }

  /** From -3 down unanimity fails: credits are negative, and an id that is in more lists falls behind. */
  lemma NegativeConstantBreaksUnanimity(k: int, x: Item, y: Item)
    requires k <= -3 && x.id != y.id
    ensures var lists := [[x, y], [x], [x]];
            && Defined(lists, k) && AllDistinct(lists) && Unanimous(lists, x.id, y.id)
            && Ahead(AllHits(lists), k, y.id, x.id)
  {
    var lists := [[x, y], [x], [x]];
    ThreeLists(k, x, y);
    var a, b := (k + 1) as real, (k + 2) as real;
    assert a < b < 0.0 && b <= -1.0 && 3.0 * b < a;
    assert 3.0 / a < 1.0 / b by {
      assert 3.0 / a - 1.0 / b == (3.0 * b - a) / (a * b);
    }
    forall i | 0 <= i < |lists| ensures Prefers(lists[i], x.id, y.id) {
      forall s | At(lists[i], s, y.id) ensures exists r :: r < s && At(lists[i], r, x.id) {
        assert At(lists[i], 0, x.id);
      }
    }
  }

  lemma {:induction false} SomeListHas(lists: seq<seq<Item>>, id: string)
    requires Occurs(AllHits(lists), id)
    ensures exists i :: 0 <= i < |lists| && InList(lists[i], id)
    decreases |lists|
  {
    var hits := AllHits(lists);
    var h: nat :| IsHit(hits, h, id);
    assert lists != [];
    var last := |lists| - 1;
    var before := AllHits(lists[..last]);
    if h < |before| {
      assert IsHit(before, h, id);
      SomeListHas(lists[..last], id);
      var i :| 0 <= i < last && InList(lists[..last][i], id);
      assert InList(lists[i], id);
    } else {
      assert At(lists[last], h - |before|, id);
      assert InList(lists[last], id);
    }
  }

  /** The description has one solution: the hits determine the fused list. */
  lemma FusionUnique(hits: seq<Hit>, k: int, p: seq<Item>, q: seq<Item>)
    requires IsFusion(hits, k, p) && IsFusion(hits, k, q)
    ensures p == q
  {
    forall id ensures Listed(p, id) <==> Listed(q, id) {
      EachIdOnce(hits, k, p, id);
      EachIdOnce(hits, k, q, id);
    }
    SameRanking(hits, k, p, q);
  }

  ghost predicate Ordered(hits: seq<Hit>, k: int, p: seq<Item>) {
    && (forall i :: 0 <= i < |p| ==> Kept(hits, p[i].id) == Some(p[i]))
    && (forall i, j :: 0 <= i < j < |p| ==> Ahead(hits, k, p[i].id, p[j].id))
  }

  lemma SameHead(hits: seq<Hit>, k: int, p: seq<Item>, q: seq<Item>)
    requires Ordered(hits, k, p) && Ordered(hits, k, q) && p != [] && q != []
    requires Listed(q, p[0].id) && Listed(p, q[0].id)
    ensures p[0] == q[0]
  {
    var i :| 0 <= i < |q| && q[i].id == p[0].id;
    var j :| 0 <= j < |p| && p[j].id == q[0].id;
    NeverAheadBothWays(hits, k, p[0].id, q[0].id);
    HeadFirst(hits, k, q, i);
    HeadFirst(hits, k, p, j);
  }

  lemma HeadFirst(hits: seq<Hit>, k: int, p: seq<Item>, i: nat)
    requires Ordered(hits, k, p) && i < |p|
    ensures i == 0 || Ahead(hits, k, p[0].id, p[i].id)
  {
  }

  lemma ListedTail(hits: seq<Hit>, k: int, p: seq<Item>, id: string)
    requires Ordered(hits, k, p) && p != []
    ensures Listed(p[1..], id) <==> Listed(p, id) && id != p[0].id
  {
    if Listed(p[1..], id) {
      var i :| 0 <= i < |p[1..]| && p[1..][i].id == id;
      assert p[i + 1].id == id;
      assert Ahead(hits, k, p[0].id, p[i + 1].id);
      NeverAheadBothWays(hits, k, p[0].id, p[i + 1].id);
    }
    if Listed(p, id) && id != p[0].id {
      var i :| 0 <= i < |p| && p[i].id == id;
      assert p[1..][i - 1].id == id;
    }
  }

  lemma {:induction false} SameRanking(hits: seq<Hit>, k: int, p: seq<Item>, q: seq<Item>)
    requires Ordered(hits, k, p) && Ordered(hits, k, q)
    requires forall id :: Listed(p, id) <==> Listed(q, id)
    ensures p == q
    decreases |p|
  {
    assert p != [] ==> Listed(p, p[0].id);
    assert q != [] ==> Listed(q, q[0].id);
    if p != [] {
      SameHead(hits, k, p, q);
      forall id ensures Listed(p[1..], id) <==> Listed(q[1..], id) {
        ListedTail(hits, k, p, id);
        ListedTail(hits, k, q, id);
      }
      SameRanking(hits, k, p[1..], q[1..]);
      assert p == [p[0]] + p[1..] && q == [q[0]] + q[1..];
    }
  }

  // ---------------------------------------------------------------- the order, on the lists themselves

  /** What the first n places of a list earn an id: one over constant plus rank plus one, place by place. */
  ghost function EarnedIn(list: seq<Item>, k: int, id: string, n: nat): real
    requires n <= |list| && ListDefined(list, k)
  {
    if n == 0 then 0.0
    else
      assert RankDefined(k, n - 1);
      EarnedIn(list, k, id, n - 1) + if list[n - 1].id == id then 1.0 / (k + n) as real else 0.0
  }

  /** What all lists together earn an id. */
  ghost function Earned(lists: seq<seq<Item>>, k: int, id: string): real
    requires Defined(lists, k)
  {
    if lists == [] then 0.0
    else
      var last := lists[|lists| - 1];
      Earned(lists[..|lists| - 1], k, id) + EarnedIn(last, k, id, |last|)
  }

  lemma {:induction false} HitsEarn(list: seq<Item>, k: int, id: string, n: nat)
    requires n <= |list| && ListDefined(list, k)
    ensures Score(Hits(list)[..n], k, id) == EarnedIn(list, k, id, n)
    decreases n
  {
    if n > 0 {
      HitsEarn(list, k, id, n - 1);
      assert Hits(list)[..n][..n - 1] == Hits(list)[..n - 1];
      assert RankDefined(k, n - 1);
    }
  }

  lemma {:induction false} ScoreIsEarned(lists: seq<seq<Item>>, k: int, id: string)
    requires Defined(lists, k)
    ensures Score(AllHits(lists), k, id) == Earned(lists, k, id)
    decreases |lists|
  {
    if lists != [] {
      var last := |lists| - 1;
      ScoreIsEarned(lists[..last], k, id);
      LastListScore(lists, k, id);
      HitsEarn(lists[last], k, id, |lists[last]|);
      assert Hits(lists[last])[..|lists[last]|] == Hits(lists[last]);
    }
  }

  /** In a list with distinct ids an id earns the fraction of its rank. */
  lemma {:induction false} EarnedOnce(list: seq<Item>, k: int, r: nat, n: nat)
    requires DistinctIds(list) && ListDefined(list, k) && r < |list| && n <= |list|
    ensures RankDefined(k, r)
    ensures EarnedIn(list, k, list[r].id, n) == if r < n then 1.0 / (k + r + 1) as real else 0.0
    decreases n
  {
    assert RankDefined(k, r);
    if n > 0 {
      EarnedOnce(list, k, r, n - 1);
    }
  }

  /** x occurs at place r of list l, before any place at which y occurs. */
  ghost predicate FirstBefore(lists: seq<seq<Item>>, l: nat, r: nat, x: string, y: string) {
    && l < |lists| && At(lists[l], r, x)
    && forall m: nat, s: nat :: m < |lists| && At(lists[m], s, y) ==> l < m || (l == m && r < s)
  }

  ghost predicate MetBefore(lists: seq<seq<Item>>, x: string, y: string) {
    exists l: nat, r: nat :: FirstBefore(lists, l, r, x, y)
  }

  /** x earned more than y, or the same and is met earlier, list after list and place after place. */
  ghost predicate Outscores(lists: seq<seq<Item>>, k: int, x: string, y: string)
    requires Defined(lists, k)
  {
    || Earned(lists, k, x) > Earned(lists, k, y)
    || (Earned(lists, k, x) == Earned(lists, k, y) && MetBefore(lists, x, y))
  }

  /** The number of hits in the first l lists. */
  function Offset(lists: seq<seq<Item>>, l: nat): nat
    requires l <= |lists|
  {
    |AllHits(lists[..l])|
  }

  lemma {:induction false} HitAt(lists: seq<seq<Item>>, l: nat, r: nat)
    requires l < |lists| && r < |lists[l]|
    ensures Offset(lists, l) + r < |AllHits(lists)|
    ensures AllHits(lists)[Offset(lists, l) + r] == Hit(r, lists[l][r])
    decreases |lists|
  {
    var last := |lists| - 1;
    if l < last {
      HitAt(lists[..last], l, r);
      assert lists[..last][..l] == lists[..l];
    }
  }

  lemma {:induction false} PlaceOf(lists: seq<seq<Item>>, h: nat) returns (l: nat, r: nat)
    requires h < |AllHits(lists)|
    ensures l < |lists| && r < |lists[l]| && h == Offset(lists, l) + r
    decreases |lists|
  {
    var last := |lists| - 1;
    if h < Offset(lists, last) {
      l, r := PlaceOf(lists[..last], h);
      assert lists[..last][..l] == lists[..l];
    } else {
      l, r := last, h - Offset(lists, last);
    }
  }

  lemma {:induction false} OffsetsGrow(lists: seq<seq<Item>>, l: nat, m: nat)
    requires l < m <= |lists|
    ensures Offset(lists, l) + |lists[l]| <= Offset(lists, m)
    decreases m
  {
    assert lists[..m][..m - 1] == lists[..m - 1];
    if l < m - 1 {
      OffsetsGrow(lists, l, m - 1);
    }
  }

  /** The first hit of x precedes every place of y. */
  lemma SeenIsMet(lists: seq<seq<Item>>, x: string, y: string)
    requires SeenBefore(AllHits(lists), x, y)
    ensures MetBefore(lists, x, y)
  {
    var hits := AllHits(lists);
    var h := FirstPlace(hits, x);
    FirstPlaceMeaning(hits, x);
    FirstPlaceMeaning(hits, y);
    var l, r := PlaceOf(lists, h);
    HitAt(lists, l, r);
    forall m: nat, s: nat | m < |lists| && At(lists[m], s, y) ensures l < m || (l == m && r < s) {
      HitAt(lists, m, s);
      assert IsHit(hits, Offset(lists, m) + s, y);
      NotEarlier(hits, Offset(lists, m) + s, y);
      if m < l {
        OffsetsGrow(lists, m, l);
      }
    }
    assert FirstBefore(lists, l, r, x, y);
  }

  lemma NotEarlier(hits: seq<Hit>, h: nat, id: string)
    requires IsHit(hits, h, id)
    ensures FirstPlace(hits, id) <= h
  {
    FirstPlaceMeaning(hits, id);
    assert Occurs(hits, id);
  }

  lemma AheadOutscores(lists: seq<seq<Item>>, k: int, x: string, y: string)
    requires Defined(lists, k) && Ahead(AllHits(lists), k, x, y)
    ensures Outscores(lists, k, x, y)
  {
    ScoreIsEarned(lists, k, x);
    ScoreIsEarned(lists, k, y);
    if SeenBefore(AllHits(lists), x, y) {
      SeenIsMet(lists, x, y);
    }
  }

  /** The fused list is ordered by what the ids earn in the lists, and on equal sums by where they are met. */
  lemma FusedByEarned(lists: seq<seq<Item>>, k: int, fused: seq<Item>)
    requires Defined(lists, k) && IsFusion(AllHits(lists), k, fused)
    ensures forall i, j :: 0 <= i < j < |fused| ==> Outscores(lists, k, fused[i].id, fused[j].id)
    ensures forall id :: Listed(fused, id) <==> exists l :: 0 <= l < |lists| && InList(lists[l], id)
  {
    forall i, j | 0 <= i < j < |fused| ensures Outscores(lists, k, fused[i].id, fused[j].id) {
      AheadOutscores(lists, k, fused[i].id, fused[j].id);
    }
    forall id ensures Listed(fused, id) <==> exists l :: 0 <= l < |lists| && InList(lists[l], id) {
      EachIdOnce(AllHits(lists), k, fused, id);
      OccursInList(lists, id);
    }
  }

  lemma OccursInList(lists: seq<seq<Item>>, id: string)
    ensures Occurs(AllHits(lists), id) <==> exists l :: 0 <= l < |lists| && InList(lists[l], id)
  {
    if Occurs(AllHits(lists), id) {
      SomeListHas(lists, id);
    }
    if l: nat :| l < |lists| && InList(lists[l], id) {
      var r :| At(lists[l], r, id);
      HitAt(lists, l, r);
      assert IsHit(AllHits(lists), Offset(lists, l) + r, id);
    }
  }

  // ---------------------------------------------------------------- lists that agree

  lemma {:induction false} HitItems(lists: seq<seq<Item>>, list: seq<Item>, h: nat)
    requires forall l :: 0 <= l < |lists| ==> lists[l] == list
    requires h < |AllHits(lists)|
    ensures AllHits(lists)[h].item in list
    decreases |lists|
  {
    var last := |lists| - 1;
    var before := AllHits(lists[..last]);
    if h < |before| {
      HitItems(lists[..last], list, h);
    }
  }

  lemma ItemOccurs(lists: seq<seq<Item>>, r: nat)
    requires lists != [] && r < |lists[|lists| - 1]|
    ensures Occurs(AllHits(lists), lists[|lists| - 1][r].id)
  {
    var before := AllHits(lists[..|lists| - 1]);
    assert IsHit(AllHits(lists), |before| + r, lists[|lists| - 1][r].id);
  }

  lemma CopyKept(lists: seq<seq<Item>>, list: seq<Item>, r: nat)
    requires lists != [] && DistinctIds(list) && forall l :: 0 <= l < |lists| ==> lists[l] == list
    requires r < |list|
    ensures Kept(AllHits(lists), list[r].id) == Some(list[r])
  {
    ItemOccurs(lists, r);
    var first, kept := KeptMeaning(AllHits(lists), list[r].id);
    HitItems(lists, list, kept);
    var s :| 0 <= s < |list| && list[s] == AllHits(lists)[kept].item;
    assert s == r;
  }

  lemma CopyAhead(lists: seq<seq<Item>>, list: seq<Item>, k: int, i: nat, j: nat)
    requires k >= 0
    requires lists != [] && DistinctIds(list) && forall l :: 0 <= l < |lists| ==> lists[l] == list
    requires i < j < |list|
    ensures Ahead(AllHits(lists), k, list[i].id, list[j].id)
  {
    forall s | At(list, s, list[j].id) ensures exists r :: r < s && At(list, r, list[i].id) {
      assert s == j;
      assert At(list, i, list[i].id);
    }
    assert At(list, j, list[j].id);
    assert InList(lists[0], list[j].id);
    UnanimousScores(lists, k, list[i].id, list[j].id, 0);
  }

  /** Fusing one or more copies of a list with distinct ids gives that list, by this and FusionUnique. */
  lemma AgreementIsKept(lists: seq<seq<Item>>, list: seq<Item>, k: int)
    requires k >= 0
    requires lists != [] && DistinctIds(list) && forall l :: 0 <= l < |lists| ==> lists[l] == list
    ensures IsFusion(AllHits(lists), k, list)
  {
    forall r | 0 <= r < |list| ensures Kept(AllHits(lists), list[r].id) == Some(list[r]) {
      CopyKept(lists, list, r);
    }
    forall i, j | 0 <= i < j < |list| ensures Ahead(AllHits(lists), k, list[i].id, list[j].id) {
      CopyAhead(lists, list, k, i, j);
    }
    forall id | Occurs(AllHits(lists), id) ensures Listed(list, id) {
      var h: nat :| IsHit(AllHits(lists), h, id);
      HitItems(lists, list, h);
      var s :| 0 <= s < |list| && list[s] == AllHits(lists)[h].item;
      assert list[s].id == id;
    }
  }

  // ---------------------------------------------------------------- the loops

  /** order is the insertion order of the keys; scores and items map each to its score and kept item. */
  ghost predicate Tallied(hits: seq<Hit>, k: int, order: seq<string>, scores: map<string, real>,
                          items: map<string, Item>)
  {
    && order == FirstSeen(hits)
    && (forall id :: id in order <==> id in scores)
    && (forall id :: id in order <==> id in items)
    && (forall id :: id in scores ==> scores[id] == Score(hits, k, id))
    && (forall id :: id in items ==> Kept(hits, id) == Some(items[id]))
  }

  lemma {:induction false} UnseenScore(hits: seq<Hit>, k: int, id: string)
    requires id !in FirstSeen(hits)
    ensures Score(hits, k, id) == 0.0 && Kept(hits, id) == None
    decreases |hits|
  {
    if hits != [] {
      assert hits[|hits| - 1].item.id != id;
      UnseenScore(hits[..|hits| - 1], k, id);
    }
  }

  lemma {:induction false} FirstSeenAscends(hits: seq<Hit>, i: nat, j: nat)
    requires i < j < |FirstSeen(hits)|
    ensures FirstPlace(hits, FirstSeen(hits)[i]) < FirstPlace(hits, FirstSeen(hits)[j])
    decreases |hits|
  {
    var before, last := hits[..|hits| - 1], hits[|hits| - 1];
    var order := FirstSeen(before);
    assert forall m :: 0 <= m < |order| ==> FirstSeen(hits)[m] == order[m] && order[m] in order;
    StoredIffOccurs(before, order[i]);
    FirstPlaceMeaning(before, order[i]);
    if j < |order| {
      FirstSeenAscends(before, i, j);
      StoredIffOccurs(before, order[j]);
      FirstPlaceMeaning(before, order[j]);
    } else {
      StoredIffOccurs(before, last.item.id);
      FirstPlaceMeaning(before, last.item.id);
    }
  }

  /** One turn of the inner loop. */
  method Tally(k: int, rank: nat, item: Item, order: seq<string>, scores: map<string, real>, items: map<string, Item>,
               ghost hits: seq<Hit>)
    returns (newOrder: seq<string>, newScores: map<string, real>, newItems: map<string, Item>)
    requires Tallied(hits, k, order, scores, items)
    ensures Tallied(hits + [Hit(rank, item)], k, newOrder, newScores, newItems)
    ensures item.id in newScores
    ensures var before := if item.id in scores then scores[item.id] else 0.0;
            RankDefined(k, rank) ==> newScores[item.id] == before + 1.0 / (k + rank + 1) as real
  {
    ghost var more := hits + [Hit(rank, item)];
    assert more[..|more| - 1] == hits;
    newOrder, newItems := order, items;
    if item.id !in order {
      UnseenScore(hits, k, item.id);
      newOrder := order + [item.id];
    }
    newScores := scores[item.id := (if item.id in scores then scores[item.id] else 0.0) + Credit(k, rank)];
    if item.id !in items {
      newItems := items[item.id := item];
    } else if Replaces(item, items[item.id]) {
      newItems := items[item.id := item];
    }
  }

  function Keys(order: seq<string>, scores: map<string, real>): (keys: seq<SortKey>)
    requires forall id :: id in order ==> id in scores
    ensures |keys| == |order|
    ensures forall i :: 0 <= i < |keys| ==> keys[i] == SortKey(-scores[order[i]], 0.0, 0.0)
  {
    seq(|order|, i requires 0 <= i < |order| => SortKey(-scores[order[i]], 0.0, 0.0))
  }

  lemma ArrangedAhead(hits: seq<Hit>, k: int, order: seq<string>, scores: map<string, real>, i: nat, j: nat)
    requires order == FirstSeen(hits) && i < |order| && j < |order|
    requires forall id :: id in order ==> id in scores && scores[id] == Score(hits, k, id)
    requires Precedes(Keys(order, scores), i, j)
    ensures Ahead(hits, k, order[i], order[j])
  {
    assert order[i] in order && order[j] in order;
    if i < j {
      FirstSeenAscends(hits, i, j);
    }
  }

  lemma ArrangedAll(hits: seq<Hit>, order: seq<string>, ranked: seq<nat>, fused: seq<Item>, id: string)
    requires order == FirstSeen(hits) && (forall p: nat :: p < |order| ==> p in ranked)
    requires |fused| == |ranked|
    requires forall i :: 0 <= i < |ranked| ==> ranked[i] < |order| && fused[i].id == order[ranked[i]]
    requires Occurs(hits, id)
    ensures Listed(fused, id)
  {
    StoredIffOccurs(hits, id);
    var p: nat :| p < |order| && order[p] == id;
    assert p in ranked;
    var i :| 0 <= i < |ranked| && ranked[i] == p;
    assert fused[i].id == id;
  }

  /** Ids by descending score, equal scores in insertion order, each replaced by its stored item. */
  method Arrange(k: int, order: seq<string>, scores: map<string, real>, items: map<string, Item>, ghost hits: seq<Hit>)
    returns (fused: seq<Item>)
    requires Tallied(hits, k, order, scores, items)
    ensures IsFusion(hits, k, fused)
  {
    var keys := Keys(order, scores);
    var ranked := StableSort(keys);
    fused := seq(|ranked|, i requires 0 <= i < |ranked| => items[order[ranked[i]]]);
    forall i | 0 <= i < |fused| ensures fused[i].id == order[ranked[i]] {
      assert order[ranked[i]] in order;
      StoredIffOccurs(hits, order[ranked[i]]);
    }
    forall i, j | 0 <= i < j < |fused| ensures Ahead(hits, k, fused[i].id, fused[j].id) {
      ArrangedAhead(hits, k, order, scores, ranked[i], ranked[j]);
    }
    forall id | Occurs(hits, id) ensures Listed(fused, id) {
      ArrangedAll(hits, order, ranked, fused, id);
    }
  }

  /** The inner loop, over one list. */
  method TallyList(k: int, list: seq<Item>, order: seq<string>, scores: map<string, real>, items: map<string, Item>,
                   ghost before: seq<Hit>)
    returns (newOrder: seq<string>, newScores: map<string, real>, newItems: map<string, Item>)
    requires Tallied(before, k, order, scores, items)
    ensures Tallied(before + Hits(list), k, newOrder, newScores, newItems)
  {
    newOrder, newScores, newItems := order, scores, items;
    ghost var hits := before;
    for r := 0 to |list|
      invariant hits == before + Hits(list)[..r]
      invariant Tallied(hits, k, newOrder, newScores, newItems)
    {
      newOrder, newScores, newItems := Tally(k, r, list[r], newOrder, newScores, newItems, hits);
      hits := hits + [Hit(r, list[r])];
    }
    assert Hits(list)[..|list|] == Hits(list);
  }

  datatype Fusion = Fused(items: seq<Item>) | DivisionByZero

  /** The outer loop and the final sort; a constant that divides by zero at some rank raises. */
  method ReciprocalRankFusion(lists: seq<seq<Item>>, k: int) returns (fusion: Fusion)
    ensures fusion.Fused? <==> Defined(lists, k)
    ensures fusion.Fused? ==> IsFusion(AllHits(lists), k, fusion.items)
    ensures fusion.Fused? ==> forall i, j :: 0 <= i < j < |fusion.items| ==>
              Outscores(lists, k, fusion.items[i].id, fusion.items[j].id)
  {
    var order: seq<string>, scores: map<string, real>, items: map<string, Item> := [], map[], map[];
    ghost var hits: seq<Hit> := [];
    for i := 0 to |lists|
      invariant hits == AllHits(lists[..i])
      invariant Tallied(hits, k, order, scores, items)
      invariant forall l :: 0 <= l < i ==> ListDefined(lists[l], k)
    {
      if !ListDefined(lists[i], k) {
        return DivisionByZero;
      }
      order, scores, items := TallyList(k, lists[i], order, scores, items, hits);
      hits := hits + Hits(lists[i]);
      assert lists[..i + 1][..i] == lists[..i];
    }
    assert lists[..|lists|] == lists;
    var fused := Arrange(k, order, scores, items, hits);
    FusedByEarned(lists, k, fused);
    fusion := Fused(fused);
  }
}
