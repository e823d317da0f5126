/**
  SM-2 scheduling of flashcard reviews. Easiness is an exact real; Python's `round` of a product of
  an interval and an easiness is round-half-even.
*/
module SpacedRepetition {

  const MIN_EASINESS := 1.3

  datatype Schedule = Schedule(easiness: real, interval: int, repetitions: nat)

  /** The defaults of a newly inserted row. */
  const NEW_CARD := Schedule(2.5, 1, 0)

  // ---------------------------------------------------------------- rounding

  /** Python's `round` to an integer: the nearest one, and of two equally near ones the even one. */
  function RoundHalfEven(x: real): (n: int)
    ensures x - 0.5 <= n as real <= x + 0.5
    ensures x - 0.5 == n as real || n as real == x + 0.5 ==> n % 2 == 0
  {
    var below := x.Floor;
    var rest := x - below as real;
    if rest < 0.5 || (rest == 0.5 && below % 2 == 0) then below else below + 1
  }

  /** Nearest with ties to even pins the result down, and it is monotone. */
  lemma RoundMonotone(x: real, y: real)
    requires x <= y
    ensures RoundHalfEven(x) <= RoundHalfEven(y)
  {
    var m, n := RoundHalfEven(x), RoundHalfEven(y);
    if m > n {
      assert false;
    }
  }

  // ---------------------------------------------------------------- one review

  /** What a quality adds to the easiness: from -0.8 for 0 up to 0.1 for 5. */
  function EasinessStep(quality: int): real {
    0.1 - (5 - quality) as real * (0.08 + (5 - quality) as real * 0.02)
  }

  predicate IsQuality(quality: int) {
    0 <= quality <= 5
  }

  function NextEasiness(easiness: real, quality: int): real {
    var updated := easiness + EasinessStep(quality);
    if updated < MIN_EASINESS then MIN_EASINESS else updated
  }

  /** The interval stretched by an easiness, rounded to whole days. */
  function Stretched(interval: int, easiness: real): int {
    RoundHalfEven(interval as real * easiness)
  }

  /** The new interval, given the new easiness; a quality below 3 starts over. */
  function NextInterval(s: Schedule, quality: int, easiness: real): int {
    if quality < 3 then 1
    else if s.repetitions == 0 then 1
    else if s.repetitions == 1 then 6
    else Stretched(s.interval, easiness)
  }

  /** One review: the new state after an answer of the given quality. */
  function Update(s: Schedule, quality: int): Schedule {
    var easiness := NextEasiness(s.easiness, quality);
    Schedule(easiness, NextInterval(s, quality, easiness), if quality < 3 then 0 else s.repetitions + 1)
  }

  // ---------------------------------------------------------------- what one review does

  /** What the six qualities add to the easiness. */
  const EASINESS_STEPS := [-0.8, -0.54, -0.32, -0.14, 0.0, 0.1]

  /** n is nearest to x, and of two equally near numbers the even one. */
  predicate IsNearest(n: int, x: real) {
    && x - 0.5 <= n as real <= x + 0.5
    && (x - 0.5 == n as real || n as real == x + 0.5 ==> n % 2 == 0)
  }

  /** The easiness moves by the step of the quality, and never below 1.3. */
  predicate Eases(before: real, quality: int, after: real)
    requires IsQuality(quality)
  {
    var moved := before + EASINESS_STEPS[quality];
    after >= 1.3 && after >= moved && (after == 1.3 || after == moved)
  }

  /**
    A failure starts over; successes give one day, six days, and from the third on the old interval
    stretched by the easiness after the review.
  */
  predicate Reschedules(s: Schedule, quality: int, t: Schedule) {
    && (quality < 3 ==> t.interval == 1 && t.repetitions == 0)
    && (quality >= 3 ==> t.repetitions == s.repetitions + 1)
    && (quality >= 3 && s.repetitions == 0 ==> t.interval == 1)
    && (quality >= 3 && s.repetitions == 1 ==> t.interval == 6)
    && (quality >= 3 && s.repetitions >= 2 ==> IsNearest(t.interval, s.interval as real * t.easiness))
  }

  lemma NearestUnique(m: int, n: int, x: real)
    requires IsNearest(m, x) && IsNearest(n, x)
    ensures m == n
  {
  }

  lemma EasinessMoves(before: real, quality: int, after: real)
    requires IsQuality(quality)
    ensures Eases(before, quality, after) <==> after == NextEasiness(before, quality)
  {
    StepTable();
  }

  lemma StretchedIsNearest(interval: int, easiness: real, n: int)
    ensures IsNearest(n, interval as real * easiness) <==> n == Stretched(interval, easiness)
  {
    var days := interval as real * easiness;
    if IsNearest(n, days) {
      NearestUnique(n, RoundHalfEven(days), days);
    }
  }

  /** A review follows these rules, and they leave no choice. */
  lemma UpdateFollows(s: Schedule, quality: int, t: Schedule)
    requires IsQuality(quality)
    ensures Eases(s.easiness, quality, t.easiness) && Reschedules(s, quality, t) <==> t == Update(s, quality)
  {
    EasinessMoves(s.easiness, quality, t.easiness);
    StretchedIsNearest(s.interval, t.easiness, t.interval);
  }

  /** A whole history of reviews, oldest first. */
  function Run(s: Schedule, qualities: seq<int>): Schedule {
    if qualities == [] then s else Update(Run(s, qualities[..|qualities| - 1]), qualities[|qualities| - 1])
  }

  predicate Qualities(qualities: seq<int>) {
    forall i :: 0 <= i < |qualities| ==> IsQuality(qualities[i])
  }

  // ---------------------------------------------------------------- invariant of every history

  /** After the second success the interval is at least six days. */
  predicate Sane(s: Schedule) {
    s.repetitions >= 2 ==> s.interval >= 6
  }

  lemma StepBounds(quality: int)
    requires IsQuality(quality)
    ensures -0.8 <= EasinessStep(quality) <= 0.1
  {
    StepMonotone(quality, 5);
    StepMonotone(0, quality);
  }

  lemma StepMonotone(p: int, q: int)
    requires 0 <= p <= q <= 5
    ensures EasinessStep(p) <= EasinessStep(q)
  {
    StepTable();
  }

  lemma StepTable()
    ensures EasinessStep(0) == -0.8 && EasinessStep(1) == -0.54 && EasinessStep(2) == -0.32
    ensures EasinessStep(3) == -0.14 && EasinessStep(4) == 0.0 && EasinessStep(5) == 0.1
  {
  }

  lemma ProductAtLeast(interval: int, easiness: real)
    requires interval >= 1 && easiness >= MIN_EASINESS
    ensures interval as real * easiness >= 1.3 * interval as real
  {
    var days := interval as real;
    assert days * (easiness - 1.3) >= 0.0;
    assert days * easiness == days * (easiness - 1.3) + days * 1.3;
  }

  lemma RoundAtLeast(x: real, bound: real)
    requires x >= bound
    ensures RoundHalfEven(x) as real >= bound - 0.5
  {
  }

  lemma WholeDays(next: int, interval: int)
    requires interval >= 6 && next as real >= 1.3 * interval as real - 0.5
    ensures next >= interval + 2
  {
    assert 1.3 * interval as real - 0.5 > interval as real + 1.0;
  }

  lemma StretchedAtLeast(interval: int, easiness: real)
    requires interval >= 6 && easiness >= MIN_EASINESS
    ensures Stretched(interval, easiness) as real >= 1.3 * interval as real - 0.5
  {
    ProductAtLeast(interval, easiness);
    RoundAtLeast(interval as real * easiness, 1.3 * interval as real);
  }

  lemma IntervalLengthens(s: Schedule, quality: int, easiness: real)
    requires Sane(s) && s.repetitions >= 2 && quality >= 3 && easiness >= MIN_EASINESS
    ensures var next := NextInterval(s, quality, easiness);
            next >= s.interval + 2 && next as real >= 1.3 * s.interval as real - 0.5
  {
    StretchedAtLeast(s.interval, easiness);
    WholeDays(Stretched(s.interval, easiness), s.interval);
  }

  /** A success from two or more repetitions lengthens the interval: by more than a day and a factor. */
  lemma Lengthens(s: Schedule, quality: int)
    requires Sane(s) && s.repetitions >= 2 && quality >= 3
    ensures Update(s, quality).interval >= s.interval + 2
    ensures Update(s, quality).interval as real >= 1.3 * s.interval as real - 0.5
  {
    IntervalLengthens(s, quality, NextEasiness(s.easiness, quality));
  }

  /** Every review keeps the invariant and sets the next review at least a day ahead. */
  lemma UpdateKeepsSane(s: Schedule, quality: int)
    requires Sane(s)
    ensures Sane(Update(s, quality)) && Update(s, quality).interval >= 1
    ensures Update(s, quality).easiness >= MIN_EASINESS
  {
    if quality >= 3 && s.repetitions >= 2 {
      Lengthens(s, quality);
    }
  }

  lemma {:induction false} RunKeepsSane(s: Schedule, qualities: seq<int>)
    requires Sane(s)
    ensures Sane(Run(s, qualities))
    ensures qualities != [] ==> Run(s, qualities).interval >= 1
  {
    if qualities != [] {
      RunKeepsSane(s, qualities[..|qualities| - 1]);
      UpdateKeepsSane(Run(s, qualities[..|qualities| - 1]), qualities[|qualities| - 1]);
    }
  }

  /** Over any history the easiness stays at least 1.3 and gains at most 0.1 a review. */
  lemma {:induction false} EasinessBounds(s: Schedule, qualities: seq<int>)
    requires s.easiness >= MIN_EASINESS && Qualities(qualities)
    ensures MIN_EASINESS <= Run(s, qualities).easiness <= s.easiness + 0.1 * |qualities| as real
  {
    if qualities != [] {
      var last := |qualities| - 1;
      EasinessBounds(s, qualities[..last]);
      assert IsQuality(qualities[last]);
      StepBounds(qualities[last]);
    }
  }

  // ---------------------------------------------------------------- growth of a streak

  function Power(n: nat): real {
    if n == 0 then 1.0 else 1.3 * Power(n - 1)
  }

  predicate Successes(qualities: seq<int>) {
    forall i :: 0 <= i < |qualities| ==> 3 <= qualities[i]
  }

  /** A streak from zero repetitions counts its successes: 1 day, 6 days, and then growth by a power of 1.3. */
  lemma {:induction false} StreakGrows(s: Schedule, qualities: seq<int>)
    requires s.repetitions == 0 && Successes(qualities)
    ensures Run(s, qualities).repetitions == |qualities|
    ensures |qualities| == 1 ==> Run(s, qualities).interval == 1
    ensures |qualities| >= 2 ==>
              Run(s, qualities).interval as real >= 5.0 / 3.0 + 13.0 / 3.0 * Power(|qualities| - 2)
  {
    if qualities != [] {
      var last := |qualities| - 1;
      StreakGrows(s, qualities[..last]);
      assert 3 <= qualities[last];
      if last >= 2 {
        RunKeepsSane(s, qualities[..last]);
        Lengthens(Run(s, qualities[..last]), qualities[last]);
        OneMoreFactor(Run(s, qualities[..last]).interval as real, Run(s, qualities).interval as real, last - 2);
      }
    }
  }

  lemma OneMoreFactor(before: real, after: real, n: nat)
    requires before >= 5.0 / 3.0 + 13.0 / 3.0 * Power(n) && after >= 1.3 * before - 0.5
    ensures after >= 5.0 / 3.0 + 13.0 / 3.0 * Power(n + 1)
  {
  }

  /** From the second success on each further success strictly lengthens the interval. */
  lemma StreakLengthens(s: Schedule, qualities: seq<int>, quality: int)
    requires s.repetitions == 0 && Successes(qualities) && |qualities| >= 1 && quality >= 3
    ensures Run(s, qualities + [quality]).interval > Run(s, qualities).interval
  {
    assert (qualities + [quality])[..|qualities|] == qualities;
    StreakGrows(s, qualities);
    RunKeepsSane(s, qualities);
    if |qualities| >= 2 {
      Lengthens(Run(s, qualities), quality);
    }
  }

  // ---------------------------------------------------------------- better answers never schedule earlier

  predicate AtLeast(a: Schedule, b: Schedule) {
    a.easiness >= b.easiness && a.repetitions >= b.repetitions && a.interval >= b.interval
  }

  lemma ProductMonotone(p: int, q: int, x: real, y: real)
    requires p >= q >= 0 && x >= y >= 0.0
    ensures p as real * x >= q as real * y
  {
    assert p as real * x >= q as real * x >= q as real * y;
  }

  lemma EasinessMonotone(x: real, y: real, p: int, q: int)
    requires x >= y && 0 <= q <= p <= 5
    ensures NextEasiness(x, p) >= NextEasiness(y, q)
  {
    StepMonotone(q, p);
  }

  lemma StretchedMonotone(p: int, q: int, x: real, y: real)
    requires p >= q >= 0 && x >= y >= 0.0
    ensures Stretched(p, x) >= Stretched(q, y)
  {
    ProductMonotone(p, q, x, y);
    RoundMonotone(q as real * y, p as real * x);
  }

  lemma IntervalMonotone(a: Schedule, b: Schedule, p: int, q: int, x: real, y: real)
    requires Sane(a) && Sane(b) && AtLeast(a, b) && p >= q && x >= y >= MIN_EASINESS
    ensures NextInterval(a, p, x) >= NextInterval(b, q, y)
  {
    if p >= 3 && a.repetitions >= 2 {
      if q >= 3 && b.repetitions >= 2 {
        StretchedMonotone(a.interval, b.interval, x, y);
      } else {
        IntervalLengthens(a, p, x);
      }
    }
  }

  lemma UpdateMonotone(a: Schedule, b: Schedule, p: int, q: int)
    requires Sane(a) && Sane(b) && AtLeast(a, b) && 0 <= q <= p <= 5
    ensures AtLeast(Update(a, p), Update(b, q))
  {
    EasinessMonotone(a.easiness, b.easiness, p, q);
    IntervalMonotone(a, b, p, q, NextEasiness(a.easiness, p), NextEasiness(b.easiness, q));
  }

  /** Pointwise better answers end with easiness, repetitions and interval all at least as high. */
  lemma {:induction false} BetterAnswersDominate(s: Schedule, better: seq<int>, worse: seq<int>)
    requires Sane(s) && |better| == |worse| && Qualities(better) && Qualities(worse)
    requires forall i :: 0 <= i < |better| ==> better[i] >= worse[i]
    ensures AtLeast(Run(s, better), Run(s, worse))
    decreases |better|
  {
    if better != [] {
      var last := |better| - 1;
      BetterAnswersDominate(s, better[..last], worse[..last]);
      RunKeepsSane(s, better[..last]);
      RunKeepsSane(s, worse[..last]);
      assert IsQuality(better[last]) && IsQuality(worse[last]);
      UpdateMonotone(Run(s, better[..last]), Run(s, worse[..last]), better[last], worse[last]);
    }
  }

  /** The invariant is needed: with two repetitions and one day a better first answer schedules earlier. */
  lemma DominanceNeedsSane()
    ensures var s := Schedule(1.3, 1, 2);
            Run(s, [3, 3, 3]).interval == 1 && Run(s, [2, 3, 3]).interval == 6
  {
    var s := Schedule(1.3, 1, 2);
    StepTable();
    RunThree(s, 3, 3, 3);
    RunThree(s, 2, 3, 3);
    assert Update(s, 3) == Schedule(1.3, 1, 3);
    assert Update(Schedule(1.3, 1, 3), 3) == Schedule(1.3, 1, 4);
    assert Update(s, 2) == Schedule(1.3, 1, 0);
  }

  lemma RunThree(s: Schedule, p: int, q: int, r: int)
    ensures Run(s, [p, q, r]) == Update(Update(Update(s, p), q), r)
  {
    assert [p, q, r][..2] == [p, q] && [p, q][..1] == [p] && [p][..0] == [];
    assert Run(s, [p]) == Update(Run(s, []), p);
    assert Run(s, [p, q]) == Update(Run(s, [p]), q);
  }

  // ---------------------------------------------------------------- the stored rows

  datatype Key = Key(student: int, flashcard: int)

  datatype Row = Row(schedule: Schedule, qualityLast: int, nextReview: int)

  datatype Reviewed = NotFound | Next(interval: int, repetitions: nat, nextReview: int)

  /** The table of repetition rows; history records the answers given, for specification only. */
  class Repetitions {
    var rows: map<Key, Row>
    ghost var history: map<Key, seq<int>>

    /** Every row is the outcome of its history from the defaults. */
    ghost predicate Valid()
      reads this
    {
      && rows.Keys == history.Keys
      && forall key :: key in rows ==> Qualities(history[key]) && rows[key].schedule == Run(NEW_CARD, history[key])
    }

    constructor ()
      ensures Valid() && rows == map[]
    {
      rows, history := map[], map[];
    }

    /** The insert of a row for a new flashcard. */
    method Insert(key: Key, today: int)
      requires Valid() && key !in rows
      modifies this
      ensures Valid()
      ensures rows == old(rows)[key := Row(NEW_CARD, 0, today)] && history == old(history)[key := []]
    {
      rows, history := rows[key := Row(NEW_CARD, 0, today)], history[key := []];
    }

    /** `review_flashcard`: a missing row is an error and changes nothing; other rows never change. */
    method Review(key: Key, quality: int, today: int) returns (reviewed: Reviewed)
      requires Valid() && IsQuality(quality)
      modifies this
      ensures Valid()
      ensures key !in old(rows) ==> reviewed == NotFound && rows == old(rows) && history == old(history)
      ensures key in old(rows) ==>
                && rows.Keys == old(rows).Keys
                && history == old(history)[key := old(history)[key] + [quality]]
                && (forall other :: other in rows && other != key ==> rows[other] == old(rows)[other])
                && Eases(old(rows)[key].schedule.easiness, quality, rows[key].schedule.easiness)
                && Reschedules(old(rows)[key].schedule, quality, rows[key].schedule)
                && rows[key].qualityLast == quality
                && rows[key].nextReview == today + rows[key].schedule.interval > today
                && reviewed == Next(rows[key].schedule.interval, rows[key].schedule.repetitions, rows[key].nextReview)
    {
      if key !in rows {
        return NotFound;
      }
      var schedule := Update(rows[key].schedule, quality);
      ghost var answers := history[key] + [quality];
      assert answers[..|answers| - 1] == history[key];
      RunKeepsSane(NEW_CARD, answers);
      UpdateFollows(rows[key].schedule, quality, schedule);
      var nextReview := today + schedule.interval;
      rows := rows[key := Row(schedule, quality, nextReview)];
      history := history[key := answers];
      reviewed := Next(schedule.interval, schedule.repetitions, nextReview);
    }
  }
}
