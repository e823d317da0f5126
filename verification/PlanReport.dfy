/**
  The order of the report: every broken rule has a place, and the errors come place after place. Rules
  about the whole plan first, then chapter after chapter, in each chapter the sources before the
  prerequisites one by one, and the cycle last.
*/
module PlanReport {
  import opened Knowledge
  import opened Ordering
  import opened PlanValidation

  datatype Place = Place(stage: nat, chapter: nat, step: nat)

  predicate Earlier(p: Place, q: Place) {
    p.stage < q.stage
    || (p.stage == q.stage && (p.chapter < q.chapter || (p.chapter == q.chapter && p.step < q.step)))
  }

  /** The error stands for a rule that is broken at the place. */
  ghost predicate BrokenAt(plan: Plan, context: Context, p: Place, e: PlanError) {
    match e
    case DuplicateChapterId => p == Place(0, 0, 0) && !Distinct(Ids(plan.chapters))
    case OrganizationRequired =>
      p == Place(1, 0, 0) && context.organizations.Some? && plan.organization.None?
    case OrganizationNotAllowed =>
      && p == Place(1, 0, 0) && context.organizations.Some? && plan.organization.Some?
      && plan.organization.value !in context.organizations.value
    case CoTeacherNotAllowed(teachers) =>
      && p == Place(2, 0, 0) && context.teachers.Some? && teachers != [] && Increasing(teachers)
      && forall t :: t in teachers <==> t in plan.coTeachers && t !in context.teachers.value
    case PrerequisiteCycle => p == Place(4, 0, 0) && CycleReported(plan.chapters)
    case UnknownSource(id, missing) =>
      && p.stage == 3 && p.step == 0 && p.chapter < |plan.chapters|
      && SourcesMissing(plan.chapters[p.chapter], context.sources, id, missing)
    case UnknownPrerequisite(id, name) => AtPrerequisite(plan.chapters, p, id, name) && name !in Known(plan.chapters)
    case SelfPrerequisite(id) => AtPrerequisite(plan.chapters, p, id, id)
  }

  ghost predicate SourcesMissing(c: Chapter, sources: set<string>, id: string, missing: seq<string>) {
    && id == c.id && missing != [] && Ascending(missing)
    && forall m :: m in missing <==> m in c.materials && m !in sources
  }

  /** The place of a prerequisite of a chapter: its position in the chapter's list, from one. */
  ghost predicate AtPrerequisite(chapters: seq<Chapter>, p: Place, id: string, name: string) {
    && p.stage == 3 && p.chapter < |chapters| && 0 < p.step <= |chapters[p.chapter].prerequisites|
    && id == chapters[p.chapter].id && name == chapters[p.chapter].prerequisites[p.step - 1]
  }

  /** The place lies from lo on and before hi. */
  predicate Within(lo: Place, hi: Place, p: Place) { !Earlier(p, lo) && Earlier(p, hi) }

  /** errors lists what is broken at the places from lo to hi, each place once and in order. */
  ghost predicate Lists(plan: Plan, context: Context, lo: Place, hi: Place, errors: seq<PlanError>,
                        places: seq<Place>)
  {
    && |errors| == |places|
    && (forall i :: 0 <= i < |places| ==> Within(lo, hi, places[i]) && BrokenAt(plan, context, places[i], errors[i]))
    && (forall i, j :: 0 <= i < j < |places| ==> Earlier(places[i], places[j]))
    && (forall p, e :: Within(lo, hi, p) && BrokenAt(plan, context, p, e) ==> p in places)
  }

  ghost predicate Listed(plan: Plan, context: Context, lo: Place, hi: Place, errors: seq<PlanError>) {
    exists places :: Lists(plan, context, lo, hi, errors, places)
  }

  // ---------------------------------------------------------------- lists of places

  lemma Concat(plan: Plan, context: Context, lo: Place, mid: Place, hi: Place, a: seq<PlanError>, b: seq<PlanError>)
    requires Listed(plan, context, lo, mid, a) && Listed(plan, context, mid, hi, b)
    requires !Earlier(mid, lo) && !Earlier(hi, mid)
    ensures Listed(plan, context, lo, hi, a + b)
  {
    var p :| Lists(plan, context, lo, mid, a, p);
    var q :| Lists(plan, context, mid, hi, b, q);
    JoinedLists(plan, context, lo, mid, hi, a, p, b, q);
  }

  lemma JoinedLists(plan: Plan, context: Context, lo: Place, mid: Place, hi: Place,
                    a: seq<PlanError>, p: seq<Place>, b: seq<PlanError>, q: seq<Place>)
    requires Lists(plan, context, lo, mid, a, p) && Lists(plan, context, mid, hi, b, q)
    requires !Earlier(mid, lo) && !Earlier(hi, mid)
    ensures Lists(plan, context, lo, hi, a + b, p + q)
  {
    forall r, e | Within(lo, hi, r) && BrokenAt(plan, context, r, e) ensures r in p + q {
      assert Within(lo, mid, r) || Within(mid, hi, r);
    }
    forall i, j | 0 <= i < j < |p + q| ensures Earlier((p + q)[i], (p + q)[j]) {
      if i < |p| && j >= |p| {
        assert Within(lo, mid, p[i]) && Within(mid, hi, q[j - |p|]);
      }
    }
  }

  lemma Nothing(plan: Plan, context: Context, lo: Place, hi: Place)
    requires forall p, e :: Within(lo, hi, p) ==> !BrokenAt(plan, context, p, e)
    ensures Listed(plan, context, lo, hi, [])
  {
    assert Lists(plan, context, lo, hi, [], []);
  }

  lemma JustOne(plan: Plan, context: Context, lo: Place, hi: Place, e: PlanError)
    requires Earlier(lo, hi) && BrokenAt(plan, context, lo, e)
    requires forall p, f :: Within(lo, hi, p) && BrokenAt(plan, context, p, f) ==> p == lo
    ensures Listed(plan, context, lo, hi, [e])
  {
    assert Lists(plan, context, lo, hi, [e], [lo]);
  }

  // ---------------------------------------------------------------- the parts of the report

  lemma PlanLevelListed(plan: Plan, context: Context)
    ensures Listed(plan, context, Place(0, 0, 0), Place(1, 0, 0), IdErrors(plan))
    ensures Listed(plan, context, Place(1, 0, 0), Place(2, 0, 0), OrganizationErrors(plan, context))
  {
    if HasRepetition(Ids(plan.chapters)) {
      JustOne(plan, context, Place(0, 0, 0), Place(1, 0, 0), DuplicateChapterId);
    } else {
      Nothing(plan, context, Place(0, 0, 0), Place(1, 0, 0));
    }
    if OrganizationErrors(plan, context) != [] {
      JustOne(plan, context, Place(1, 0, 0), Place(2, 0, 0), OrganizationErrors(plan, context)[0]);
    } else {
      Nothing(plan, context, Place(1, 0, 0), Place(2, 0, 0));
    }
  }

  lemma TeachersListed(plan: Plan, context: Context)
    ensures Listed(plan, context, Place(2, 0, 0), Place(3, 0, 0), TeacherErrors(plan, context))
  {
    if TeacherErrors(plan, context) != [] {
      JustOne(plan, context, Place(2, 0, 0), Place(3, 0, 0), TeacherErrors(plan, context)[0]);
    } else {
      if context.teachers.Some? {
        assert forall t :: t in plan.coTeachers && t !in context.teachers.value
                           ==> t in NotAllowed(plan.coTeachers, context.teachers.value);
      }
      forall p, e | Within(Place(2, 0, 0), Place(3, 0, 0), p) ensures !BrokenAt(plan, context, p, e) {
        if e.CoTeacherNotAllowed? && e.teachers != [] {
          assert e.teachers[0] in e.teachers;
        }
      }
      Nothing(plan, context, Place(2, 0, 0), Place(3, 0, 0));
    }
  }

  lemma CycleIsLast(plan: Plan, context: Context, p: Place, e: PlanError)
    ensures p.stage == 4 && BrokenAt(plan, context, p, e) ==>
              e.PrerequisiteCycle? && p == Place(4, 0, 0) && CycleReported(plan.chapters)
  {
  }

  lemma CycleListed(plan: Plan, context: Context)
    ensures Listed(plan, context, Place(4, 0, 0), Place(5, 0, 0),
                   if CycleReported(plan.chapters) then [PrerequisiteCycle] else [])
  {
    var first, last := Place(4, 0, 0), Place(5, 0, 0);
    forall p, e | Within(first, last, p) && BrokenAt(plan, context, p, e)
      ensures p == first && CycleReported(plan.chapters)
    {
      CycleIsLast(plan, context, p, e);
    }
    if CycleReported(plan.chapters) {
      JustOne(plan, context, first, last, PrerequisiteCycle);
    } else {
      Nothing(plan, context, first, last);
    }
  }

  lemma SourcesListed(plan: Plan, context: Context, i: nat)
    requires i < |plan.chapters|
    ensures Listed(plan, context, Place(3, i, 0), Place(3, i, 1), SourceErrors(plan.chapters[i], context.sources))
  {
    var c := plan.chapters[i];
    var missing := SortedStrings(Missing(c.materials, context.sources));
    if missing != [] {
      JustOne(plan, context, Place(3, i, 0), Place(3, i, 1), UnknownSource(c.id, missing));
    } else {
      forall p, e | Within(Place(3, i, 0), Place(3, i, 1), p) ensures !BrokenAt(plan, context, p, e) {
        if e.UnknownSource? && e.sources != [] {
          NothingMissing(c, context.sources, e.sources[0]);
          assert e.sources[0] in e.sources;
        }
      }
      Nothing(plan, context, Place(3, i, 0), Place(3, i, 1));
    }
  }

  lemma NothingMissing(c: Chapter, sources: set<string>, m: string)
    requires SortedStrings(Missing(c.materials, sources)) == []
    ensures !(m in c.materials && m !in sources)
  {
    assert m in Missing(c.materials, sources) <==> m in SortedStrings(Missing(c.materials, sources));
  }

  lemma PrerequisiteListed(plan: Plan, context: Context, i: nat, j: nat)
    requires i < |plan.chapters| && j < |plan.chapters[i].prerequisites|
    ensures var c := plan.chapters[i];
            Listed(plan, context, Place(3, i, j + 1), Place(3, i, j + 2),
                   PrerequisiteErrors(c, c.prerequisites[j], Known(plan.chapters)))
  {
    var c := plan.chapters[i];
    var name := c.prerequisites[j];
    assert c in plan.chapters && c.id in Known(plan.chapters);
    if name !in Known(plan.chapters) {
      JustOne(plan, context, Place(3, i, j + 1), Place(3, i, j + 2), UnknownPrerequisite(c.id, name));
    } else if name == c.id {
      JustOne(plan, context, Place(3, i, j + 1), Place(3, i, j + 2), SelfPrerequisite(c.id));
    } else {
      Nothing(plan, context, Place(3, i, j + 1), Place(3, i, j + 2));
    }
  }

  lemma {:induction false} ChapterListed(plan: Plan, context: Context, i: nat, n: nat)
    requires i < |plan.chapters| && n <= |plan.chapters[i].prerequisites|
    ensures Listed(plan, context, Place(3, i, 0), Place(3, i, n + 1),
                   ChapterErrors(plan.chapters[i], n, Known(plan.chapters), context.sources))
    decreases n
  {
    if n == 0 {
      SourcesListed(plan, context, i);
    } else {
      var c, known := plan.chapters[i], Known(plan.chapters);
      ChapterListed(plan, context, i, n - 1);
      PrerequisiteListed(plan, context, i, n - 1);
      Concat(plan, context, Place(3, i, 0), Place(3, i, n), Place(3, i, n + 1),
             ChapterErrors(c, n - 1, known, context.sources), PrerequisiteErrors(c, c.prerequisites[n - 1], known));
    }
  }

  lemma WholeChapterListed(plan: Plan, context: Context, i: nat)
    requires i < |plan.chapters|
    ensures var c := plan.chapters[i];
            Listed(plan, context, Place(3, i, 0), Place(3, i + 1, 0),
                   ChapterErrors(c, |c.prerequisites|, Known(plan.chapters), context.sources))
  {
    var c := plan.chapters[i];
    var errors := ChapterErrors(c, |c.prerequisites|, Known(plan.chapters), context.sources);
    ChapterListed(plan, context, i, |c.prerequisites|);
    Nothing(plan, context, Place(3, i, |c.prerequisites| + 1), Place(3, i + 1, 0));
    Concat(plan, context, Place(3, i, 0), Place(3, i, |c.prerequisites| + 1), Place(3, i + 1, 0), errors, []);
    assert errors + [] == errors;
  }

  lemma {:induction false} ChaptersListed(plan: Plan, context: Context, n: nat)
    requires n <= |plan.chapters|
    ensures Listed(plan, context, Place(3, 0, 0), Place(3, n, 0),
                   AllChapterErrors(plan.chapters, n, Known(plan.chapters), context.sources))
    decreases n
  {
    if n == 0 {
      Nothing(plan, context, Place(3, 0, 0), Place(3, 0, 0));
    } else {
      var c, known := plan.chapters[n - 1], Known(plan.chapters);
      ChaptersListed(plan, context, n - 1);
      WholeChapterListed(plan, context, n - 1);
      Concat(plan, context, Place(3, 0, 0), Place(3, n - 1, 0), Place(3, n, 0),
             AllChapterErrors(plan.chapters, n - 1, known, context.sources),
             ChapterErrors(c, |c.prerequisites|, known, context.sources));
    }
  }

  // ---------------------------------------------------------------- the whole report

  lemma PlanErrorsListed(plan: Plan, context: Context)
    ensures Listed(plan, context, Place(0, 0, 0), Place(3, 0, 0), PlanLevelErrors(plan, context))
  {
    PlanLevelListed(plan, context);
    TeachersListed(plan, context);
    Concat(plan, context, Place(0, 0, 0), Place(1, 0, 0), Place(2, 0, 0), IdErrors(plan),
           OrganizationErrors(plan, context));
    Concat(plan, context, Place(0, 0, 0), Place(2, 0, 0), Place(3, 0, 0),
           IdErrors(plan) + OrganizationErrors(plan, context), TeacherErrors(plan, context));
  }

  lemma AllChaptersListed(plan: Plan, context: Context)
    ensures Listed(plan, context, Place(3, 0, 0), Place(4, 0, 0),
                   AllChapterErrors(plan.chapters, |plan.chapters|, Known(plan.chapters), context.sources))
  {
    var n := |plan.chapters|;
    var errors := AllChapterErrors(plan.chapters, n, Known(plan.chapters), context.sources);
    ChaptersListed(plan, context, n);
    Nothing(plan, context, Place(3, n, 0), Place(4, 0, 0));
    Concat(plan, context, Place(3, 0, 0), Place(3, n, 0), Place(4, 0, 0), errors, []);
    assert errors + [] == errors;
  }

  /** The report lists exactly what is broken, each place once, in the order of the places. */
  lemma ReportInOrder(plan: Plan, context: Context) returns (places: seq<Place>)
    ensures Lists(plan, context, Place(0, 0, 0), Place(5, 0, 0), ReportErrors(plan, context), places)
  {
    var chapterErrors := AllChapterErrors(plan.chapters, |plan.chapters|, Known(plan.chapters), context.sources);
    PlanErrorsListed(plan, context);
    AllChaptersListed(plan, context);
    CycleListed(plan, context);
    Concat(plan, context, Place(0, 0, 0), Place(3, 0, 0), Place(4, 0, 0), PlanLevelErrors(plan, context),
           chapterErrors);
    Concat(plan, context, Place(0, 0, 0), Place(4, 0, 0), Place(5, 0, 0),
           PlanLevelErrors(plan, context) + chapterErrors,
           if CycleReported(plan.chapters) then [PrerequisiteCycle] else []);
    places :| Lists(plan, context, Place(0, 0, 0), Place(5, 0, 0), ReportErrors(plan, context), places);
  }
}
