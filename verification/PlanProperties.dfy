/**
  What the plan validator promises: which plans are valid, when a cycle is reported, what the
  topological order contains, and that sorting by it is a fixed point of validation.
*/
module PlanProperties {
  import opened Knowledge
  import opened Ordering
  import opened PlanGraph
  import opened TopologicalOrder
  import opened PlanValidation

  /** No id without known prerequisites is used twice; distinct ids are a special case. */
  ghost predicate RootsUnique(chapters: seq<Chapter>) {
    Distinct(RootsOf(chapters))
  }

  lemma {:induction false} RootsDistinct(ids: seq<string>, indegree: Degrees)
    requires Distinct(ids) && forall v :: v in ids ==> v in indegree
    ensures Distinct(Roots(ids, indegree))
  {
    if ids != [] {
      var init, last := ids[..|ids| - 1], ids[|ids| - 1];
      RootsDistinct(init, indegree);
      var before := Roots(init, indegree);
      forall k | 0 <= k < |before| ensures before[k] != last {
        assert before[k] in before && before[k] in init;
      }
    }
  }

  lemma DistinctIdsSuffice(chapters: seq<Chapter>)
    requires Distinct(Ids(chapters))
    ensures RootsUnique(chapters)
  {
    IdsAreKnown(chapters);
    RootsDistinct(Ids(chapters), IndegreesOf(GraphOf(chapters)));
  }

  lemma RootsAreFirst(g: Graph, roots: seq<string>)
    requires forall v :: v in roots ==> Preds(g, v) == {}
    ensures PrerequisitesFirst(g, roots) && Layered(g, roots, [])
  {
    assert [] + roots == roots;
    forall k | 0 <= k < |roots| ensures Preds(g, roots[k]) == {} {
      assert roots[k] in roots;
    }
    forall i, j | 0 <= i < |roots| && 0 <= j < |roots|
      ensures NoDeeper(g, roots[i], roots[j]) && AtMostOneDeeper(g, roots[i], roots[j])
    {
      assert Preds(g, roots[i]) == {};
    }
  }

  lemma IndegreesCount(g: Graph, v: string)
    requires v in g
    ensures CountsMissing(g, IndegreesOf(g), {}, v)
  {
    assert Preds(g, v) - {} == Preds(g, v);
  }

  /** The traversal starts with exactly the chapters that have no known prerequisite. */
  lemma StartIsExact(chapters: seq<Chapter>)
    requires RootsUnique(chapters)
    ensures Exact(GraphOf(chapters), IndegreesOf(GraphOf(chapters)), RootsOf(chapters), [])
    ensures Layered(GraphOf(chapters), RootsOf(chapters), [])
  {
    var g, roots := GraphOf(chapters), RootsOf(chapters);
    GraphIsClosed(chapters);
    assert [] + roots == roots && Elements([]) == {};
    forall v
      ensures v in g ==> CountsMissing(g, IndegreesOf(g), {}, v)
      ensures FoundWhenFree(g, Elements(roots), {}, v)
    {
      if v in g { IndegreesCount(g, v); }
    }
    RootsAreFirst(g, roots);
  }

  /**
    The order validate_plan returns: exactly the chapters no cycle blocks, each once, each after its
    prerequisites, and with non-decreasing longest prerequisite path.
  */
  lemma OrderIsTopological(chapters: seq<Chapter>)
    requires Distinct(Ids(chapters))
    ensures Distinct(Order(chapters))
    ensures PrerequisitesFirst(GraphOf(chapters), Order(chapters))
    ensures NonDecreasingDepth(GraphOf(chapters), Order(chapters))
    ensures forall c :: c in Order(chapters) <==> c in Ids(chapters) && !Blocked(GraphOf(chapters), c)
  {
    DistinctIdsSuffice(chapters);
    OrderTraverses(chapters);
    IdsAreKnown(chapters);
    GraphIsClosed(chapters);
    forall c ensures c in Order(chapters) <==> c in Ids(chapters) && !Blocked(GraphOf(chapters), c) {
      EmittedExactly(GraphOf(chapters), Order(chapters), c);
    }
  }

  lemma OrderTraverses(chapters: seq<Chapter>)
    requires RootsUnique(chapters)
    ensures Traversed(GraphOf(chapters), Order(chapters))
  {
    var g := GraphOf(chapters);
    StartIsExact(chapters);
    KahnTraverses(g, IndegreesOf(g), RootsOf(chapters), []);
  }

  // ---------------------------------------------------------------- the order, pair by pair

  lemma OrderIsScheduled(chapters: seq<Chapter>)
    requires RootsUnique(chapters)
    ensures Scheduled(GraphOf(chapters), RootsOf(chapters), Order(chapters))
  {
    var g := GraphOf(chapters);
    StartIsExact(chapters);
    KahnSchedules(g, IndegreesOf(g), RootsOf(chapters));
  }

  /** A chapter with the first id stands before one with the second in the plan. */
  ghost predicate InPlanOrder(chapters: seq<Chapter>, x: string, y: string) {
    exists a, b :: 0 <= a < b < |chapters| && chapters[a].id == x && chapters[b].id == y
  }

  lemma {:induction false} RootsInPlanOrder(ids: seq<string>, indegree: Degrees, i: nat, j: nat)
    returns (a: nat, b: nat)
    requires (forall v :: v in ids ==> v in indegree) && i < j < |Roots(ids, indegree)|
    ensures a < b < |ids| && ids[a] == Roots(ids, indegree)[i] && ids[b] == Roots(ids, indegree)[j]
    decreases |ids|
  {
    var last := |ids| - 1;
    var before := Roots(ids[..last], indegree);
    if j < |before| {
      a, b := RootsInPlanOrder(ids[..last], indegree, i, j);
    } else {
      assert before[i] in ids[..last];
      a :| 0 <= a < last && ids[a] == before[i];
      b := last;
    }
  }

  /** x released before y: by an earlier chapter, or by the same one and with the smaller id. */
  ghost predicate ReleasedFirst(g: Graph, order: seq<string>, x: string, y: string) {
    exists p, q :: ReleasedBy(g, order, p, x) && ReleasedBy(g, order, q, y) && (p < q || (p == q && Less(x, y)))
  }

  /**
    What decides between two chapters: chapters without known prerequisites first, in plan order; then
    the one whose latest-placed prerequisite stands earlier, and on the same one the smaller id.
  */
  ghost predicate ComesFirst(chapters: seq<Chapter>, order: seq<string>, x: string, y: string) {
    var g := GraphOf(chapters);
    if Preds(g, x) == {} && Preds(g, y) == {} then InPlanOrder(chapters, x, y)
    else if Preds(g, x) == {} || Preds(g, y) == {} then Preds(g, x) == {}
    else ReleasedFirst(g, order, x, y)
  }

  lemma SamePlaceInPlan(chapters: seq<Chapter>, a: nat, b: nat)
    requires Distinct(Ids(chapters)) && a < |chapters| && b < |chapters|
    ensures chapters[a].id == chapters[b].id ==> a == b
  {
    assert Ids(chapters)[a] == chapters[a].id && Ids(chapters)[b] == chapters[b].id;
  }

  lemma IdsInOrder(chapters: seq<Chapter>, x: string, y: string)
    requires Distinct(Ids(chapters)) && InPlanOrder(chapters, x, y)
    ensures !InPlanOrder(chapters, y, x) && x != y
  {
    var a, b :| 0 <= a < b < |chapters| && chapters[a].id == x && chapters[b].id == y;
    SamePlaceInPlan(chapters, a, b);
    forall c, d | 0 <= c < d < |chapters| ensures !(chapters[c].id == y && chapters[d].id == x) {
      SamePlaceInPlan(chapters, c, b);
      SamePlaceInPlan(chapters, d, a);
    }
  }

  lemma LeadingExactly(order: seq<string>, roots: seq<string>, i: nat)
    requires Distinct(order) && roots <= order && i < |order|
    ensures i < |roots| <==> order[i] in roots
  {
    if i < |roots| {
      assert order[i] == roots[i];
    } else {
      assert forall k :: 0 <= k < |roots| ==> roots[k] == order[k] && order[k] != order[i];
    }
  }

  lemma ScheduleBegins(chapters: seq<Chapter>)
    requires Distinct(Ids(chapters))
    ensures Distinct(Order(chapters)) && RootsOf(chapters) <= Order(chapters)
    ensures forall v :: v in Order(chapters) ==> v in GraphOf(chapters)
  {
    DistinctIdsSuffice(chapters);
    OrderIsScheduled(chapters);
    forall v | v in Order(chapters) ensures v in GraphOf(chapters) {
      EmittedExactly(GraphOf(chapters), Order(chapters), v);
    }
  }

  /** The first chapters of the order are those without known prerequisites. */
  lemma RootsAreLeading(chapters: seq<Chapter>, i: nat)
    requires Distinct(Ids(chapters)) && i < |Order(chapters)|
    ensures RootsOf(chapters) <= Order(chapters)
    ensures i < |RootsOf(chapters)| <==> Preds(GraphOf(chapters), Order(chapters)[i]) == {}
  {
    ScheduleBegins(chapters);
    LeadingExactly(Order(chapters), RootsOf(chapters), i);
    assert Order(chapters)[i] in Order(chapters);
  }

  lemma RootsDecided(chapters: seq<Chapter>, i: nat, j: nat)
    requires Distinct(Ids(chapters)) && RootsOf(chapters) <= Order(chapters)
    requires i < j < |RootsOf(chapters)|
    ensures InPlanOrder(chapters, Order(chapters)[i], Order(chapters)[j])
  {
    IdsAreKnown(chapters);
    var a, b := RootsInPlanOrder(Ids(chapters), IndegreesOf(GraphOf(chapters)), i, j);
    assert chapters[a].id == Order(chapters)[i] && chapters[b].id == Order(chapters)[j];
  }

  lemma ReleasesDecided(g: Graph, roots: seq<string>, order: seq<string>, i: nat, j: nat)
    requires Scheduled(g, roots, order) && |roots| <= i < |order| && |roots| <= j < |order|
    ensures i < j <==> ReleasedFirst(g, order, order[i], order[j])
  {
    var p := NextReleased(g, roots, order, i);
    var q := NextReleased(g, roots, order, j);
    TurnsDecide(g, roots, order, i, j, p, q);
    FirstByReleases(g, order, order[i], order[j], p, q);
  }

  lemma FirstByReleases(g: Graph, order: seq<string>, x: string, y: string, p: nat, q: nat)
    requires Distinct(order) && ReleasedBy(g, order, p, x) && ReleasedBy(g, order, q, y)
    ensures ReleasedFirst(g, order, x, y) <==> p < q || (p == q && Less(x, y))
  {
    if ReleasedFirst(g, order, x, y) {
      var a, b :| ReleasedBy(g, order, a, x) && ReleasedBy(g, order, b, y) && (a < b || (a == b && Less(x, y)));
      ReleasedOnce(g, order, a, p, x);
      ReleasedOnce(g, order, b, q, y);
    }
  }

  /** With distinct ids, exactly this decides which of two chapters stands first in the returned order. */
  lemma OrderDecided(chapters: seq<Chapter>, i: nat, j: nat)
    requires Distinct(Ids(chapters)) && i < |Order(chapters)| && j < |Order(chapters)|
    ensures i < j <==> ComesFirst(chapters, Order(chapters), Order(chapters)[i], Order(chapters)[j])
  {
    var order := Order(chapters);
    RootsAreLeading(chapters, i);
    RootsAreLeading(chapters, j);
    var n := |RootsOf(chapters)|;
    if i < n && j < n {
      if i < j {
        RootsDecided(chapters, i, j);
      } else {
        NotInPlanOrder(chapters, i, j);
      }
    } else if i >= n && j >= n {
      DistinctIdsSuffice(chapters);
      OrderIsScheduled(chapters);
      ReleasesDecided(GraphOf(chapters), RootsOf(chapters), order, i, j);
    }
  }

  lemma NotInPlanOrder(chapters: seq<Chapter>, i: nat, j: nat)
    requires Distinct(Ids(chapters)) && RootsOf(chapters) <= Order(chapters)
    requires j <= i < |RootsOf(chapters)|
    ensures !InPlanOrder(chapters, Order(chapters)[i], Order(chapters)[j])
  {
    var x, y := Order(chapters)[i], Order(chapters)[j];
    if j < i {
      RootsDecided(chapters, j, i);
      IdsInOrder(chapters, y, x);
    } else if InPlanOrder(chapters, x, x) {
      IdsInOrder(chapters, x, x);
    }
  }

  /** As long as no id without prerequisites is repeated, a cycle is reported exactly when there is one. */
  lemma CycleReportedExactly(chapters: seq<Chapter>)
    requires RootsUnique(chapters)
    ensures CycleReported(chapters) <==> HasCycle(GraphOf(chapters))
  {
    OrderTraverses(chapters);
    AllEmittedIffAcyclic(GraphOf(chapters), Order(chapters));
  }

  lemma StartIsLoose(chapters: seq<Chapter>)
    ensures Loose(GraphOf(chapters), IndegreesOf(GraphOf(chapters)), RootsOf(chapters), [])
  {
    var g, roots := GraphOf(chapters), RootsOf(chapters);
    GraphIsClosed(chapters);
    assert [] + roots == roots && Elements([]) == {};
    forall v | v in g ensures Pending(g, IndegreesOf(g), Elements(roots), {}, v) {
      IndegreesCount(g, v);
    }
  }

  /**
    On an acyclic plan the report is right exactly when no id without known prerequisites is
    repeated: a repeated root is emitted twice and looks like a cycle.
  */
  lemma FalseCycleExactly(chapters: seq<Chapter>)
    requires !HasCycle(GraphOf(chapters))
    ensures CycleReported(chapters) <==> !RootsUnique(chapters)
  {
    if RootsUnique(chapters) {
      CycleReportedExactly(chapters);
    } else {
      var g := GraphOf(chapters);
      var roots, order := RootsOf(chapters), Order(chapters);
      StartIsLoose(chapters);
      AcyclicEmitsAll(g, IndegreesOf(g), roots);
      KahnExtends(g, IndegreesOf(g), roots, []);
      assert [] + roots == roots;
      LongerThanItsElements(g, roots, order);
    }
  }

  lemma LongerThanItsElements(g: Graph, roots: seq<string>, order: seq<string>)
    requires roots <= order && !Distinct(roots) && forall v :: v in g ==> v in order
    ensures |order| > |g|
  {
    var i, j :| 0 <= i < j < |roots| && roots[i] == roots[j];
    var rest := order[..j] + order[j + 1..];
    forall v | v in g ensures v in rest {
      var k :| 0 <= k < |order| && order[k] == v;
      if k < j { assert rest[k] == v; }
      else if k == j { assert rest[i] == v; }
      else { assert rest[k - 1] == v; }
    }
    CoversAtMostItsLength(g.Keys, rest);
  }

  lemma {:induction false} CoversAtMostItsLength(s: set<string>, xs: seq<string>)
    requires forall v :: v in s ==> v in xs
    ensures |s| <= |xs|
    decreases |xs|
  {
    if xs != [] {
      var last := xs[|xs| - 1];
      CoversAtMostItsLength(s - {last}, xs[..|xs| - 1]);
      assert s <= (s - {last}) + {last};
      CountSubset(s, (s - {last}) + {last});
    }
  }

  ghost predicate OwnershipSound(plan: Plan, context: Context) {
    && (context.organizations.Some? ==>
          plan.organization.Some? && plan.organization.value in context.organizations.value)
    && (context.teachers.Some? ==> forall t :: t in plan.coTeachers ==> t in context.teachers.value)
  }

  ghost predicate ChapterSound(c: Chapter, known: set<string>, sources: set<string>) {
    && (forall m :: m in c.materials ==> m in sources)
    && (forall p :: p in c.prerequisites ==> p in known && p != c.id)
  }

  ghost predicate ChaptersSound(chapters: seq<Chapter>, sources: set<string>) {
    forall c :: c in chapters ==> ChapterSound(c, Known(chapters), sources)
  }

  /** Everything a teacher can rely on when the report says valid, and nothing less. */
  ghost predicate SoundPlan(plan: Plan, context: Context) {
    && Distinct(Ids(plan.chapters))
    && OwnershipSound(plan, context)
    && ChaptersSound(plan.chapters, context.sources)
    && !HasCycle(GraphOf(plan.chapters))
  }

  lemma ValidIffSound(plan: Plan, context: Context)
    ensures (forall e :: !Violates(plan, context, CycleReported(plan.chapters), e)) <==> SoundPlan(plan, context)
  {
    var cycle := CycleReported(plan.chapters);
    if Distinct(Ids(plan.chapters)) {
      NoCycleReported(plan.chapters);
    }
    RulesAreSoundness(plan, context, cycle);
  }

  /** SoundPlan, with the length test in place of the cycle. */
  ghost predicate SoundBut(plan: Plan, context: Context, cycle: bool) {
    && Distinct(Ids(plan.chapters))
    && OwnershipSound(plan, context)
    && ChaptersSound(plan.chapters, context.sources)
    && !cycle
  }

  lemma RulesAreSoundness(plan: Plan, context: Context, cycle: bool)
    ensures (forall e :: !Violates(plan, context, cycle, e)) <==> SoundBut(plan, context, cycle)
  {
    if forall e :: !Violates(plan, context, cycle, e) {
      NoViolationIsSound(plan, context, cycle);
    }
    if SoundBut(plan, context, cycle) {
      forall e ensures !Violates(plan, context, cycle, e) {
        SoundHasNoViolation(plan, context, cycle, e);
      }
    }
  }

  lemma SoundChapter(c: Chapter, known: set<string>, sources: set<string>, e: PlanError)
    requires ChapterSound(c, known, sources)
    ensures !ChapterViolates(c, |c.prerequisites|, known, sources, e)
  {
    assert c.prerequisites[..|c.prerequisites|] == c.prerequisites;
    assert Missing(c.materials, sources) == {};
  }

  lemma NoCycleReported(chapters: seq<Chapter>)
    requires Distinct(Ids(chapters))
    ensures CycleReported(chapters) <==> HasCycle(GraphOf(chapters))
  {
    DistinctIdsSuffice(chapters);
    CycleReportedExactly(chapters);
  }

  lemma SoundHasNoViolation(plan: Plan, context: Context, cycle: bool, e: PlanError)
    requires SoundBut(plan, context, cycle)
    ensures !Violates(plan, context, cycle, e)
  {
    if context.teachers.Some? {
      var invalid := NotAllowed(plan.coTeachers, context.teachers.value);
      NoElements(invalid);
    }
    forall i | 0 <= i < |plan.chapters|
      ensures !ChapterViolates(plan.chapters[i], |plan.chapters[i].prerequisites|, Known(plan.chapters),
                               context.sources, e)
    {
      assert plan.chapters[i] in plan.chapters;
      SoundChapter(plan.chapters[i], Known(plan.chapters), context.sources, e);
    }
  }

  lemma OwnershipWhenUnreported(plan: Plan, context: Context, cycle: bool)
    requires !Violates(plan, context, cycle, OrganizationRequired)
    requires !Violates(plan, context, cycle, OrganizationNotAllowed)
    requires context.teachers.Some? ==>
               !Violates(plan, context, cycle, CoTeacherNotAllowed(NotAllowed(plan.coTeachers, context.teachers.value)))
    ensures OwnershipSound(plan, context)
  {
    if context.teachers.Some? {
      var invalid := NotAllowed(plan.coTeachers, context.teachers.value);
      assert forall t :: t in invalid <==> t in plan.coTeachers && t !in context.teachers.value;
    }
  }

  lemma CleanChapter(c: Chapter, known: set<string>, sources: set<string>)
    requires c.id in known
    requires forall e :: !ChapterViolates(c, |c.prerequisites|, known, sources, e)
    ensures ChapterSound(c, known, sources)
  {
    var all := |c.prerequisites|;
    assert c.prerequisites[..all] == c.prerequisites;
    var missing := SortedStrings(Missing(c.materials, sources));
    assert !ChapterViolates(c, all, known, sources, UnknownSource(c.id, missing));
    forall m | m in c.materials ensures m in sources {
      assert m !in sources ==> m in missing;
    }
    forall p | p in c.prerequisites ensures p in known && p != c.id {
      assert !ChapterViolates(c, all, known, sources, UnknownPrerequisite(c.id, p));
      assert !ChapterViolates(c, all, known, sources, SelfPrerequisite(p));
    }
  }

  lemma ChaptersWhenUnreported(plan: Plan, context: Context, cycle: bool)
    requires forall e :: !Violates(plan, context, cycle, e)
    ensures ChaptersSound(plan.chapters, context.sources)
  {
    var known := Known(plan.chapters);
    forall c | c in plan.chapters ensures ChapterSound(c, known, context.sources) {
      var i :| 0 <= i < |plan.chapters| && plan.chapters[i] == c;
      forall e ensures !ChapterViolates(c, |c.prerequisites|, known, context.sources, e) {
        assert !Violates(plan, context, cycle, e);
        assert ChapterViolates(c, |c.prerequisites|, known, context.sources, e) ==>
          SomeChapterViolates(plan.chapters, |plan.chapters|, known, context.sources, e);
      }
      CleanChapter(c, known, context.sources);
    }
  }

  lemma NoViolationIsSound(plan: Plan, context: Context, cycle: bool)
    requires forall e :: !Violates(plan, context, cycle, e)
    ensures SoundBut(plan, context, cycle)
  {
    ChaptersWhenUnreported(plan, context, cycle);
    OwnershipWhenUnreported(plan, context, cycle);
    assert !Violates(plan, context, cycle, DuplicateChapterId) && !Violates(plan, context, cycle, PrerequisiteCycle);
  }
}
