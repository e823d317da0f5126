/**
  `validate_plan`: builds the prerequisite graph of a course plan, reports every violation, and
  returns the topological order; and the sort of the chapters by that order in `draft`.
*/
module PlanValidation {
  import opened Knowledge
  import opened Ordering
  import opened PlanGraph
  import opened TopologicalOrder

  datatype Chapter = Chapter(id: string, materials: seq<string>, prerequisites: seq<string>)

  datatype Plan = Plan(chapters: seq<Chapter>, organization: Option<int>, coTeachers: seq<int>)

  datatype PlanError =
    | DuplicateChapterId
    | OrganizationRequired
    | OrganizationNotAllowed
    | CoTeacherNotAllowed(teachers: seq<int>)
    | UnknownSource(chapter: string, sources: seq<string>)
    | UnknownPrerequisite(chapter: string, prerequisite: string)
    | SelfPrerequisite(chapter: string)
    | PrerequisiteCycle

  datatype Report = Report(valid: bool, errors: seq<PlanError>, order: seq<string>)

  // ---------------------------------------------------------------- the graph of a plan

  function Ids(chapters: seq<Chapter>): (ids: seq<string>)
    ensures |ids| == |chapters|
    ensures forall i :: 0 <= i < |chapters| ==> ids[i] == chapters[i].id
  {
    seq(|chapters|, i requires 0 <= i < |chapters| => chapters[i].id)
  }

  function Known(chapters: seq<Chapter>): set<string> {
    set c | c in chapters :: c.id
  }

  /** A chapter with this id requires p. */
  ghost predicate Requires(chapters: seq<Chapter>, id: string, p: string) {
    exists c :: c in chapters && c.id == id && p in c.prerequisites
  }

  /** Known, non-self prerequisites as edges to the chapters that require them. */
  ghost predicate IsGraphOf(known: set<string>, chapters: seq<Chapter>, g: Graph) {
    && g.Keys == known
    && forall p, id :: p in g ==> (id in g[p] <==> id != p && Requires(chapters, id, p))
  }

  ghost predicate Counted(g: Graph, indegree: Degrees, v: string)
    requires v in indegree
  {
    indegree[v] == |Preds(g, v)|
  }

  ghost predicate IsIndegree(g: Graph, indegree: Degrees) {
    indegree.Keys == g.Keys && forall v :: v in g ==> Counted(g, indegree, v)
  }

  function AddEdge(g: Graph, p: string, c: string): Graph
    requires p in g
  {
    g[p := g[p] + {c}]
  }

  lemma AddEdgePreds(g: Graph, p: string, c: string, v: string)
    requires p in g && c !in g[p]
    ensures Preds(AddEdge(g, p, c), v) == if v == c then Preds(g, v) + {p} else Preds(g, v)
    ensures p !in Preds(g, c)
  {
    var g' := AddEdge(g, p, c);
    forall b ensures b in Preds(g', v) <==> b in Preds(g, v) || (v == c && b == p) {
    }
  }

  lemma AddEdgeCounts(g: Graph, indegree: Degrees, p: string, c: string)
    requires p in g && c in g && c !in g[p] && IsIndegree(g, indegree)
    ensures IsIndegree(AddEdge(g, p, c), indegree[c := indegree[c] + 1])
  {
    var g', indegree' := AddEdge(g, p, c), indegree[c := indegree[c] + 1];
    assert g'.Keys == g.Keys;
    forall v | v in g ensures Counted(g', indegree', v) {
      assert Counted(g, indegree, v);
      AddEdgePreds(g, p, c, v);
    }
  }

  // ---------------------------------------------------------------- one chapter

  function Missing(materials: seq<string>, sources: set<string>): set<string> {
    set m | m in materials && m !in sources
  }

  /** What the loop over the chapters reports about one chapter, its first n prerequisites included. */
  ghost predicate ChapterViolates(c: Chapter, n: nat, known: set<string>, sources: set<string>, e: PlanError)
    requires n <= |c.prerequisites|
  {
    match e
    case UnknownSource(id, missing) =>
      id == c.id && missing == SortedStrings(Missing(c.materials, sources)) && missing != []
    case UnknownPrerequisite(id, p) => id == c.id && p in c.prerequisites[..n] && p !in known
    case SelfPrerequisite(id) => id == c.id && id in c.prerequisites[..n] && id in known
    case _ => false
  }

  /** The edges found in the first n prerequisites of c, on top of g. */
  ghost predicate EdgesAdded(g: Graph, c: Chapter, n: nat, g': Graph)
    requires n <= |c.prerequisites|
  {
    && g'.Keys == g.Keys
    && forall p, id :: p in g ==>
      (id in g'[p] <==> id in g[p] || (id == c.id && p != id && p in c.prerequisites[..n]))
  }

  /** What one more prerequisite adds to the report. */
  ghost predicate PrerequisiteViolates(c: Chapter, p: string, known: set<string>, e: PlanError) {
    || (p !in known && e == UnknownPrerequisite(c.id, p))
    || (p in known && p == c.id && e == SelfPrerequisite(c.id))
  }

  lemma ViolationsNext(c: Chapter, n: nat, known: set<string>, sources: set<string>, e: PlanError)
    requires n < |c.prerequisites|
    ensures ChapterViolates(c, n + 1, known, sources, e) <==>
            ChapterViolates(c, n, known, sources, e) || PrerequisiteViolates(c, c.prerequisites[n], known, e)
  {
    assert c.prerequisites[..n + 1] == c.prerequisites[..n] + [c.prerequisites[n]];
  }

  ghost predicate Reported(errors: seq<PlanError>, c: Chapter, n: nat, known: set<string>, sources: set<string>)
    requires n <= |c.prerequisites|
  {
    forall e :: e in errors <==> ChapterViolates(c, n, known, sources, e)
  }

  lemma EdgesNext(g: Graph, c: Chapter, n: nat, g': Graph)
    requires n < |c.prerequisites| && EdgesAdded(g, c, n, g')
    ensures var p := c.prerequisites[n];
            if p in g && p != c.id then EdgesAdded(g, c, n + 1, AddEdge(g', p, c.id)) else EdgesAdded(g, c, n + 1, g')
  {
    assert c.prerequisites[..n + 1] == c.prerequisites[..n] + [c.prerequisites[n]];
  }

  function SourceErrors(c: Chapter, sources: set<string>): seq<PlanError> {
    var unknown := SortedStrings(Missing(c.materials, sources));
    if unknown != [] then [UnknownSource(c.id, unknown)] else []
  }

  function PrerequisiteErrors(c: Chapter, p: string, known: set<string>): (errors: seq<PlanError>)
    ensures forall e :: e in errors <==> PrerequisiteViolates(c, p, known, e)
  {
    if p !in known then [UnknownPrerequisite(c.id, p)]
    else if p == c.id then [SelfPrerequisite(c.id)]
    else []
  }

  /** The errors of one chapter in the order in which they are found. */
  function ChapterErrors(c: Chapter, n: nat, known: set<string>, sources: set<string>): seq<PlanError>
    requires n <= |c.prerequisites|
  {
    if n == 0 then SourceErrors(c, sources)
    else ChapterErrors(c, n - 1, known, sources) + PrerequisiteErrors(c, c.prerequisites[n - 1], known)
  }

  /** They are exactly the broken rules. */
  lemma {:induction false} ChapterErrorsExact(c: Chapter, n: nat, known: set<string>, sources: set<string>)
    requires n <= |c.prerequisites|
    ensures Reported(ChapterErrors(c, n, known, sources), c, n, known, sources)
    decreases n
  {
    if n == 0 {
      assert c.prerequisites[..0] == [];
    } else {
      ChapterErrorsExact(c, n - 1, known, sources);
      forall e ensures e in ChapterErrors(c, n, known, sources) <==> ChapterViolates(c, n, known, sources, e) {
        ViolationsNext(c, n - 1, known, sources, e);
      }
    }
  }

  method AddChapter(c: Chapter, sources: set<string>, graph: Graph, degrees: Degrees)
    returns (errors: seq<PlanError>, g: Graph, indegree: Degrees)
    requires c.id in graph && IsIndegree(graph, degrees)
    ensures errors == ChapterErrors(c, |c.prerequisites|, graph.Keys, sources)
    ensures EdgesAdded(graph, c, |c.prerequisites|, g) && IsIndegree(g, indegree)
  {
    g, indegree := graph, degrees;
    errors := SourceErrors(c, sources);
    for j := 0 to |c.prerequisites|
      invariant errors == ChapterErrors(c, j, graph.Keys, sources)
      invariant EdgesAdded(graph, c, j, g) && IsIndegree(g, indegree)
    {
      var more;
      more, g, indegree := AddPrerequisite(c, j, graph, g, indegree);
      errors := errors + more;
    }
  }

  method AddPrerequisite(c: Chapter, j: nat, ghost start: Graph, graph: Graph, degrees: Degrees)
    returns (errors: seq<PlanError>, g: Graph, indegree: Degrees)
    requires j < |c.prerequisites| && c.id in graph && graph.Keys == start.Keys
    requires EdgesAdded(start, c, j, graph) && IsIndegree(graph, degrees)
    ensures errors == PrerequisiteErrors(c, c.prerequisites[j], start.Keys)
    ensures EdgesAdded(start, c, j + 1, g) && IsIndegree(g, indegree)
  {
    errors, g, indegree := [], graph, degrees;
    var prerequisite := c.prerequisites[j];
    EdgesNext(start, c, j, graph);
    if prerequisite !in graph.Keys {
      errors := [UnknownPrerequisite(c.id, prerequisite)];
    } else if prerequisite == c.id {
      errors := [SelfPrerequisite(c.id)];
    } else if c.id !in g[prerequisite] {
      AddEdgeCounts(g, indegree, prerequisite, c.id);
      g, indegree := AddEdge(g, prerequisite, c.id), indegree[c.id := indegree[c.id] + 1];
    } else {
      assert graph[prerequisite] + {c.id} == graph[prerequisite];
      assert AddEdge(graph, prerequisite, c.id) == graph;
    }
  }

  // ---------------------------------------------------------------- all chapters

  /** Known, non-self prerequisites as edges to the chapters that require them. */
  function GraphOf(chapters: seq<Chapter>): Graph {
    map p | p in Known(chapters) :: set c | c in chapters && c.id != p && p in c.prerequisites :: c.id
  }

  function IndegreesOf(g: Graph): Degrees {
    map v | v in g :: |Preds(g, v)|
  }

  lemma GraphIsUnique(chapters: seq<Chapter>, g: Graph, indegree: Degrees)
    requires IsGraphOf(Known(chapters), chapters, g) && IsIndegree(g, indegree)
    ensures g == GraphOf(chapters) && indegree == IndegreesOf(g)
  {
    var h := GraphOf(chapters);
    forall p | p in g ensures g[p] == h[p] {
      forall id ensures id in g[p] <==> id in h[p] {
        assert id in h[p] <==> id != p && Requires(chapters, id, p);
      }
    }
    assert forall v :: v in g ==> Counted(g, indegree, v);
  }

  lemma GraphIsClosed(chapters: seq<Chapter>)
    ensures Closed(GraphOf(chapters)) && GraphOf(chapters).Keys == Known(chapters)
  {
  }

  /** Some chapter among the first n is responsible for the error. */
  ghost predicate SomeChapterViolates(chapters: seq<Chapter>, n: nat, known: set<string>, sources: set<string>,
                                      e: PlanError)
    requires n <= |chapters|
  {
    exists i :: 0 <= i < n && ChapterViolates(chapters[i], |chapters[i].prerequisites|, known, sources, e)
  }

  ghost predicate AllReported(errors: seq<PlanError>, chapters: seq<Chapter>, n: nat, known: set<string>,
                              sources: set<string>)
    requires n <= |chapters|
  {
    forall e :: e in errors <==> SomeChapterViolates(chapters, n, known, sources, e)
  }

  /** The errors of the first n chapters in the order in which they are found. */
  function AllChapterErrors(chapters: seq<Chapter>, n: nat, known: set<string>, sources: set<string>): seq<PlanError>
    requires n <= |chapters|
  {
    if n == 0 then []
    else
      var c := chapters[n - 1];
      AllChapterErrors(chapters, n - 1, known, sources) + ChapterErrors(c, |c.prerequisites|, known, sources)
  }

  lemma {:induction false} AllErrorsExact(chapters: seq<Chapter>, n: nat, known: set<string>, sources: set<string>)
    requires n <= |chapters|
    ensures AllReported(AllChapterErrors(chapters, n, known, sources), chapters, n, known, sources)
    decreases n
  {
    if n > 0 {
      var c := chapters[n - 1];
      AllErrorsExact(chapters, n - 1, known, sources);
      ChapterErrorsExact(c, |c.prerequisites|, known, sources);
      AllReportedNext(AllChapterErrors(chapters, n - 1, known, sources),
                      ChapterErrors(c, |c.prerequisites|, known, sources), chapters, n - 1, known, sources);
    }
  }

  lemma AllReportedNext(errors: seq<PlanError>, more: seq<PlanError>, chapters: seq<Chapter>, n: nat,
                        known: set<string>, sources: set<string>)
    requires n < |chapters| && AllReported(errors, chapters, n, known, sources)
    requires Reported(more, chapters[n], |chapters[n].prerequisites|, known, sources)
    ensures AllReported(errors + more, chapters, n + 1, known, sources)
  {
    forall e ensures e in errors + more <==> SomeChapterViolates(chapters, n + 1, known, sources, e) {
      assert e in errors <==> SomeChapterViolates(chapters, n, known, sources, e);
    }
  }

  lemma RequiresNext(chapters: seq<Chapter>, n: nat, id: string, p: string)
    requires n < |chapters|
    ensures Requires(chapters[..n + 1], id, p) <==>
            Requires(chapters[..n], id, p) || (chapters[n].id == id && p in chapters[n].prerequisites)
  {
    var c := chapters[n];
    assert chapters[..n + 1] == chapters[..n] + [c];
    assert forall x :: x in chapters[..n + 1] <==> x in chapters[..n] || x == c;
  }

  lemma GraphNext(known: set<string>, chapters: seq<Chapter>, n: nat, g: Graph, g': Graph)
    requires n < |chapters| && IsGraphOf(known, chapters[..n], g)
    requires EdgesAdded(g, chapters[n], |chapters[n].prerequisites|, g')
    ensures IsGraphOf(known, chapters[..n + 1], g')
  {
    var c := chapters[n];
    assert c.prerequisites[..|c.prerequisites|] == c.prerequisites;
    forall p, id | p in g' ensures id in g'[p] <==> id != p && Requires(chapters[..n + 1], id, p) {
      RequiresNext(chapters, n, id, p);
    }
  }

  method BuildGraph(chapters: seq<Chapter>, sources: set<string>)
    returns (errors: seq<PlanError>, g: Graph, indegree: Degrees)
    ensures errors == AllChapterErrors(chapters, |chapters|, Known(chapters), sources)
    ensures g == GraphOf(chapters) && indegree == IndegreesOf(g)
  {
    var known := Known(chapters);
    errors, g, indegree := [], map p | p in known :: {}, map p | p in known :: 0;
    NoEdgesYet(known, g, indegree);
    for i := 0 to |chapters|
      invariant errors == AllChapterErrors(chapters, i, known, sources)
      invariant IsGraphOf(known, chapters[..i], g) && IsIndegree(g, indegree)
    {
      assert chapters[i] in chapters;
      ghost var before := g;
      var more;
      more, g, indegree := AddChapter(chapters[i], sources, g, indegree);
      GraphNext(known, chapters, i, before, g);
      errors := errors + more;
    }
    assert chapters[..|chapters|] == chapters;
    GraphIsUnique(chapters, g, indegree);
  }

  lemma NoEdgesYet(known: set<string>, g: Graph, indegree: Degrees)
    requires g.Keys == known && indegree.Keys == known
    requires forall p :: p in g ==> g[p] == {} && indegree[p] == 0
    ensures IsGraphOf(known, [], g) && IsIndegree(g, indegree)
  {
    forall v | v in g ensures Counted(g, indegree, v) {
      assert Preds(g, v) == {};
    }
  }

  // ---------------------------------------------------------------- the traversal

  /** The initial queue: in plan order, and once per chapter, the ids without a prerequisite to wait for. */
  function Roots(ids: seq<string>, indegree: Degrees): (roots: seq<string>)
    requires forall v :: v in ids ==> v in indegree
    ensures forall v :: v in roots <==> v in ids && indegree[v] == 0
  {
    if ids == [] then []
    else
      var init, last := ids[..|ids| - 1], ids[|ids| - 1];
      assert forall v :: v in ids <==> v in init || v == last;
      Roots(init, indegree) + if indegree[last] == 0 then [last] else []
  }

  lemma IdsAreKnown(chapters: seq<Chapter>)
    ensures forall v :: v in Ids(chapters) <==> v in Known(chapters)
  {
    forall v ensures v in Ids(chapters) <==> v in Known(chapters) {
      if v in Ids(chapters) {
        var i :| 0 <= i < |chapters| && Ids(chapters)[i] == v;
        assert chapters[i] in chapters;
      }
      if v in Known(chapters) {
        var c :| c in chapters && c.id == v;
        var i :| 0 <= i < |chapters| && chapters[i] == c;
        assert Ids(chapters)[i] == v;
      }
    }
  }

  /** The chapters the traversal starts with, in plan order. */
  function RootsOf(chapters: seq<Chapter>): (roots: seq<string>)
    ensures forall v :: v in roots <==> v in GraphOf(chapters) && Preds(GraphOf(chapters), v) == {}
  {
    IdsAreKnown(chapters);
    Roots(Ids(chapters), IndegreesOf(GraphOf(chapters)))
  }

  /** The order validate_plan returns. */
  function Order(chapters: seq<Chapter>): seq<string> {
    GraphIsClosed(chapters);
    var g := GraphOf(chapters);
    Kahn(g, IndegreesOf(g), RootsOf(chapters), [])
  }

  method Traverse(g: Graph, degrees: Degrees, roots: seq<string>) returns (ordered: seq<string>)
    requires Ready(g, degrees, roots)
    ensures ordered == Kahn(g, degrees, roots, [])
  {
    var indegree, queue := degrees, roots;
    ordered := [];
    while queue != []
      invariant Ready(g, indegree, queue)
      invariant Kahn(g, indegree, queue, ordered) == Kahn(g, degrees, roots, [])
      decreases |queue| + |Positive(indegree)|
    {
      ghost var was, waiting := indegree, queue;
      var current := queue[0];
      assert current in queue;
      ServingServes(g, indegree, current);
      AscendingIsDistinct(SortedStrings(g[current]));
      var dependents := SortedStrings(g[current]);
      ServingTerminates(g, indegree, current, Lowered(indegree, dependents), Released(indegree, dependents));
      queue, indegree := Serve(indegree, dependents, queue[1..]);
      ordered := ordered + [current];
    }
  }

  /** Indegrees and queue after the first k dependents were served. */
  ghost predicate ServedUpTo(degrees: Degrees, dependents: seq<string>, k: nat, queue: seq<string>,
                             indegree: Degrees, longer: seq<string>)
    requires k <= |dependents| && forall v :: v in dependents ==> v in degrees
  {
    && indegree == Lowered(degrees, dependents[..k])
    && longer == queue + Released(degrees, dependents[..k])
  }

  lemma ServeNext(degrees: Degrees, dependents: seq<string>, k: nat, queue: seq<string>,
                  indegree: Degrees, longer: seq<string>)
    requires Distinct(dependents) && k < |dependents| && forall v :: v in dependents ==> v in degrees
    requires ServedUpTo(degrees, dependents, k, queue, indegree, longer)
    ensures var d := dependents[k];
            && d in indegree && indegree[d] == degrees[d]
            && ServedUpTo(degrees, dependents, k + 1, queue, indegree[d := indegree[d] - 1],
                          longer + if indegree[d] == 1 then [d] else [])
  {
    var d := dependents[k];
    assert dependents[..k + 1][..k] == dependents[..k];
    assert dependents[..k + 1] == dependents[..k] + [d];
    assert d !in dependents[..k];
  }

  /** The inner loop over the dependents of one chapter. */
  method Serve(degrees: Degrees, dependents: seq<string>, queue: seq<string>)
    returns (longer: seq<string>, indegree: Degrees)
    requires Distinct(dependents) && forall v :: v in dependents ==> v in degrees
    ensures indegree == Lowered(degrees, dependents)
    ensures longer == queue + Released(degrees, dependents)
  {
    longer, indegree := queue, degrees;
    for k := 0 to |dependents|
      invariant ServedUpTo(degrees, dependents, k, queue, indegree, longer)
    {
      var dependent := dependents[k];
      ServeNext(degrees, dependents, k, queue, indegree, longer);
      indegree := indegree[dependent := indegree[dependent] - 1];
      if indegree[dependent] == 0 {
        longer := longer + [dependent];
      } else {
        assert longer + [] == longer;
      }
    }
    assert dependents[..|dependents|] == dependents;
  }

  // ---------------------------------------------------------------- the report

  /** Co-teachers that are not allowed, each once, ascending. */
  function NotAllowed(teachers: seq<int>, allowed: set<int>): (r: seq<int>)
    ensures Increasing(r) && forall t :: t in r <==> t in teachers && t !in allowed
  {
    SortedDistinct(Outside(teachers, allowed))
  }

  function Outside(teachers: seq<int>, allowed: set<int>): (r: seq<int>)
    ensures forall t :: t in r <==> t in teachers && t !in allowed
  {
    if teachers == [] then []
    else
      var init, last := teachers[..|teachers| - 1], teachers[|teachers| - 1];
      assert forall t :: t in teachers <==> t in init || t == last;
      Outside(init, allowed) + if last in allowed then [] else [last]
  }

  /** The length test behind the prerequisite_cycle error. */
  predicate CycleReported(chapters: seq<Chapter>) { |Order(chapters)| != |GraphOf(chapters)| }

  datatype Context = Context(sources: set<string>, organizations: Option<set<int>>, teachers: Option<set<int>>)

  /** The rule that an error stands for is broken by the plan; cycle is the outcome of the length test. */
  ghost predicate Violates(plan: Plan, context: Context, cycle: bool, e: PlanError) {
    match e
    case DuplicateChapterId => !Distinct(Ids(plan.chapters))
    case OrganizationRequired => context.organizations.Some? && plan.organization.None?
    case OrganizationNotAllowed =>
      context.organizations.Some? && plan.organization.Some? && plan.organization.value !in context.organizations.value
    case CoTeacherNotAllowed(teachers) =>
      context.teachers.Some? && teachers == NotAllowed(plan.coTeachers, context.teachers.value) && teachers != []
    case PrerequisiteCycle => cycle
    case _ => SomeChapterViolates(plan.chapters, |plan.chapters|, Known(plan.chapters), context.sources, e)
  }

  predicate HasRepetition(ids: seq<string>)
    ensures HasRepetition(ids) <==> !Distinct(ids)
  {
    ids != [] && (ids[|ids| - 1] in ids[..|ids| - 1] || HasRepetition(ids[..|ids| - 1]))
  }

  function IdErrors(plan: Plan): seq<PlanError> {
    if HasRepetition(Ids(plan.chapters)) then [DuplicateChapterId] else []
  }

  function OrganizationErrors(plan: Plan, context: Context): seq<PlanError> {
    if context.organizations.None? then []
    else if plan.organization.None? then [OrganizationRequired]
    else if plan.organization.value !in context.organizations.value then [OrganizationNotAllowed]
    else []
  }

  function TeacherErrors(plan: Plan, context: Context): seq<PlanError> {
    if context.teachers.None? then []
    else
      var invalid := NotAllowed(plan.coTeachers, context.teachers.value);
      if invalid == [] then [] else [CoTeacherNotAllowed(invalid)]
  }

  function PlanLevelErrors(plan: Plan, context: Context): seq<PlanError> {
    IdErrors(plan) + OrganizationErrors(plan, context) + TeacherErrors(plan, context)
  }

  predicate PlanLevel(e: PlanError) {
    e.DuplicateChapterId? || e.OrganizationRequired? || e.OrganizationNotAllowed? || e.CoTeacherNotAllowed?
  }

  predicate ChapterLevel(e: PlanError) {
    e.UnknownSource? || e.UnknownPrerequisite? || e.SelfPrerequisite?
  }

  lemma PlanLevelExact(plan: Plan, context: Context, cycle: bool, e: PlanError)
    ensures e in PlanLevelErrors(plan, context) <==> PlanLevel(e) && Violates(plan, context, cycle, e)
  {
    assert e in PlanLevelErrors(plan, context) <==>
      e in IdErrors(plan) || e in OrganizationErrors(plan, context) || e in TeacherErrors(plan, context);
  }

  lemma ChapterErrorsOnly(chapters: seq<Chapter>, known: set<string>, sources: set<string>, e: PlanError)
    requires SomeChapterViolates(chapters, |chapters|, known, sources, e)
    ensures ChapterLevel(e)
  {
  }

  /** The report's errors in their order. */
  function ReportErrors(plan: Plan, context: Context): seq<PlanError> {
    PlanLevelErrors(plan, context)
    + AllChapterErrors(plan.chapters, |plan.chapters|, Known(plan.chapters), context.sources)
    + if CycleReported(plan.chapters) then [PrerequisiteCycle] else []
  }

  /** Every broken rule is reported and nothing else; the plan is valid when none is broken. */
  method ValidatePlan(plan: Plan, context: Context) returns (report: Report)
    ensures report.errors == ReportErrors(plan, context)
    ensures forall e :: e in report.errors <==> Violates(plan, context, CycleReported(plan.chapters), e)
    ensures report.valid <==> report.errors == []
    ensures report.order == Order(plan.chapters)
  {
    var errors := PlanLevelErrors(plan, context);
    var chapterErrors, g, indegree := BuildGraph(plan.chapters, context.sources);
    GraphIsClosed(plan.chapters);
    IdsAreKnown(plan.chapters);
    var ordered := Traverse(g, indegree, Roots(Ids(plan.chapters), indegree));
    assert ordered == Order(plan.chapters);
    var cycle := |ordered| != |g|;
    var cycleErrors := if cycle then [PrerequisiteCycle] else [];
    AllErrorsExact(plan.chapters, |plan.chapters|, Known(plan.chapters), context.sources);
    ErrorsTogether(plan, context, cycle, chapterErrors);
    errors := errors + chapterErrors + cycleErrors;
    report := Report(errors == [], errors, ordered);
  }

  lemma ErrorsTogether(plan: Plan, context: Context, cycle: bool, chapterErrors: seq<PlanError>)
    requires AllReported(chapterErrors, plan.chapters, |plan.chapters|, Known(plan.chapters), context.sources)
    ensures var errors := PlanLevelErrors(plan, context) + chapterErrors + (if cycle then [PrerequisiteCycle] else []);
            forall e :: e in errors <==> Violates(plan, context, cycle, e)
  {
    var cycleErrors := if cycle then [PrerequisiteCycle] else [];
    forall e
      ensures e in PlanLevelErrors(plan, context) + chapterErrors + cycleErrors <==> Violates(plan, context, cycle, e)
    {
      PlanLevelExact(plan, context, cycle, e);
      assert e in chapterErrors ==> ChapterLevel(e) && Violates(plan, context, cycle, e) by {
        if e in chapterErrors {
          ChapterErrorsOnly(plan.chapters, Known(plan.chapters), context.sources, e);
        }
      }
      assert e in cycleErrors <==> e.PrerequisiteCycle? && Violates(plan, context, cycle, e);
    }
  }
}
