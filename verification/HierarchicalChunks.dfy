/**
  Grouping of consecutive child chunks into parent windows. A chunk is reduced to what the grouping
  reads: its length, its heading breadcrumb (empty if it has none), its page, and the fields that a
  parent copies from its first and last child.
*/
module HierarchicalChunks {
  import opened Knowledge
  import opened Ordering
  import opened Segmentation

  datatype Child = Child(size: nat, breadcrumb: string, page: Option<int>,
                         start: Option<int>, end: Option<int>, language: string)

  datatype Parent = Parent(page: Option<int>, start: Option<int>, end: Option<int>, language: string,
                           children: seq<Child>)

  datatype Limits = Limits(maxChars: int, minChildren: int)

  // ---------------------------------------------------------------- what a group looks like

  function Total(group: seq<Child>): nat {
    if group == [] then 0 else Total(group[..|group| - 1]) + group[|group| - 1].size
  }

  /** The breadcrumb of the last child that has one. */
  function LastBreadcrumb(group: seq<Child>): string {
    if group == [] then ""
    else if group[|group| - 1].breadcrumb != "" then group[|group| - 1].breadcrumb
    else LastBreadcrumb(group[..|group| - 1])
  }

  function LastPage(group: seq<Child>): Option<int> {
    if group == [] then None
    else if group[|group| - 1].page.Some? then group[|group| - 1].page
    else LastPage(group[..|group| - 1])
  }

  predicate TooLarge(limits: Limits, group: seq<Child>, next: Child) {
    Total(group) + next.size > limits.maxChars && |group| >= limits.minChildren
  }

  predicate OtherSection(limits: Limits, group: seq<Child>, next: Child) {
    && next.breadcrumb != "" && LastBreadcrumb(group) != "" && next.breadcrumb != LastBreadcrumb(group)
    && Total(group) > limits.maxChars / 3
  }

  predicate OtherPage(limits: Limits, group: seq<Child>, next: Child) {
    && next.page.Some? && LastPage(group).Some? && next.page != LastPage(group)
    && Total(group) > limits.maxChars / 2
  }

  /** There is a reason to close the group before the next child. */
  predicate Closes(limits: Limits, group: seq<Child>, next: Child) {
    && group != []
    && (TooLarge(limits, group, next) || OtherSection(limits, group, next) || OtherPage(limits, group, next))
  }

  function Closing(limits: Limits): (seq<Child>, Child) -> bool {
    (group, next) => Closes(limits, group, next)
  }

  /** The children determine the grouping: the description of the result leaves no choice. */
  lemma ParentsUnique(limits: Limits, p: seq<Parent>, q: seq<Parent>)
    requires Grouped(Closing(limits), Groups(p)) && Grouped(Closing(limits), Groups(q))
    requires AreWindows(p) && AreWindows(q) && Flatten(Groups(p)) == Flatten(Groups(q))
    ensures p == q
  {
    GroupingUnique(Closing(limits), Groups(p), Groups(q));
    forall k | 0 <= k < |p| ensures p[k] == q[k] {
      assert Groups(p)[k] == Groups(q)[k];
    }
  }

  // ---------------------------------------------------------------- size bounds

  /** A group over the size limit has at most minChildren children, or is a single chunk. */
  lemma OversizeOnlyByMinimum(limits: Limits, group: seq<Child>)
    requires Unbroken(Closing(limits), group) && group != []
    ensures Total(group) <= limits.maxChars || |group| <= limits.minChildren || |group| == 1
  {
    var n := |group| - 1;
    if n > 0 {
      assert StaysOpen(Closing(limits), group, n);
    }
  }

  /** The exception is needed: a single chunk forms a group whatever its size and the minimum. */
  lemma LoneChunkIsAGroup(limits: Limits, child: Child)
    ensures Grouped(Closing(limits), [[child]]) && Flatten([[child]]) == [child] && Total([child]) == child.size
  {
    assert [child][..0] == [];
    assert Flatten([[child]]) == [child] + Flatten([]);
  }

  lemma {:induction false} TotalAtMost(group: seq<Child>, size: nat)
    requires forall i :: 0 <= i < |group| ==> group[i].size <= size
    ensures Total(group) <= |group| * size
  {
    if group != [] {
      TotalAtMost(group[..|group| - 1], size);
      assert |group| * size == (|group| - 1) * size + size;
    }
  }

  /** With children of at most `size` characters no parent exceeds both bounds. */
  lemma ParentIsBounded(limits: Limits, group: seq<Child>, size: nat)
    requires Unbroken(Closing(limits), group) && group != []
    requires forall i :: 0 <= i < |group| ==> group[i].size <= size
    ensures var least := if limits.minChildren < 1 then 1 else limits.minChildren;
            Total(group) <= limits.maxChars || Total(group) <= least * size
  {
    OversizeOnlyByMinimum(limits, group);
    TotalAtMost(group, size);
    var least := if limits.minChildren < 1 then 1 else limits.minChildren;
    if |group| <= least {
      FewerTimes(|group|, least, size);
    }
  }

  lemma FewerTimes(a: nat, b: nat, size: nat)
    requires a <= b
    ensures a * size <= b * size
  {
  }

  /** A closed group and the next one together exceed a third of the limit. */
  lemma NeighboursExceedThird(limits: Limits, group: seq<Child>, next: seq<Child>)
    requires Broken(Closing(limits), group, next)
    ensures Total(group) + Total(next) > limits.maxChars / 3
  {
    FirstFits(next);
  }

  lemma {:induction false} FirstFits(group: seq<Child>)
    requires group != []
    ensures group[0].size <= Total(group)
  {
    if |group| > 1 {
      FirstFits(group[..|group| - 1]);
    }
  }

  lemma {:induction false} TotalConcat(a: seq<Child>, b: seq<Child>)
    ensures Total(a + b) == Total(a) + Total(b)
    decreases |b|
  {
    if b == [] {
      assert a + b == a;
    } else {
      assert (a + b)[..|a + b| - 1] == a + b[..|b| - 1];
      TotalConcat(a, b[..|b| - 1]);
    }
  }

  /** The text that G groups need at least: floor(G / 2) times one more than a third of the limit. */
  function Needed(limits: Limits, g: nat): int {
    (g / 2) * (limits.maxChars / 3 + 1)
  }

  lemma NeededStep(limits: Limits, g: nat)
    ensures Needed(limits, g + 2) == Needed(limits, g) + limits.maxChars / 3 + 1
    ensures Needed(limits, g) == (g / 2) * (limits.maxChars / 3) + g / 2
  {
    var half, third := g / 2, limits.maxChars / 3;
    assert (g + 2) / 2 == half + 1;
    assert (half + 1) * (third + 1) == half * (third + 1) + (third + 1);
    assert half * (third + 1) == half * third + half;
  }

  /** Groups are not small. */
  lemma {:induction false} GroupsFillThirds(limits: Limits, groups: seq<seq<Child>>)
    requires Grouped(Closing(limits), groups)
    ensures Needed(limits, |groups|) <= Total(Flatten(groups))
    decreases |groups|
  {
    if |groups| >= 2 {
      TailGrouped(Closing(limits), groups);
      TailGrouped(Closing(limits), groups[1..]);
      GroupsFillThirds(limits, groups[1..][1..]);
      NeededStep(limits, |groups| - 2);
      PairTotal(limits, groups);
    } else {
      assert |groups| / 2 == 0;
      assert Needed(limits, |groups|) == 0;
    }
  }

  lemma HeadTotal(groups: seq<seq<Child>>)
    requires groups != []
    ensures Total(Flatten(groups)) == Total(groups[0]) + Total(Flatten(groups[1..]))
  {
    FlattenHead(groups);
    TotalConcat(groups[0], Flatten(groups[1..]));
  }

  lemma PairTotal(limits: Limits, groups: seq<seq<Child>>)
    requires Grouped(Closing(limits), groups) && |groups| >= 2
    ensures Total(Flatten(groups)) > limits.maxChars / 3 + Total(Flatten(groups[1..][1..]))
  {
    HeadTotal(groups);
    HeadTotal(groups[1..]);
    assert Broken(Closing(limits), groups[1 - 1], groups[1]);
    NeighboursExceedThird(limits, groups[0], groups[1]);
  }

  /** G >= 2 groups hold more than floor(G / 2) thirds of the limit. */
  lemma ManyGroupsNeedText(limits: Limits, groups: seq<seq<Child>>)
    requires Grouped(Closing(limits), groups) && |groups| >= 2
    ensures (|groups| / 2) * (limits.maxChars / 3) < Total(Flatten(groups))
  {
    GroupsFillThirds(limits, groups);
    NeededStep(limits, |groups|);
  }

  // ---------------------------------------------------------------- where groups end, on the children themselves

  /** The latest child of the group that names a section. */
  ghost predicate LatestSection(group: seq<Child>, k: nat) {
    && k < |group| && group[k].breadcrumb != ""
    && forall j :: k < j < |group| ==> group[j].breadcrumb == ""
  }

  /** The latest child of the group that has a page. */
  ghost predicate LatestPage(group: seq<Child>, k: nat) {
    && k < |group| && group[k].page.Some?
    && forall j :: k < j < |group| ==> group[j].page.None?
  }

  /** The next child belongs to another section than the latest one named. */
  ghost predicate ChangesSection(group: seq<Child>, next: Child) {
    next.breadcrumb != "" && exists k: nat :: LatestSection(group, k) && group[k].breadcrumb != next.breadcrumb
  }

  ghost predicate ChangesPage(group: seq<Child>, next: Child) {
    next.page.Some? && exists k: nat :: LatestPage(group, k) && group[k].page.value != next.page.value
  }

  /**
    A nonempty group ends before a child that makes it too large, once it has the minimum of children;
    before another section, above a third of the size; and before another page, above half of it.
  */
  ghost predicate ReasonToSplit(limits: Limits, group: seq<Child>, next: Child) {
    group != []
    && (|| (Total(group + [next]) > limits.maxChars && |group| >= limits.minChildren)
        || (ChangesSection(group, next) && Total(group) > limits.maxChars / 3)
        || (ChangesPage(group, next) && Total(group) > limits.maxChars / 2))
  }

  lemma LatestSectionStays(group: seq<Child>, k: nat)
    requires group != [] && group[|group| - 1].breadcrumb == ""
    ensures LatestSection(group, k) <==> LatestSection(group[..|group| - 1], k)
  {
    var last := |group| - 1;
    assert forall j :: 0 <= j < last ==> group[..last][j] == group[j];
  }

  lemma LatestPageStays(group: seq<Child>, k: nat)
    requires group != [] && group[|group| - 1].page.None?
    ensures LatestPage(group, k) <==> LatestPage(group[..|group| - 1], k)
  {
    var last := |group| - 1;
    assert forall j :: 0 <= j < last ==> group[..last][j] == group[j];
  }

  /** The breadcrumb of the group is that of the latest child that has one. */
  lemma {:induction false} LastBreadcrumbMeans(group: seq<Child>, k: nat)
    ensures LatestSection(group, k) ==> LastBreadcrumb(group) == group[k].breadcrumb
    decreases |group|
  {
    if group != [] && group[|group| - 1].breadcrumb == "" {
      LatestSectionStays(group, k);
      LastBreadcrumbMeans(group[..|group| - 1], k);
    }
  }

  lemma {:induction false} SomeLatestSection(group: seq<Child>) returns (k: nat)
    requires LastBreadcrumb(group) != ""
    ensures LatestSection(group, k)
    decreases |group|
  {
    var last := |group| - 1;
    if group[last].breadcrumb != "" {
      k := last;
    } else {
      k := SomeLatestSection(group[..last]);
      LatestSectionStays(group, k);
    }
  }

  /** The page of the group is that of the latest child that has one. */
  lemma {:induction false} LastPageMeans(group: seq<Child>, k: nat)
    ensures LatestPage(group, k) ==> LastPage(group) == group[k].page
    decreases |group|
  {
    if group != [] && group[|group| - 1].page.None? {
      LatestPageStays(group, k);
      LastPageMeans(group[..|group| - 1], k);
    }
  }

  lemma {:induction false} SomeLatestPage(group: seq<Child>) returns (k: nat)
    requires LastPage(group).Some?
    ensures LatestPage(group, k)
    decreases |group|
  {
    var last := |group| - 1;
    if group[last].page.Some? {
      k := last;
    } else {
      k := SomeLatestPage(group[..last]);
      LatestPageStays(group, k);
    }
  }

  lemma ClosesForReason(limits: Limits, group: seq<Child>, next: Child)
    ensures Closes(limits, group, next) <==> ReasonToSplit(limits, group, next)
  {
    assert (group + [next])[..|group|] == group;
    SectionChanges(limits, group, next);
    PageChanges(limits, group, next);
  }

  lemma SectionChanges(limits: Limits, group: seq<Child>, next: Child)
    ensures OtherSection(limits, group, next) <==> ChangesSection(group, next) && Total(group) > limits.maxChars / 3
  {
    if LastBreadcrumb(group) != "" {
      var k := SomeLatestSection(group);
      LastBreadcrumbMeans(group, k);
    }
    if ChangesSection(group, next) {
      var k: nat :| LatestSection(group, k) && group[k].breadcrumb != next.breadcrumb;
      LastBreadcrumbMeans(group, k);
    }
  }

  lemma PageChanges(limits: Limits, group: seq<Child>, next: Child)
    ensures OtherPage(limits, group, next) <==> ChangesPage(group, next) && Total(group) > limits.maxChars / 2
  {
    if LastPage(group).Some? {
      var k := SomeLatestPage(group);
      LastPageMeans(group, k);
    }
    if ChangesPage(group, next) {
      var k: nat :| LatestPage(group, k) && group[k].page.value != next.page.value;
      LastPageMeans(group, k);
    }
  }

  /** A reason at every boundary, and none inside a group. */
  ghost predicate SplitForReason(limits: Limits, groups: seq<seq<Child>>) {
    && (forall g :: 0 <= g < |groups| ==> groups[g] != [])
    && (forall g :: 0 < g < |groups| ==> ReasonToSplit(limits, groups[g - 1], groups[g][0]))
    && (forall g, i :: 0 <= g < |groups| && 0 < i < |groups[g]| ==>
          !ReasonToSplit(limits, groups[g][..i], groups[g][i]))
  }

  lemma GroupedForReason(limits: Limits, groups: seq<seq<Child>>)
    requires Grouped(Closing(limits), groups)
    ensures SplitForReason(limits, groups)
  {
    forall g | 0 < g < |groups| ensures ReasonToSplit(limits, groups[g - 1], groups[g][0]) {
      assert Broken(Closing(limits), groups[g - 1], groups[g]);
      ClosesForReason(limits, groups[g - 1], groups[g][0]);
    }
    forall g, i | 0 <= g < |groups| && 0 < i < |groups[g]|
      ensures !ReasonToSplit(limits, groups[g][..i], groups[g][i])
    {
      assert StaysOpen(Closing(limits), groups[g], i);
      ClosesForReason(limits, groups[g][..i], groups[g][i]);
    }
  }

  /** Page, start and language are those of the first child, the end is that of the last. */
  ghost predicate CopiesEnds(parent: Parent) {
    && parent.children != []
    && parent.page == parent.children[0].page && parent.start == parent.children[0].start
    && parent.language == parent.children[0].language
    && parent.end == parent.children[|parent.children| - 1].end
  }

  // ---------------------------------------------------------------- the loop

  /** `_flush`: the fields of a parent come from its first and last child. */
  function Window(children: seq<Child>): (parent: Parent)
    requires children != []
  {
    var first, last := children[0], children[|children| - 1];
    Parent(first.page, first.start, last.end, first.language, children)
  }

  function Groups(pairs: seq<Parent>): (groups: seq<seq<Child>>)
    ensures |groups| == |pairs|
    ensures forall k :: 0 <= k < |pairs| ==> groups[k] == pairs[k].children
  {
    seq(|pairs|, k requires 0 <= k < |pairs| => pairs[k].children)
  }

  ghost predicate AreWindows(pairs: seq<Parent>) {
    forall k :: 0 <= k < |pairs| ==> pairs[k].children != [] && pairs[k] == Window(pairs[k].children)
  }

  /** What the loop variables remember about the open group. */
  ghost predicate Remembers(open: seq<Child>, chars: int, breadcrumb: string, page: Option<int>) {
    chars == Total(open) && breadcrumb == LastBreadcrumb(open) && page == LastPage(open)
  }

  lemma RemembersGrows(open: seq<Child>, chars: int, breadcrumb: string, page: Option<int>, child: Child)
    requires Remembers(open, chars, breadcrumb, page)
    ensures Remembers(open + [child], chars + child.size,
                      if child.breadcrumb != "" then child.breadcrumb else breadcrumb,
                      if child.page.Some? then child.page else page)
  {
    assert (open + [child])[..|open|] == open;
  }

  function Flushed(pairs: seq<Parent>, current: seq<Child>): (r: seq<Parent>)
    requires current != []
    ensures Groups(r) == Groups(pairs) + [current]
    ensures AreWindows(pairs) ==> AreWindows(r)
  {
    pairs + [Window(current)]
  }

  /** The chain of tests decides exactly whether there is a reason to close the open group. */
  method StartsNewParent(limits: Limits, current: seq<Child>, chars: int, breadcrumb: string, page: Option<int>,
                         child: Child)
    returns (newParent: bool)
    requires Remembers(current, chars, breadcrumb, page)
    ensures newParent <==> Closes(limits, current, child)
  {
    newParent := false;
    if current == [] {
      newParent := false;
    } else if chars + child.size > limits.maxChars && |current| >= limits.minChildren {
      newParent := true;
    } else if child.breadcrumb != "" && breadcrumb != "" && child.breadcrumb != breadcrumb
              && chars > limits.maxChars / 3 {
      newParent := true;
    } else if child.page.Some? && page.Some? && child.page != page && chars > limits.maxChars / 2 {
      newParent := true;
    }
  }

  /** The child is appended to the open group and remembered. */
  method AppendChild(current0: seq<Child>, chars0: int, breadcrumb0: string, page0: Option<int>, child: Child)
    returns (current: seq<Child>, chars: int, breadcrumb: string, page: Option<int>)
    requires Remembers(current0, chars0, breadcrumb0, page0)
    ensures current == current0 + [child] && Remembers(current, chars, breadcrumb, page)
  {
    RemembersGrows(current0, chars0, breadcrumb0, page0, child);
    current, chars, breadcrumb, page := current0 + [child], chars0 + child.size, breadcrumb0, page0;
    if child.breadcrumb != "" {
      breadcrumb := child.breadcrumb;
    }
    if child.page.Some? {
      page := child.page;
    }
  }

  lemma ChildCloses(limits: Limits, read: seq<Child>, pairs: seq<Parent>, current: seq<Child>, child: Child)
    requires Reading(Closing(limits), read, Groups(pairs), current) && Closes(limits, current, child)
    ensures Reading(Closing(limits), read + [child], Groups(Flushed(pairs, current)), [child])
  {
    GroupCloses(Closing(limits), read, Groups(pairs), current, child);
  }

  lemma ChildJoins(limits: Limits, read: seq<Child>, pairs: seq<Parent>, current: seq<Child>, child: Child)
    requires Reading(Closing(limits), read, Groups(pairs), current) && !Closes(limits, current, child)
    ensures Reading(Closing(limits), read + [child], Groups(pairs), current + [child])
  {
    ItemJoins(Closing(limits), read, Groups(pairs), current, child);
  }

  /** One turn of the loop: the child joins the open group, or closes it and opens the next. */
  method AddChild(limits: Limits, pairs0: seq<Parent>, current0: seq<Child>, chars0: int, breadcrumb0: string,
                  page0: Option<int>, child: Child, ghost read: seq<Child>)
    returns (pairs: seq<Parent>, current: seq<Child>, chars: int, breadcrumb: string, page: Option<int>)
    requires Reading(Closing(limits), read, Groups(pairs0), current0) && AreWindows(pairs0)
    requires Remembers(current0, chars0, breadcrumb0, page0)
    ensures Reading(Closing(limits), read + [child], Groups(pairs), current) && AreWindows(pairs)
    ensures Remembers(current, chars, breadcrumb, page)
  {
    var newParent := StartsNewParent(limits, current0, chars0, breadcrumb0, page0, child);
    if newParent {
      ChildCloses(limits, read, pairs0, current0, child);
      pairs := Flushed(pairs0, current0);
      current, chars, breadcrumb, page := AppendChild([], 0, "", None, child);
      assert current == [child];
    } else {
      ChildJoins(limits, read, pairs0, current0, child);
      pairs := pairs0;
      current, chars, breadcrumb, page := AppendChild(current0, chars0, breadcrumb0, page0, child);
    }
  }

  /** The loop over the children. */
  method ReadChildren(limits: Limits, flat: seq<Child>) returns (pairs: seq<Parent>, current: seq<Child>)
    ensures Reading(Closing(limits), flat, Groups(pairs), current) && AreWindows(pairs)
  {
    pairs, current := [], [];
    var chars, breadcrumb, page := 0, "", None;
    for i := 0 to |flat|
      invariant Reading(Closing(limits), flat[..i], Groups(pairs), current) && AreWindows(pairs)
      invariant Remembers(current, chars, breadcrumb, page)
    {
      OneMore(flat, i);
      pairs, current, chars, breadcrumb, page :=
        AddChild(limits, pairs, current, chars, breadcrumb, page, flat[i], flat[..i]);
    }
    OneMore(flat, |flat|);
  }

  lemma AllFlushed(limits: Limits, flat: seq<Child>, pairs: seq<Parent>, current: seq<Child>)
    requires Reading(Closing(limits), flat, Groups(pairs), current)
    ensures var all := if current == [] then pairs else Flushed(pairs, current);
            Flatten(Groups(all)) == flat && Grouped(Closing(limits), Groups(all))
  {
    ReadAll(Closing(limits), flat, Groups(pairs), current);
  }

  lemma WindowsCopyEnds(pairs: seq<Parent>)
    requires AreWindows(pairs)
    ensures forall k :: 0 <= k < |pairs| ==> CopiesEnds(pairs[k])
  {
  }

  /** Every child lands in a parent, in order, and the parents are the one grouping of the children. */
  method BuildHierarchicalChunks(limits: Limits, flat: seq<Child>) returns (pairs: seq<Parent>)
    ensures Flatten(Groups(pairs)) == flat
    ensures Grouped(Closing(limits), Groups(pairs))
    ensures AreWindows(pairs)
    ensures SplitForReason(limits, Groups(pairs))
    ensures forall k :: 0 <= k < |pairs| ==> CopiesEnds(pairs[k])
  {
    var read, current := ReadChildren(limits, flat);
    AllFlushed(limits, flat, read, current);
    pairs := if current == [] then read else Flushed(read, current);
    GroupedForReason(limits, Groups(pairs));
    WindowsCopyEnds(pairs);
  }
}
