/**
  Cutting a list into consecutive groups from left to right: before each item a test on the open group
  decides whether to close it. The description of the result says where a group must end and where
  it must not, and has exactly one solution.
*/
module Segmentation {
  import opened Ordering

  predicate StaysOpen<T>(closes: (seq<T>, T) -> bool, group: seq<T>, i: nat)
    requires i < |group|
  {
    !closes(group[..i], group[i])
  }

  /** Inside the group no reason to close it came up. */
  ghost predicate Unbroken<T>(closes: (seq<T>, T) -> bool, group: seq<T>) {
    forall i {:trigger StaysOpen(closes, group, i)} :: 0 < i < |group| ==> StaysOpen(closes, group, i)
  }

  ghost predicate Broken<T>(closes: (seq<T>, T) -> bool, group: seq<T>, next: seq<T>) {
    next != [] && closes(group, next[0])
  }

  /** Nonempty groups, unbroken inside, with a reason to close each of them before the next one. */
  ghost predicate Grouped<T>(closes: (seq<T>, T) -> bool, groups: seq<seq<T>>) {
    && (forall g :: 0 <= g < |groups| ==> groups[g] != [] && Unbroken(closes, groups[g]))
    && (forall g :: 0 < g < |groups| ==> Broken(closes, groups[g - 1], groups[g]))
  }

  // ---------------------------------------------------------------- one solution

  lemma ClosedAtEnd<T>(closes: (seq<T>, T) -> bool, p: seq<seq<T>>)
    requires Grouped(closes, p) && p != []
    ensures Flatten(p) == p[0] + Flatten(p[1..]) && Flatten(p)[..|p[0]|] == p[0]
    ensures |Flatten(p)| > |p[0]| ==> closes(p[0], Flatten(p)[|p[0]|])
  {
    FlattenHead(p);
    if |p| > 1 {
      assert Broken(closes, p[1 - 1], p[1]);
      FlattenHead(p[1..]);
    } else {
      assert Flatten(p[1..]) == [];
    }
  }

  lemma OpenInside<T>(closes: (seq<T>, T) -> bool, q: seq<seq<T>>, n: nat)
    requires Grouped(closes, q) && q != [] && 0 < n < |q[0]|
    ensures n < |Flatten(q)| && !closes(Flatten(q)[..n], Flatten(q)[n])
  {
    FlattenHead(q);
    assert StaysOpen(closes, q[0], n);
    assert Flatten(q)[..n] == q[0][..n];
  }

  /** The first group cannot end earlier in one grouping than in another of the same items. */
  lemma FirstNotShorter<T>(closes: (seq<T>, T) -> bool, p: seq<seq<T>>, q: seq<seq<T>>)
    requires Grouped(closes, p) && Grouped(closes, q) && Flatten(p) == Flatten(q)
    requires p != [] && q != []
    ensures |p[0]| >= |q[0]|
  {
    ClosedAtEnd(closes, p);
    if |p[0]| < |q[0]| {
      OpenInside(closes, q, |p[0]|);
      assert false;
    }
  }

  lemma SameFirst<T>(closes: (seq<T>, T) -> bool, p: seq<seq<T>>, q: seq<seq<T>>)
    requires Grouped(closes, p) && Grouped(closes, q) && Flatten(p) == Flatten(q)
    requires p != [] && q != []
    ensures p[0] == q[0] && Flatten(p[1..]) == Flatten(q[1..])
  {
    FirstNotShorter(closes, p, q);
    FirstNotShorter(closes, q, p);
    FlattenHead(p);
    FlattenHead(q);
    assert p[0] == Flatten(p)[..|p[0]|] && q[0] == Flatten(q)[..|q[0]|];
    assert Flatten(p[1..]) == Flatten(p)[|p[0]|..] && Flatten(q[1..]) == Flatten(q)[|q[0]|..];
  }

  lemma TailGrouped<T>(closes: (seq<T>, T) -> bool, p: seq<seq<T>>)
    requires Grouped(closes, p) && p != []
    ensures Grouped(closes, p[1..])
  {
    forall g | 0 < g < |p[1..]| ensures Broken(closes, p[1..][g - 1], p[1..][g]) {
      assert Broken(closes, p[g + 1 - 1], p[g + 1]);
    }
  }

  lemma FlattenNonEmpty<T>(p: seq<seq<T>>)
    requires forall g :: 0 <= g < |p| ==> p[g] != []
    ensures p == [] <==> Flatten(p) == []
  {
  }

  /** The items determine the groups: the description leaves no choice. */
  lemma {:induction false} GroupingUnique<T>(closes: (seq<T>, T) -> bool, p: seq<seq<T>>, q: seq<seq<T>>)
    requires Grouped(closes, p) && Grouped(closes, q) && Flatten(p) == Flatten(q)
    ensures p == q
    decreases |p|
  {
    FlattenNonEmpty(p);
    FlattenNonEmpty(q);
    if p != [] {
      SameFirst(closes, p, q);
      TailGrouped(closes, p);
      TailGrouped(closes, q);
      GroupingUnique(closes, p[1..], q[1..]);
      assert p == [p[0]] + p[1..] && q == [q[0]] + q[1..];
    }
  }

  // ---------------------------------------------------------------- the loop

  /** The groups closed so far and the open group hold the items read, in order. */
  ghost predicate Reading<T>(closes: (seq<T>, T) -> bool, read: seq<T>, groups: seq<seq<T>>, open: seq<T>) {
    && Grouped(closes, groups) && Unbroken(closes, open)
    && (groups != [] ==> Broken(closes, groups[|groups| - 1], open))
    && Flatten(groups) + open == read
    && (open == [] ==> read == [])
  }

  lemma ItemJoins<T>(closes: (seq<T>, T) -> bool, read: seq<T>, groups: seq<seq<T>>, open: seq<T>, item: T)
    requires Reading(closes, read, groups, open) && (open == [] || !closes(open, item))
    ensures Reading(closes, read + [item], groups, open + [item])
  {
    var more := open + [item];
    forall i | 0 < i < |more| ensures StaysOpen(closes, more, i) {
      assert more[..i] == open[..i];
      assert i < |open| ==> StaysOpen(closes, open, i);
    }
    assert groups != [] ==> more[0] == open[0];
  }

  lemma LastGroup<T>(closes: (seq<T>, T) -> bool, read: seq<T>, groups: seq<seq<T>>, open: seq<T>)
    requires Reading(closes, read, groups, open) && open != []
    ensures Grouped(closes, groups + [open]) && Flatten(groups + [open]) == read
  {
    FlattenAppend(groups, open);
    var all := groups + [open];
    forall g | 0 < g < |all| ensures Broken(closes, all[g - 1], all[g]) {
      assert g < |groups| ==> Broken(closes, groups[g - 1], groups[g]);
    }
  }

  lemma GroupCloses<T>(closes: (seq<T>, T) -> bool, read: seq<T>, groups: seq<seq<T>>, open: seq<T>, item: T)
    requires Reading(closes, read, groups, open) && open != [] && closes(open, item)
    ensures Reading(closes, read + [item], groups + [open], [item])
  {
    LastGroup(closes, read, groups, open);
  }

  /** At the end the open group, if there is one, is the last. */
  lemma ReadAll<T>(closes: (seq<T>, T) -> bool, read: seq<T>, groups: seq<seq<T>>, open: seq<T>)
    requires Reading(closes, read, groups, open)
    ensures var all := if open == [] then groups else groups + [open];
            Flatten(all) == read && Grouped(closes, all)
  {
    if open != [] {
      LastGroup(closes, read, groups, open);
    }
  }

  lemma OneMore<T>(items: seq<T>, i: nat)
    requires i <= |items|
    ensures i < |items| ==> items[..i + 1] == items[..i] + [items[i]]
    ensures items[..|items|] == items
  {
  }
}
