/**
  Lists: without repetition, concatenated, of positions in ascending order; and Python's `sorted` as
  far as the modelled code uses it: a stable sort of positions by a tuple key, and the ascending list
  of the elements of a set of integers or of strings.
*/
module Ordering {

  function Min(a: nat, b: nat): nat { if a <= b then a else b }

  function Max(a: nat, b: nat): nat { if a <= b then b else a }

  // ---------------------------------------------------------------- lists

  ghost predicate Distinct<T>(xs: seq<T>) {
    forall i, j :: 0 <= i < j < |xs| ==> xs[i] != xs[j]
  }

  /** All lists, one after the other. */
  function Flatten<T>(lists: seq<seq<T>>): seq<T> {
    if lists == [] then [] else Flatten(lists[..|lists| - 1]) + lists[|lists| - 1]
  }

  lemma {:induction false} EqualPlaceByPlace<T>(p: seq<T>, q: seq<T>, n: nat)
    requires n <= |p| == |q| && forall k :: 0 <= k < |p| && p[..k] == q[..k] ==> p[k] == q[k]
    ensures p[..n] == q[..n]
    decreases n
  {
    if n > 0 {
      EqualPlaceByPlace(p, q, n - 1);
      assert p[..n] == p[..n - 1] + [p[n - 1]] && q[..n] == q[..n - 1] + [q[n - 1]];
    }
  }

  lemma FlattenAppend<T>(lists: seq<seq<T>>, more: seq<T>)
    ensures Flatten(lists + [more]) == Flatten(lists) + more
  {
    assert (lists + [more])[..|lists|] == lists;
  }

  lemma {:induction false} FlattenHead<T>(lists: seq<seq<T>>)
    requires lists != []
    ensures Flatten(lists) == lists[0] + Flatten(lists[1..])
    decreases |lists|
  {
    var last := |lists| - 1;
    if last == 0 {
      assert lists[..0] == [] && lists[1..] == [];
      assert Flatten(lists) == [] + lists[0];
    } else {
      FlattenHead(lists[..last]);
      assert lists[1..][..last - 1] == lists[..last][1..];
      assert Flatten(lists[1..]) == Flatten(lists[..last][1..]) + lists[last];
    }
  }

  // ---------------------------------------------------------------- stable sort by a tuple key

  /** A Python tuple key of at most three numbers, compared left to right. */
  datatype SortKey = SortKey(major: real, middle: real, minor: real)

  predicate Below(a: SortKey, b: SortKey) {
    || a.major < b.major
    || (a.major == b.major && (a.middle < b.middle || (a.middle == b.middle && a.minor < b.minor)))
  }

  /** Position i comes before position j: a smaller key, or the same key and an earlier place. */
  predicate Precedes(keys: seq<SortKey>, i: nat, j: nat)
    requires i < |keys| && j < |keys|
  {
    Below(keys[i], keys[j]) || (keys[i] == keys[j] && i < j)
  }

  ghost predicate IsOrder(keys: seq<SortKey>, order: seq<nat>) {
    && (forall k :: 0 <= k < |order| ==> order[k] < |keys|)
    && (forall k, m :: 0 <= k < m < |order| ==> Precedes(keys, order[k], order[m]))
  }

  /** All positions of keys, in stable ascending order. */
  ghost predicate IsStableSort(keys: seq<SortKey>, order: seq<nat>) {
    && IsOrder(keys, order)
    && (forall i: nat :: i < |keys| ==> i in order)
  }

  function Insert(keys: seq<SortKey>, order: seq<nat>, i: nat): (r: seq<nat>)
    requires IsOrder(keys, order) && i < |keys| && i !in order
    ensures IsOrder(keys, r) && |r| == |order| + 1
    ensures forall k: nat :: k in r <==> k == i || k in order
  {
    if order == [] then [i]
    else if Precedes(keys, i, order[0]) then [i] + order
    else
      assert Precedes(keys, order[0], i);
      var rest := Insert(keys, order[1..], i);
      assert forall k: nat :: k in order <==> k == order[0] || k in order[1..];
      assert forall m :: 0 <= m < |rest| ==> Precedes(keys, order[0], rest[m]) by {
        forall m | 0 <= m < |rest| ensures Precedes(keys, order[0], rest[m]) {
          assert rest[m] in rest;
          if rest[m] != i {
            var k :| 0 <= k < |order[1..]| && order[1..][k] == rest[m];
            assert Precedes(keys, order[0], order[k + 1]);
          }
        }
      }
      [order[0]] + rest
  }

  function SortFirst(keys: seq<SortKey>, n: nat): (r: seq<nat>)
    requires n <= |keys|
    ensures IsOrder(keys, r) && |r| == n
    ensures forall i: nat :: i in r <==> i < n
  {
    if n == 0 then [] else Insert(keys, SortFirst(keys, n - 1), n - 1)
  }

  function StableSort(keys: seq<SortKey>): (order: seq<nat>)
    ensures IsStableSort(keys, order) && |order| == |keys|
  {
    SortFirst(keys, |keys|)
  }

  lemma OrderIsDistinct(keys: seq<SortKey>, order: seq<nat>)
    requires IsOrder(keys, order)
    ensures Distinct(order)
  {
    forall i, j | 0 <= i < j < |order| ensures order[i] != order[j] {
      assert Precedes(keys, order[i], order[j]);
    }
  }

  /** There is only one stable sort. */
  lemma {:induction false} StableSortUnique(keys: seq<SortKey>, p: seq<nat>, q: seq<nat>)
    requires IsOrder(keys, p) && IsOrder(keys, q)
    requires forall i: nat :: i in p <==> i in q
    ensures p == q
  {
    assert p != [] ==> p[0] in q;
    assert q != [] ==> q[0] in p;
    if p != [] {
      assert p[0] == q[0];
      forall i: nat ensures i in p[1..] <==> i in q[1..] {
        assert i in p <==> i == p[0] || i in p[1..];
        assert i in q <==> i == q[0] || i in q[1..];
      }
      StableSortUnique(keys, p[1..], q[1..]);
    }
  }

  // ---------------------------------------------------------------- sorted(set of integers)

  ghost predicate Increasing(xs: seq<int>) {
    forall i, j :: 0 <= i < j < |xs| ==> xs[i] < xs[j]
  }

  function InsertInt(xs: seq<int>, x: int): (r: seq<int>)
    requires Increasing(xs)
    ensures Increasing(r)
    ensures forall y :: y in r <==> y == x || y in xs
  {
    if xs == [] || x < xs[0] then [x] + xs
    else if x == xs[0] then xs
    else
      assert forall y :: y in xs <==> y == xs[0] || y in xs[1..];
      var rest := InsertInt(xs[1..], x);
      assert forall m :: 0 <= m < |rest| ==> xs[0] < rest[m] by {
        forall m | 0 <= m < |rest| ensures xs[0] < rest[m] {
          assert rest[m] in rest;
          if rest[m] != x {
            var k :| 0 <= k < |xs[1..]| && xs[1..][k] == rest[m];
            assert xs[0] < xs[k + 1];
          }
        }
      }
      [xs[0]] + rest
  }

  function SortedDistinct(xs: seq<int>): (r: seq<int>)
    ensures Increasing(r)
    ensures forall y :: y in r <==> y in xs
  {
    if xs == [] then [] else InsertInt(SortedDistinct(xs[..|xs| - 1]), xs[|xs| - 1])
  }

  // ---------------------------------------------------------------- sorted(set of strings)

  /** Lexicographic comparison by code point; a proper prefix is smaller. */
  predicate Less(a: string, b: string) {
    b != [] && (a == [] || a[0] < b[0] || (a[0] == b[0] && Less(a[1..], b[1..])))
  }

  lemma {:induction false} LessTotal(a: string, b: string)
    ensures Less(a, b) || a == b || Less(b, a)
    ensures !(Less(a, b) && Less(b, a)) && !Less(a, a)
  {
    if a != [] && b != [] {
      LessTotal(a[1..], b[1..]);
      if a[1..] == b[1..] && a[0] == b[0] { assert a == [a[0]] + a[1..] == b; }
    }
    if a != [] { LessTotal(a[1..], a[1..]); }
  }

  /** The strings agree on the first k characters, and then the first one ends or has the smaller character. */
  predicate SmallerAt(a: string, b: string, k: nat) {
    k <= |a| && k < |b| && a[..k] == b[..k] && (k == |a| || a[k] < b[k])
  }

  lemma SharedHead(a: string, b: string, k: nat)
    requires SmallerAt(a, b, k) && k > 0
    ensures a[0] == b[0]
  {
    assert a[0] == a[..k][0] && b[0] == b[..k][0];
  }

  lemma {:induction false} LessIsLexicographic(a: string, b: string)
    ensures Less(a, b) <==> exists k: nat :: SmallerAt(a, b, k)
  {
    if a != [] && b != [] && a[0] == b[0] {
      LessIsLexicographic(a[1..], b[1..]);
      if k: nat :| SmallerAt(a[1..], b[1..], k) {
        assert a[..k + 1] == [a[0]] + a[1..][..k] && b[..k + 1] == [b[0]] + b[1..][..k];
        assert SmallerAt(a, b, k + 1);
      }
      if k: nat :| SmallerAt(a, b, k) {
        assert k > 0;
        assert a[1..][..k - 1] == a[..k][1..] && b[1..][..k - 1] == b[..k][1..];
        assert SmallerAt(a[1..], b[1..], k - 1);
      }
    } else if Less(a, b) {
      assert SmallerAt(a, b, 0);
    } else {
      forall k: nat ensures !SmallerAt(a, b, k) {
        if SmallerAt(a, b, k) && k > 0 {
          SharedHead(a, b, k);
        }
      }
    }
  }

  lemma {:induction false} LessTransitive(a: string, b: string, c: string)
    requires Less(a, b) && Less(b, c)
    ensures Less(a, c)
  {
    if a != [] && a[0] == b[0] == c[0] {
      LessTransitive(a[1..], b[1..], c[1..]);
    }
  }

  ghost predicate Ascending(xs: seq<string>) {
    forall i, j :: 0 <= i < j < |xs| ==> Less(xs[i], xs[j])
  }

  predicate IsLeast(m: string, s: set<string>) {
    m in s && forall x :: x in s ==> x == m || Less(m, x)
  }

  lemma {:induction false} LeastExists(s: set<string>) returns (m: string)
    requires s != {}
    ensures IsLeast(m, s)
  {
    var y :| y in s;
    m := y;
    if s != {y} {
      var rest := s - {y};
      var n := LeastExists(rest);
      LessTotal(n, y);
      if Less(y, n) {
        forall x | x in rest ensures Less(y, x) {
          if x != n { LessTransitive(y, n, x); }
        }
      } else {
        m := n;
      }
    }
  }

  lemma LeastUnique(s: set<string>, m: string, n: string)
    requires IsLeast(m, s) && IsLeast(n, s)
    ensures m == n
  {
    LessTotal(m, n);
  }

  function Least(s: set<string>): (m: string)
    requires s != {}
    ensures IsLeast(m, s)
  {
    assert exists m :: IsLeast(m, s) by { var m := LeastExists(s); }
    assert forall m, n :: IsLeast(m, s) && IsLeast(n, s) ==> m == n by {
      forall m, n | IsLeast(m, s) && IsLeast(n, s) ensures m == n { LeastUnique(s, m, n); }
    }
    var m :| m in s && IsLeast(m, s);
    m
  }

  function SortedStrings(s: set<string>): (r: seq<string>)
    ensures Ascending(r) && |r| == |s|
    ensures forall x :: x in r <==> x in s
    decreases |s|
  {
    if s == {} then [] else
      var m := Least(s);
      var rest := SortedStrings(s - {m});
      assert forall k :: 0 <= k < |rest| ==> Less(m, rest[k]) by {
        forall k | 0 <= k < |rest| ensures Less(m, rest[k]) {
          assert rest[k] in rest;
        }
      }
      [m] + rest
  }

  // ---------------------------------------------------------------- ascending lists of positions

  /** kept is an ascending list of positions below n. */
  ghost predicate KeptOf(kept: seq<nat>, n: nat) {
    && (forall k :: 0 <= k < |kept| ==> kept[k] < n)
    && (forall k, m :: 0 <= k < m < |kept| ==> kept[k] < kept[m])
  }

  function Select<T>(kept: seq<nat>, xs: seq<T>): (r: seq<T>)
    requires KeptOf(kept, |xs|)
    ensures |r| == |kept|
    ensures forall k :: 0 <= k < |kept| ==> r[k] == xs[kept[k]]
  {
    seq(|kept|, k requires 0 <= k < |kept| => xs[kept[k]])
  }

  /** A sublist of 0..n-1 with n entries, or with no gap, is all of it. */
  lemma FullList(kept: seq<nat>, n: nat)
    requires KeptOf(kept, n)
    ensures |kept| <= n
    ensures |kept| == n || (forall i: nat :: i < n ==> i in kept) ==>
              |kept| == n && forall i :: 0 <= i < n ==> kept[i] == i && i in kept
  {
    if kept != [] {
      NoEarlier(kept, n, |kept| - 1);
    }
    if forall i: nat :: i < n ==> i in kept {
      NoGap(kept, n);
    }
    if |kept| == n {
      forall i | 0 <= i < n ensures kept[i] == i && i in kept {
        NoEarlier(kept, n, i);
        NoLater(kept, n, i);
      }
    }
  }

  lemma {:induction false} NoEarlier(kept: seq<nat>, n: nat, k: nat)
    requires KeptOf(kept, n) && k < |kept|
    ensures k <= kept[k]
  {
    if k > 0 {
      NoEarlier(kept, n, k - 1);
    }
  }

  lemma {:induction false} NoLater(kept: seq<nat>, n: nat, k: nat)
    requires KeptOf(kept, n) && k < |kept|
    ensures kept[k] <= n - |kept| + k
    decreases |kept| - k
  {
    if k + 1 < |kept| {
      NoLater(kept, n, k + 1);
    }
  }

  lemma {:induction false} NoGap(kept: seq<nat>, n: nat)
    requires KeptOf(kept, n) && forall i: nat :: i < n ==> i in kept
    ensures |kept| >= n
  {
    if n > 0 {
      assert n - 1 in kept;
      var last := |kept| - 1;
      assert forall k :: 0 <= k < last ==> kept[..last][k] == kept[k] < kept[last];
      forall i: nat | i < n - 1 ensures i in kept[..last] {
        assert i in kept;
      }
      NoGap(kept[..last], n - 1);
    }
  }

  lemma NoElements<T>(xs: seq<T>)
    ensures (forall x :: x !in xs) ==> xs == []
  {
    if xs != [] {
      assert xs[0] in xs;
    }
  }

  lemma {:induction false} DistinctCount<T>(xs: seq<T>, s: set<T>)
    requires Distinct(xs)
    requires forall x :: x in s <==> x in xs
    ensures |s| == |xs|
    decreases |xs|
  {
    if xs == [] {
      assert s == {};
    } else {
      var last := xs[|xs| - 1];
      DistinctCount(xs[..|xs| - 1], s - {last});
    }
  }
}
