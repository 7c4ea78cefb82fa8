/**
 * The orderings used by the dashboard's `Array.from(new Set(...)).sort(...)`
 * expressions: distinct elements in first-seen order, sorting distinct
 * elements by a strict total order, and a stable sort by an integer key (the
 * behaviour of `Array.prototype.sort` with a `(a, b) => key(a) - key(b)`
 * comparator).
 */
module Ordering {
  import opened Text

  ghost predicate IsStrictTotalOrder<T(!new)>(lt: (T, T) -> bool) {
    && (forall a :: !lt(a, a))
    && (forall a, b, c :: lt(a, b) && lt(b, c) ==> lt(a, c))
    && (forall a, b :: a != b ==> lt(a, b) || lt(b, a))
  }

  predicate StrictlySorted<T>(s: seq<T>, lt: (T, T) -> bool) {
    forall i, j | 0 <= i < j < |s| :: lt(s[i], s[j])
  }

  predicate NoDup<T(==)>(s: seq<T>) {
    forall i, j | 0 <= i < j < |s| :: s[i] != s[j]
  }

  /** `s.indexOf(x)`: the first position of `x`, or -1. */
  function IndexOf<T(==)>(s: seq<T>, x: T): (i: int)
    ensures -1 <= i < |s|
    ensures 0 <= i ==> s[i] == x
    ensures i == -1 <==> x !in s
    ensures NoDup(s) ==> forall k | 0 <= k < |s| && s[k] == x :: i == k
  {
    if s == [] then -1
    else if s[0] == x then 0
    else
      var k := IndexOf(s[1..], x);
      if k == -1 then -1 else k + 1
  }

  predicate IntLt(a: int, b: int) {
    a < b
  }

  lemma IntLtIsOrder()
    ensures IsStrictTotalOrder(IntLt)
  {
  }

  lemma StrLtIsOrder()
    ensures IsStrictTotalOrder(StrLt)
  {
    forall a ensures !StrLt(a, a) {
      StrLtIrreflexive(a);
    }
    forall a, b, c | StrLt(a, b) && StrLt(b, c) ensures StrLt(a, c) {
      StrLtTransitive(a, b, c);
    }
    forall a, b | a != b ensures StrLt(a, b) || StrLt(b, a) {
      StrLtTotal(a, b);
    }
  }

  // ---------------------------------------------------------------------------
  // The days of the week, as the charts label them
  // ---------------------------------------------------------------------------

  /** `DIAS_ORDER` of the daily chart and `dayOrder` of the analytics page: Monday to Sunday. */
  const DayOrder: seq<string> := ["Lun", "Mar", "Mi\U{00E9}", "Jue", "Vie", "S\U{00E1}b", "Dom"]

  /** `dayOrder.indexOf(d)`: -1 for a label that is not one of the seven. */
  function DayIndex(d: string): int {
    IndexOf(DayOrder, d)
  }

  predicate DayBefore(a: string, b: string) {
    DayIndex(a) < DayIndex(b)
  }

  /** The seven days are listed once each, in week order. */
  lemma DayOrderSorted()
    ensures StrictlySorted(DayOrder, DayBefore) && NoDup(DayOrder)
  {
    assert NoDup(DayOrder);
    forall i | 0 <= i < |DayOrder| ensures DayIndex(DayOrder[i]) == i {
    }
  }

  lemma StrictlySortedNoDup<T(!new)>(s: seq<T>, lt: (T, T) -> bool)
    requires IsStrictTotalOrder(lt) && StrictlySorted(s, lt)
    ensures NoDup(s)
  {
  }

  // ---------------------------------------------------------------------------
  // Distinct elements in first-seen order: `Array.from(new Set(s))`
  // ---------------------------------------------------------------------------

  function Distinct<T(==)>(s: seq<T>): (r: seq<T>)
    ensures forall x | x in r :: x in s
    ensures forall x | x in s :: x in r
    ensures NoDup(r)
    ensures |r| <= |s|
  {
    if s == [] then []
    else
      var d := Distinct(s[..|s| - 1]);
      if s[|s| - 1] in d then d else d + [s[|s| - 1]]
  }

  // ---------------------------------------------------------------------------
  // Sorting distinct elements by a strict total order
  // ---------------------------------------------------------------------------

  function InsertSorted<T(==)>(x: T, s: seq<T>, lt: (T, T) -> bool): seq<T> {
    if s == [] then [x]
    else if x == s[0] then s
    else if lt(x, s[0]) then [x] + s
    else [s[0]] + InsertSorted(x, s[1..], lt)
  }

  /** The distinct elements of `s`, in increasing `lt` order. */
  function SortDistinct<T(==)>(s: seq<T>, lt: (T, T) -> bool): seq<T> {
    if s == [] then [] else InsertSorted(s[|s| - 1], SortDistinct(s[..|s| - 1], lt), lt)
  }

  lemma {:induction false} InsertSortedCorrect<T(!new)>(x: T, s: seq<T>, lt: (T, T) -> bool)
    requires IsStrictTotalOrder(lt) && StrictlySorted(s, lt)
    ensures StrictlySorted(InsertSorted(x, s, lt), lt)
    ensures forall y :: y in InsertSorted(x, s, lt) <==> y == x || y in s
  {
    if s != [] && x != s[0] && !lt(x, s[0]) {
      InsertSortedCorrect(x, s[1..], lt);
      var t := InsertSorted(x, s[1..], lt);
      assert lt(s[0], x);
      forall j | 0 <= j < |t| ensures lt(s[0], t[j]) {
        assert t[j] == x || t[j] in s[1..];
      }
    }
  }

  lemma {:induction false} SortDistinctCorrect<T(!new)>(s: seq<T>, lt: (T, T) -> bool)
    requires IsStrictTotalOrder(lt)
    ensures StrictlySorted(SortDistinct(s, lt), lt)
    ensures forall y :: y in SortDistinct(s, lt) <==> y in s
  {
    if s != [] {
      SortDistinctCorrect(s[..|s| - 1], lt);
      InsertSortedCorrect(s[|s| - 1], SortDistinct(s[..|s| - 1], lt), lt);
      assert s == s[..|s| - 1] + [s[|s| - 1]];
    }
  }

  // ---------------------------------------------------------------------------
  // Stable sort by an integer key
  // ---------------------------------------------------------------------------

  predicate SortedByKey<T>(s: seq<T>, key: T -> int) {
    forall i, j | 0 <= i < j < |s| :: key(s[i]) <= key(s[j])
  }

  /** The elements of `s` whose key is `v`, in order. */
  function WithKey<T>(s: seq<T>, key: T -> int, v: int): seq<T> {
    if s == [] then []
    else (if key(s[0]) == v then [s[0]] else []) + WithKey(s[1..], key, v)
  }

  /** Inserts `x` after every element whose key is at most `key(x)`. */
  function InsertByKey<T>(x: T, s: seq<T>, key: T -> int): seq<T> {
    if s == [] then [x]
    else if key(x) < key(s[0]) then [x] + s
    else [s[0]] + InsertByKey(x, s[1..], key)
  }

  /** A stable insertion sort: equal keys keep their original relative order. */
  function SortByKey<T>(s: seq<T>, key: T -> int): seq<T> {
    if s == [] then [] else InsertByKey(s[|s| - 1], SortByKey(s[..|s| - 1], key), key)
  }

  lemma {:induction false} WithKeyAppend<T>(a: seq<T>, b: seq<T>, key: T -> int, v: int)
    ensures WithKey(a + b, key, v) == WithKey(a, key, v) + WithKey(b, key, v)
  {
    if a == [] {
      assert a + b == b;
    } else {
      assert (a + b)[0] == a[0];
      assert (a + b)[1..] == a[1..] + b;
      WithKeyAppend(a[1..], b, key, v);
      var h := if key(a[0]) == v then [a[0]] else [];
      var ra, rb := WithKey(a[1..], key, v), WithKey(b, key, v);
      assert WithKey(a + b, key, v) == h + (ra + rb);
      assert WithKey(a, key, v) == h + ra;
      assert h + (ra + rb) == (h + ra) + rb;
    }
  }

  lemma {:induction false} InsertByKeySorted<T>(x: T, s: seq<T>, key: T -> int)
    requires SortedByKey(s, key)
    ensures SortedByKey(InsertByKey(x, s, key), key)
    ensures multiset(InsertByKey(x, s, key)) == multiset(s) + multiset{x}
  {
    InsertByKeyPerm(x, s, key);
    if s == [] {
    } else if key(x) < key(s[0]) {
      assert forall i | 0 <= i < |s| :: key(x) <= key(s[i]);
      SortedCons(x, s, key);
    } else {
      InsertByKeySorted(x, s[1..], key);
      var t := InsertByKey(x, s[1..], key);
      forall i | 0 <= i < |t| ensures key(s[0]) <= key(t[i]) {
        assert t[i] in multiset(t);
        if t[i] != x {
          assert t[i] in multiset(s[1..]);
          var k :| 0 <= k < |s[1..]| && s[1..][k] == t[i];
          assert s[k + 1] == t[i];
        }
      }
      SortedCons(s[0], t, key);
    }
  }

  lemma {:induction false} InsertByKeyPerm<T>(x: T, s: seq<T>, key: T -> int)
    ensures multiset(InsertByKey(x, s, key)) == multiset(s) + multiset{x}
  {
    if s != [] && key(x) >= key(s[0]) {
      InsertByKeyPerm(x, s[1..], key);
      assert s == [s[0]] + s[1..];
    }
  }

  lemma SortedCons<T>(y: T, t: seq<T>, key: T -> int)
    requires SortedByKey(t, key)
    requires forall i | 0 <= i < |t| :: key(y) <= key(t[i])
    ensures SortedByKey([y] + t, key)
  {
    forall i, j | 0 <= i < j < |[y] + t| ensures key(([y] + t)[i]) <= key(([y] + t)[j]) {
      if i > 0 {
        assert ([y] + t)[i] == t[i - 1];
      }
      assert ([y] + t)[j] == t[j - 1];
    }
  }

  lemma WithKeyCons<T>(y: T, t: seq<T>, key: T -> int, v: int)
    ensures WithKey([y] + t, key, v) == (if key(y) == v then [y] else []) + WithKey(t, key, v)
  {
    assert ([y] + t)[0] == y;
    assert ([y] + t)[1..] == t;
  }

  lemma {:induction false} InsertByKeyWithKey<T>(x: T, s: seq<T>, key: T -> int, v: int)
    requires SortedByKey(s, key)
    ensures WithKey(InsertByKey(x, s, key), key, v)
            == WithKey(s, key, v) + (if key(x) == v then [x] else [])
  {
    var tail := if key(x) == v then [x] else [];
    if s == [] {
      WithKeyCons(x, [], key, v);
      assert [x] + [] == [x];
    } else if key(x) < key(s[0]) {
      WithKeyCons(x, s, key, v);
      if key(x) == v {
        WithKeyNone(s, key, v);
      }
    } else {
      var u := InsertByKey(x, s[1..], key);
      InsertByKeyWithKey(x, s[1..], key, v);
      WithKeyCons(s[0], u, key, v);
      WithKeyCons(s[0], s[1..], key, v);
      assert [s[0]] + s[1..] == s;
      var h := if key(s[0]) == v then [s[0]] else [];
      assert WithKey(InsertByKey(x, s, key), key, v) == h + (WithKey(s[1..], key, v) + tail);
      assert WithKey(s, key, v) == h + WithKey(s[1..], key, v);
    }
  }

  lemma {:induction false} WithKeyNone<T>(s: seq<T>, key: T -> int, v: int)
    requires forall i | 0 <= i < |s| :: key(s[i]) > v
    ensures WithKey(s, key, v) == []
  {
    if s != [] {
      WithKeyNone(s[1..], key, v);
    }
  }

  lemma {:induction false} SortByKeyCorrect<T>(s: seq<T>, key: T -> int)
    ensures SortedByKey(SortByKey(s, key), key)
    ensures multiset(SortByKey(s, key)) == multiset(s)
    ensures forall v :: WithKey(SortByKey(s, key), key, v) == WithKey(s, key, v)
  {
    if s != [] {
      var p := s[..|s| - 1];
      var x := s[|s| - 1];
      SortByKeyCorrect(p, key);
      InsertByKeySorted(x, SortByKey(p, key), key);
      assert s == p + [x];
      forall v ensures WithKey(SortByKey(s, key), key, v) == WithKey(s, key, v) {
        InsertByKeyWithKey(x, SortByKey(p, key), key, v);
        WithKeyAppend(p, [x], key, v);
        assert [x][1..] == [];
      }
    }
  }

  /** In a sequence without repetitions every element occurs at most once. */
  lemma {:induction false} NoDupOnce<T>(s: seq<T>, x: T)
    requires NoDup(s)
    ensures multiset(s)[x] <= 1
  {
    if s != [] {
      var p := s[..|s| - 1];
      assert s == p + [s[|s| - 1]];
      NoDupOnce(p, x);
      if x == s[|s| - 1] {
        assert x !in p;
      }
    }
  }

  /** An element at two positions occurs at least twice. */
  lemma TwiceAtLeast<T>(s: seq<T>, i: nat, j: nat)
    requires i < j < |s| && s[i] == s[j]
    ensures multiset(s)[s[i]] >= 2
  {
    assert s == s[..i] + [s[i]] + s[i + 1..j] + [s[j]] + s[j + 1..];
  }

  /** Reordering a sequence without repetitions keeps it without repetitions. */
  lemma PermutationNoDup<T>(a: seq<T>, b: seq<T>)
    requires multiset(a) == multiset(b) && NoDup(b)
    ensures NoDup(a)
  {
    forall i, j | 0 <= i < j < |a| ensures a[i] != a[j] {
      if a[i] == a[j] {
        TwiceAtLeast(a, i, j);
        NoDupOnce(b, a[i]);
      }
    }
  }
}
