/**
 * The aggregation pattern every chart, the weekly summary and the snapshot
 * builder share: one pass over the rows fills a `Map` from a group key to an
 * accumulator record (`if (!groups.has(k)) groups.set(k, init); update(groups.get(k)!)`),
 * and the keys come out in insertion order. Rows whose key is absent are
 * skipped.
 *
 * The specification side is `KeysOf` (first-seen keys), `Select` (the rows of
 * one group, in order), `Fold` (the accumulator applied row by row) and
 * `Count`; `GroupFold` is the loop, proved to agree with them, and
 * `Partition` says that the groups split the kept rows exactly.
 */
module Grouping {
  import opened Wrappers
  import opened Ordering

  function Init<T>(s: seq<T>): seq<T>
    requires s != []
  {
    s[..|s| - 1]
  }

  function Last<T>(s: seq<T>): T
    requires s != []
  {
    s[|s| - 1]
  }

  lemma InitLast<T>(s: seq<T>)
    requires s != []
    ensures s == Init(s) + [Last(s)]
  {
  }

  /** The prefix of length `i + 1` extends the prefix of length `i` by `s[i]`. */
  lemma PrefixSnoc<T>(s: seq<T>, i: nat)
    requires i < |s|
    ensures s[..i + 1] == s[..i] + [s[i]]
  {
  }

  // ---------------------------------------------------------------------------
  // Counting
  // ---------------------------------------------------------------------------

  /** The number of rows satisfying `p`. */
  function Count<R>(rows: seq<R>, p: R -> bool): (n: nat)
    ensures n <= |rows|
  {
    if rows == [] then 0 else Count(Init(rows), p) + (if p(Last(rows)) then 1 else 0)
  }

  lemma CountSnoc<R>(rows: seq<R>, r: R, p: R -> bool)
    ensures Count(rows + [r], p) == Count(rows, p) + (if p(r) then 1 else 0)
  {
    assert Init(rows + [r]) == rows && Last(rows + [r]) == r;
  }

  /** Counting a weaker predicate gives at least as many rows. */
  lemma {:induction false} CountMono<R>(rows: seq<R>, p: R -> bool, q: R -> bool)
    requires forall r :: p(r) ==> q(r)
    ensures Count(rows, p) <= Count(rows, q)
  {
    if rows != [] {
      CountMono(Init(rows), p, q);
    }
  }

  /** A predicate every row satisfies counts every row. */
  lemma {:induction false} CountAll<R>(rows: seq<R>, p: R -> bool)
    requires forall i | 0 <= i < |rows| :: p(rows[i])
    ensures Count(rows, p) == |rows|
  {
    if rows != [] {
      CountAll(Init(rows), p);
    }
  }

  /** Rows either satisfy `p` or `q` and never both: the two counts add up to the length. */
  lemma {:induction false} CountSplit<R>(rows: seq<R>, p: R -> bool, q: R -> bool)
    requires forall r :: p(r) != q(r)
    ensures Count(rows, p) + Count(rows, q) == |rows|
  {
    if rows != [] {
      CountSplit(Init(rows), p, q);
    }
  }

  /** Counting two disjoint predicates counts their union. */
  lemma {:induction false} CountDisjoint<R>(rows: seq<R>, p: R -> bool, q: R -> bool, either: R -> bool)
    requires forall r :: !(p(r) && q(r))
    requires forall r :: either(r) == (p(r) || q(r))
    ensures Count(rows, either) == Count(rows, p) + Count(rows, q)
  {
    if rows != [] {
      CountDisjoint(Init(rows), p, q, either);
    }
  }

  lemma {:induction false} CountAppend<R>(a: seq<R>, b: seq<R>, p: R -> bool)
    ensures Count(a + b, p) == Count(a, p) + Count(b, p)
  {
    if b != [] {
      assert Init(a + b) == a + Init(b);
      assert Last(a + b) == Last(b);
      CountAppend(a, Init(b), p);
    } else {
      assert a + b == a;
    }
  }

  // ---------------------------------------------------------------------------
  // Groups
  // ---------------------------------------------------------------------------

  /** `xs.filter(p)` */
  function Filter<T(!new)>(xs: seq<T>, p: T -> bool): (r: seq<T>)
    ensures |r| <= |xs|
    ensures forall x :: x in r <==> x in xs && p(x)
  {
    if xs == [] then []
    else
      InitLast(xs);
      Filter(Init(xs), p) + (if p(Last(xs)) then [Last(xs)] else [])
  }

  lemma FilterSnoc<T(!new)>(xs: seq<T>, x: T, p: T -> bool)
    ensures Filter(xs + [x], p) == Filter(xs, p) + (if p(x) then [x] else [])
  {
    assert Init(xs + [x]) == xs && Last(xs + [x]) == x;
  }

  /** Two filters in a row are one filter by both tests, and keep the order. */
  lemma {:induction false} FilterTwice<T(!new)>(xs: seq<T>, p: T -> bool, q: T -> bool, both: T -> bool)
    requires forall x :: both(x) == (p(x) && q(x))
    ensures Filter(Filter(xs, p), q) == Filter(xs, both)
  {
    if xs != [] {
      FilterTwice(Init(xs), p, q, both);
      InitLast(xs);
      if p(Last(xs)) {
        assert Filter(xs, p) == Filter(Init(xs), p) + [Last(xs)];
        FilterSnoc(Filter(Init(xs), p), Last(xs), q);
        assert Filter(xs, both) == Filter(Init(xs), both) + (if q(Last(xs)) then [Last(xs)] else []);
      } else {
        assert Filter(xs, p) == Filter(Init(xs), p) + [] == Filter(Init(xs), p);
        assert Filter(xs, both) == Filter(Init(xs), both) + [] == Filter(Init(xs), both);
      }
    }
  }

  /** Filtering keeps a list free of duplicates. */
  lemma {:induction false} FilterNoDup<T(!new)>(xs: seq<T>, p: T -> bool)
    requires NoDup(xs)
    ensures NoDup(Filter(xs, p))
  {
    if xs != [] {
      InitLast(xs);
      assert NoDup(Init(xs));
      FilterNoDup(Init(xs), p);
      assert Last(xs) !in Init(xs);
    }
  }

  /** Filtering keeps a strictly sorted list sorted. */
  lemma {:induction false} FilterSorted<T(!new)>(xs: seq<T>, p: T -> bool, lt: (T, T) -> bool)
    requires StrictlySorted(xs, lt)
    ensures StrictlySorted(Filter(xs, p), lt)
  {
    if xs != [] {
      FilterSorted(Init(xs), p, lt);
      InitLast(xs);
      var f := Filter(Init(xs), p);
      forall i | 0 <= i < |f| ensures lt(f[i], Last(xs)) {
        assert f[i] in Init(xs);
      }
    }
  }

  /** A filter every element passes keeps the list. */
  lemma {:induction false} FilterAll<T(!new)>(xs: seq<T>, p: T -> bool)
    requires forall x | x in xs :: p(x)
    ensures Filter(xs, p) == xs
  {
    if xs != [] {
      InitLast(xs);
      FilterAll(Init(xs), p);
    }
  }

  /** Setting a key twice keeps the second value. */
  lemma UpdateTwice<K, V>(m: map<K, V>, k: K, v: V, w: V)
    ensures m[k := v][k := w] == m[k := w]
  {
  }

  /** The accumulator after applying `step` to each row in turn. */
  function Fold<R, A>(rows: seq<R>, init: A, step: (A, R) -> A): A {
    if rows == [] then init else step(Fold(Init(rows), init, step), Last(rows))
  }

  /** The rows whose key is `k`, in input order. */
  function Select<R, K(==)>(rows: seq<R>, key: R -> Option<K>, k: K): (r: seq<R>)
    ensures |r| <= |rows|
    ensures forall i | 0 <= i < |r| :: key(r[i]) == Some(k)
  {
    if rows == [] then []
    else Select(Init(rows), key, k) + (if key(Last(rows)) == Some(k) then [Last(rows)] else [])
  }

  /** The distinct keys, in the order their first row appears (`Map` insertion order). */
  function KeysOf<R, K(==, !new)>(rows: seq<R>, key: R -> Option<K>): (ks: seq<K>)
    ensures NoDup(ks)
    ensures forall k :: k in ks <==> Select(rows, key, k) != []
  {
    if rows == [] then []
    else
      var ks := KeysOf(Init(rows), key);
      match key(Last(rows))
      case None => ks
      case Some(k) => if k in ks then ks else ks + [k]
  }

  /** A group is non-empty exactly when some row carries its key. */
  lemma {:induction false} SelectNonEmpty<R, K>(rows: seq<R>, key: R -> Option<K>, k: K)
    ensures Select(rows, key, k) != [] <==> exists i | 0 <= i < |rows| :: key(rows[i]) == Some(k)
  {
    if rows != [] {
      SelectNonEmpty(Init(rows), key, k);
      if exists i | 0 <= i < |rows| - 1 :: key(rows[i]) == Some(k) {
        var i :| 0 <= i < |rows| - 1 && key(rows[i]) == Some(k);
        assert Init(rows)[i] == rows[i];
      }
      if exists i | 0 <= i < |Init(rows)| :: key(Init(rows)[i]) == Some(k) {
        var i :| 0 <= i < |Init(rows)| && key(Init(rows)[i]) == Some(k);
        assert rows[i] == Init(rows)[i];
      }
    }
  }

  /** Rows satisfying `p` all carry key `k`: they are at most the rows of group `k`. */
  lemma {:induction false} CountWithinGroup<R, K>(rows: seq<R>, p: R -> bool, key: R -> Option<K>, k: K)
    requires forall r :: p(r) ==> key(r) == Some(k)
    ensures Count(rows, p) <= |Select(rows, key, k)|
  {
    if rows != [] {
      CountWithinGroup(Init(rows), p, key, k);
    }
  }

  /** A group's size: `k => |Select(rows, key, k)|`. */
  function Sizes<R, K(==)>(rows: seq<R>, key: R -> Option<K>): K -> nat {
    k => |Select(rows, key, k)|
  }

  /** Rows that have a key, and so belong to some group. */
  function HasKey<R, K>(key: R -> Option<K>): R -> bool {
    r => key(r).Some?
  }

  lemma SelectSnoc<R, K>(rows: seq<R>, r: R, key: R -> Option<K>, k: K)
    ensures Select(rows + [r], key, k) == Select(rows, key, k) + (if key(r) == Some(k) then [r] else [])
  {
    assert Init(rows + [r]) == rows;
  }

  lemma FoldSnoc<R, A>(rows: seq<R>, r: R, init: A, step: (A, R) -> A)
    ensures Fold(rows + [r], init, step) == step(Fold(rows, init, step), r)
  {
    assert Init(rows + [r]) == rows;
  }

  /** `keys` and `groups` are the map the loop has built from `rows`. */
  ghost predicate Grouped<R, K(!new), A>(rows: seq<R>, key: R -> Option<K>, init: A, step: (A, R) -> A,
                                         keys: seq<K>, groups: map<K, A>) {
    && keys == KeysOf(rows, key)
    && (forall k :: k in groups <==> k in keys)
    && (forall k | k in groups :: groups[k] == Fold(Select(rows, key, k), init, step))
  }

  /** A row without a key leaves the map as it was. */
  lemma GroupedSkip<R, K(!new), A>(rows: seq<R>, r: R, key: R -> Option<K>, init: A, step: (A, R) -> A,
                                   keys: seq<K>, groups: map<K, A>)
    requires Grouped(rows, key, init, step, keys, groups) && key(r).None?
    ensures Grouped(rows + [r], key, init, step, keys, groups)
  {
    assert Init(rows + [r]) == rows;
    forall k ensures Select(rows + [r], key, k) == Select(rows, key, k) {
      SelectSnoc(rows, r, key, k);
    }
  }

  /** A row with key `k` creates its group if needed, then folds into it. */
  lemma GroupedEnter<R, K(!new), A>(rows: seq<R>, r: R, key: R -> Option<K>, init: A, step: (A, R) -> A,
                                    keys: seq<K>, groups: map<K, A>, k: K)
    requires Grouped(rows, key, init, step, keys, groups) && key(r) == Some(k)
    ensures var g := if k in groups then groups[k] else init;
            Grouped(rows + [r], key, init, step, if k in groups then keys else keys + [k], groups[k := step(g, r)])
  {
    var g := if k in groups then groups[k] else init;
    var keys' := if k in groups then keys else keys + [k];
    var groups' := groups[k := step(g, r)];
    assert Init(rows + [r]) == rows && Last(rows + [r]) == r;
    assert keys' == KeysOf(rows + [r], key);
    assert Select(rows, key, k) == [] ==> Fold(Select(rows, key, k), init, step) == init;
    forall k' | k' in groups'
      ensures groups'[k'] == Fold(Select(rows + [r], key, k'), init, step)
    {
      SelectSnoc(rows, r, key, k');
      if k' == k {
        FoldSnoc(Select(rows, key, k), r, init, step);
        if k !in groups {
          assert k !in keys;
          assert Select(rows, key, k) == [];
        }
        assert g == Fold(Select(rows, key, k), init, step);
      } else {
        assert Select(rows + [r], key, k') == Select(rows, key, k');
        assert k' in groups;
      }
    }
  }

  /**
   * The source's grouping loop. `keys` is the map's key order and every
   * group holds the fold of exactly its rows.
   */
  method GroupFold<R, K(==, !new), A>(rows: seq<R>, key: R -> Option<K>, init: A, step: (A, R) -> A)
    returns (keys: seq<K>, groups: map<K, A>)
    ensures keys == KeysOf(rows, key)
    ensures forall k :: k in groups <==> k in keys
    ensures forall k | k in groups :: groups[k] == Fold(Select(rows, key, k), init, step)
  {
    keys := [];
    groups := map[];
    for i := 0 to |rows|
      invariant Grouped(rows[..i], key, init, step, keys, groups)
    {
      assert rows[..i + 1] == rows[..i] + [rows[i]];
      match key(rows[i]) {
        case None =>
          GroupedSkip(rows[..i], rows[i], key, init, step, keys, groups);
        case Some(k) =>
          GroupedEnter(rows[..i], rows[i], key, init, step, keys, groups, k);
          if k !in groups {
            keys := keys + [k];
            groups := groups[k := init];
          }
          groups := groups[k := step(groups[k], rows[i])];
      }
    }
    assert rows[..|rows|] == rows;
  }

  /** `s.map(f)` */
  function MapSeq<A, B>(s: seq<A>, f: A -> B): (r: seq<B>)
    ensures |r| == |s|
    ensures forall i | 0 <= i < |s| :: r[i] == f(s[i])
  {
    if s == [] then [] else MapSeq(Init(s), f) + [f(Last(s))]
  }

  // ---------------------------------------------------------------------------
  // Sums over the groups
  // ---------------------------------------------------------------------------

  /** `keys.reduce((acc, k) => acc + f(k), 0)` */
  function SumOver<K>(ks: seq<K>, f: K -> int): int {
    if ks == [] then 0 else SumOver(Init(ks), f) + f(Last(ks))
  }

  lemma {:induction false} SumOverExt<K>(ks: seq<K>, f: K -> int, g: K -> int)
    requires forall i | 0 <= i < |ks| :: f(ks[i]) == g(ks[i])
    ensures SumOver(ks, f) == SumOver(ks, g)
  {
    if ks != [] {
      SumOverExt(Init(ks), f, g);
    }
  }

  lemma {:induction false} SumOverAppend<K>(a: seq<K>, b: seq<K>, f: K -> int)
    ensures SumOver(a + b, f) == SumOver(a, f) + SumOver(b, f)
  {
    if b == [] {
      assert a + b == a;
    } else {
      assert Init(a + b) == a + Init(b);
      assert Last(a + b) == Last(b);
      SumOverAppend(a, Init(b), f);
    }
  }

  /** `f` exceeds `g` by one at `k0` only; summed over distinct keys the difference is one if `k0` is listed. */
  lemma {:induction false} SumOverBump<K>(ks: seq<K>, f: K -> int, g: K -> int, k0: K)
    requires NoDup(ks)
    requires forall i | 0 <= i < |ks| :: f(ks[i]) == g(ks[i]) + (if ks[i] == k0 then 1 else 0)
    ensures SumOver(ks, f) == SumOver(ks, g) + (if k0 in ks then 1 else 0)
  {
    if ks != [] {
      SumOverBump(Init(ks), f, g, k0);
      assert k0 in ks <==> k0 in Init(ks) || Last(ks) == k0;
      assert Last(ks) == k0 ==> k0 !in Init(ks);
    }
  }

  /** `b` without its element at `j`. */
  function RemoveAt<K>(b: seq<K>, j: nat): seq<K>
    requires j < |b|
  {
    b[..j] + b[j + 1..]
  }

  lemma SumOverSingle<K>(x: K, f: K -> int)
    ensures SumOver([x], f) == f(x)
  {
    assert Init([x]) == [];
  }

  lemma RemoveAtSum<K>(b: seq<K>, j: nat, f: K -> int)
    requires j < |b|
    ensures SumOver(b, f) == SumOver(RemoveAt(b, j), f) + f(b[j])
  {
    var p, q, x := b[..j], b[j + 1..], b[j];
    SplitAround(b, j);
    calc {
      SumOver(b, f);
    == { SumOverAppend(p, [x] + q, f); }
      SumOver(p, f) + SumOver([x] + q, f);
    == { SumOverAppend([x], q, f); SumOverSingle(x, f); }
      SumOver(p, f) + SumOver(q, f) + f(x);
    == { SumOverAppend(p, q, f); }
      SumOver(RemoveAt(b, j), f) + f(x);
    }
  }

  lemma SplitAround<K>(b: seq<K>, j: nat)
    requires j < |b|
    ensures b == b[..j] + ([b[j]] + b[j + 1..])
  {
  }

  lemma RemoveAtMembers<K>(b: seq<K>, j: nat)
    requires j < |b| && NoDup(b)
    ensures NoDup(RemoveAt(b, j))
    ensures forall k :: k in RemoveAt(b, j) <==> k in b && k != b[j]
  {
    var rest := RemoveAt(b, j);
    forall i, i' | 0 <= i < i' < |rest| ensures rest[i] != rest[i'] {
      var n := if i < j then i else i + 1;
      var n' := if i' < j then i' else i' + 1;
      assert rest[i] == b[n] && rest[i'] == b[n'];
    }
    forall k ensures k in rest <==> k in b && k != b[j] {
      if k in rest {
        var m :| 0 <= m < |rest| && rest[m] == k;
        var n := if m < j then m else m + 1;
        assert b[n] == k && n != j;
      }
      if k in b && k != b[j] {
        var n :| 0 <= n < |b| && b[n] == k;
        if n < j {
          assert rest[n] == k;
        } else {
          assert rest[n - 1] == k;
        }
      }
    }
  }

  lemma NoMembersEmpty<K>(b: seq<K>)
    ensures (forall k :: k !in b) ==> b == []
  {
    if b != [] {
      assert b[0] in b;
    }
  }

  /** Two duplicate-free listings of the same keys have the same sum, whatever their order. */
  lemma {:induction false} SumOverPermutation<K>(a: seq<K>, b: seq<K>, f: K -> int)
    requires NoDup(a) && NoDup(b)
    requires forall k :: k in a <==> k in b
    ensures SumOver(a, f) == SumOver(b, f)
    decreases |a|
  {
    if a == [] {
      NoMembersEmpty(b);
    } else {
      var x := Last(a);
      assert a == Init(a) + [x];
      assert x in b;
      var j :| 0 <= j < |b| && b[j] == x;
      RemoveAtSum(b, j, f);
      RemoveAtMembers(b, j);
      RemoveAtMembers(a, |a| - 1);
      assert RemoveAt(a, |a| - 1) == Init(a);
      SumOverPermutation(Init(a), RemoveAt(b, j), f);
    }
  }

  /**
   * The groups split the rows that have a key: their sizes, summed over the
   * keys, give the number of such rows.
   */
  lemma {:induction false} Partition<R, K(!new)>(rows: seq<R>, key: R -> Option<K>)
    ensures SumOver(KeysOf(rows, key), Sizes(rows, key)) == Count(rows, HasKey(key))
  {
    if rows != [] {
      var init, r := Init(rows), Last(rows);
      assert rows == init + [r];
      Partition(init, key);
      PartitionStep(init, r, key);
      CountSnoc(init, r, HasKey(key));
    }
  }

  /** One more row adds one to the summed group sizes exactly when it has a key. */
  lemma PartitionStep<R, K(!new)>(init: seq<R>, r: R, key: R -> Option<K>)
    ensures SumOver(KeysOf(init + [r], key), Sizes(init + [r], key))
            == SumOver(KeysOf(init, key), Sizes(init, key)) + (if key(r).Some? then 1 else 0)
  {
    var rows := init + [r];
    var ks := KeysOf(init, key);
    assert Init(rows) == init && Last(rows) == r;
    SizesSnoc(init, r, key, ks);
    match key(r) {
      case None =>
        assert KeysOf(rows, key) == ks;
        SumOverExt(ks, Sizes(rows, key), Sizes(init, key));
      case Some(k0) =>
        SumOverBump(ks, Sizes(rows, key), Sizes(init, key), k0);
        if k0 !in ks {
          NewKeySum(init, r, key, k0);
        } else {
          assert KeysOf(rows, key) == ks;
        }
    }
  }

  lemma SizesSnoc<R, K(!new)>(init: seq<R>, r: R, key: R -> Option<K>, ks: seq<K>)
    ensures forall i | 0 <= i < |ks| :: Sizes(init + [r], key)(ks[i]) == Sizes(init, key)(ks[i]) + (if key(r) == Some(ks[i]) then 1 else 0)
  {
    forall i | 0 <= i < |ks|
      ensures Sizes(init + [r], key)(ks[i]) == Sizes(init, key)(ks[i]) + (if key(r) == Some(ks[i]) then 1 else 0)
    {
      SelectSnoc(init, r, key, ks[i]);
    }
  }

  /** A row with a key not seen before opens a group of size one at the end. */
  lemma NewKeySum<R, K(!new)>(init: seq<R>, r: R, key: R -> Option<K>, k0: K)
    requires key(r) == Some(k0) && k0 !in KeysOf(init, key)
    ensures SumOver(KeysOf(init + [r], key), Sizes(init + [r], key))
            == SumOver(KeysOf(init, key), Sizes(init + [r], key)) + 1
  {
    var ks := KeysOf(init, key);
    assert Init(init + [r]) == init && Last(init + [r]) == r;
    assert KeysOf(init + [r], key) == ks + [k0];
    assert Init(ks + [k0]) == ks && Last(ks + [k0]) == k0;
    assert Select(init, key, k0) == [];
    SelectSnoc(init, r, key, k0);
  }

  /** `Partition`, in any order of the keys. */
  lemma PartitionAnyOrder<R, K(!new)>(rows: seq<R>, key: R -> Option<K>, order: seq<K>)
    requires NoDup(order)
    requires forall k :: k in order <==> k in KeysOf(rows, key)
    ensures SumOver(order, Sizes(rows, key)) == Count(rows, HasKey(key))
  {
    Partition(rows, key);
    SumOverPermutation(order, KeysOf(rows, key), Sizes(rows, key));
  }
}
