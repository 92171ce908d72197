/** Bytewise string order and the stable descending sort of the import map code.
    Comparing scalar values gives the same order as comparing UTF-8 bytes. Also what it means
    for a list to have no repeats. */
module Ordering {

  predicate Le(a: string, b: string)
  {
    a == [] || (b != [] && (a[0] < b[0] || (a[0] == b[0] && Le(a[1..], b[1..]))))
  }

  lemma {:induction false} LeTotal(a: string, b: string)
    ensures Le(a, b) || Le(b, a)
    ensures Le(a, b) && Le(b, a) ==> a == b
  {
    if a != [] && b != [] && a[0] == b[0] {
      LeTotal(a[1..], b[1..]);
      assert a == [a[0]] + a[1..] && b == [b[0]] + b[1..];
    }
  }

  lemma {:induction false} LeTransitive(a: string, b: string, c: string)
    requires Le(a, b) && Le(b, c)
    ensures Le(a, c)
  {
    if a != [] && a[0] == b[0] && b[0] == c[0] {
      LeTransitive(a[1..], b[1..], c[1..]);
    }
  }

  /** Among prefixes of one string, bytewise order is order by length. */
  lemma {:induction false} LeOnPrefixes(a: string, b: string, s: string)
    requires a <= s && b <= s
    ensures Le(a, b) <==> |a| <= |b|
  {
    if a != [] && b != [] {
      LeOnPrefixes(a[1..], b[1..], s[1..]);
    }
  }

  ghost predicate Descending<T>(xs: seq<T>, key: T -> string)
  {
    forall i, j :: 0 <= i < j < |xs| ==> Le(key(xs[j]), key(xs[i]))
  }

  /** Where a stable descending sort puts `x`: behind everything not below it. */
  function InsertionPoint<T>(xs: seq<T>, x: T, key: T -> string): (k: nat)
    requires Descending(xs, key)
    ensures k <= |xs|
    ensures forall i :: 0 <= i < k ==> Le(key(x), key(xs[i]))
    ensures forall i :: k <= i < |xs| ==> Le(key(xs[i]), key(x)) && !Le(key(x), key(xs[i]))
  {
    if xs == [] then 0
    else
      LeTotal(key(x), key(xs[|xs| - 1]));
      if Le(key(x), key(xs[|xs| - 1])) then
        assert forall i :: 0 <= i < |xs| - 1 ==> Le(key(x), key(xs[i])) by {
          forall i | 0 <= i < |xs| - 1 ensures Le(key(x), key(xs[i])) {
            LeTransitive(key(x), key(xs[|xs| - 1]), key(xs[i]));
          }
        }
        |xs|
      else InsertionPoint(xs[..|xs| - 1], x, key)
  }

  function Inserted<T>(xs: seq<T>, x: T, key: T -> string): (r: seq<T>)
    requires Descending(xs, key)
    ensures Descending(r, key)
    ensures multiset(r) == multiset(xs) + multiset{x}
  {
    var k := InsertionPoint(xs, x, key);
    assert xs == xs[..k] + xs[k..];
    LeTotal(key(x), key(x));
    xs[..k] + [x] + xs[k..]
  }

  function SortDescending<T>(xs: seq<T>, key: T -> string): (r: seq<T>)
    ensures Descending(r, key)
    ensures multiset(r) == multiset(xs)
  {
    if xs == [] then []
    else
      assert xs == xs[..|xs| - 1] + [xs[|xs| - 1]];
      Inserted(SortDescending(xs[..|xs| - 1], key), xs[|xs| - 1], key)
  }

  lemma SortMembers<T>(xs: seq<T>, key: T -> string)
    ensures forall x :: x in SortDescending(xs, key) <==> x in xs
    ensures |SortDescending(xs, key)| == |xs|
  {
    var r := SortDescending(xs, key);
    assert forall x :: x in r <==> x in multiset(r);
    assert |r| == |multiset(r)|;
  }

  // ---------- stability ----------

  /** The elements with the key `k`, in their order. */
  function WithKey<T>(xs: seq<T>, key: T -> string, k: string): seq<T>
  {
    if xs == [] then []
    else if key(xs[0]) == k then [xs[0]] + WithKey(xs[1..], key, k)
    else WithKey(xs[1..], key, k)
  }

  lemma {:induction false} WithKeyConcat<T>(xs: seq<T>, ys: seq<T>, key: T -> string, k: string)
    ensures WithKey(xs + ys, key, k) == WithKey(xs, key, k) + WithKey(ys, key, k)
  {
    if xs == [] {
      assert xs + ys == ys;
    } else {
      assert (xs + ys)[1..] == xs[1..] + ys && (xs + ys)[0] == xs[0];
      WithKeyConcat(xs[1..], ys, key, k);
    }
  }

  lemma WithKeySnoc<T>(xs: seq<T>, x: T, key: T -> string, k: string)
    ensures WithKey(xs + [x], key, k) == WithKey(xs, key, k) + if key(x) == k then [x] else []
  {
    WithKeyConcat(xs, [x], key, k);
    assert [x][1..] == [];
  }

  lemma {:induction false} NoneWithKey<T>(xs: seq<T>, key: T -> string, k: string)
    requires forall i :: 0 <= i < |xs| ==> key(xs[i]) != k
    ensures WithKey(xs, key, k) == []
  {
    if xs != [] {
      NoneWithKey(xs[1..], key, k);
    }
  }

  lemma InsertedLast<T>(xs: seq<T>, x: T, key: T -> string, k: string)
    requires Descending(xs, key)
    ensures WithKey(Inserted(xs, x, key), key, k) == WithKey(xs, key, k) + if key(x) == k then [x] else []
  {
    var p := InsertionPoint(xs, x, key);
    LeTotal(key(x), key(x));
    assert xs == xs[..p] + xs[p..];
    WithKeyConcat(xs[..p], xs[p..], key, k);
    WithKeyConcat(xs[..p] + [x], xs[p..], key, k);
    WithKeySnoc(xs[..p], x, key, k);
    if key(x) == k {
      NoneWithKey(xs[p..], key, k);
    }
  }

  /** Sorting keeps elements with one key in their order. */
  lemma {:induction false} SortIsStable<T>(xs: seq<T>, key: T -> string, k: string)
    ensures WithKey(SortDescending(xs, key), key, k) == WithKey(xs, key, k)
  {
    if xs != [] {
      var init, last := xs[..|xs| - 1], xs[|xs| - 1];
      SortIsStable(init, key, k);
      InsertedLast(SortDescending(init, key), last, key, k);
      WithKeySnoc(init, last, key, k);
      assert xs == init + [last];
    }
  }

  ghost predicate Distinct<T>(xs: seq<T>)
  {
    forall i, j :: 0 <= i < j < |xs| ==> xs[i] != xs[j]
  }

  ghost predicate StrictlyDescending(xs: seq<string>)
  {
    forall i, j :: 0 <= i < j < |xs| ==> Le(xs[j], xs[i]) && xs[i] != xs[j]
  }

  lemma DistinctSnoc<T>(xs: seq<T>, x: T)
    ensures Distinct(xs + [x]) <==> Distinct(xs) && x !in xs
  {
    var ys := xs + [x];
    if Distinct(ys) {
      assert forall i, j :: 0 <= i < j < |xs| ==> ys[i] == xs[i] && ys[j] == xs[j];
      assert forall i :: 0 <= i < |xs| ==> ys[i] == xs[i] && ys[i] != ys[|xs|];
    }
  }

  lemma {:induction false} DistinctCounts<T>(xs: seq<T>)
    ensures Distinct(xs) <==> forall x :: multiset(xs)[x] <= 1
  {
    if xs != [] {
      var init, last := xs[..|xs| - 1], xs[|xs| - 1];
      assert xs == init + [last];
      DistinctCounts(init);
      DistinctSnoc(init, last);
      assert forall x :: multiset(xs)[x] == multiset(init)[x] + if x == last then 1 else 0;
      assert last in init <==> multiset(init)[last] > 0;
    }
  }

  lemma SameMembersDistinct<T>(xs: seq<T>, ys: seq<T>)
    requires multiset(xs) == multiset(ys)
    ensures Distinct(xs) <==> Distinct(ys)
  {
    DistinctCounts(xs);
    DistinctCounts(ys);
  }

  lemma StrictIsDistinct(xs: seq<string>, key: string -> string)
    requires Descending(xs, key) && forall x :: key(x) == x
    ensures StrictlyDescending(xs) <==> Distinct(xs)
  {
    assert forall i, j :: 0 <= i < j < |xs| ==> Le(key(xs[j]), key(xs[i]));
  }

  /** A stable sort gives a strictly descending list exactly when nothing is listed twice. */
  lemma SortedStrictly(xs: seq<string>, key: string -> string)
    requires forall x :: key(x) == x
    ensures StrictlyDescending(SortDescending(xs, key)) <==> Distinct(xs)
    ensures Distinct(SortDescending(xs, key)) <==> Distinct(xs)
  {
    SameMembersDistinct(xs, SortDescending(xs, key));
    StrictIsDistinct(SortDescending(xs, key), key);
  }

  lemma SmallerSet<T>(s: set<T>, t: set<T>)
    requires s <= t
    ensures |s| <= |t|
  {
    assert t == s + (t - s);
  }
}
