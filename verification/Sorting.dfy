/** Sequence helpers and the one sort every component relies on.

    `sort_by` in the source is a stable library sort. Over an antisymmetric order its result
    is fixed by the multiset it is given (`SortIsCanonical`), so any stable or unstable sort
    returns what `SortBy` returns. */
module Sorting {
  // ---------------------------------------------------------------- orders

  ghost predicate TotalPreorder<T(!new)>(leq: (T, T) -> bool) {
    && (forall a, b :: leq(a, b) || leq(b, a))
    && (forall a, b, c :: leq(a, b) && leq(b, c) ==> leq(a, c))
  }

  ghost predicate Antisymmetric<T(!new)>(leq: (T, T) -> bool) {
    forall a, b :: leq(a, b) && leq(b, a) ==> a == b
  }

  ghost predicate LinearOrder<T(!new)>(leq: (T, T) -> bool) {
    TotalPreorder(leq) && Antisymmetric(leq)
  }

  ghost predicate Sorted<T>(leq: (T, T) -> bool, s: seq<T>) {
    forall i, j :: 0 <= i < j < |s| ==> leq(s[i], s[j])
  }

  predicate Increasing(at: seq<nat>) {
    forall i, j :: 0 <= i < j < |at| ==> at[i] < at[j]
  }

  /** Lexicographic comparison of two sequences, a proper prefix first. */
  predicate LexLeq<T(==)>(leq: (T, T) -> bool, a: seq<T>, b: seq<T>) {
    if a == [] then true
    else if b == [] then false
    else if a[0] == b[0] then LexLeq(leq, a[1..], b[1..])
    else leq(a[0], b[0])
  }

  /** The sequences agree up to `k`, where the first ends or they differ. */
  predicate DifferAt<T(==)>(a: seq<T>, b: seq<T>, k: nat) {
    && k <= |a| && k < |b|
    && (forall i :: 0 <= i < k ==> a[i] == b[i])
    && (k < |a| ==> a[k] != b[k])
  }

  /** The lexicographic order looks at the first place where two sequences differ. */
  lemma {:induction false} LexByPosition<T>(leq: (T, T) -> bool, a: seq<T>, b: seq<T>) returns (k: nat)
    requires LexLeq(leq, a, b) && a != b
    ensures DifferAt(a, b, k) && (k < |a| ==> leq(a[k], b[k]))
  {
    if a == [] || a[0] != b[0] {
      k := 0;
    } else {
      assert a == [a[0]] + a[1..] && b == [b[0]] + b[1..];
      var rest := LexByPosition(leq, a[1..], b[1..]);
      assert forall i :: 0 <= i < rest ==> a[1..][i] == a[i + 1] && b[1..][i] == b[i + 1];
      k := rest + 1;
    }
  }

  lemma {:induction false} LexTotal<T>(leq: (T, T) -> bool, a: seq<T>, b: seq<T>)
    requires forall x, y :: x in a && y in b ==> leq(x, y) || leq(y, x)
    ensures LexLeq(leq, a, b) || LexLeq(leq, b, a)
  {
    if a != [] && b != [] && a[0] == b[0] {
      LexTotal(leq, a[1..], b[1..]);
    }
  }

  lemma {:induction false} LexAntisymmetric<T(!new)>(leq: (T, T) -> bool, a: seq<T>, b: seq<T>)
    requires Antisymmetric(leq)
    requires LexLeq(leq, a, b) && LexLeq(leq, b, a)
    ensures a == b
  {
    if a != [] && b != [] {
      LexAntisymmetric(leq, a[1..], b[1..]);
    }
  }

  lemma {:induction false} LexTransitive<T(!new)>(leq: (T, T) -> bool, a: seq<T>, b: seq<T>, c: seq<T>)
    requires LinearOrder(leq)
    requires LexLeq(leq, a, b) && LexLeq(leq, b, c)
    ensures LexLeq(leq, a, c)
  {
    if a != [] && b != [] && c != [] && a[0] == b[0] == c[0] {
      LexTransitive(leq, a[1..], b[1..], c[1..]);
    }
  }

  /** The lexicographic order over a linear order is a linear order. */
  lemma LexIsLinear<T(!new)>(leq: (T, T) -> bool)
    requires LinearOrder(leq)
    ensures LinearOrder((a: seq<T>, b: seq<T>) => LexLeq(leq, a, b))
  {
    forall a: seq<T>, b: seq<T>
      ensures LexLeq(leq, a, b) || LexLeq(leq, b, a)
    {
      LexTotal(leq, a, b);
    }
    forall a: seq<T>, b: seq<T> | LexLeq(leq, a, b) && LexLeq(leq, b, a)
      ensures a == b
    {
      LexAntisymmetric(leq, a, b);
    }
    forall a: seq<T>, b: seq<T>, c: seq<T> | LexLeq(leq, a, b) && LexLeq(leq, b, c)
      ensures LexLeq(leq, a, c)
    {
      LexTransitive(leq, a, b, c);
    }
  }

  // ---------------------------------------------------------------- sorting

  function Insert<T>(leq: (T, T) -> bool, x: T, s: seq<T>): (r: seq<T>)
    ensures multiset(r) == multiset{x} + multiset(s) && |r| == |s| + 1
  {
    if s == [] || leq(x, s[0]) then [x] + s
    else
      assert s == [s[0]] + s[1..];
      [s[0]] + Insert(leq, x, s[1..])
  }

  /** The stable sort of `s`. */
  function SortBy<T>(leq: (T, T) -> bool, s: seq<T>): (r: seq<T>)
    ensures multiset(r) == multiset(s) && |r| == |s|
  {
    if s == [] then []
    else
      assert s == [s[0]] + s[1..];
      Insert(leq, s[0], SortBy(leq, s[1..]))
  }

  lemma {:induction false} InsertKeepsSorted<T(!new)>(leq: (T, T) -> bool, x: T, s: seq<T>)
    requires TotalPreorder(leq) && Sorted(leq, s)
    ensures Sorted(leq, Insert(leq, x, s))
  {
    if s != [] && !leq(x, s[0]) {
      InsertKeepsSorted(leq, x, s[1..]);
      var rest := Insert(leq, x, s[1..]);
      forall y | y in rest
        ensures leq(s[0], y)
      {
        assert y in multiset(rest);
        assert y == x || y in multiset(s[1..]);
      }
    }
  }

  lemma {:induction false} SortBySorts<T(!new)>(leq: (T, T) -> bool, s: seq<T>)
    requires TotalPreorder(leq)
    ensures Sorted(leq, SortBy(leq, s))
  {
    if s != [] {
      SortBySorts(leq, s[1..]);
      InsertKeepsSorted(leq, s[0], SortBy(leq, s[1..]));
    }
  }

  /** No two different elements of `s` compare as equal. */
  ghost predicate NoTies<T>(leq: (T, T) -> bool, s: seq<T>) {
    forall x, y :: x in s && y in s && leq(x, y) && leq(y, x) ==> x == y
  }

  lemma SortedHeadsAgree<T(!new)>(leq: (T, T) -> bool, a: seq<T>, b: seq<T>)
    requires TotalPreorder(leq) && NoTies(leq, a) && Sorted(leq, a) && Sorted(leq, b)
    requires multiset(a) == multiset(b) && a != [] && b != []
    ensures a[0] == b[0]
  {
    assert a[0] in multiset(b) && b[0] in multiset(a);
    var i :| 0 <= i < |a| && a[i] == b[0];
    var j :| 0 <= j < |b| && b[j] == a[0];
    assert leq(a[0], a[i]) && leq(b[0], b[j]);
  }

  lemma {:induction false} SortedUnique<T(!new)>(leq: (T, T) -> bool, a: seq<T>, b: seq<T>)
    requires TotalPreorder(leq) && NoTies(leq, a) && Sorted(leq, a) && Sorted(leq, b)
    requires multiset(a) == multiset(b)
    ensures a == b
  {
    assert |multiset(a)| == |multiset(b)|;
    if a != [] {
      SortedHeadsAgree(leq, a, b);
      assert a == [a[0]] + a[1..] && b == [b[0]] + b[1..];
      assert multiset(a[1..]) == multiset(a) - multiset{a[0]};
      assert multiset(b[1..]) == multiset(b) - multiset{b[0]};
      SortedUnique(leq, a[1..], b[1..]);
    }
  }

  /** Without ties a sort sees only the multiset it is given. */
  lemma SortWithoutTies<T(!new)>(leq: (T, T) -> bool, a: seq<T>, b: seq<T>)
    requires TotalPreorder(leq) && NoTies(leq, a) && multiset(a) == multiset(b)
    ensures SortBy(leq, a) == SortBy(leq, b)
  {
    SortBySorts(leq, a);
    SortBySorts(leq, b);
    forall x | x in SortBy(leq, a)
      ensures x in a
    {
      assert x in multiset(SortBy(leq, a));
    }
    SortedUnique(leq, SortBy(leq, a), SortBy(leq, b));
  }

  /** A sort over a linear order sees only the multiset it is given. */
  lemma SortIsCanonical<T(!new)>(leq: (T, T) -> bool, a: seq<T>, b: seq<T>)
    requires LinearOrder(leq) && multiset(a) == multiset(b)
    ensures SortBy(leq, a) == SortBy(leq, b)
  {
    SortWithoutTies(leq, a, b);
  }

  // ---------------------------------------------------------------- mapping

  function Map<T, U>(f: T -> U, s: seq<T>): (r: seq<U>)
    ensures |r| == |s| && forall i :: 0 <= i < |s| ==> r[i] == f(s[i])
  {
    seq(|s|, i requires 0 <= i < |s| => f(s[i]))
  }

  lemma MapLast<T, U>(f: T -> U, s: seq<T>, last: T)
    ensures Map(f, s + [last]) == Map(f, s) + [f(last)]
  {
  }

  /** `s` with its element `k` taken out. */
  function Without<T>(s: seq<T>, k: nat): (r: seq<T>)
    requires k < |s|
    ensures |r| == |s| - 1
  {
    s[..k] + s[k + 1..]
  }

  lemma WithoutOne<T>(s: seq<T>, k: nat)
    requires k < |s|
    ensures multiset(s) == multiset(Without(s, k)) + multiset{s[k]}
    ensures multiset(Without(s, k)) == multiset(s) - multiset{s[k]}
    ensures forall x :: x in Without(s, k) ==> x in s
  {
    assert s == s[..k] + ([s[k]] + s[k + 1..]);
  }

  lemma MapWithout<T, U>(f: T -> U, s: seq<T>, k: nat)
    requires k < |s|
    ensures multiset(Map(f, s)) == multiset(Map(f, Without(s, k))) + multiset{f(s[k])}
    ensures multiset(Map(f, Without(s, k))) == multiset(Map(f, s)) - multiset{f(s[k])}
  {
    WithoutOne(Map(f, s), k);
    assert Map(f, Without(s, k)) == Without(Map(f, s), k);
  }

  /** When `f` separates exactly the elements `g` separates, the images under `f` agree as
      multisets exactly when the images under `g` do. */
  lemma {:induction false} SameImages<T, U, V>(f: T -> U, g: T -> V, xs: seq<T>, ys: seq<T>)
    requires forall x, y :: x in xs && y in ys && f(x) == f(y) ==> g(x) == g(y)
    requires multiset(Map(f, xs)) == multiset(Map(f, ys))
    ensures multiset(Map(g, xs)) == multiset(Map(g, ys))
  {
    assert |multiset(Map(f, xs))| == |multiset(Map(f, ys))|;
    if xs == [] {
      assert ys == [];
    } else {
      assert Map(f, xs)[0] == f(xs[0]);
      assert f(xs[0]) in multiset(Map(f, ys));
      var k :| 0 <= k < |ys| && Map(f, ys)[k] == f(xs[0]);
      MapWithout(f, xs, 0);
      MapWithout(g, xs, 0);
      MapWithout(f, ys, k);
      MapWithout(g, ys, k);
      WithoutOne(xs, 0);
      WithoutOne(ys, k);
      SameImages(f, g, Without(xs, 0), Without(ys, k));
    }
  }

  lemma SameImagesOfSame<T, U>(f: T -> U, xs: seq<T>, ys: seq<T>)
    requires multiset(xs) == multiset(ys)
    ensures multiset(Map(f, xs)) == multiset(Map(f, ys))
  {
    var same := (x: T) => x;
    assert Map(same, xs) == xs && Map(same, ys) == ys;
    SameImages(same, f, xs, ys);
  }

  /** A rearrangement of the images comes from a rearrangement of the elements. */
  lemma {:induction false} RearrangedImages<T, U>(f: T -> U, xs: seq<T>, images: seq<U>) returns (order: seq<T>)
    requires multiset(images) == multiset(Map(f, xs))
    ensures multiset(order) == multiset(xs) && |order| == |images|
    ensures forall i :: 0 <= i < |order| ==> f(order[i]) == images[i]
  {
    assert |multiset(images)| == |multiset(Map(f, xs))|;
    if images == [] {
      assert xs == [];
      order := [];
    } else {
      var k := ImageAt(f, xs, images);
      var rest := RearrangedImages(f, Without(xs, k), images[1..]);
      WithoutOne(xs, k);
      order := [xs[k]] + rest;
    }
  }

  lemma ImageAt<T, U>(f: T -> U, xs: seq<T>, images: seq<U>) returns (k: nat)
    requires images != [] && multiset(images) == multiset(Map(f, xs))
    ensures k < |xs| && f(xs[k]) == images[0]
    ensures multiset(images[1..]) == multiset(Map(f, Without(xs, k)))
  {
    assert images[0] in multiset(Map(f, xs));
    k :| 0 <= k < |xs| && Map(f, xs)[k] == images[0];
    MapWithout(f, xs, k);
    WithoutOne(images, 0);
    assert Without(images, 0) == images[1..];
  }

  // ---------------------------------------------------------------- totals

  function Total<T>(size: T -> nat, s: seq<T>): nat {
    if s == [] then 0 else size(s[0]) + Total(size, s[1..])
  }

  lemma {:induction false} TotalOfBoth<T>(size: T -> nat, a: seq<T>, b: seq<T>)
    ensures Total(size, a + b) == Total(size, a) + Total(size, b)
  {
    if a == [] {
      assert a + b == b;
    } else {
      assert (a + b)[0] == a[0] && (a + b)[1..] == a[1..] + b;
      TotalOfBoth(size, a[1..], b);
    }
  }

  lemma TotalWithout<T>(size: T -> nat, s: seq<T>, k: nat)
    requires k < |s|
    ensures Total(size, s) == size(s[k]) + Total(size, Without(s, k))
  {
    var before, others := s[..k], s[k..];
    assert s == before + others && others[0] == s[k] && others[1..] == s[k + 1..];
    TotalOfBoth(size, before, others);
    TotalOfBoth(size, before, s[k + 1..]);
  }

  lemma {:induction false} MoreTotals<T>(size: T -> nat, few: seq<T>, many: seq<T>)
    requires multiset(few) <= multiset(many)
    ensures Total(size, few) <= Total(size, many)
  {
    hide Without;
    if few != [] {
      assert few == [few[0]] + few[1..];
      assert few[0] in multiset(many);
      var k :| 0 <= k < |many| && many[k] == few[0];
      WithoutOne(many, k);
      MoreTotals(size, few[1..], Without(many, k));
      TotalWithout(size, many, k);
    }
  }

  lemma {:induction false} TotalOfMap<T, U>(f: T -> U, size: U -> nat, whole: T -> nat, s: seq<T>)
    requires forall x :: x in s ==> size(f(x)) == whole(x)
    ensures Total(size, Map(f, s)) == Total(whole, s)
  {
    if s != [] {
      assert Map(f, s)[1..] == Map(f, s[1..]);
      TotalOfMap(f, size, whole, s[1..]);
      assert s[0] in s;
    }
  }

  lemma SameTotals<T>(size: T -> nat, a: seq<T>, b: seq<T>)
    requires multiset(a) == multiset(b)
    ensures Total(size, a) == Total(size, b)
  {
    MoreTotals(size, a, b);
    MoreTotals(size, b, a);
  }

  // ---------------------------------------------------------------- sequences without repetition

  /** No element occurs twice. */
  ghost predicate NoRepeats<T>(s: seq<T>) {
    forall i, j :: 0 <= i < j < |s| ==> s[i] != s[j]
  }

  lemma {:induction false} DistinctCounts<T>(s: seq<T>, x: T)
    requires NoRepeats(s)
    ensures multiset(s)[x] == if x in s then 1 else 0
  {
    if s != [] {
      assert s == [s[0]] + s[1..];
      assert forall i :: 0 <= i < |s[1..]| ==> s[1..][i] == s[i + 1];
      DistinctCounts(s[1..], x);
    }
  }

  lemma SameDistinctElements<T>(a: seq<T>, b: seq<T>)
    requires NoRepeats(a) && NoRepeats(b) && forall x :: x in a <==> x in b
    ensures multiset(a) == multiset(b)
  {
    forall x
      ensures multiset(a)[x] == multiset(b)[x]
    {
      DistinctCounts(a, x);
      DistinctCounts(b, x);
    }
  }

  lemma Appended<T>(a: seq<T>, b: seq<T>)
    requires NoRepeats(a) && NoRepeats(b) && forall x :: x in a ==> x !in b
    ensures NoRepeats(a + b)
  {
    forall i, j | 0 <= i < j < |a + b|
      ensures (a + b)[i] != (a + b)[j]
    {
      if i < |a| <= j {
        assert (a + b)[i] in a && (a + b)[j] in b;
      }
    }
  }

  lemma DistinctSubset<T>(a: seq<T>, b: seq<T>)
    requires NoRepeats(a) && forall x :: x in a ==> x in b
    ensures multiset(a) <= multiset(b)
  {
    forall x
      ensures multiset(a)[x] <= multiset(b)[x]
    {
      DistinctCounts(a, x);
      assert x in b <==> x in multiset(b);
    }
  }

  /** Distinct elements of a sequence, as many as it has, are all of them. */
  lemma Pigeonhole<T>(a: seq<T>, b: seq<T>)
    requires NoRepeats(a) && |a| == |b| && forall x :: x in a ==> x in b
    ensures multiset(a) == multiset(b)
  {
    DistinctSubset(a, b);
    assert |multiset(a)| == |multiset(b)|;
    assert |multiset(b) - multiset(a)| == 0;
    assert multiset(b) == multiset(a) + (multiset(b) - multiset(a));
  }

  lemma TwiceCounts<T>(s: seq<T>, i: nat, j: nat)
    requires i < j < |s| && s[i] == s[j]
    ensures multiset(s)[s[i]] >= 2
  {
    assert s == s[..j] + [s[j]] + s[j + 1..];
    assert s[..j][i] == s[i];
    assert multiset(s) == multiset(s[..j]) + multiset{s[j]} + multiset(s[j + 1..]);
    assert s[i] in multiset(s[..j]);
  }

  lemma OnceCounts<T>(s: seq<T>, i: nat)
    requires i < |s| && forall j :: 0 <= j < |s| && j != i ==> s[j] != s[i]
    ensures multiset(s)[s[i]] == 1
  {
    assert s == s[..i] + [s[i]] + s[i + 1..];
    assert multiset(s) == multiset(s[..i]) + multiset{s[i]} + multiset(s[i + 1..]);
    assert s[i] !in s[..i] && s[i] !in s[i + 1..];
  }

  lemma RepeatsByCount<T>(s: seq<T>)
    ensures NoRepeats(s) <==> forall x :: x in s ==> multiset(s)[x] == 1
  {
    if NoRepeats(s) {
      forall x | x in s
        ensures multiset(s)[x] == 1
      {
        DistinctCounts(s, x);
      }
    } else {
      var i, j :| 0 <= i < j < |s| && s[i] == s[j];
      TwiceCounts(s, i, j);
      assert s[i] in s;
    }
  }
}
