/**
  * Largest-first selection with a target that moves with the number of coins: the argument
  * that both coin selectors share. Coins are any values with an amount.
  */
module Selection {
  import opened Wrappers

  function Total<T>(value: T -> int, xs: seq<T>): int {
    if xs == [] then 0 else Total(value, xs[..|xs| - 1]) + value(xs[|xs| - 1])
  }

  predicate Descending<T>(value: T -> int, xs: seq<T>) {
    forall i, j :: 0 <= i < j < |xs| ==> value(xs[i]) >= value(xs[j])
  }

  /** Put `x` in front of the first coin that is not larger. */
  function Insert<T>(value: T -> int, x: T, xs: seq<T>): seq<T> {
    if xs == [] || value(x) >= value(xs[0]) then [x] + xs
    else [xs[0]] + Insert(value, x, xs[1..])
  }

  /** The stable sort by decreasing amount. */
  function SortDescending<T>(value: T -> int, xs: seq<T>): seq<T> {
    if xs == [] then [] else Insert(value, xs[0], SortDescending(value, xs[1..]))
  }

  /** The coins of one amount, in order. */
  function WithValue<T>(value: T -> int, v: int, xs: seq<T>): seq<T> {
    if xs == [] then []
    else (if value(xs[0]) == v then [xs[0]] else []) + WithValue(value, v, xs[1..])
  }

  lemma {:induction false} InsertPermutes<T>(value: T -> int, x: T, xs: seq<T>)
    ensures multiset(Insert(value, x, xs)) == multiset{x} + multiset(xs)
  {
    if xs == [] || value(x) >= value(xs[0]) {
    } else {
      InsertPermutes(value, x, xs[1..]);
      assert xs == [xs[0]] + xs[1..];
    }
  }

  lemma {:induction false} InsertSorted<T>(value: T -> int, x: T, xs: seq<T>)
    requires Descending(value, xs)
    ensures Descending(value, Insert(value, x, xs))
  {
    if xs == [] || value(x) >= value(xs[0]) {
    } else {
      InsertSorted(value, x, xs[1..]);
      InsertPermutes(value, x, xs[1..]);
      var rest := Insert(value, x, xs[1..]);
      forall k | 0 <= k < |rest|
        ensures value(xs[0]) >= value(rest[k])
      {
        assert rest[k] in multiset(rest);
        assert rest[k] == x || rest[k] in xs[1..];
      }
    }
  }

  lemma {:induction false} SortSorts<T>(value: T -> int, xs: seq<T>)
    ensures Descending(value, SortDescending(value, xs))
    ensures multiset(SortDescending(value, xs)) == multiset(xs)
    ensures |SortDescending(value, xs)| == |xs|
  {
    if xs != [] {
      SortSorts(value, xs[1..]);
      InsertSorted(value, xs[0], SortDescending(value, xs[1..]));
      InsertPermutes(value, xs[0], SortDescending(value, xs[1..]));
      assert xs == [xs[0]] + xs[1..];
      assert |multiset(SortDescending(value, xs))| == |multiset(xs)|;
    }
  }

  lemma WithValueCons<T>(value: T -> int, v: int, x: T, xs: seq<T>)
    ensures WithValue(value, v, [x] + xs) == (if value(x) == v then [x] else []) + WithValue(value, v, xs)
  {
    assert ([x] + xs)[1..] == xs;
  }

  lemma {:induction false} InsertStable<T>(value: T -> int, v: int, x: T, xs: seq<T>)
    ensures WithValue(value, v, Insert(value, x, xs)) == (if value(x) == v then [x] else []) + WithValue(value, v, xs)
  {
    hide WithValue;
    if xs == [] || value(x) >= value(xs[0]) {
      WithValueCons(value, v, x, xs);
    } else {
      InsertStable(value, v, x, xs[1..]);
      WithValueCons(value, v, xs[0], Insert(value, x, xs[1..]));
      WithValueCons(value, v, xs[0], xs[1..]);
      assert xs == [xs[0]] + xs[1..];
    }
  }

  /** Coins of equal amount keep their order. */
  lemma {:induction false} SortStable<T>(value: T -> int, v: int, xs: seq<T>)
    ensures WithValue(value, v, SortDescending(value, xs)) == WithValue(value, v, xs)
  {
    if xs != [] {
      SortStable(value, v, xs[1..]);
      InsertStable(value, v, xs[0], SortDescending(value, xs[1..]));
    }
  }

  lemma {:induction false} TotalConcat<T>(value: T -> int, xs: seq<T>, ys: seq<T>)
    ensures Total(value, xs + ys) == Total(value, xs) + Total(value, ys)
  {
    if ys == [] {
      assert xs + ys == xs;
    } else {
      var k := |ys| - 1;
      TotalConcat(value, xs, ys[..k]);
      assert (xs + ys)[..|xs + ys| - 1] == xs + ys[..k];
    }
  }

  lemma TotalCons<T>(value: T -> int, xs: seq<T>)
    requires xs != []
    ensures Total(value, xs) == value(xs[0]) + Total(value, xs[1..])
  {
    TotalConcat(value, [xs[0]], xs[1..]);
    assert xs == [xs[0]] + xs[1..];
  }

  lemma {:induction false} InsertTotal<T>(value: T -> int, x: T, xs: seq<T>)
    ensures Total(value, Insert(value, x, xs)) == value(x) + Total(value, xs)
  {
    TotalCons(value, Insert(value, x, xs));
    if xs == [] || value(x) >= value(xs[0]) {
      assert Insert(value, x, xs)[1..] == xs;
    } else {
      TotalCons(value, xs);
      InsertTotal(value, x, xs[1..]);
    }
  }

  lemma {:induction false} SortTotal<T>(value: T -> int, xs: seq<T>)
    ensures Total(value, SortDescending(value, xs)) == Total(value, xs)
  {
    if xs != [] {
      SortTotal(value, xs[1..]);
      InsertTotal(value, xs[0], SortDescending(value, xs[1..]));
      TotalCons(value, xs);
    }
  }

  /** Of coins none of which is negative, a front is worth no more than all. */
  lemma {:induction false} PrefixTotal<T>(value: T -> int, xs: seq<T>, k: nat)
    requires k <= |xs| && forall i :: 0 <= i < |xs| ==> value(xs[i]) >= 0
    ensures Total(value, xs[..k]) <= Total(value, xs)
    decreases |xs|
  {
    if k < |xs| {
      PrefixTotal(value, xs[..|xs| - 1], k);
      assert xs[..|xs| - 1][..k] == xs[..k];
    } else {
      assert xs[..k] == xs;
    }
  }

  function Without<T>(xs: seq<T>, k: nat): seq<T>
    requires k < |xs|
  {
    xs[..k] + xs[k + 1..]
  }

  lemma TotalWithout<T>(value: T -> int, xs: seq<T>, k: nat)
    requires k < |xs|
    ensures Total(value, xs) == value(xs[k]) + Total(value, Without(xs, k))
  {
    hide Total;
    TotalConcat(value, xs[..k], xs[k..]);
    TotalCons(value, xs[k..]);
    TotalConcat(value, xs[..k], xs[k + 1..]);
    assert xs == xs[..k] + xs[k..];
    assert xs[k..][1..] == xs[k + 1..];
  }

  lemma MultisetWithout<T>(xs: seq<T>, k: nat)
    requires k < |xs|
    ensures multiset(xs) == multiset{xs[k]} + multiset(Without(xs, k))
  {
    assert xs == xs[..k] + ([xs[k]] + xs[k + 1..]);
  }

  /**
    * The exchange argument: no choice of coins is worth more than as many from the front of
    * the sorted list.
    */
  lemma {:induction false} TopTotal<T>(value: T -> int, sorted: seq<T>, xs: seq<T>)
    requires Descending(value, sorted) && multiset(xs) <= multiset(sorted)
    ensures |xs| <= |sorted| && Total(value, xs) <= Total(value, sorted[..|xs|])
    decreases |xs|
  {
    MultisetSize(xs, sorted);
    if xs == [] {
    } else {
      var k := Pick(xs, sorted[0]);
      TotalWithout(value, xs, k);
      RestContained(sorted, xs, k);
      TopTotal(value, sorted[1..], Without(xs, k));
      assert xs[k] in multiset(sorted);
      TotalCons(value, sorted[..|xs|]);
      assert sorted[..|xs|][1..] == sorted[1..][..|xs| - 1];
    }
  }

  lemma Pick<T>(xs: seq<T>, x: T) returns (k: nat)
    requires xs != []
    ensures k < |xs|
    ensures x in xs ==> xs[k] == x
  {
    k := 0;
    if x in xs {
      k :| k < |xs| && xs[k] == x;
    }
  }

  lemma MultisetSize<T>(xs: seq<T>, ys: seq<T>)
    requires multiset(xs) <= multiset(ys)
    ensures |xs| <= |ys|
  {
    var rest := multiset(ys) - multiset(xs);
    assert multiset(ys) == multiset(xs) + rest;
    assert |multiset(ys)| == |multiset(xs)| + |rest|;
  }

  lemma RestContained<T>(sorted: seq<T>, xs: seq<T>, k: nat)
    requires sorted != [] && k < |xs| && multiset(xs) <= multiset(sorted)
    requires sorted[0] in xs ==> xs[k] == sorted[0]
    ensures multiset(Without(xs, k)) <= multiset(sorted[1..])
  {
    MultisetWithout(xs, k);
    MultisetWithout(sorted, 0);
    assert Without(sorted, 0) == sorted[1..];
    Contained(multiset(Without(xs, k)), xs[k], multiset(sorted[1..]), sorted[0]);
  }

  lemma Contained<T>(m: multiset<T>, x: T, n: multiset<T>, y: T)
    requires multiset{x} + m <= multiset{y} + n
    requires y in multiset{x} + m ==> x == y
    ensures m <= n
  {
    forall z
      ensures m[z] <= n[z]
    {
      assert (multiset{x} + m)[z] <= (multiset{y} + n)[z];
      assert x != y ==> y !in m;
    }
  }

  // ---------------------------------------------------------------- the first count that covers

  /** The coins at the front of `sorted` pay `required` and the fee for their number. */
  predicate Covers<T>(value: T -> int, sorted: seq<T>, required: int, fee: nat -> int, count: nat) {
    count <= |sorted| && Total(value, sorted[..count]) >= required + fee(count)
  }

  /** The least covering count above `from`. */
  function FirstCount<T>(value: T -> int, sorted: seq<T>, required: int, fee: nat -> int, start: nat): (r: Option<nat>)
    requires start <= |sorted|
    ensures r.Some? ==> start < r.value <= |sorted| && Covers(value, sorted, required, fee, r.value)
    ensures r.Some? ==> forall j :: start < j < r.value ==> !Covers(value, sorted, required, fee, j)
    ensures r.None? ==> forall j :: start < j <= |sorted| ==> !Covers(value, sorted, required, fee, j)
    decreases |sorted| - start
  {
    if start == |sorted| then None
    else if Covers(value, sorted, required, fee, start + 1) then Some(start + 1)
    else FirstCount(value, sorted, required, fee, start + 1)
  }

  /** A choice of coins, none used twice, that pays for itself. */
  ghost predicate Pays<T>(value: T -> int, coins: seq<T>, required: int, fee: nat -> int, choice: seq<T>) {
    choice != [] && multiset(choice) <= multiset(coins) && Total(value, choice) >= required + fee(|choice|)
  }

  /**
    * Completeness and optimality: if any choice of coins pays, selection succeeds with no more
    * coins than that choice; and what it selects is itself such a choice.
    */
  lemma GreedyOptimal<T>(value: T -> int, coins: seq<T>, required: int, fee: nat -> int, choice: seq<T>)
    requires Pays(value, coins, required, fee, choice)
    ensures |SortDescending(value, coins)| == |coins|
    ensures var r := FirstCount(value, SortDescending(value, coins), required, fee, 0);
            r.Some? && r.value <= |choice|
  {
    SortSorts(value, coins);
    var sorted := SortDescending(value, coins);
    TopTotal(value, sorted, choice);
    assert Covers(value, sorted, required, fee, |choice|);
  }

  lemma GreedyPays<T>(value: T -> int, coins: seq<T>, required: int, fee: nat -> int)
    requires FirstCount(value, SortDescending(value, coins), required, fee, 0).Some?
    ensures var k := FirstCount(value, SortDescending(value, coins), required, fee, 0).value;
            Pays(value, coins, required, fee, SortDescending(value, coins)[..k])
  {
    SortSorts(value, coins);
    var sorted := SortDescending(value, coins);
    var k := FirstCount(value, sorted, required, fee, 0).value;
    PrefixContained(sorted, k);
  }

  lemma PrefixContained<T>(xs: seq<T>, k: nat)
    requires k <= |xs|
    ensures multiset(xs[..k]) <= multiset(xs)
  {
    assert xs == xs[..k] + xs[k..];
  }
}
