/**
 Stable sorting by a total preorder, and when the result depends on the elements alone.
 */
module Sorting {

  ghost predicate TotalPreorder<T(!new)>(leq: (T, T) -> bool) {
    && (forall x, y :: leq(x, y) || leq(y, x))
    && (forall x, y, z :: leq(x, y) && leq(y, z) ==> leq(x, z))
  }

  predicate Ordered<T>(leq: (T, T) -> bool, xs: seq<T>) {
    forall i, j :: 0 <= i < j < |xs| ==> leq(xs[i], xs[j])
  }

  // After the last element that is not above it.
  function Insert<T>(leq: (T, T) -> bool, x: T, xs: seq<T>): (r: seq<T>)
    ensures |r| == |xs| + 1
  {
    if xs == [] then [x]
    else if leq(xs[|xs|-1], x) then xs + [x]
    else Insert(leq, x, xs[..|xs|-1]) + [xs[|xs|-1]]
  }

  function Sort<T>(leq: (T, T) -> bool, xs: seq<T>): (r: seq<T>)
    ensures |r| == |xs|
  {
    if xs == [] then [] else Insert(leq, xs[|xs|-1], Sort(leq, xs[..|xs|-1]))
  }

  ghost predicate Below<T(!new)>(leq: (T, T) -> bool, m: multiset<T>, x: T) {
    forall y :: y in m ==> leq(y, x)
  }

  lemma PrefixOrdered<T(!new)>(leq: (T, T) -> bool, xs: seq<T>)
    requires Ordered(leq, xs) && xs != []
    ensures Ordered(leq, xs[..|xs|-1])
    ensures Below(leq, multiset(xs[..|xs|-1]), xs[|xs|-1])
  {
    var m := multiset(xs[..|xs|-1]);
    forall x | x in m ensures leq(x, xs[|xs|-1]) {
      var k :| 0 <= k < |xs| - 1 && xs[k] == x;
    }
  }

  lemma AppendOrdered<T(!new)>(leq: (T, T) -> bool, xs: seq<T>, x: T)
    requires Ordered(leq, xs) && Below(leq, multiset(xs), x)
    ensures Ordered(leq, xs + [x])
  {
    forall i | 0 <= i < |xs| ensures leq(xs[i], x) {
      assert xs[i] in multiset(xs);
    }
  }

  lemma {:induction false} InsertOrdered<T(!new)>(leq: (T, T) -> bool, x: T, xs: seq<T>)
    requires TotalPreorder(leq) && Ordered(leq, xs)
    ensures Ordered(leq, Insert(leq, x, xs))
    ensures multiset(Insert(leq, x, xs)) == multiset(xs) + multiset{x}
  {
    if xs != [] {
      var init, last := xs[..|xs|-1], xs[|xs|-1];
      assert xs == init + [last];
      PrefixOrdered(leq, xs);
      if leq(last, x) {
        forall y | y in multiset(xs) ensures leq(y, x) {
          assert y == last || y in multiset(init);
        }
        AppendOrdered(leq, xs, x);
      } else {
        InsertOrdered(leq, x, init);
        AppendOrdered(leq, Insert(leq, x, init), last);
      }
    }
  }

  lemma {:induction false} SortSorts<T(!new)>(leq: (T, T) -> bool, xs: seq<T>)
    requires TotalPreorder(leq)
    ensures Ordered(leq, Sort(leq, xs)) && multiset(Sort(leq, xs)) == multiset(xs)
  {
    if xs != [] {
      SortSorts(leq, xs[..|xs|-1]);
      InsertOrdered(leq, xs[|xs|-1], Sort(leq, xs[..|xs|-1]));
      assert xs == xs[..|xs|-1] + [xs[|xs|-1]];
    }
  }

  // No two of the elements share a place in the order.
  ghost predicate Strict<T(!new)>(leq: (T, T) -> bool, m: multiset<T>) {
    && (forall x, y :: x in m && y in m && leq(x, y) && leq(y, x) ==> x == y)
  }

  lemma StrictSubset<T(!new)>(leq: (T, T) -> bool, m: multiset<T>, n: multiset<T>)
    requires Strict(leq, m) && n <= m
    ensures Strict(leq, n)
  {
  }

  lemma SplitLast<T>(xs: seq<T>)
    requires xs != []
    ensures multiset(xs[..|xs|-1]) == multiset(xs) - multiset{xs[|xs|-1]}
    ensures xs[|xs|-1] in multiset(xs)
  {
    assert xs == xs[..|xs|-1] + [xs[|xs|-1]];
  }

  lemma SameLength<T>(xs: seq<T>, ys: seq<T>)
    requires multiset(xs) == multiset(ys)
    ensures |xs| == |ys|
  {
    assert |multiset(xs)| == |multiset(ys)|;
  }

  // Both end in the same element, and agree on what comes before it.
  lemma SameTop<T(!new)>(leq: (T, T) -> bool, xs: seq<T>, ys: seq<T>)
    requires TotalPreorder(leq) && Ordered(leq, xs) && Ordered(leq, ys) && xs != []
    requires multiset(xs) == multiset(ys) && Strict(leq, multiset(xs))
    ensures |xs| == |ys| && xs[|xs|-1] == ys[|ys|-1]
    ensures multiset(xs[..|xs|-1]) == multiset(ys[..|ys|-1]) && Strict(leq, multiset(xs[..|xs|-1]))
  {
    hide TotalPreorder, Ordered;
    SameLength(xs, ys);
    SplitLast(xs);
    SplitLast(ys);
    Topmost(leq, xs, ys[|ys|-1]);
    Topmost(leq, ys, xs[|xs|-1]);
    assert xs[|xs|-1] == ys[|ys|-1];
    StrictSubset(leq, multiset(xs), multiset(xs[..|xs|-1]));
  }

  // There is one way to put such elements in order.
  lemma {:induction false} OrderedIsUnique<T(!new)>(leq: (T, T) -> bool, xs: seq<T>, ys: seq<T>)
    requires TotalPreorder(leq) && Ordered(leq, xs) && Ordered(leq, ys)
    requires multiset(xs) == multiset(ys) && Strict(leq, multiset(xs))
    ensures xs == ys
  {
    hide TotalPreorder, Ordered, Strict;
    if xs == [] {
      SameLength(xs, ys);
    } else {
      SameTop(leq, xs, ys);
      PrefixOrdered(leq, xs);
      PrefixOrdered(leq, ys);
      OrderedIsUnique(leq, xs[..|xs|-1], ys[..|ys|-1]);
      assert xs == xs[..|xs|-1] + [xs[|xs|-1]] && ys == ys[..|ys|-1] + [ys[|ys|-1]];
    }
  }

  lemma Topmost<T(!new)>(leq: (T, T) -> bool, xs: seq<T>, y: T)
    requires TotalPreorder(leq) && Ordered(leq, xs) && y in multiset(xs)
    ensures xs != [] && leq(y, xs[|xs|-1])
  {
    var k :| 0 <= k < |xs| && xs[k] == y;
    assert leq(y, y);
    if k < |xs| - 1 { assert leq(xs[k], xs[|xs|-1]); }
  }

  // Sorting forgets the order the elements came in.
  lemma SortOfPermutation<T(!new)>(leq: (T, T) -> bool, xs: seq<T>, ys: seq<T>)
    requires TotalPreorder(leq) && multiset(xs) == multiset(ys) && Strict(leq, multiset(xs))
    ensures Sort(leq, xs) == Sort(leq, ys)
  {
    SortSorts(leq, xs);
    SortSorts(leq, ys);
    OrderedIsUnique(leq, Sort(leq, xs), Sort(leq, ys));
  }

  // One element out of a list.
  function Without<T>(xs: seq<T>, k: nat): (r: seq<T>)
    requires k < |xs|
    ensures |r| == |xs| - 1
  {
    xs[..k] + xs[k+1..]
  }

  lemma WithoutMultiset<T>(xs: seq<T>, k: nat)
    requires k < |xs|
    ensures multiset(Without(xs, k)) == multiset(xs) - multiset{xs[k]}
  {
    assert xs == xs[..k] + [xs[k]] + xs[k+1..];
  }

  lemma PutBack<T>(xs: seq<T>, i: nat, ys: seq<T>, j: nat)
    requires i < |xs| && j < |ys| && xs[i] == ys[j]
    requires multiset(Without(xs, i)) == multiset(Without(ys, j))
    ensures multiset(xs) == multiset(ys)
  {
    WithoutMultiset(xs, i);
    WithoutMultiset(ys, j);
    assert xs[i] in multiset(xs) && ys[j] in multiset(ys);
    assert multiset(xs) == multiset(Without(xs, i)) + multiset{xs[i]};
    assert multiset(ys) == multiset(Without(ys, j)) + multiset{ys[j]};
  }

  // A sum that each element adds to by itself.
  function Sum<T>(f: T -> int, xs: seq<T>): int {
    if xs == [] then 0 else Sum(f, xs[..|xs|-1]) + f(xs[|xs|-1])
  }

  lemma {:induction false} SumConcat<T>(f: T -> int, xs: seq<T>, ys: seq<T>)
    ensures Sum(f, xs + ys) == Sum(f, xs) + Sum(f, ys)
  {
    if ys == [] {
      assert xs + ys == xs;
    } else {
      assert (xs + ys)[..|xs + ys| - 1] == xs + ys[..|ys|-1];
      SumConcat(f, xs, ys[..|ys|-1]);
    }
  }

  lemma SumWithout<T>(f: T -> int, xs: seq<T>, k: nat)
    requires k < |xs|
    ensures Sum(f, xs) == Sum(f, Without(xs, k)) + f(xs[k])
  {
    SumConcat(f, xs[..k], xs[k+1..]);
    SumConcat(f, xs[..k+1], xs[k+1..]);
    assert xs == xs[..k+1] + xs[k+1..];
    assert xs[..k+1][..k] == xs[..k];
  }

  lemma FindIn<T>(xs: seq<T>, x: T) returns (k: nat)
    requires x in multiset(xs)
    ensures k < |xs| && xs[k] == x
    ensures multiset(Without(xs, k)) == multiset(xs) - multiset{x}
  {
    k :| 0 <= k < |xs| && xs[k] == x;
    WithoutMultiset(xs, k);
  }

  lemma {:induction false} SumOfPermutation<T>(f: T -> int, xs: seq<T>, ys: seq<T>)
    requires multiset(xs) == multiset(ys)
    ensures Sum(f, xs) == Sum(f, ys)
    decreases |xs|
  {
    SameLength(xs, ys);
    if xs != [] {
      SplitLast(xs);
      var k := FindIn(ys, xs[|xs|-1]);
      SumOfPermutation(f, xs[..|xs|-1], Without(ys, k));
      SumWithout(f, ys, k);
    }
  }

  // A list that each element adds to by itself.
  function Flatten<T, U>(f: T -> seq<U>, xs: seq<T>): seq<U> {
    if xs == [] then [] else Flatten(f, xs[..|xs|-1]) + f(xs[|xs|-1])
  }

  lemma {:induction false} FlattenConcat<T, U>(f: T -> seq<U>, xs: seq<T>, ys: seq<T>)
    ensures Flatten(f, xs + ys) == Flatten(f, xs) + Flatten(f, ys)
  {
    if ys == [] {
      assert xs + ys == xs;
    } else {
      assert (xs + ys)[..|xs + ys| - 1] == xs + ys[..|ys|-1];
      FlattenConcat(f, xs, ys[..|ys|-1]);
    }
  }

  lemma FlattenSnoc<T, U>(f: T -> seq<U>, xs: seq<T>, x: T)
    ensures Flatten(f, xs + [x]) == Flatten(f, xs) + f(x)
  {
    assert (xs + [x])[..|xs|] == xs;
  }

  lemma FlattenAt<T, U>(f: T -> seq<U>, a: seq<T>, x: T, b: seq<T>)
    ensures Flatten(f, (a + [x]) + b) == (Flatten(f, a) + f(x)) + Flatten(f, b)
  {
    FlattenSnoc(f, a, x);
    FlattenConcat(f, a + [x], b);
  }

  lemma Parts<T>(xs: seq<T>, k: nat)
    requires k < |xs|
    ensures xs == (xs[..k] + [xs[k]]) + xs[k+1..]
  {
  }

  lemma FlattenWithout<T, U>(f: T -> seq<U>, xs: seq<T>, k: nat)
    requires k < |xs|
    ensures multiset(Flatten(f, xs)) == multiset(Flatten(f, Without(xs, k))) + multiset(f(xs[k]))
  {
    Parts(xs, k);
    FlattenAt(f, xs[..k], xs[k], xs[k+1..]);
    FlattenConcat(f, xs[..k], xs[k+1..]);
    MiddleOut(Flatten(f, xs[..k]), f(xs[k]), Flatten(f, xs[k+1..]));
  }

  lemma MiddleOut<T>(a: seq<T>, m: seq<T>, b: seq<T>)
    ensures multiset(a + m + b) == multiset(a + b) + multiset(m)
  {
  }

  lemma {:induction false} FlattenOfPermutation<T, U>(f: T -> seq<U>, xs: seq<T>, ys: seq<T>)
    requires multiset(xs) == multiset(ys)
    ensures multiset(Flatten(f, xs)) == multiset(Flatten(f, ys))
    decreases |xs|
  {
    SameLength(xs, ys);
    if xs != [] {
      SplitLast(xs);
      var k := FindIn(ys, xs[|xs|-1]);
      FlattenOfPermutation(f, xs[..|xs|-1], Without(ys, k));
      FlattenWithout(f, ys, k);
    }
  }

  // Every element of the list was added by one of them,
  lemma {:induction false} FlattenFrom<T, U>(f: T -> seq<U>, xs: seq<T>, u: U) returns (k: nat)
    requires u in Flatten(f, xs)
    ensures k < |xs| && u in f(xs[k])
  {
    if u in f(xs[|xs|-1]) {
      k := |xs| - 1;
    } else {
      k := FlattenFrom(f, xs[..|xs|-1], u);
    }
  }

  // ... and what each of them adds is in it.
  lemma {:induction false} FlattenHas<T, U>(f: T -> seq<U>, xs: seq<T>, k: nat)
    requires k < |xs|
    ensures forall u :: u in f(xs[k]) ==> u in Flatten(f, xs)
  {
    if k < |xs| - 1 { FlattenHas(f, xs[..|xs|-1], k); }
  }
}
