/** How often an element occurs in a sequence. */
module Counting {
  function Times<T(==)>(xs: seq<T>, x: T): nat {
    if xs == [] then 0 else (if xs[0] == x then 1 else 0) + Times(xs[1..], x)
  }

  lemma {:induction false} TimesAppend<T>(a: seq<T>, b: seq<T>, x: T)
    ensures Times(a + b, x) == Times(a, x) + Times(b, x)
    decreases |a|
  {
    if a == [] {
      assert a + b == b;
    } else {
      assert (a + b)[0] == a[0] && (a + b)[1..] == a[1..] + b;
      TimesAppend(a[1..], b, x);
    }
  }

  lemma TimesNone<T>(x: T)
    ensures Times([], x) == 0
  {
  }

  lemma TimesOne<T>(y: T, x: T)
    ensures Times([y], x) == if y == x then 1 else 0
  {
    assert [y][1..] == [];
  }

  lemma {:induction false} TimesMember<T>(xs: seq<T>, x: T)
    ensures Times(xs, x) > 0 <==> x in xs
    decreases |xs|
  {
    if xs != [] {
      TimesMember(xs[1..], x);
    }
  }

  predicate Distinct<T(==)>(xs: seq<T>) {
    forall i, j | 0 <= i < j < |xs| :: xs[i] != xs[j]
  }

  lemma {:induction false} TimesDistinct<T>(xs: seq<T>, x: T)
    requires Distinct(xs)
    ensures Times(xs, x) == if x in xs then 1 else 0
    decreases |xs|
  {
    if xs != [] {
      TimesDistinct(xs[1..], x);
      assert forall i | 1 <= i < |xs| :: xs[1..][i - 1] == xs[i];
    }
  }

  /** The sequence around position `i`. */
  lemma TimesAround<T>(xs: seq<T>, i: nat, x: T)
    requires i < |xs|
    ensures Times(xs, x) == Times(xs[..i] + xs[i + 1..], x) + if xs[i] == x then 1 else 0
  {
    SplitAt(xs, i);
    TimesAppend(xs[..i], [xs[i]] + xs[i + 1..], x);
    TimesAppend([xs[i]], xs[i + 1..], x);
    TimesAppend(xs[..i], xs[i + 1..], x);
    TimesOne(xs[i], x);
  }

  lemma SplitAt<T>(xs: seq<T>, i: nat)
    requires i < |xs|
    ensures xs == xs[..i] + ([xs[i]] + xs[i + 1..])
  {
  }
}
