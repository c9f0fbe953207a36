/** The derived `PartialEq` of values (src/cql_value.rs:4). Floats compare as IEEE 754
    numbers, so equality is neither reflexive (NaN) nor the identity (the two zeros). */
module Equality {
  import opened Bytes
  import opened Values

  predicate Nan32(b: u32) {
    (b / 0x80_0000) % 0x100 == 0xFF && b % 0x80_0000 != 0
  }

  predicate Zero32(b: u32) {
    b == 0 || b == 0x8000_0000
  }

  predicate Nan64(b: u64) {
    (b / 0x10_0000_0000_0000) % 0x800 == 0x7FF && b % 0x10_0000_0000_0000 != 0
  }

  predicate Zero64(b: u64) {
    b == 0 || b == 0x8000_0000_0000_0000
  }

  predicate ValueEq(a: Value, b: Value)
    decreases a, 1
  {
    match (a, b)
    case (Float(x), Float(y)) => !Nan32(x) && !Nan32(y) && (x == y || (Zero32(x) && Zero32(y)))
    case (Double(x), Double(y)) => !Nan64(x) && !Nan64(y) && (x == y || (Zero64(x) && Zero64(y)))
    case (Set(xs), Set(ys)) => AllEq(xs, ys)
    case (List(xs), List(ys)) => AllEq(xs, ys)
    case (Map(xs), Map(ys)) => PairsEq(xs, ys)
    case _ => a == b
  }

  predicate AllEq(xs: seq<Value>, ys: seq<Value>)
    decreases xs, 0
  {
    |xs| == |ys| && (xs == [] || (ValueEq(xs[0], ys[0]) && AllEq(xs[1..], ys[1..])))
  }

  predicate EntryEq(x: Entry, y: Entry)
    decreases x, 0
  {
    ValueEq(x.key, y.key) && ValueEq(x.val, y.val)
  }

  predicate PairsEq(xs: seq<Entry>, ys: seq<Entry>)
    decreases xs, 0
  {
    |xs| == |ys| && (xs == [] || (EntryEq(xs[0], ys[0]) && PairsEq(xs[1..], ys[1..])))
  }

  predicate HasNan(v: Value)
    decreases v, 1
  {
    match v
    case Float(x) => Nan32(x)
    case Double(x) => Nan64(x)
    case Set(xs) => AnyNan(xs)
    case List(xs) => AnyNan(xs)
    case Map(es) => AnyEntryNan(es)
    case _ => false
  }

  predicate AnyNan(xs: seq<Value>)
    decreases xs, 0
  {
    xs != [] && (HasNan(xs[0]) || AnyNan(xs[1..]))
  }

  predicate EntryNan(e: Entry)
    decreases e, 0
  {
    HasNan(e.key) || HasNan(e.val)
  }

  predicate AnyEntryNan(es: seq<Entry>)
    decreases es, 0
  {
    es != [] && (EntryNan(es[0]) || AnyEntryNan(es[1..]))
  }

  /** The same value with the sign of every zero turned over. */
  function FlipZeros(v: Value): Value
    decreases v, 1
  {
    match v
    case Float(x) => if Zero32(x) then Float(0x8000_0000 - x) else v
    case Double(x) => if Zero64(x) then Double(0x8000_0000_0000_0000 - x) else v
    case Set(xs) => Set(FlipAll(xs))
    case List(xs) => List(FlipAll(xs))
    case Map(es) => Map(FlipPairs(es))
    case _ => v
  }

  function FlipAll(xs: seq<Value>): seq<Value>
    decreases xs, 0
  {
    if xs == [] then [] else [FlipZeros(xs[0])] + FlipAll(xs[1..])
  }

  function FlipEntry(e: Entry): Entry
    decreases e, 0
  {
    Entry(FlipZeros(e.key), FlipZeros(e.val))
  }

  function FlipPairs(es: seq<Entry>): seq<Entry>
    decreases es, 0
  {
    if es == [] then [] else [FlipEntry(es[0])] + FlipPairs(es[1..])
  }

  predicate HasZero(v: Value) {
    FlipZeros(v) != v
  }

  /** A value equals itself exactly when it holds no NaN. */
  lemma {:induction false} ReflexiveExactly(v: Value)
    ensures ValueEq(v, v) <==> !HasNan(v)
    decreases v, 1
  {
    match v
    case Set(xs) => ReflexiveAll(xs);
    case List(xs) => ReflexiveAll(xs);
    case Map(es) => ReflexivePairs(es);
    case _ =>
  }

  lemma {:induction false} ReflexiveAll(xs: seq<Value>)
    ensures AllEq(xs, xs) <==> !AnyNan(xs)
    decreases xs, 0
  {
    hide ValueEq, HasNan;
    if xs != [] {
      ReflexiveExactly(xs[0]);
      ReflexiveAll(xs[1..]);
    }
  }

  lemma {:induction false} ReflexiveEntry(e: Entry)
    ensures EntryEq(e, e) <==> !EntryNan(e)
    decreases e, 0
  {
    ReflexiveExactly(e.key);
    ReflexiveExactly(e.val);
  }

  lemma {:induction false} ReflexivePairs(es: seq<Entry>)
    ensures PairsEq(es, es) <==> !AnyEntryNan(es)
    decreases es, 0
  {
    hide EntryEq, EntryNan;
    if es != [] {
      ReflexiveEntry(es[0]);
      ReflexivePairs(es[1..]);
    }
  }

  lemma SameCons<T>(xs: seq<T>, ys: seq<T>)
    requires xs != [] && ys != []
    ensures xs == ys <==> xs[0] == ys[0] && xs[1..] == ys[1..]
  {
    assert xs == [xs[0]] + xs[1..] && ys == [ys[0]] + ys[1..];
  }

  /** Equal values hold no NaN, and without zeros they are identical. */
  lemma {:induction false} EqualIsIdentical(a: Value, b: Value)
    requires ValueEq(a, b)
    ensures !HasNan(a) && (HasZero(a) || a == b)
    decreases a, 1
  {
    match a
    case Set(xs) => EqualAll(xs, b.elems);
    case List(xs) => EqualAll(xs, b.elems);
    case Map(es) => EqualPairs(es, b.entries);
    case _ =>
  }

  lemma {:induction false} EqualAll(xs: seq<Value>, ys: seq<Value>)
    requires AllEq(xs, ys)
    ensures !AnyNan(xs) && (FlipAll(xs) != xs || xs == ys)
    decreases xs, 0
  {
    hide ValueEq, HasNan, FlipZeros;
    if xs != [] {
      EqualIsIdentical(xs[0], ys[0]);
      EqualAll(xs[1..], ys[1..]);
      assert FlipAll(xs)[0] == FlipZeros(xs[0]) && FlipAll(xs)[1..] == FlipAll(xs[1..]);
      SameCons(xs, ys);
      SameCons(FlipAll(xs), xs);
    }
  }

  lemma {:induction false} EqualEntry(x: Entry, y: Entry)
    requires EntryEq(x, y)
    ensures !EntryNan(x) && (FlipEntry(x) != x || x == y)
    decreases x, 0
  {
    EqualIsIdentical(x.key, y.key);
    EqualIsIdentical(x.val, y.val);
  }

  lemma {:induction false} EqualPairs(xs: seq<Entry>, ys: seq<Entry>)
    requires PairsEq(xs, ys)
    ensures !AnyEntryNan(xs) && (FlipPairs(xs) != xs || xs == ys)
    decreases xs, 0
  {
    hide EntryEq, EntryNan, FlipEntry;
    if xs != [] {
      EqualEntry(xs[0], ys[0]);
      EqualPairs(xs[1..], ys[1..]);
      assert FlipPairs(xs)[0] == FlipEntry(xs[0]) && FlipPairs(xs)[1..] == FlipPairs(xs[1..]);
      SameCons(xs, ys);
      SameCons(FlipPairs(xs), xs);
    }
  }

  lemma {:induction false} FlippedIsEqual(v: Value)
    requires !HasNan(v)
    ensures ValueEq(v, FlipZeros(v))
    decreases v, 1
  {
    match v
    case Set(xs) => FlippedAll(xs);
    case List(xs) => FlippedAll(xs);
    case Map(es) => FlippedPairs(es);
    case _ =>
  }

  lemma {:induction false} FlippedAll(xs: seq<Value>)
    requires !AnyNan(xs)
    ensures AllEq(xs, FlipAll(xs))
    decreases xs, 0
  {
    hide ValueEq, HasNan, FlipZeros;
    if xs != [] {
      FlippedIsEqual(xs[0]);
      FlippedAll(xs[1..]);
      assert FlipAll(xs)[1..] == FlipAll(xs[1..]);
    }
  }

  lemma {:induction false} FlippedEntry(e: Entry)
    requires !EntryNan(e)
    ensures EntryEq(e, FlipEntry(e))
    decreases e, 0
  {
    FlippedIsEqual(e.key);
    FlippedIsEqual(e.val);
  }

  lemma {:induction false} FlippedPairs(es: seq<Entry>)
    requires !AnyEntryNan(es)
    ensures PairsEq(es, FlipPairs(es))
    decreases es, 0
  {
    hide EntryEq, EntryNan, FlipEntry;
    if es != [] {
      FlippedEntry(es[0]);
      FlippedPairs(es[1..]);
      assert FlipPairs(es)[1..] == FlipPairs(es[1..]);
    }
  }

  /** The same value with every -0 turned into +0. */
  function Positive(v: Value): Value
    decreases v, 1
  {
    match v
    case Float(x) => if x == 0x8000_0000 then Float(0) else v
    case Double(x) => if x == 0x8000_0000_0000_0000 then Double(0) else v
    case Set(xs) => Set(PositiveAll(xs))
    case List(xs) => List(PositiveAll(xs))
    case Map(es) => Map(PositivePairs(es))
    case _ => v
  }

  function PositiveAll(xs: seq<Value>): seq<Value>
    decreases xs, 0
  {
    if xs == [] then [] else [Positive(xs[0])] + PositiveAll(xs[1..])
  }

  function PositiveEntry(e: Entry): Entry
    decreases e, 0
  {
    Entry(Positive(e.key), Positive(e.val))
  }

  function PositivePairs(es: seq<Entry>): seq<Entry>
    decreases es, 0
  {
    if es == [] then [] else [PositiveEntry(es[0])] + PositivePairs(es[1..])
  }

  /** Two values are equal if and only if neither holds a NaN and they are the same once every
      -0 is +0. */
  lemma {:induction false} EqualExactly(a: Value, b: Value)
    ensures ValueEq(a, b) <==> !HasNan(a) && !HasNan(b) && Positive(a) == Positive(b)
    decreases a, 1
  {
    hide AllEq, PairsEq, AnyNan, AnyEntryNan, PositiveAll, PositivePairs, Nan32, Nan64, Zero32, Zero64;
    if a.Set? && b.Set? {
      EqualAllExactly(a.elems, b.elems);
    } else if a.List? && b.List? {
      EqualAllExactly(a.elems, b.elems);
    } else if a.Map? && b.Map? {
      EqualPairsExactly(a.entries, b.entries);
    } else if a.Float? && b.Float? {
      EqualFloats(a.bits32, b.bits32);
    } else if a.Double? && b.Double? {
      EqualDoubles(a.bits64, b.bits64);
    }
  }

  lemma EqualFloats(x: u32, y: u32)
    ensures ValueEq(Float(x), Float(y)) <==> !Nan32(x) && !Nan32(y) && Positive(Float(x)) == Positive(Float(y))
  {
    hide Nan32;
  }

  lemma EqualDoubles(x: u64, y: u64)
    ensures ValueEq(Double(x), Double(y)) <==> !Nan64(x) && !Nan64(y) && Positive(Double(x)) == Positive(Double(y))
  {
    hide Nan64;
  }

  lemma {:induction false} EqualAllExactly(xs: seq<Value>, ys: seq<Value>)
    ensures AllEq(xs, ys) <==> !AnyNan(xs) && !AnyNan(ys) && PositiveAll(xs) == PositiveAll(ys)
    decreases xs, 0
  {
    hide ValueEq, HasNan, Positive;
    if xs != [] && ys != [] {
      EqualExactly(xs[0], ys[0]);
      EqualAllExactly(xs[1..], ys[1..]);
      PositiveCons(xs);
      PositiveCons(ys);
      SameCons(PositiveAll(xs), PositiveAll(ys));
    }
  }

  lemma {:induction false} PositiveCons(xs: seq<Value>)
    requires xs != []
    ensures PositiveAll(xs) != [] && PositiveAll(xs)[0] == Positive(xs[0])
    ensures PositiveAll(xs)[1..] == PositiveAll(xs[1..])
  {
    hide Positive;
  }

  lemma {:induction false} EqualEntryExactly(x: Entry, y: Entry)
    ensures EntryEq(x, y) <==> !EntryNan(x) && !EntryNan(y) && PositiveEntry(x) == PositiveEntry(y)
    decreases x, 0
  {
    hide ValueEq, HasNan, Positive;
    EqualExactly(x.key, y.key);
    EqualExactly(x.val, y.val);
  }

  lemma {:induction false} EqualPairsExactly(xs: seq<Entry>, ys: seq<Entry>)
    ensures PairsEq(xs, ys) <==> !AnyEntryNan(xs) && !AnyEntryNan(ys) && PositivePairs(xs) == PositivePairs(ys)
    decreases xs, 0
  {
    hide EntryEq, EntryNan, PositiveEntry;
    if xs != [] && ys != [] {
      EqualEntryExactly(xs[0], ys[0]);
      EqualPairsExactly(xs[1..], ys[1..]);
      PositivePairsCons(xs);
      PositivePairsCons(ys);
      SameCons(PositivePairs(xs), PositivePairs(ys));
    }
  }

  lemma {:induction false} PositivePairsCons(es: seq<Entry>)
    requires es != []
    ensures PositivePairs(es) != [] && PositivePairs(es)[0] == PositiveEntry(es[0])
    ensures PositivePairs(es)[1..] == PositivePairs(es[1..])
  {
    hide PositiveEntry;
  }

  /** A filter on a `Sharp` value accepts at most that very value. */
  predicate Sharp(v: Value) {
    HasNan(v) || !HasZero(v)
  }

  /** `Sharp` is exactly the values on which `==` implies identity. */
  lemma SharpExactly(v: Value)
    ensures Sharp(v) ==> forall w :: ValueEq(v, w) ==> v == w
    ensures !Sharp(v) ==> exists w :: ValueEq(v, w) && v != w
  {
    if Sharp(v) {
      forall w | ValueEq(v, w)
        ensures v == w
      {
        EqualIsIdentical(v, w);
      }
    } else {
      FlippedIsEqual(v);
      assert ValueEq(v, FlipZeros(v)) && v != FlipZeros(v);
    }
  }

  /** Some value holds a NaN. */
  predicate SomeNan(vs: seq<Value>) {
    exists i | 0 <= i < |vs| :: HasNan(vs[i])
  }

  /** No value holds a zero, of either sign. */
  predicate NoZero(vs: seq<Value>) {
    forall i | 0 <= i < |vs| :: !HasZero(vs[i])
  }
}
