/** The bytes of values, as section 6 of the CQL Binary Protocol v4 lays them out
    (src/cql_value.rs). */
module Layout {
  import opened Bytes
  import opened Values
  import opened Keys
  import opened RowCodec

  /* ---------- Integers ---------- */

  lemma MultiplySum(a: int, x: int, y: int)
    ensures a * (x + y) == a * x + a * y
  {
  }

  lemma MultiplyThree(a: int, b: int, c: int)
    ensures a * (b * c) == a * b * c
  {
  }

  lemma DivideTwice(n: int, a: int, b: int)
    requires a > 0 && b > 0
    ensures a * b > 0 && n / a / b == n / (a * b)
  {
    var ab, q, r := a * b, n / a, n % a;
    var q', r' := q / b, q % b;
    Multiply(a, 1, b);
    MultiplySum(a, b * q', r');
    MultiplyThree(a, b, q');
    Multiply(a, r', b - 1);
    MultiplySum(a, b, -1);
    Multiply(a, 0, r');
    Recombine(n, a, b, q, r, q', r');
    QuotientUnique(n, ab, q', a * r' + r);
  }

  lemma Recombine(n: int, a: int, b: int, q: int, r: int, q': int, r': int)
    requires n == a * q + r && q == b * q' + r'
    requires a * (b * q' + r') == a * (b * q') + a * r' && a * (b * q') == a * b * q'
    ensures n == a * b * q' + (a * r' + r)
  {
  }

  lemma QuotientUnique(n: int, d: int, q: int, r: int)
    requires d > 0 && 0 <= r < d && n == d * q + r
    ensures n / d == q
  {
    var q', r' := n / d, n % d;
    assert n == d * q' + r' && 0 <= r' < d;
    if q > q' {
      Multiply(d, q' + 1, q);
    } else if q < q' {
      Multiply(d, q + 1, q');
    }
  }

  lemma Multiply(d: int, a: int, b: int)
    requires d > 0 && a <= b
    ensures d * a <= d * b && d * a == d * (a - 1) + d
  {
  }

  lemma RemainderUnique(n: int, d: int, q: int, r: int)
    requires d > 0 && 0 <= r < d && n == d * q + r
    ensures n % d == r
  {
    QuotientUnique(n, d, q, r);
    assert n == d * (n / d) + n % d;
  }

  lemma {:induction false} Pow256Positive(w: nat)
    ensures Pow256(w) > 0
  {
    if w > 0 {
      Pow256Positive(w - 1);
    }
  }

  /** Byte `i` of `w` is the digit of weight 256^(w - 1 - i), of the two's complement for
      negative numbers: big-endian. */
  lemma {:induction false} BigEndianDigit(n: int, w: nat, i: nat)
    requires i < w
    ensures Pow256(w - 1 - i) > 0 && BigEndian(n, w)[i] == n / Pow256(w - 1 - i) % 256
    decreases w
  {
    Pow256Positive(w - 1 - i);
    if i < w - 1 {
      BigEndianDigit(n / 256, w - 1, i);
      DivideTwice(n, 256, Pow256(w - 2 - i));
    }
  }

  /** `b` is `n` in `w` bytes, most significant byte first, two's complement if negative. */
  ghost predicate IsBigEndian(b: bytes, n: int, w: nat) {
    |b| == w && forall i | 0 <= i < w :: Pow256(w - 1 - i) > 0 && b[i] == n / Pow256(w - 1 - i) % 256
  }

  lemma BigEndianIs(n: int, w: nat)
    ensures IsBigEndian(BigEndian(n, w), n, w)
  {
    forall i | 0 <= i < w
      ensures Pow256(w - 1 - i) > 0 && BigEndian(n, w)[i] == n / Pow256(w - 1 - i) % 256
    {
      BigEndianDigit(n, w, i);
    }
  }

  /** Such bytes are unique. */
  lemma BigEndianUnique(b: bytes, n: int, w: nat)
    requires IsBigEndian(b, n, w)
    ensures b == BigEndian(n, w)
  {
    BigEndianIs(n, w);
    assert forall i | 0 <= i < w :: b[i] == BigEndian(n, w)[i];
  }

  /* ---------- Scalars ---------- */

  /** The payload the specification prescribes for a scalar. */
  ghost predicate ScalarBytes(v: Value, b: bytes)
    requires !v.Null? && !v.Set? && !v.List? && !v.Map?
  {
    match v
    case Int(n) => IsBigEndian(b, n, 4)
    case BigInt(n) => IsBigEndian(b, n, 8)
    case SmallInt(n) => IsBigEndian(b, n, 2)
    case TinyInt(n) => IsBigEndian(b, n, 1)
    case Float(bits) => IsBigEndian(b, bits, 4)
    case Double(bits) => IsBigEndian(b, bits, 8)
    case Boolean(truth) => b == if truth then [1] else [0]
    case Text(s) => b == s
    case Blob(s) => b == s
    case Timestamp(n) => IsBigEndian(b, n, 8)
    case Uuid(u) => |b| == 16 && b == u
    case Inet(V4(a)) => |b| == 4 && b == a
    case Inet(V6(a)) => |b| == 16 && b == a
  }

  /** `raw_bytes` of a scalar are those bytes and no others. */
  lemma {:induction false} ScalarLayout(v: Value, b: bytes)
    requires !v.Null? && !v.Set? && !v.List? && !v.Map?
    ensures b == Raw(v) <==> ScalarBytes(v, b)
  {
    hide BigEndian, IsBigEndian;
    match v
    case Int(n) => IntegerLayout(n, 4, b);
    case BigInt(n) => IntegerLayout(n, 8, b);
    case SmallInt(n) => IntegerLayout(n, 2, b);
    case TinyInt(n) => IntegerLayout(n, 1, b);
    case Float(n) => IntegerLayout(n, 4, b);
    case Double(n) => IntegerLayout(n, 8, b);
    case Timestamp(n) => IntegerLayout(n, 8, b);
    case _ =>
  }

  lemma IntegerLayout(n: int, w: nat, b: bytes)
    ensures b == BigEndian(n, w) <==> IsBigEndian(b, n, w)
  {
    BigEndianIs(n, w);
    if IsBigEndian(b, n, w) {
      BigEndianUnique(b, n, w);
    }
  }

  /** What the decoder takes for a scalar: the exact bytes, except that a boolean is any
      non-zero first byte and a tinyint is its first byte, whatever follows. */
  ghost predicate ScalarTaken(v: Value, raw: bytes, t: ColumnType) {
    match t
    case TBoolean => v.Boolean? && raw != [] && (v.truth <==> raw[0] != 0)
    case TTinyInt => v.TinyInt? && raw != [] && IsBigEndian(raw[..1], v.int8, 1)
    case TSet(_) => false
    case TList(_) => false
    case TMap(_, _) => false
    case _ => WellTyped(v, t) && ScalarBytes(v, raw)
  }

  /** The decoder returns `v` for a scalar column if and only if the bytes are its bytes. */
  lemma {:induction false} ScalarDecodedExactly(v: Value, raw: bytes, t: ColumnType)
    requires !t.TSet? && !t.TList? && !t.TMap? && Fits(raw)
    ensures Scalar(raw, t) == Ok(v) <==> ScalarTaken(v, raw, t)
  {
    hide BigEndian, IsBigEndian, Signed, Unsigned, WellTyped, Raw, ScalarBytes, Pow256;
    if t.TTinyInt? {
      if raw != [] {
        TinyIntTaken(v, raw);
      }
    } else if !t.TBoolean? {
      OtherScalar(v, raw, t);
    }
  }

  lemma {:induction false} OtherScalar(v: Value, raw: bytes, t: ColumnType)
    requires !t.TSet? && !t.TList? && !t.TMap? && !t.TBoolean? && !t.TTinyInt? && Fits(raw)
    ensures Scalar(raw, t) == Ok(v) <==> ScalarTaken(v, raw, t)
  {
    hide Scalar, WellTyped, Raw, ScalarBytes, ScalarTaken;
    PlainTaken(v, raw, t);
    if Scalar(raw, t) == Ok(v) {
      PlainScalar(raw, t);
      TypedScalar(v, t);
      ScalarLayout(v, raw);
    }
    if ScalarTaken(v, raw, t) {
      TypedScalar(v, t);
      ScalarLayout(v, raw);
      ScalarRoundTrip(v, t);
    }
  }

  lemma {:induction false} PlainTaken(v: Value, raw: bytes, t: ColumnType)
    requires !t.TSet? && !t.TList? && !t.TMap? && !t.TBoolean? && !t.TTinyInt?
    ensures ScalarTaken(v, raw, t) <==>
              WellTyped(v, t) && !v.Null? && !v.Set? && !v.List? && !v.Map? && ScalarBytes(v, raw)
  {
    hide WellTyped, ScalarBytes;
    if WellTyped(v, t) {
      TypedScalar(v, t);
    }
  }

  lemma {:induction false} TypedScalar(v: Value, t: ColumnType)
    requires WellTyped(v, t) && !t.TSet? && !t.TList? && !t.TMap?
    ensures !v.Null? && !v.Set? && !v.List? && !v.Map?
  {
  }

  lemma {:induction false} TinyIntTaken(v: Value, raw: bytes)
    requires raw != []
    ensures Scalar(raw, TTinyInt) == Ok(v) <==> v.TinyInt? && IsBigEndian(raw[..1], v.int8, 1)
  {
    Widths();
    if v.TinyInt? {
      IntegerLayout(v.int8, 1, raw[..1]);
      SignedRoundTrip(v.int8, 1);
    }
    SignedBytes(raw[..1]);
  }

  /** Reading a two's complement integer and writing it again gives the same bytes. */
  lemma SignedBytes(b: bytes)
    ensures BigEndian(Signed(b), |b|) == b
  {
    UnsignedRoundTrip(b);
    UnsignedBound(b);
    if Signed(b) < 0 {
      SameDigits(Unsigned(b), |b|);
    }
  }

  lemma {:induction false} SameDigits(n: int, w: nat)
    ensures BigEndian(n - Pow256(w), w) == BigEndian(n, w)
    decreases w
  {
    if w > 0 {
      var p := Pow256(w - 1);
      assert (n - 256 * p) / 256 == n / 256 - p && (n - 256 * p) % 256 == n % 256;
      SameDigits(n / 256, w - 1);
    }
  }

  /** Outside boolean and tinyint, decoding is faithful to the bytes. */
  lemma {:induction false} PlainScalar(raw: bytes, t: ColumnType)
    requires !t.TSet? && !t.TList? && !t.TMap? && !t.TBoolean? && !t.TTinyInt? && Fits(raw)
    ensures Scalar(raw, t).Ok? ==> WellTyped(Scalar(raw, t).value, t) && Raw(Scalar(raw, t).value) == raw
  {
    hide BigEndian, Signed, Unsigned;
    DecodedScalar(raw, t);
    SignedBytes(raw);
    UnsignedRoundTrip(raw);
  }

  /* ---------- Collections ---------- */

  /** Where element `k` starts behind the count: every earlier element takes a 4-byte length
      and its payload. */
  function ElementOffset(vs: seq<Value>, k: nat): nat
    requires k <= |vs|
  {
    if k == 0 then 4 else ElementOffset(vs, k - 1) + 4 + |Raw(vs[k - 1])|
  }

  lemma {:induction false} WireSize(v: Value)
    requires !v.Null?
    ensures |Wire(v)| == 4 + |Raw(v)|
  {
    hide Raw;
  }

  lemma {:induction false} WireAllAt(vs: seq<Value>, k: nat)
    requires k <= |vs| && forall i | 0 <= i < |vs| :: !vs[i].Null?
    ensures ElementOffset(vs, k) == 4 + |WireAll(vs[..k])|
  {
    hide Wire, WireAll, Raw;
    if k == 0 {
      assert vs[..0] == [];
      NoWire();
    } else {
      WireAllAt(vs, k - 1);
      assert vs[..k] == vs[..k - 1] + [vs[k - 1]];
      WireAllPush(vs[..k - 1], vs[k - 1]);
      WireSize(vs[k - 1]);
    }
  }

  lemma NoWire()
    ensures WireAll([]) == []
  {
  }

  lemma {:induction false} WireAllAppend(a: seq<Value>, b: seq<Value>)
    ensures WireAll(a + b) == WireAll(a) + WireAll(b)
    decreases |a|
  {
    hide Wire;
    if a == [] {
      assert a + b == b && [] + WireAll(b) == WireAll(b);
    } else {
      assert (a + b)[0] == a[0] && (a + b)[1..] == a[1..] + b;
      WireAllAppend(a[1..], b);
    }
  }

  lemma {:induction false} WireAllPush(vs: seq<Value>, v: Value)
    ensures WireAll(vs + [v]) == WireAll(vs) + Wire(v)
    decreases |vs|
  {
    hide Wire;
    if vs == [] {
      assert vs + [v] == [v] && [v][1..] == [] && Wire(v) + [] == Wire(v) && [] + Wire(v) == Wire(v);
    } else {
      assert (vs + [v])[0] == vs[0] && (vs + [v])[1..] == vs[1..] + [v];
      WireAllPush(vs[1..], v);
    }
  }

  /** Sets and lists: a 4-byte count, then each element as its 4-byte length and payload,
      one after the other. */
  lemma {:induction false} CollectionLayout(vs: seq<Value>, k: nat)
    requires k < |vs| && forall i | 0 <= i < |vs| :: !vs[i].Null?
    ensures var b, at, n := Raw(List(vs)), ElementOffset(vs, k), |Raw(vs[k])|;
            && Raw(Set(vs)) == b && at + 4 + n <= |b| && IsBigEndian(b[..4], |vs|, 4)
            && IsBigEndian(b[at..at + 4], n, 4) && b[at + 4..at + 4 + n] == Raw(vs[k])
            && |b| == ElementOffset(vs, |vs|)
  {
    hide BigEndian, IsBigEndian, WireAll, Wire, Pow256, Raw, ElementOffset;
    var b, at, n := Raw(List(vs)), ElementOffset(vs, k), |Raw(vs[k])|;
    ListRaw(vs);
    WireAllAt(vs, k);
    WireAllAt(vs, |vs|);
    assert vs[..|vs|] == vs;
    BigEndianIs(|vs|, 4);
    BigEndianIs(n, 4);
    ElementInside(vs, k);
    var pre, post := WireAll(vs[..k]), WireAll(vs[k + 1..]);
    SlicesOf(I32(|vs|), pre, I32(n), Raw(vs[k]), post, b);
  }

  lemma {:induction false} ListRaw(vs: seq<Value>)
    ensures Raw(List(vs)) == I32(|vs|) + WireAll(vs)
    ensures Raw(Set(vs)) == I32(|vs|) + WireAll(vs)
  {
    hide WireAll, I32, BigEndian;
  }

  lemma {:induction false} ElementInside(vs: seq<Value>, k: nat)
    requires k < |vs| && !vs[k].Null?
    ensures WireAll(vs) == WireAll(vs[..k]) + (I32(|Raw(vs[k])|) + Raw(vs[k]) + WireAll(vs[k + 1..]))
  {
    hide Raw, WireAll;
    assert vs == vs[..k] + ([vs[k]] + vs[k + 1..]);
    WireAllAppend(vs[..k], [vs[k]] + vs[k + 1..]);
    WireAllAppend([vs[k]], vs[k + 1..]);
    WireAllPush([], vs[k]);
    NoWire();
    assert [] + [vs[k]] == [vs[k]] && [] + Wire(vs[k]) == Wire(vs[k]);
  }

  lemma SlicesOf(count: bytes, pre: bytes, len: bytes, payload: bytes, post: bytes, b: bytes)
    requires |count| == |len| == 4 && b == count + (pre + (len + payload + post))
    ensures var at := 4 + |pre|;
            && at + 4 + |payload| <= |b| && b[..4] == count
            && b[at..at + 4] == len && b[at + 4..at + 4 + |payload|] == payload
  {
  }

  /** A map's payload is that of the list of its keys and values in turn, with the number of
      entries as count. */
  function Alternating(es: seq<Entry>): seq<Value> {
    if es == [] then [] else [es[0].key, es[0].val] + Alternating(es[1..])
  }

  lemma {:induction false} MapLayout(es: seq<Entry>)
    ensures Raw(Map(es)) == I32(|es|) + WireAll(Alternating(es))
  {
    PairsAlternate(es);
  }

  lemma {:induction false} PairsAlternate(es: seq<Entry>)
    ensures WirePairs(es) == WireAll(Alternating(es))
    decreases |es|
  {
    hide Wire, WireAll;
    if es == [] {
      NoWire();
    } else {
      PairsAlternate(es[1..]);
      WireAllAppend([es[0].key, es[0].val], Alternating(es[1..]));
      TwoWires(es[0].key, es[0].val);
    }
  }

  lemma TwoWires(k: Value, v: Value)
    ensures WireAll([k, v]) == Wire(k) + Wire(v)
  {
    hide Wire, WireAll;
    WireAllPush([k], v);
    WireAllPush([], k);
    NoWire();
    assert [k] + [v] == [k, v] && [] + [k] == [k] && [] + Wire(k) == Wire(k);
  }

  /* ---------- Decoding collections ---------- */

  /** The elements `vs` stand in `data` one after the other, element `k` from `offs[k]` to
      `offs[k + 1]`, each with a length that is not negative and stays inside. What follows
      the last one does not matter. */
  ghost predicate Laid(data: bytes, offs: seq<nat>, vs: seq<Value>, t: ColumnType) {
    && |offs| == |vs| + 1 && offs[0] == 0
    && forall k | 0 <= k < |vs| :: LaidAt(data, offs[k], offs[k + 1], vs[k], t)
  }

  predicate LaidAt(data: bytes, from: nat, to: nat, v: Value, t: ColumnType) {
    && from + 4 <= to <= |data| && Signed(data[from..from + 4]) == to - from - 4
    && FromWire(data[from..to], t) == Ok(v)
  }

  lemma {:induction false} ElementLaid(data: bytes, t: ColumnType)
    requires Element(data, t).Ok?
    ensures var v, tail := Element(data, t).value.0, Element(data, t).value.1;
            && |tail| <= |data| && tail == data[|data| - |tail|..]
            && LaidAt(data, 0, |data| - |tail|, v, t)
  {
    hide FromWire, Signed;
    var len := Signed(data[..4]);
    assert data[0..4] == data[..4] && data[0..4 + len] == data[..4 + len] && |data[4 + len..]| == |data| - 4 - len;
  }

  lemma {:induction false} LaidElement(data: bytes, v: Value, to: nat, t: ColumnType)
    requires LaidAt(data, 0, to, v, t)
    ensures to <= |data| && Element(data, t) == Ok((v, data[to..]))
  {
    hide FromWire, Signed;
    assert data[0..4] == data[..4] && data[0..to] == data[..to];
  }

  lemma {:induction false} LaidShift(data: bytes, d: nat, from: nat, to: nat, v: Value, t: ColumnType)
    requires d <= |data|
    ensures LaidAt(data[d..], from, to, v, t) <==> LaidAt(data, d + from, d + to, v, t)
  {
    hide FromWire, Signed;
    if from + 4 <= to && d + to <= |data| {
      assert data[d..][from..from + 4] == data[d + from..d + from + 4];
      assert data[d..][from..to] == data[d + from..d + to];
    }
  }

  function Shifted(offs: seq<nat>, d: nat): (r: seq<nat>)
    ensures |r| == |offs| && forall i | 0 <= i < |r| :: r[i] == offs[i] + d
  {
    seq(|offs|, i requires 0 <= i < |offs| => offs[i] + d)
  }

  lemma {:induction false} ElementsDecoded(data: bytes, n: nat, t: ColumnType) returns (offs: seq<nat>)
    requires Elements(data, n, t).Ok?
    ensures |Elements(data, n, t).value| == n && Laid(data, offs, Elements(data, n, t).value, t)
    decreases n
  {
    hide FromWire, Signed, LaidAt, Element;
    var vs := Elements(data, n, t).value;
    if n == 0 {
      offs := [0];
    } else {
      var v, tail := Element(data, t).value.0, Element(data, t).value.1;
      var to := |data| - |tail|;
      ElementLaid(data, t);
      var rest := ElementsDecoded(tail, n - 1, t);
      offs := [0] + Shifted(rest, to);
      assert vs[0] == v && vs[1..] == Elements(tail, n - 1, t).value;
      forall k | 0 <= k < n
        ensures LaidAt(data, offs[k], offs[k + 1], vs[k], t)
      {
        if k > 0 {
          assert vs[k] == vs[1..][k - 1] && LaidAt(tail, rest[k - 1], rest[k - 1 + 1], vs[1..][k - 1], t);
          LaidShift(data, to, rest[k - 1], rest[k], vs[k], t);
        }
      }
    }
  }

  lemma {:induction false} LaidDecodes(data: bytes, offs: seq<nat>, vs: seq<Value>, t: ColumnType)
    requires Laid(data, offs, vs, t)
    ensures Elements(data, |vs|, t) == Ok(vs)
    decreases |vs|
  {
    hide FromWire, Signed, LaidAt, Element;
    if vs != [] {
      var to := offs[1];
      assert LaidAt(data, offs[0], offs[0 + 1], vs[0], t);
      LaidElement(data, vs[0], to, t);
      var rest := data[to..];
      var offs' := seq(|vs|, k requires 0 <= k < |vs| => if offs[k + 1] >= to then offs[k + 1] - to else 0);
      forall k | 0 <= k < |vs| - 1
        ensures LaidAt(rest, offs'[k], offs'[k + 1], vs[1..][k], t)
      {
        Ascending(data, offs, vs, t, k + 1);
        assert LaidAt(data, offs[k + 1], offs[k + 1 + 1], vs[k + 1], t);
        Ascending(data, offs, vs, t, k + 2);
        LaidShift(data, to, offs'[k], offs'[k + 1], vs[k + 1], t);
      }
      LaidDecodes(rest, offs', vs[1..], t);
      assert vs == [vs[0]] + vs[1..];
    }
  }

  lemma {:induction false} LaidInside(data: bytes, from: nat, to: nat, v: Value, t: ColumnType)
    requires LaidAt(data, from, to, v, t)
    ensures from < to <= |data|
  {
  }

  lemma {:induction false} Ascending(data: bytes, offs: seq<nat>, vs: seq<Value>, t: ColumnType, k: nat)
    requires Laid(data, offs, vs, t) && vs != [] && 1 <= k < |offs|
    ensures offs[1] <= offs[k]
    decreases k
  {
    hide LaidAt;
    if k > 1 {
      Ascending(data, offs, vs, t, k - 1);
      assert LaidAt(data, offs[k - 1], offs[k - 1 + 1], vs[k - 1], t);
      LaidInside(data, offs[k - 1], offs[k], vs[k - 1], t);
    }
  }

  /** A list or set payload decodes to these elements if and only if it starts with their
      number and they are laid out behind it; further bytes are ignored. */
  lemma {:induction false} CollectionDecodedExactly(raw: bytes, vs: seq<Value>, t: ColumnType)
    ensures FromPayload(raw, TList(t)) == Ok(List(vs)) <==>
              |raw| >= 4 && Signed(raw[..4]) == |vs| && exists offs :: Laid(raw[4..], offs, vs, t)
    ensures FromPayload(raw, TSet(t)) == Ok(Set(vs)) <==> FromPayload(raw, TList(t)) == Ok(List(vs))
  {
    hide Elements, Signed, Laid;
    if FromPayload(raw, TList(t)) == Ok(List(vs)) {
      var offs := ElementsDecoded(raw[4..], ElementCount(raw).value, t);
    }
    if |raw| >= 4 && Signed(raw[..4]) == |vs| && exists offs :: Laid(raw[4..], offs, vs, t) {
      var offs :| Laid(raw[4..], offs, vs, t);
      LaidDecodes(raw[4..], offs, vs, t);
    }
  }

  /* ---------- Keys and rows ---------- */

  function Ascii(s: string): (r: bytes)
    requires forall i | 0 <= i < |s| :: s[i] < 128 as char
    ensures |r| == |s| && forall i | 0 <= i < |s| :: r[i] == s[i] as int
  {
    seq(|s|, i requires 0 <= i < |s| => s[i] as int)
  }

  /** A row key: `dt!`, keyspace, `!`, table, `!`, then the parts; each further part is its
      length in two bytes, most significant first, and its bytes. */
  lemma KeyLayout(a: Address, part: bytes)
    ensures RowKey(a.(parts := [])) == Ascii("dt!") + a.keyspace + Ascii("!") + a.table + Ascii("!")
    ensures exists len ::
              && IsBigEndian(len, |part|, 2)
              && RowKey(a.(parts := a.parts + [part])) == RowKey(a) + len + part
  {
    hide BigEndian, IsBigEndian;
    assert Ascii("dt!") == DT_PREFIX && Ascii("!") == [BANG];
    BigEndianIs(|part|, 2);
    EncodeAppend(a.parts, [part]);
    OnePart(part);
    assert RowKey(a.(parts := a.parts + [part])) == RowKey(a) + U16(|part|) + part;
  }

  lemma OnePart(part: bytes)
    ensures EncodeKey([]) == [] && EncodeKey([part]) == U16(|part|) + part
  {
    hide U16;
    assert [part][1..] == [] && EncodeKey([part][1..]) == [];
  }

  /** A stored row: for each cell its column index in two bytes, most significant first, and
      its value in wire form. */
  lemma RowLayout(cells: seq<Cell>, c: Cell)
    ensures EncodeRow([]) == []
    ensures exists idx ::
              && IsBigEndian(idx, c.idx, 2)
              && EncodeRow(cells + [c]) == EncodeRow(cells) + idx + Wire(c.val)
  {
    hide BigEndian, IsBigEndian, Wire;
    BigEndianIs(c.idx, 2);
    RowAppend(cells, c);
    assert EncodeRow(cells + [c]) == EncodeRow(cells) + U16(c.idx) + Wire(c.val);
  }

  lemma {:induction false} RowAppend(cells: seq<Cell>, c: Cell)
    ensures EncodeRow(cells + [c]) == EncodeRow(cells) + (U16(c.idx) + Wire(c.val))
    decreases |cells|
  {
    hide U16, Wire;
    if cells == [] {
      assert cells + [c] == [c] && [c][1..] == [] && EncodeRow([c][1..]) == [];
    } else {
      assert (cells + [c])[0] == cells[0] && (cells + [c])[1..] == cells[1..] + [c];
      RowAppend(cells[1..], c);
    }
  }
}
