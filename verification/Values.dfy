/** CQL values and their wire form (src/cql_value.rs), after section 6 of the CQL Binary
    Protocol v4. Floats are bit patterns; text is its UTF-8 bytes. */
module Values {
  import opened Bytes

  type i8 = x: int | -0x80 <= x < 0x80
  type i16 = x: int | -0x8000 <= x < 0x8000
  type i32 = x: int | -0x8000_0000 <= x < 0x8000_0000
  type i64 = x: int | -0x8000_0000_0000_0000 <= x < 0x8000_0000_0000_0000
  type u32 = x: int | 0 <= x < 0x1_0000_0000
  type u64 = x: int | 0 <= x < 0x1_0000_0000_0000_0000
  type Octets4 = b: bytes | |b| == 4 witness [0, 0, 0, 0]
  type Octets16 = b: bytes | |b| == 16 witness [0, 0, 0, 0, 0, 0, 0, 0, 0, 0, 0, 0, 0, 0, 0, 0]
  type Utf8 = b: bytes | ValidUtf8(b) witness []

  predicate Continuation(b: byte) {
    0x80 <= b < 0xC0
  }

  /** What `String::from_utf8` accepts. */
  predicate ValidUtf8(b: bytes) {
    if b == [] then true
    else if b[0] < 0x80 then ValidUtf8(b[1..])
    else if 0xC2 <= b[0] < 0xE0 then
      |b| >= 2 && Continuation(b[1]) && ValidUtf8(b[2..])
    else if 0xE0 <= b[0] < 0xF0 then
      && |b| >= 3 && Continuation(b[1]) && Continuation(b[2])
      && (b[0] == 0xE0 ==> b[1] >= 0xA0) && (b[0] == 0xED ==> b[1] < 0xA0)
      && ValidUtf8(b[3..])
    else
      && 0xF0 <= b[0] <= 0xF4
      && |b| >= 4 && Continuation(b[1]) && Continuation(b[2]) && Continuation(b[3])
      && (b[0] == 0xF0 ==> b[1] >= 0x90) && (b[0] == 0xF4 ==> b[1] < 0x90)
      && ValidUtf8(b[4..])
  }

  datatype ColumnType =
    | TInt | TBigInt | TSmallInt | TTinyInt | TFloat | TDouble | TBoolean | TText | TBlob
    | TTimestamp | TUuid | TInet
    | TSet(elem: ColumnType) | TList(elem: ColumnType) | TMap(key: ColumnType, val: ColumnType)

  datatype IpAddr = V4(v4: Octets4) | V6(v6: Octets16)

  datatype Value =
    | Null
    | Int(int32: i32)
    | BigInt(int64: i64)
    | SmallInt(int16: i16)
    | TinyInt(int8: i8)
    | Float(bits32: u32)
    | Double(bits64: u64)
    | Boolean(truth: bool)
    | Text(utf8: Utf8)
    | Blob(blob: bytes)
    | Timestamp(millis: i64)
    | Uuid(uuid: Octets16)
    | Inet(ip: IpAddr)
    | Set(elems: seq<Value>)
    | List(elems: seq<Value>)
    | Map(entries: seq<Entry>)

  datatype Entry = Entry(key: Value, val: Value)

  /* ---------- Encoding ---------- */

  function Octets(ip: IpAddr): bytes {
    match ip
    case V4(a) => a
    case V6(a) => a
  }

  function Bit(b: bool): byte {
    if b then 1 else 0
  }

  /** The wire form: -1 for null, else the payload behind its length. */
  function Wire(v: Value): bytes
    decreases v, 2
  {
    if v.Null? then I32(-1) else I32(|Raw(v)|) + Raw(v)
  }

  function WireAll(vs: seq<Value>): bytes
    decreases vs, 0
  {
    if vs == [] then [] else Wire(vs[0]) + WireAll(vs[1..])
  }

  function WirePairs(es: seq<Entry>): bytes
    decreases es, 0
  {
    if es == [] then [] else WireEntry(es[0]) + WirePairs(es[1..])
  }

  function WireEntry(e: Entry): bytes
    decreases e, 0
  {
    Wire(e.key) + Wire(e.val)
  }

  /** `raw_bytes`: the payload without its length, as used inside row keys. */
  function Raw(v: Value): bytes
    decreases v, 1
  {
    match v
    case Null => []
    case Int(n) => BigEndian(n, 4)
    case BigInt(n) => BigEndian(n, 8)
    case SmallInt(n) => BigEndian(n, 2)
    case TinyInt(n) => BigEndian(n, 1)
    case Float(b) => BigEndian(b, 4)
    case Double(b) => BigEndian(b, 8)
    case Boolean(b) => [Bit(b)]
    case Text(s) => s
    case Blob(s) => s
    case Timestamp(n) => BigEndian(n, 8)
    case Uuid(u) => u
    case Inet(ip) => Octets(ip)
    case Set(vs) => I32(|vs|) + WireAll(vs)
    case List(vs) => I32(|vs|) + WireAll(vs)
    case Map(es) => I32(|es|) + WirePairs(es)
  }

  /* ---------- Decoding ---------- */

  /** The scalar branches of `from_wire`. `raw[0]` panics on an empty payload. */
  function Scalar(raw: bytes, t: ColumnType): Result<Value>
    requires !t.TSet? && !t.TList? && !t.TMap?
  {
    match t
    case TInt => if |raw| == 4 then Widths(); UnsignedBound(raw); Ok(Int(Signed(raw))) else Err(Corrupt)
    case TBigInt => if |raw| == 8 then Widths(); UnsignedBound(raw); Ok(BigInt(Signed(raw))) else Err(Corrupt)
    case TSmallInt => if |raw| == 2 then Widths(); UnsignedBound(raw); Ok(SmallInt(Signed(raw))) else Err(Corrupt)
    case TTinyInt =>
      if raw == [] then Err(Panicked) else Widths(); UnsignedBound(raw[..1]); Ok(TinyInt(Signed(raw[..1])))
    case TFloat => if |raw| == 4 then Widths(); UnsignedBound(raw); Ok(Float(Unsigned(raw))) else Err(Corrupt)
    case TDouble => if |raw| == 8 then Widths(); UnsignedBound(raw); Ok(Double(Unsigned(raw))) else Err(Corrupt)
    case TBoolean => if raw == [] then Err(Panicked) else Ok(Boolean(raw[0] != 0))
    case TText => if ValidUtf8(raw) then Ok(Text(raw)) else Err(Corrupt)
    case TBlob => Ok(Blob(raw))
    case TTimestamp => if |raw| == 8 then Widths(); UnsignedBound(raw); Ok(Timestamp(Signed(raw))) else Err(Corrupt)
    case TUuid => if |raw| == 16 then Ok(Uuid(raw)) else Err(Corrupt)
    case TInet => if |raw| == 4 then Ok(Inet(V4(raw))) else if |raw| == 16 then Ok(Inet(V6(raw))) else Err(Corrupt)
  }

  function FromWire(data: bytes, t: ColumnType): Result<Value>
    decreases t, 3
  {
    if |data| < 4 then Err(Corrupt) else
    var len := Signed(data[..4]);
    if len < 0 then Ok(Null)
    else if |data| != 4 + len then Err(Corrupt)
    else FromPayload(data[4..], t)
  }

  function FromPayload(raw: bytes, t: ColumnType): Result<Value>
    decreases t, 2
  {
    match t
    case TSet(e) =>
      var count :- ElementCount(raw);
      var vs :- Elements(raw[4..], count, e);
      Ok(Set(vs))
    case TList(e) =>
      var count :- ElementCount(raw);
      var vs :- Elements(raw[4..], count, e);
      Ok(List(vs))
    case TMap(k, v) =>
      var count :- ElementCount(raw);
      var es :- Pairs(raw[4..], count, k, v);
      Ok(Map(es))
    case _ => Scalar(raw, t)
  }

  function ElementCount(raw: bytes): (r: Result<nat>)
    ensures r.Ok? ==> |raw| >= 4
  {
    if |raw| < 4 || Signed(raw[..4]) < 0 then Err(Corrupt) else Ok(Signed(raw[..4]))
  }

  /** One length-prefixed element at the front of `rest`: its value and what follows it. */
  function Element(rest: bytes, t: ColumnType): (r: Result<(Value, bytes)>)
    decreases t, 4
  {
    if |rest| < 4 then Err(Corrupt) else
    var len := Signed(rest[..4]);
    if len < 0 || 4 + len > |rest| then Err(Corrupt) else
    var v :- FromWire(rest[..4 + len], t);
    Ok((v, rest[4 + len..]))
  }

  function Elements(rest: bytes, count: nat, t: ColumnType): Result<seq<Value>>
    decreases t, count + 5
  {
    if count == 0 then Ok([]) else
    var head :- Element(rest, t);
    var tail :- Elements(head.1, count - 1, t);
    Ok([head.0] + tail)
  }

  function Pair(rest: bytes, k: ColumnType, v: ColumnType): Result<(Entry, bytes)>
    decreases TMap(k, v), 0
  {
    var key :- Element(rest, k);
    var val :- Element(key.1, v);
    Ok((Entry(key.0, val.0), val.1))
  }

  function Pairs(rest: bytes, count: nat, k: ColumnType, v: ColumnType): Result<seq<Entry>>
    decreases TMap(k, v), 1, count
  {
    if count == 0 then Ok([]) else
    var head :- Pair(rest, k, v);
    var tail :- Pairs(head.1, count - 1, k, v);
    Ok([head.0] + tail)
  }

  function FromRaw(raw: bytes, t: ColumnType): Result<Value> {
    FromWire(I32(|raw|) + raw, t)
  }

  /* ---------- Which values survive ---------- */

  predicate Fits(payload: bytes) {
    |payload| < 0x8000_0000
  }

  /** A non-null value of type `t`: the constructors agree, no collection holds a null,
      and every length and count fits a signed 32-bit integer. */
  predicate WellTyped(v: Value, t: ColumnType)
    decreases t, 3
  {
    Fits(Raw(v)) &&
    match (v, t)
    case (Int(_), TInt) => true
    case (BigInt(_), TBigInt) => true
    case (SmallInt(_), TSmallInt) => true
    case (TinyInt(_), TTinyInt) => true
    case (Float(_), TFloat) => true
    case (Double(_), TDouble) => true
    case (Boolean(_), TBoolean) => true
    case (Text(_), TText) => true
    case (Blob(_), TBlob) => true
    case (Timestamp(_), TTimestamp) => true
    case (Uuid(_), TUuid) => true
    case (Inet(_), TInet) => true
    case (Set(vs), TSet(e)) => |vs| < 0x8000_0000 && AllTyped(vs, e)
    case (List(vs), TList(e)) => |vs| < 0x8000_0000 && AllTyped(vs, e)
    case (Map(es), TMap(k, w)) => |es| < 0x8000_0000 && PairsTyped(es, k, w)
    case _ => false
  }

  predicate AllTyped(vs: seq<Value>, t: ColumnType)
    decreases t, |vs| + 4
  {
    vs == [] || (WellTyped(vs[0], t) && AllTyped(vs[1..], t))
  }

  predicate PairsTyped(es: seq<Entry>, k: ColumnType, w: ColumnType)
    decreases TMap(k, w), 0, |es|
  {
    es == [] || (WellTyped(es[0].key, k) && WellTyped(es[0].val, w) && PairsTyped(es[1..], k, w))
  }

  lemma {:induction false} ScalarRoundTrip(v: Value, t: ColumnType)
    requires WellTyped(v, t) && !t.TSet? && !t.TList? && !t.TMap?
    ensures Scalar(Raw(v), t) == Ok(v)
  {
    hide Signed, Unsigned, BigEndian, ValidUtf8;
    Widths();
    match v
    case Int(n) => SignedRoundTrip(n, 4);
    case BigInt(n) => SignedRoundTrip(n, 8);
    case SmallInt(n) => SignedRoundTrip(n, 2);
    case TinyInt(n) =>
      SignedRoundTrip(n, 1);
      assert Raw(v)[..1] == Raw(v);
    case Float(b) => BigEndianUnsigned(b, 4);
    case Double(b) => BigEndianUnsigned(b, 8);
    case Timestamp(n) => SignedRoundTrip(n, 8);
    case _ =>
  }

  /** A payload behind its own length decodes as the payload. */
  lemma PrefixedPayload(raw: bytes, t: ColumnType)
    requires Fits(raw)
    ensures FromWire(I32(|raw|) + raw, t) == FromPayload(raw, t)
  {
    I32RoundTrip(|raw|);
    assert (I32(|raw|) + raw)[..4] == I32(|raw|) && (I32(|raw|) + raw)[4..] == raw;
  }

  lemma CountedPayload(n: nat, body: bytes)
    requires n < 0x8000_0000
    ensures ElementCount(I32(n) + body) == Ok(n) && (I32(n) + body)[4..] == body
  {
    I32RoundTrip(n);
    assert (I32(n) + body)[..4] == I32(n);
  }

  lemma {:induction false} PayloadRoundTrip(v: Value, t: ColumnType)
    requires WellTyped(v, t)
    ensures FromPayload(Raw(v), t) == Ok(v)
    decreases t, 2
  {
    hide ElementCount, I32, Scalar, Elements, Pairs, WireAll, WirePairs, AllTyped, PairsTyped;
    match t {
      case TSet(e) =>
        CountedPayload(|v.elems|, WireAll(v.elems));
        ElementsRoundTrip(v.elems, [], e);
        assert WireAll(v.elems) + [] == WireAll(v.elems);
      case TList(e) =>
        CountedPayload(|v.elems|, WireAll(v.elems));
        ElementsRoundTrip(v.elems, [], e);
        assert WireAll(v.elems) + [] == WireAll(v.elems);
      case TMap(k, w) =>
        CountedPayload(|v.entries|, WirePairs(v.entries));
        PairsRoundTrip(v.entries, [], k, w);
        assert WirePairs(v.entries) + [] == WirePairs(v.entries);
      case _ => ScalarRoundTrip(v, t);
    }
  }

  lemma {:induction false} RoundTrip(v: Value, t: ColumnType)
    requires WellTyped(v, t)
    ensures FromWire(Wire(v), t) == Ok(v) && FromRaw(Raw(v), t) == Ok(v)
    decreases t, 3
  {
    PayloadRoundTrip(v, t);
    PrefixedPayload(Raw(v), t);
  }

  lemma TypedFits(v: Value, t: ColumnType)
    requires WellTyped(v, t)
    ensures Fits(Raw(v)) && !v.Null?
  {
  }

  lemma {:induction false} ElementRoundTrip(v: Value, rest: bytes, t: ColumnType)
    requires WellTyped(v, t)
    ensures Element(Wire(v) + rest, t) == Ok((v, rest))
    decreases t, 4
  {
    hide WellTyped, FromWire, Raw;
    TypedFits(v, t);
    RoundTrip(v, t);
    I32RoundTrip(|Raw(v)|);
    var all := Wire(v) + rest;
    assert all[..4] == I32(|Raw(v)|);
    assert all[..4 + |Raw(v)|] == Wire(v) && all[4 + |Raw(v)|..] == rest;
  }

  lemma WireAllCons(vs: seq<Value>, rest: bytes)
    requires vs != []
    ensures WireAll(vs) + rest == Wire(vs[0]) + (WireAll(vs[1..]) + rest)
  {
    hide Wire;
  }

  lemma WirePairsCons(es: seq<Entry>, rest: bytes)
    requires es != []
    ensures WirePairs(es) + rest == WireEntry(es[0]) + (WirePairs(es[1..]) + rest)
  {
    hide WireEntry;
  }

  lemma ElementsStep(data: bytes, v: Value, tail: bytes, vs: seq<Value>, t: ColumnType)
    requires Element(data, t) == Ok((v, tail)) && Elements(tail, |vs|, t) == Ok(vs)
    ensures Elements(data, |vs| + 1, t) == Ok([v] + vs)
  {
    hide Element;
  }

  lemma {:induction false} ElementsRoundTrip(vs: seq<Value>, rest: bytes, t: ColumnType)
    requires AllTyped(vs, t)
    ensures Elements(WireAll(vs) + rest, |vs|, t) == Ok(vs)
    decreases t, |vs| + 5
  {
    hide Element, Wire, WellTyped;
    if vs != [] {
      var tail := WireAll(vs[1..]) + rest;
      ElementRoundTrip(vs[0], tail, t);
      ElementsRoundTrip(vs[1..], rest, t);
      WireAllCons(vs, rest);
      ElementsStep(WireAll(vs) + rest, vs[0], tail, vs[1..], t);
      assert vs == [vs[0]] + vs[1..];
    }
  }

  lemma {:induction false} PairRoundTrip(e: Entry, rest: bytes, k: ColumnType, w: ColumnType)
    requires WellTyped(e.key, k) && WellTyped(e.val, w)
    ensures Pair(WireEntry(e) + rest, k, w) == Ok((e, rest))
    decreases TMap(k, w), 0
  {
    hide Element, Wire, WellTyped;
    ElementRoundTrip(e.key, Wire(e.val) + rest, k);
    ElementRoundTrip(e.val, rest, w);
    assert WireEntry(e) + rest == Wire(e.key) + (Wire(e.val) + rest);
  }

  lemma PairsStep(data: bytes, e: Entry, tail: bytes, es: seq<Entry>, k: ColumnType, w: ColumnType)
    requires Pair(data, k, w) == Ok((e, tail)) && Pairs(tail, |es|, k, w) == Ok(es)
    ensures Pairs(data, |es| + 1, k, w) == Ok([e] + es)
  {
    hide Pair;
  }

  lemma NoPairs(data: bytes, k: ColumnType, w: ColumnType)
    ensures Pairs(data, 0, k, w) == Ok([])
  {
  }

  lemma {:induction false} PairsRoundTrip(es: seq<Entry>, rest: bytes, k: ColumnType, w: ColumnType)
    requires PairsTyped(es, k, w)
    ensures Pairs(WirePairs(es) + rest, |es|, k, w) == Ok(es)
    decreases TMap(k, w), 1, |es|
  {
    hide Pair, Pairs, WireEntry, WellTyped, WirePairs;
    if es == [] {
      NoPairs(WirePairs(es) + rest, k, w);
    } else {
      var tail := WirePairs(es[1..]) + rest;
      PairRoundTrip(es[0], tail, k, w);
      PairsRoundTrip(es[1..], rest, k, w);
      WirePairsCons(es, rest);
      PairsStep(WirePairs(es) + rest, es[0], tail, es[1..], k, w);
      assert es == [es[0]] + es[1..];
    }
  }

  lemma DecodedScalar(raw: bytes, t: ColumnType)
    requires !t.TSet? && !t.TList? && !t.TMap? && Fits(raw)
    ensures var r := Scalar(raw, t);
            r.Ok? ==> !r.value.Null? && WellTyped(r.value, t) && |Raw(r.value)| <= |raw|
  {
  }

  lemma CountRange(raw: bytes)
    ensures ElementCount(raw).Ok? ==> |raw| >= 4 && 0 <= ElementCount(raw).value < 0x8000_0000
  {
    if |raw| >= 4 {
      I32Range(raw[..4]);
    }
  }

  lemma {:induction false} DecodedPayload(raw: bytes, t: ColumnType)
    requires Fits(raw)
    ensures var r := FromPayload(raw, t);
            r.Ok? ==> !r.value.Null? && WellTyped(r.value, t) && |Raw(r.value)| <= |raw|
    decreases t, 2
  {
    hide ElementCount, Scalar, Elements, Pairs, WireAll, WirePairs, AllTyped, PairsTyped;
    CountRange(raw);
    match t {
      case TSet(e) => if ElementCount(raw).Ok? { DecodedElements(raw[4..], ElementCount(raw).value, e); }
      case TList(e) => if ElementCount(raw).Ok? { DecodedElements(raw[4..], ElementCount(raw).value, e); }
      case TMap(k, w) => if ElementCount(raw).Ok? { DecodedPairs(raw[4..], ElementCount(raw).value, k, w); }
      case _ => DecodedScalar(raw, t);
    }
  }

  /** Whatever the decoder returns is a null or well typed, and no larger than its input. */
  lemma {:induction false} DecodedWellTyped(data: bytes, t: ColumnType)
    ensures var r := FromWire(data, t);
            r.Ok? && !r.value.Null? ==> WellTyped(r.value, t) && |Raw(r.value)| + 4 <= |data|
    ensures |data| >= 4 && Signed(data[..4]) >= 0 ==> FromWire(data, t) != Ok(Null)
    decreases t, 3
  {
    hide FromPayload, WellTyped, Raw, Signed;
    if |data| >= 4 {
      I32Range(data[..4]);
      if |data| == 4 + Signed(data[..4]) {
        DecodedPayload(data[4..], t);
      }
    }
  }

  lemma {:induction false} DecodedElement(rest: bytes, t: ColumnType)
    ensures var r := Element(rest, t);
            r.Ok? ==> WellTyped(r.value.0, t) && |Wire(r.value.0)| + |r.value.1| <= |rest|
    decreases t, 4
  {
    hide FromWire, WellTyped, Raw;
    if |rest| >= 4 {
      var len := Signed(rest[..4]);
      if 0 <= len && 4 + len <= |rest| {
        assert rest[..4 + len][..4] == rest[..4];
        DecodedWellTyped(rest[..4 + len], t);
      }
    }
  }

  lemma {:induction false} DecodedElements(rest: bytes, count: nat, t: ColumnType)
    ensures var r := Elements(rest, count, t);
            r.Ok? ==> |r.value| == count && |WireAll(r.value)| <= |rest| && AllTyped(r.value, t)
    decreases t, count + 5
  {
    hide Element, Wire, WellTyped;
    if count != 0 && Elements(rest, count, t).Ok? {
      DecodedElement(rest, t);
      var tail := Element(rest, t).value.1;
      DecodedElements(tail, count - 1, t);
      assert Elements(rest, count, t).value[1..] == Elements(tail, count - 1, t).value;
    }
  }

  lemma {:induction false} DecodedPair(rest: bytes, k: ColumnType, w: ColumnType)
    ensures var r := Pair(rest, k, w);
            r.Ok? ==> WellTyped(r.value.0.key, k) && WellTyped(r.value.0.val, w) &&
                      |WireEntry(r.value.0)| + |r.value.1| <= |rest|
    decreases TMap(k, w), 0
  {
    hide Element, Wire, WellTyped;
    DecodedElement(rest, k);
    if Element(rest, k).Ok? {
      DecodedElement(Element(rest, k).value.1, w);
    }
  }

  lemma {:induction false} DecodedPairs(rest: bytes, count: nat, k: ColumnType, w: ColumnType)
    ensures var r := Pairs(rest, count, k, w);
            r.Ok? ==> |r.value| == count && |WirePairs(r.value)| <= |rest| &&
                      PairsTyped(r.value, k, w)
    decreases TMap(k, w), 1, count
  {
    hide Pair, WireEntry, WellTyped;
    if count != 0 && Pairs(rest, count, k, w).Ok? {
      DecodedPair(rest, k, w);
      var tail := Pair(rest, k, w).value.1;
      DecodedPairs(tail, count - 1, k, w);
      assert Pairs(rest, count, k, w).value[1..] == Pairs(tail, count - 1, k, w).value;
    }
  }

  /** The codec is faithful exactly on nulls and well-typed values. */
  lemma RoundTripExactly(v: Value, t: ColumnType)
    ensures FromWire(Wire(v), t) == Ok(v) <==> v.Null? || WellTyped(v, t)
  {
    hide FromPayload, WellTyped, Raw;
    if v.Null? {
      I32RoundTrip(-1);
      assert Wire(v)[..4] == I32(-1);
    } else if WellTyped(v, t) {
      RoundTrip(v, t);
    } else {
      DecodedWellTyped(Wire(v), t);
    }
  }

  /** Two well-typed values of one type never share their raw bytes. */
  lemma RawInjective(a: Value, b: Value, t: ColumnType)
    requires WellTyped(a, t) && WellTyped(b, t) && Raw(a) == Raw(b)
    ensures a == b
  {
    RoundTrip(a, t);
    RoundTrip(b, t);
  }
}
