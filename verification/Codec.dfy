/** The loops of src/cql_value.rs, proved against the wire format of module Values. */
module Codec {
  import opened Bytes
  import opened Values

  /** `write_wire`: appends to `out`, one branch per constructor, a payload buffer per
      collection. The fixed sizes written here are the lengths of `raw_bytes`. */
  method WriteWire(v: Value, out: bytes) returns (r: bytes)
    ensures r == out + Wire(v)
    decreases v, 1
  {
    hide BigEndian;
    var len, payload;
    match v {
      case Null => return out + I32(-1);
      case Int(n) => len, payload := 4, BigEndian(n, 4);
      case BigInt(n) => len, payload := 8, BigEndian(n, 8);
      case SmallInt(n) => len, payload := 2, BigEndian(n, 2);
      case TinyInt(n) => len, payload := 1, BigEndian(n, 1);
      case Float(b) => len, payload := 4, BigEndian(b, 4);
      case Double(b) => len, payload := 8, BigEndian(b, 8);
      case Boolean(b) => len, payload := 1, [if b then 1 else 0];
      case Text(s) => len, payload := |s|, s;
      case Blob(s) => len, payload := |s|, s;
      case Timestamp(n) => len, payload := 8, BigEndian(n, 8);
      case Uuid(u) => len, payload := 16, u;
      case Inet(ip) =>
        match ip {
          case V4(a) => len, payload := 4, a;
          case V6(a) => len, payload := 16, a;
        }
      case Set(vs) =>
        payload := WriteElements(vs, I32(|vs|));
        len := |payload|;
      case List(vs) =>
        payload := WriteElements(vs, I32(|vs|));
        len := |payload|;
      case Map(es) =>
        payload := WriteEntries(es, I32(|es|));
        len := |payload|;
    }
    assert len == |payload| && payload == Raw(v);
    r := out + I32(len) + payload;
  }

  method WriteElements(vs: seq<Value>, out: bytes) returns (r: bytes)
    ensures r == out + WireAll(vs)
    decreases vs, 0
  {
    hide Wire;
    r := out;
    for i := 0 to |vs|
      invariant r + WireAll(vs[i..]) == out + WireAll(vs)
    {
      ghost var before := r;
      r := WriteWire(vs[i], r);
      assert vs[i..][1..] == vs[i + 1..];
      WireAllCons(vs[i..], []);
      assert r + WireAll(vs[i + 1..]) == before + WireAll(vs[i..]);
    }
  }

  method WriteEntries(es: seq<Entry>, out: bytes) returns (r: bytes)
    ensures r == out + WirePairs(es)
    decreases es, 0
  {
    hide WireEntry;
    r := out;
    for i := 0 to |es|
      invariant r + WirePairs(es[i..]) == out + WirePairs(es)
    {
      ghost var before := r;
      var e := es[i];
      r := WriteEntry(e, r);
      assert es[i..][1..] == es[i + 1..];
      WirePairsCons(es[i..], []);
      assert r + WirePairs(es[i + 1..]) == before + WirePairs(es[i..]);
    }
  }

  method WriteEntry(e: Entry, out: bytes) returns (r: bytes)
    ensures r == out + WireEntry(e)
    decreases e, 0
  {
    hide Wire;
    r := WriteWire(e.key, out);
    r := WriteWire(e.val, r);
    assert out + Wire(e.key) + Wire(e.val) == out + (Wire(e.key) + Wire(e.val));
  }

  /** What a loop that has already pushed `done` still owes. */
  function After<T>(done: seq<T>, rest: Result<seq<T>>): Result<seq<T>> {
    if rest.Ok? then Ok(done + rest.value) else rest
  }

  lemma AfterNone<T>(rest: Result<seq<T>>)
    ensures After([], rest) == rest
  {
    if rest.Ok? {
      assert [] + rest.value == rest.value;
    }
  }

  lemma AfterPush<T>(done: seq<T>, x: T, rest: Result<seq<T>>)
    ensures After(done, After([x], rest)) == After(done + [x], rest)
  {
    if rest.Ok? {
      assert done + ([x] + rest.value) == done + [x] + rest.value;
    }
  }

  lemma ElementsCons(data: bytes, v: Value, tail: bytes, n: nat, t: ColumnType)
    requires Element(data, t) == Ok((v, tail))
    ensures Elements(data, n + 1, t) == After([v], Elements(tail, n, t))
  {
  }

  lemma PairsCons(data: bytes, e: Entry, tail: bytes, n: nat, k: ColumnType, w: ColumnType)
    requires Pair(data, k, w) == Ok((e, tail))
    ensures Pairs(data, n + 1, k, w) == After([e], Pairs(tail, n, k, w))
  {
  }

  /** `from_wire`. */
  method ReadWire(data: bytes, t: ColumnType) returns (r: Result<Value>)
    ensures r == FromWire(data, t)
    decreases t, 3
  {
    if |data| < 4 {
      return Err(Corrupt);
    }
    var len := Signed(data[..4]);
    if len < 0 {
      return Ok(Null);
    }
    if |data| != 4 + len {
      return Err(Corrupt);
    }
    var raw := data[4..];
    match t {
      case TSet(e) =>
        var vs := ReadElements(raw, e);
        r := if vs.Ok? then Ok(Set(vs.value)) else Err(vs.why);
      case TList(e) =>
        var vs := ReadElements(raw, e);
        r := if vs.Ok? then Ok(List(vs.value)) else Err(vs.why);
      case TMap(k, v) =>
        var es := ReadEntries(raw, k, v);
        r := if es.Ok? then Ok(Map(es.value)) else Err(es.why);
      case _ => r := Scalar(raw, t);
    }
  }

  /** The element at `off`, bounds-checked as the collection loops do. */
  method ReadElement(raw: bytes, off: nat, t: ColumnType) returns (r: Result<(Value, nat)>)
    requires off <= |raw|
    ensures r.Ok? ==> off < r.value.1 <= |raw| && Element(raw[off..], t) == Ok((r.value.0, raw[r.value.1..]))
    ensures r.Err? ==> Element(raw[off..], t) == Err(r.why)
    decreases t, 4
  {
    hide FromWire, Signed;
    if off + 4 > |raw| {
      return Err(Corrupt);
    }
    var len := Signed(raw[off..off + 4]);
    assert raw[off..][..4] == raw[off..off + 4];
    if len < 0 || off + 4 + len > |raw| {
      return Err(Corrupt);
    }
    assert raw[off..][..4 + len] == raw[off..off + 4 + len];
    assert raw[off..][4 + len..] == raw[off + 4 + len..];
    var v := ReadWire(raw[off..off + 4 + len], t);
    r := if v.Ok? then Ok((v.value, off + 4 + len)) else Err(v.why);
  }

  method ReadElements(raw: bytes, t: ColumnType) returns (r: Result<seq<Value>>)
    ensures var count := ElementCount(raw);
            r == if count.Ok? then Elements(raw[4..], count.value, t) else Err(count.why)
    decreases t, 5
  {
    hide Element, Signed;
    if |raw| < 4 {
      return Err(Corrupt);
    }
    var count := Signed(raw[..4]);
    if count < 0 {
      return Err(Corrupt);
    }
    var values := [];
    var off := 4;
    AfterNone(Elements(raw[4..], count, t));
    for i := 0 to count
      invariant 4 <= off <= |raw|
      invariant Elements(raw[4..], count, t) == After(values, Elements(raw[off..], count - i, t))
    {
      var v := ReadElement(raw, off, t);
      if v.Err? {
        return Err(v.why);
      }
      ElementsCons(raw[off..], v.value.0, raw[v.value.1..], count - i - 1, t);
      AfterPush(values, v.value.0, Elements(raw[v.value.1..], count - i - 1, t));
      values := values + [v.value.0];
      off := v.value.1;
    }
    assert values + [] == values;
    r := Ok(values);
  }

  method ReadEntry(raw: bytes, off: nat, k: ColumnType, w: ColumnType) returns (r: Result<(Entry, nat)>)
    requires off <= |raw|
    ensures r.Ok? ==> off < r.value.1 <= |raw| && Pair(raw[off..], k, w) == Ok((r.value.0, raw[r.value.1..]))
    ensures r.Err? ==> Pair(raw[off..], k, w) == Err(r.why)
    decreases TMap(k, w), 0
  {
    hide Element;
    var key := ReadElement(raw, off, k);
    if key.Err? {
      return Err(key.why);
    }
    var val := ReadElement(raw, key.value.1, w);
    r := if val.Ok? then Ok((Entry(key.value.0, val.value.0), val.value.1)) else Err(val.why);
  }

  method ReadEntries(raw: bytes, k: ColumnType, w: ColumnType) returns (r: Result<seq<Entry>>)
    ensures var count := ElementCount(raw);
            r == if count.Ok? then Pairs(raw[4..], count.value, k, w) else Err(count.why)
    decreases TMap(k, w), 1
  {
    hide Pair, Signed;
    if |raw| < 4 {
      return Err(Corrupt);
    }
    var count := Signed(raw[..4]);
    if count < 0 {
      return Err(Corrupt);
    }
    var entries := [];
    var off := 4;
    AfterNone(Pairs(raw[4..], count, k, w));
    for i := 0 to count
      invariant 4 <= off <= |raw|
      invariant Pairs(raw[4..], count, k, w) == After(entries, Pairs(raw[off..], count - i, k, w))
    {
      var e := ReadEntry(raw, off, k, w);
      if e.Err? {
        return Err(e.why);
      }
      PairsCons(raw[off..], e.value.0, raw[e.value.1..], count - i - 1, k, w);
      AfterPush(entries, e.value.0, Pairs(raw[e.value.1..], count - i - 1, k, w));
      entries := entries + [e.value.0];
      off := e.value.1;
    }
    assert entries + [] == entries;
    r := Ok(entries);
  }
}
