/** Row keys, key ranges and engine routing (src/storage.rs). Names are their UTF-8 bytes. */
module Keys {
  import opened Bytes

  const BANG: byte := 0x21
  const KS_PREFIX: bytes := [0x6B, 0x73, 0x21]
  const TB_PREFIX: bytes := [0x74, 0x62, 0x21]
  const DT_PREFIX: bytes := [0x64, 0x74, 0x21]

  /* ---------- The key codec ---------- */

  /** Each part behind the low 16 bits of its length. */
  function EncodeKey(parts: seq<bytes>): bytes {
    if parts == [] then [] else U16(|parts[0]|) + parts[0] + EncodeKey(parts[1..])
  }

  function DecodeParts(rest: bytes): Result<seq<bytes>>
    decreases |rest|
  {
    if rest == [] then Ok([])
    else if |rest| < 2 then Err(Corrupt)
    else
      var len := Unsigned(rest[..2]);
      if |rest| < 2 + len then Err(Corrupt) else
      var tail :- DecodeParts(rest[2 + len..]);
      Ok([rest[2..2 + len]] + tail)
  }

  predicate ShortParts(parts: seq<bytes>) {
    forall p <- parts :: |p| < 0x1_0000
  }

  method WriteKey(parts: seq<bytes>) returns (out: bytes)
    ensures out == EncodeKey(parts)
  {
    hide BigEndian;
    out := [];
    for i := 0 to |parts|
      invariant out + EncodeKey(parts[i..]) == EncodeKey(parts)
    {
      assert parts[i..][1..] == parts[i + 1..];
      assert out + EncodeKey(parts[i..]) == out + U16(|parts[i]|) + parts[i] + EncodeKey(parts[i + 1..]);
      out := out + U16(|parts[i]|);
      out := out + parts[i];
    }
  }

  /** `decode_key_data`. */
  method ReadKey(prefix: bytes, full: bytes) returns (r: Result<seq<bytes>>)
    ensures r == if StartsWith(full, prefix) then DecodeParts(full[|prefix|..]) else Err(Corrupt)
  {
    hide Unsigned;
    if !(prefix <= full) {
      return Err(Corrupt);
    }
    var rest := full[|prefix|..];
    var parts := [];
    ghost var whole := DecodeParts(rest);
    assert whole.Ok? ==> parts + whole.value == whole.value;
    while rest != []
      invariant whole == var tail := DecodeParts(rest); if tail.Ok? then Ok(parts + tail.value) else tail
      decreases |rest|
    {
      if |rest| < 2 {
        return Err(Corrupt);
      }
      var len := Unsigned(rest[..2]);
      if |rest| < 2 + len {
        return Err(Corrupt);
      }
      ghost var tail := DecodeParts(rest[2 + len..]);
      if tail.Ok? {
        assert parts + ([rest[2..2 + len]] + tail.value) == parts + [rest[2..2 + len]] + tail.value;
      }
      parts := parts + [rest[2..2 + len]];
      rest := rest[2 + len..];
    }
    assert parts + [] == parts;
    return Ok(parts);
  }

  lemma DecodeFront(p: bytes, rest: bytes)
    requires |p| < 0x1_0000
    ensures DecodeParts(U16(|p|) + p + rest) ==
            var tail := DecodeParts(rest); if tail.Ok? then Ok([p] + tail.value) else tail
  {
    hide BigEndian, Unsigned;
    U16RoundTrip(|p|);
    var all := U16(|p|) + p + rest;
    assert all[..2] == U16(|p|) && all[2..2 + |p|] == p && all[2 + |p|..] == rest;
  }

  /** Every suffix that decodes re-encodes to the same bytes. */
  lemma {:induction false} DecodedReencodes(rest: bytes)
    ensures var r := DecodeParts(rest); r.Ok? ==> EncodeKey(r.value) == rest && ShortParts(r.value)
    decreases |rest|
  {
    hide BigEndian, Unsigned;
    if |rest| >= 2 && DecodeParts(rest).Ok? {
      U16Range(rest[..2]);
      var len := Unsigned(rest[..2]);
      DecodedReencodes(rest[2 + len..]);
      var parts := DecodeParts(rest).value;
      assert parts[0] == rest[2..2 + len] && parts[1..] == DecodeParts(rest[2 + len..]).value;
      assert EncodeKey(parts) == U16(len) + parts[0] + rest[2 + len..];
      assert rest == rest[..2] + rest[2..2 + len] + rest[2 + len..];
    }
  }

  lemma {:induction false} KeyRoundTrip(parts: seq<bytes>)
    requires ShortParts(parts)
    ensures DecodeParts(EncodeKey(parts)) == Ok(parts)
  {
    if parts != [] {
      KeyRoundTrip(parts[1..]);
      DecodeFront(parts[0], EncodeKey(parts[1..]));
      assert parts == [parts[0]] + parts[1..];
    }
  }

  /** Decoding inverts encoding exactly when every part is shorter than 2^16. */
  lemma KeyRoundTripExactly(parts: seq<bytes>)
    ensures DecodeParts(EncodeKey(parts)) == Ok(parts) <==> ShortParts(parts)
  {
    if ShortParts(parts) {
      KeyRoundTrip(parts);
    } else {
      DecodedReencodes(EncodeKey(parts));
    }
  }

  lemma {:induction false} EncodeAppend(a: seq<bytes>, b: seq<bytes>)
    ensures EncodeKey(a + b) == EncodeKey(a) + EncodeKey(b)
  {
    hide BigEndian;
    if a == [] {
      assert a + b == b;
    } else {
      assert (a + b)[1..] == a[1..] + b;
      EncodeAppend(a[1..], b);
    }
  }

  lemma {:induction false} PrefixOfKey(a: seq<bytes>, b: seq<bytes>)
    requires ShortParts(a) && ShortParts(b) && EncodeKey(a) <= EncodeKey(b)
    ensures a <= b
  {
    hide BigEndian, Unsigned;
    if a != [] {
      assert b != [];
      var ea, eb := EncodeKey(a), EncodeKey(b);
      U16RoundTrip(|a[0]|);
      U16RoundTrip(|b[0]|);
      assert ea[..2] == U16(|a[0]|) && eb[..2] == U16(|b[0]|) && ea[..2] == eb[..2];
      var n := 2 + |a[0]|;
      assert a[0] == ea[2..n] == eb[2..n] == b[0];
      assert ea[n..] == EncodeKey(a[1..]) && eb[n..] == EncodeKey(b[1..]);
      PrefixOfKey(a[1..], b[1..]);
      assert a == [a[0]] + a[1..] && b == [b[0]] + b[1..];
    }
  }

  /** One encoded part list is a byte prefix of another exactly when it is a prefix as a list. */
  lemma KeyPrefixExactly(a: seq<bytes>, b: seq<bytes>)
    requires ShortParts(a) && ShortParts(b)
    ensures EncodeKey(a) <= EncodeKey(b) <==> a <= b
  {
    if a <= b {
      EncodeAppend(a, b[|a|..]);
      assert b == a + b[|a|..];
    } else if EncodeKey(a) <= EncodeKey(b) {
      PrefixOfKey(a, b);
    }
  }

  /* ---------- Table prefixes ---------- */

  datatype Address = Address(keyspace: bytes, table: bytes, parts: seq<bytes>)

  function KeyspacePrefix(ks: bytes): bytes {
    DT_PREFIX + ks + [BANG]
  }

  function DataPrefix(ks: bytes, tb: bytes): bytes {
    DT_PREFIX + ks + [BANG] + tb + [BANG]
  }

  function RowKey(a: Address): bytes {
    DataPrefix(a.keyspace, a.table) + EncodeKey(a.parts)
  }

  predicate Plain(name: bytes) {
    BANG !in name
  }

  /** What the key layout relies on: plain names and parts whose length fits 16 bits. */
  predicate Good(a: Address) {
    Plain(a.keyspace) && Plain(a.table) && ShortParts(a.parts)
  }

  lemma BeforeBang(x: bytes, r: bytes)
    requires Plain(x)
    ensures forall i | 0 <= i < |x| :: (x + [BANG] + r)[i] != BANG
    ensures (x + [BANG] + r)[|x|] == BANG
  {
    forall i | 0 <= i < |x|
      ensures (x + [BANG] + r)[i] != BANG
    {
      assert (x + [BANG] + r)[i] == x[i] && x[i] in x;
    }
  }

  /** A plain name ends at its first `!`. */
  lemma SplitAtBang(x: bytes, r: bytes, y: bytes, s: bytes)
    requires Plain(x) && Plain(y) && x + [BANG] + r == y + [BANG] + s
    ensures x == y && r == s
  {
    var all := x + [BANG] + r;
    BeforeBang(x, r);
    BeforeBang(y, s);
    assert |x| == |y|;
    assert x == all[..|x|] && y == all[..|y|];
    assert r == all[|x| + 1..] && s == all[|y| + 1..];
  }

  lemma KeyspaceOfKey(a: Address, ks: bytes)
    requires Good(a) && Plain(ks)
    ensures StartsWith(RowKey(a), KeyspacePrefix(ks)) <==> a.keyspace == ks
  {
    hide EncodeKey;
    var tail := a.table + [BANG] + EncodeKey(a.parts);
    assert RowKey(a) == KeyspacePrefix(a.keyspace) + tail;
    if StartsWith(RowKey(a), KeyspacePrefix(ks)) {
      var rest := RowKey(a)[|KeyspacePrefix(ks)|..];
      assert RowKey(a) == KeyspacePrefix(ks) + rest;
      assert RowKey(a)[3..] == a.keyspace + [BANG] + tail == ks + [BANG] + rest;
      SplitAtBang(a.keyspace, tail, ks, rest);
    }
  }

  /** A row key starts with a table's prefix exactly when it is a row of that table. */
  lemma TableOfKey(a: Address, ks: bytes, tb: bytes)
    requires Good(a) && Plain(ks) && Plain(tb)
    ensures StartsWith(RowKey(a), DataPrefix(ks, tb)) <==> a.keyspace == ks && a.table == tb
  {
    hide EncodeKey;
    if StartsWith(RowKey(a), DataPrefix(ks, tb)) {
      assert DataPrefix(ks, tb) == KeyspacePrefix(ks) + (tb + [BANG]);
      KeyspaceOfKey(a, ks);
      var rest := RowKey(a)[|DataPrefix(ks, tb)|..];
      var n := |KeyspacePrefix(ks)|;
      assert RowKey(a)[n..] == tb + [BANG] + rest;
      assert RowKey(a)[n..] == a.table + [BANG] + EncodeKey(a.parts);
      SplitAtBang(a.table, EncodeKey(a.parts), tb, rest);
    }
  }

  lemma RowKeyInjective(a: Address, b: Address)
    requires Good(a) && Good(b) && RowKey(a) == RowKey(b)
    ensures a == b
  {
    TableOfKey(a, b.keyspace, b.table);
    assert EncodeKey(a.parts) == RowKey(a)[|DataPrefix(a.keyspace, a.table)|..] == EncodeKey(b.parts);
    KeyRoundTrip(a.parts);
    KeyRoundTrip(b.parts);
  }

  /** Without that restriction two tables can share every key. */
  lemma BangInNameCollides()
    ensures var a, b := Address([0x61], [0x62, 0x21, 0x63], []), Address([0x61, 0x21, 0x62], [0x63], []);
            a != b && RowKey(a) == RowKey(b)
  {
  }

  lemma CommonPrefix(p: bytes, x: bytes, y: bytes)
    ensures p + x <= p + y <==> x <= y
  {
    assert x == (p + x)[|p|..] && y == (p + y)[|p|..];
    if x <= y {
      assert y == x + y[|x|..];
      assert p + y == p + x + y[|x|..];
    }
  }

  /** Scanning a partition: among the rows of a table, the keys below a partition's
      encoded parts are exactly the rows whose parts begin with it. */
  lemma PartitionOfKey(a: Address, parts: seq<bytes>)
    requires Good(a) && ShortParts(parts)
    ensures StartsWith(RowKey(a), DataPrefix(a.keyspace, a.table) + EncodeKey(parts)) <==> parts <= a.parts
  {
    hide EncodeKey, DataPrefix;
    KeyPrefixExactly(parts, a.parts);
    CommonPrefix(DataPrefix(a.keyspace, a.table), EncodeKey(parts), EncodeKey(a.parts));
  }

  /* ---------- Ranges ---------- */

  predicate InRange(k: bytes, start: bytes, end: bytes) {
    AtMost(start, k) && Less(k, end)
  }

  /** Increments the last byte below 0xFF and keeps the 0xFF bytes behind it. */
  function UpperBound(p: bytes): Option<bytes> {
    if p == [] then None else
    var last := p[|p| - 1];
    if last < 0xFF then Some(p[..|p| - 1] + [last + 1])
    else match UpperBound(p[..|p| - 1])
      case None => None
      case Some(e) => Some(e + [0xFF])
  }

  /** `prefix_upper_bound`: walks the bytes from the back. */
  method PrefixUpperBound(prefix: bytes) returns (r: Option<bytes>)
    ensures r == UpperBound(prefix)
  {
    var end := prefix;
    var i := |end|;
    assert prefix[..i] == prefix && forall e: bytes :: e + prefix[i..] == e;
    while i > 0
      invariant 0 <= i <= |end| && end == prefix
      invariant UpperBound(prefix)
                == match UpperBound(prefix[..i]) case None => None case Some(e) => Some(e + prefix[i..])
    {
      i := i - 1;
      assert prefix[..i + 1][..i] == prefix[..i];
      assert [prefix[i]] + prefix[i + 1..] == prefix[i..];
      if end[i] < 0xFF {
        end := end[i := end[i] + 1];
        assert end == prefix[..i] + [prefix[i] + 1] + prefix[i + 1..];
        return Some(end);
      }
      if UpperBound(prefix[..i]).Some? {
        var e := UpperBound(prefix[..i]).value;
        assert e + [0xFF] + prefix[i + 1..] == e + prefix[i..];
      }
    }
    return None;
  }

  lemma PrefixCons(p: bytes, k: bytes)
    requires p != [] && k != []
    ensures p <= k <==> p[0] == k[0] && p[1..] <= k[1..]
  {
    assert p == [p[0]] + p[1..] && k == [k[0]] + k[1..];
  }

  lemma {:induction false} PrefixAtMost(p: bytes, k: bytes)
    requires p <= k
    ensures AtMost(p, k)
  {
    if p != [] {
      PrefixAtMost(p[1..], k[1..]);
    }
  }

  lemma {:induction false} LessThanExtension(k: bytes, e: bytes, x: bytes)
    requires Less(k, e)
    ensures Less(k, e + x)
  {
    if k != [] && k[0] == e[0] {
      LessThanExtension(k[1..], e[1..], x);
      assert (e + x)[1..] == e[1..] + x;
    }
  }

  /** The range never misses a key below the prefix. */
  lemma {:induction false} UpperBoundCovers(p: bytes, k: bytes)
    requires UpperBound(p).Some? && StartsWith(k, p)
    ensures InRange(k, p, UpperBound(p).value)
  {
    PrefixAtMost(p, k);
    var q := p[..|p| - 1];
    if p[|p| - 1] < 0xFF {
      SuccessorRange(q, p[|p| - 1], k);
      assert p == q + [p[|p| - 1]];
    } else {
      UpperBoundCovers(q, k);
      LessThanExtension(k, UpperBound(q).value, [0xFF]);
    }
  }

  lemma {:induction false} SuccessorRange(q: bytes, b: byte, k: bytes)
    requires b < 0xFF
    ensures InRange(k, q + [b], q + [b + 1]) <==> StartsWith(k, q + [b])
  {
    if q == [] {
      assert q + [b] == [b] && q + [b + 1] == [b + 1];
      if k != [] {
        assert !Less(k[1..], []);
      }
    } else {
      assert (q + [b])[1..] == q[1..] + [b] && (q + [b + 1])[1..] == q[1..] + [b + 1];
      if k != [] {
        SuccessorRange(q[1..], b, k[1..]);
        PrefixCons(q + [b], k);
      }
    }
  }

  /** The first byte string past `p` in the range when `p` ends in 0xFF. */
  function Stray(p: bytes): bytes
    requires UpperBound(p).Some?
  {
    if p[|p| - 1] < 0xFF then UpperBound(p).value else Stray(p[..|p| - 1])
  }

  lemma {:induction false} StrayOutside(p: bytes)
    requires UpperBound(p).Some?
    ensures !StartsWith(Stray(p), p) && AtMost(p, Stray(p)) && |Stray(p)| <= |p|
    ensures Stray(p) <= UpperBound(p).value
  {
    var n := |p| - 1;
    var q := p[..n];
    assert p == q + [p[n]];
    if p[n] < 0xFF {
      LessCommonPrefix(q, [p[n] + 1], [p[n]]);
      assert Stray(p)[n] != p[n];
    } else {
      StrayOutside(q);
      var s := Stray(q);
      if Less(s, p) {
        LessTotal(s, q);
        BetweenExtension(q, s, [p[n]]);
      }
      assert StartsWith(s, p) ==> StartsWith(s, q);
    }
  }

  /** A string after `q` and before `q + x` starts with `q`. */
  lemma {:induction false} BetweenExtension(q: bytes, s: bytes, x: bytes)
    requires Less(q, s) && Less(s, q + x)
    ensures StartsWith(s, q)
  {
    if q != [] {
      assert (q + x)[1..] == q[1..] + x;
      BetweenExtension(q[1..], s[1..], x);
      assert s == [s[0]] + s[1..] && q == [q[0]] + q[1..];
    }
  }

  lemma {:induction false} ProperPrefixLess(s: bytes, e: bytes)
    requires s <= e && s != e
    ensures Less(s, e)
  {
    if s != [] {
      ProperPrefixLess(s[1..], e[1..]);
    }
  }

  /** The range is exactly the keys below the prefix if and only if the prefix does not
      end in 0xFF; otherwise `Stray(p)` is a key it would delete wrongly. */
  lemma UpperBoundExactly(p: bytes)
    requires UpperBound(p).Some?
    ensures p[|p| - 1] < 0xFF ==> forall k :: InRange(k, p, UpperBound(p).value) <==> StartsWith(k, p)
    ensures p[|p| - 1] == 0xFF ==> InRange(Stray(p), p, UpperBound(p).value) && !StartsWith(Stray(p), p)
  {
    var n := |p| - 1;
    if p[n] < 0xFF {
      forall k
        ensures InRange(k, p, UpperBound(p).value) <==> StartsWith(k, p)
      {
        SuccessorRange(p[..n], p[n], k);
        assert p == p[..n] + [p[n]];
      }
    } else {
      StrayOutside(p);
      StrayOutside(p[..n]);
      assert |UpperBound(p).value| == |UpperBound(p[..n]).value| + 1;
      UpperBoundLength(p[..n]);
      ProperPrefixLess(Stray(p), UpperBound(p).value);
    }
  }

  lemma {:induction false} UpperBoundLength(p: bytes)
    requires UpperBound(p).Some?
    ensures |UpperBound(p).value| == |p|
  {
    if p[|p| - 1] == 0xFF {
      UpperBoundLength(p[..|p| - 1]);
    }
  }

  /** Every prefix the storage deletes ends in `!`, so its range is exact. */
  lemma BangPrefixExact(p: bytes, k: bytes)
    requires p != [] && p[|p| - 1] == BANG
    ensures UpperBound(p).Some? && (InRange(k, p, UpperBound(p).value) <==> StartsWith(k, p))
  {
    UpperBoundExactly(p);
  }

  /** In byte order the keys below a prefix are contiguous from the seek position on. */
  lemma {:induction false} Contiguous(p: bytes, a: bytes, b: bytes)
    requires AtMost(p, a) && Less(a, b) && StartsWith(b, p)
    ensures StartsWith(a, p)
  {
    if p != [] {
      assert a != [] && a[0] == p[0];
      Contiguous(p[1..], a[1..], b[1..]);
      assert a == [a[0]] + a[1..] && p == [p[0]] + p[1..];
    }
  }

  /* ---------- Routing ---------- */

  /** Bitwise exclusive or of the low `w` bits. */
  function Xor(a: nat, b: nat, w: nat): nat
    decreases w
  {
    if w == 0 then 0 else 2 * Xor(a / 2, b / 2, w - 1) + (a + b) % 2
  }

  /** `h ^ b` for a byte `b`: only the low eight bits change. */
  function Mix(h: nat, b: byte): nat {
    256 * (h / 256) + Xor(h % 256, b, 8)
  }

  function Fnv1aStep(h: nat, b: byte): nat {
    Mix(h, b) * 0x100_0000_01b3 % 0x1_0000_0000_0000_0000
  }

  function Fnv1aFrom(h: nat, s: bytes): nat
    decreases |s|
  {
    if s == [] then h else Fnv1aFrom(Fnv1aStep(h, s[0]), s[1..])
  }

  method Fnv1a(s: bytes) returns (h: nat)
    ensures h == Fnv1aFrom(0xcbf29ce484222325, s)
  {
    hide Fnv1aStep;
    h := 0xcbf29ce484222325;
    for i := 0 to |s|
      invariant Fnv1aFrom(h, s[i..]) == Fnv1aFrom(0xcbf29ce484222325, s)
    {
      assert s[i..][1..] == s[i + 1..];
      h := Fnv1aStep(h, s[i]);
    }
  }

  /** `data_engine` among `n` engines: the hash of the table prefix and the first part. */
  function Route(a: Address, n: nat): (e: nat)
    ensures n >= 1 ==> e < n
  {
    var first := if a.parts == [] then [] else a.parts[0];
    if n <= 1 then 0 else Fnv1aFrom(0xcbf29ce484222325, DataPrefix(a.keyspace, a.table) + first) % n
  }

  lemma RouteInRange(a: Address, n: nat)
    requires n >= 1
    ensures Route(a, n) < n
  {
  }
}
