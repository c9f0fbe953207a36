/** Byte strings, fixed-width big-endian integers, and the byte order RocksDB iterates in. */
module Bytes {

  type byte = x: int | 0 <= x < 256
  type bytes = seq<byte>

  datatype Option<+T> = None | Some(value: T)

  /** `Panicked` stands for a Rust panic (an index out of range), `Invalid` and `Syntax`
      for the two query error codes 0x2200 and 0x2000, `Corrupt` for an internal error. */
  datatype Failure = Corrupt | Panicked | Invalid | Syntax

  datatype Result<+T> = Ok(value: T) | Err(why: Failure) {
    predicate IsFailure() {
      Err?
    }

    function PropagateFailure<U>(): Result<U>
      requires Err?
    {
      Err(why)
    }

    function Extract(): T
      requires Ok?
    {
      value
    }
  }

  /** `map.get(key)`. */
  function Lookup<K, V>(m: map<K, V>, k: K): Option<V> {
    if k in m then Some(m[k]) else None
  }

  /* ---------- Big-endian integers ---------- */

  function Pow256(w: nat): nat {
    if w == 0 then 1 else 256 * Pow256(w - 1)
  }

  /** The low `w` bytes of `n` in two's complement, most significant first: what a Rust
      `as` cast to a `w`-byte integer followed by `to_be_bytes` produces. */
  function BigEndian(n: int, w: nat): (r: bytes)
    ensures |r| == w
    decreases w
  {
    if w == 0 then [] else BigEndian(n / 256, w - 1) + [n % 256]
  }

  function Unsigned(b: bytes): nat {
    if b == [] then 0 else 256 * Unsigned(b[..|b| - 1]) + b[|b| - 1]
  }

  function Signed(b: bytes): int {
    if 2 * Unsigned(b) < Pow256(|b|) then Unsigned(b) else Unsigned(b) - Pow256(|b|)
  }

  lemma {:induction false} UnsignedBound(b: bytes)
    ensures Unsigned(b) < Pow256(|b|)
  {
    if b != [] {
      UnsignedBound(b[..|b| - 1]);
    }
  }

  lemma {:induction false} BigEndianUnsigned(n: int, w: nat)
    requires 0 <= n + Pow256(w) && n < Pow256(w)
    ensures Unsigned(BigEndian(n, w)) == if n < 0 then n + Pow256(w) else n
    decreases w
  {
    if w != 0 {
      BigEndianUnsigned(n / 256, w - 1);
      assert BigEndian(n, w)[..w - 1] == BigEndian(n / 256, w - 1);
    }
  }

  /** Decoding a two's complement integer of `w` bytes inverts encoding it. */
  lemma SignedRoundTrip(n: int, w: nat)
    requires 0 <= 2 * n + Pow256(w) && 2 * n < Pow256(w)
    ensures Signed(BigEndian(n, w)) == n
  {
    BigEndianUnsigned(n, w);
  }

  lemma {:induction false} UnsignedRoundTrip(b: bytes)
    ensures BigEndian(Unsigned(b), |b|) == b
  {
    if b != [] {
      UnsignedRoundTrip(b[..|b| - 1]);
      assert b == b[..|b| - 1] + [b[|b| - 1]];
    }
  }

  lemma Widths()
    ensures Pow256(1) == 0x100 && Pow256(2) == 0x1_0000 && Pow256(4) == 0x1_0000_0000
    ensures Pow256(8) == 0x1_0000_0000_0000_0000
  {
    assert Pow256(3) == 0x100_0000 && Pow256(5) == 0x100_0000_0000;
    assert Pow256(6) == 0x1_0000_0000_0000 && Pow256(7) == 0x100_0000_0000_0000;
  }

  function U16(n: int): (r: bytes)
    ensures |r| == 2
  {
    BigEndian(n, 2)
  }

  function I32(n: int): (r: bytes)
    ensures |r| == 4
  {
    BigEndian(n, 4)
  }

  /** Lengths and counts travel in four bytes; those below 2^31 survive. */
  lemma I32RoundTrip(n: int)
    requires -0x8000_0000 <= n < 0x8000_0000
    ensures Signed(I32(n)) == n
  {
    Widths();
    SignedRoundTrip(n, 4);
  }

  lemma I32Range(b: bytes)
    requires |b| == 4
    ensures -0x8000_0000 <= Signed(b) < 0x8000_0000
    ensures Signed(b) >= 0 ==> I32(Signed(b)) == b
  {
    Widths();
    UnsignedBound(b);
    UnsignedRoundTrip(b);
  }

  lemma U16RoundTrip(n: nat)
    requires n < 0x1_0000
    ensures Unsigned(U16(n)) == n
  {
    Widths();
    BigEndianUnsigned(n, 2);
  }

  lemma U16Range(b: bytes)
    requires |b| == 2
    ensures Unsigned(b) < 0x1_0000 && U16(Unsigned(b)) == b
  {
    Widths();
    UnsignedBound(b);
    UnsignedRoundTrip(b);
  }

  /* ---------- Byte order ---------- */

  /** RocksDB's default comparator: unsigned bytewise, a proper prefix sorts first. */
  predicate Less(a: bytes, b: bytes) {
    b != [] && (a == [] || a[0] < b[0] || (a[0] == b[0] && Less(a[1..], b[1..])))
  }

  predicate AtMost(a: bytes, b: bytes) {
    !Less(b, a)
  }

  /** `k.starts_with(prefix)`. */
  predicate StartsWith(k: bytes, prefix: bytes) {
    prefix <= k
  }

  lemma {:induction false} LessIrreflexive(a: bytes)
    ensures !Less(a, a)
  {
    if a != [] {
      LessIrreflexive(a[1..]);
    }
  }

  lemma {:induction false} LessTransitive(a: bytes, b: bytes, c: bytes)
    requires Less(a, b) && Less(b, c)
    ensures Less(a, c)
  {
    if a != [] && a[0] == b[0] == c[0] {
      LessTransitive(a[1..], b[1..], c[1..]);
    }
  }

  lemma {:induction false} LessTotal(a: bytes, b: bytes)
    ensures a == b || Less(a, b) || Less(b, a)
  {
    if a != [] && b != [] && a[0] == b[0] {
      LessTotal(a[1..], b[1..]);
      assert a == [a[0]] + a[1..] && b == [b[0]] + b[1..];
    }
  }

  lemma AtMostTransitive(a: bytes, b: bytes, c: bytes)
    requires AtMost(a, b) && AtMost(b, c)
    ensures AtMost(a, c)
  {
    LessTotal(a, b);
    LessTotal(b, c);
    if Less(c, a) {
      if a != b {
        LessTransitive(c, a, b);
      }
    }
  }

  /** A shared prefix does not influence the comparison. */
  lemma {:induction false} LessCommonPrefix(p: bytes, x: bytes, y: bytes)
    ensures Less(p + x, p + y) == Less(x, y)
  {
    if p == [] {
      assert p + x == x && p + y == y;
    } else {
      assert (p + x)[1..] == p[1..] + x && (p + y)[1..] == p[1..] + y;
      LessCommonPrefix(p[1..], x, y);
    }
  }

  /* ---------- ASCII letters ---------- */

  function LowerByte(b: byte): byte {
    if 0x41 <= b <= 0x5A then b + 0x20 else b
  }

  function Lower(s: bytes): (r: bytes)
    ensures |r| == |s| && forall i | 0 <= i < |s| :: r[i] == LowerByte(s[i])
  {
    seq(|s|, i requires 0 <= i < |s| => LowerByte(s[i]))
  }
}
