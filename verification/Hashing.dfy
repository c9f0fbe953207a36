/** The routing hash (src/storage.rs): 64-bit FNV-1a. */
module Hashing {
  import opened Bytes
  import opened Keys
  import opened Layout

  function Bit(n: nat, i: nat): nat
    decreases i
  {
    if i == 0 then n % 2 else Bit(n / 2, i - 1)
  }

  function Pow2(w: nat): (r: nat)
    ensures r > 0
  {
    if w == 0 then 1 else 2 * Pow2(w - 1)
  }

  lemma Parity(a: nat, b: nat)
    ensures (a + b) % 2 == (a % 2 + b % 2) % 2
  {
  }

  lemma XorSplit(a: nat, b: nat, w: nat)
    requires w > 0
    ensures Xor(a, b, w) / 2 == Xor(a / 2, b / 2, w - 1) && Xor(a, b, w) % 2 == (a % 2 + b % 2) % 2
  {
    Halve(Xor(a / 2, b / 2, w - 1), (a + b) % 2);
    Parity(a, b);
  }

  lemma {:induction false} XorBound(a: nat, b: nat, w: nat)
    ensures Xor(a, b, w) < Pow2(w)
  {
    if w > 0 {
      XorBound(a / 2, b / 2, w - 1);
    }
  }

  lemma {:induction false} ZeroBits(i: nat)
    ensures Bit(0, i) == 0
  {
    if i > 0 {
      ZeroBits(i - 1);
    }
  }

  /** Bit by bit exclusive or of the low `w` bits, nothing above. */
  lemma {:induction false} XorBits(a: nat, b: nat, w: nat, i: nat)
    ensures Bit(Xor(a, b, w), i) == if i < w then (Bit(a, i) + Bit(b, i)) % 2 else 0
    decreases w
  {
    if w == 0 {
      ZeroBits(i);
    } else {
      XorSplit(a, b, w);
      hide Xor;
      if i > 0 {
        XorBits(a / 2, b / 2, w - 1, i - 1);
      }
    }
  }

  lemma Halve(x: nat, bit: nat)
    requires bit < 2
    ensures (2 * x + bit) / 2 == x && (2 * x + bit) % 2 == bit
  {
  }

  /** The bits of a number put together from its low `w` bits and the rest. */
  lemma {:induction false} BitParts(q: nat, x: nat, w: nat, i: nat)
    requires x < Pow2(w)
    ensures Bit(Pow2(w) * q + x, i) == if i < w then Bit(x, i) else Bit(q, i - w)
    decreases w, i
  {
    if w > 0 {
      var h := Pow2(w - 1) * q;
      assert Pow2(w) * q == 2 * h;
      assert (2 * h + x) / 2 == h + x / 2 && (2 * h + x) % 2 == x % 2;
      if i > 0 {
        BitParts(q, x / 2, w - 1, i - 1);
      }
    }
  }

  lemma LowByte()
    ensures Pow2(8) == 256
  {
    assert Pow2(1) == 2 && Pow2(2) == 4 && Pow2(3) == 8 && Pow2(4) == 16;
    assert Pow2(5) == 32 && Pow2(6) == 64 && Pow2(7) == 128;
  }

  /** Mixing in a byte is exclusive or with it, bit by bit. */
  lemma MixIsXor(h: nat, b: byte, i: nat)
    ensures Bit(Mix(h, b), i) == (Bit(h, i) + if i < 8 then Bit(b, i) else 0) % 2
  {
    hide Bit, Xor, Pow2;
    LowByte();
    var q, low := h / 256, h % 256;
    var x := Xor(low, b, 8);
    XorBits(low, b, 8, i);
    XorBound(low, b, 8);
    assert h == Pow2(8) * q + low && Mix(h, b) == Pow2(8) * q + x;
    BitParts(q, low, 8, i);
    BitParts(q, x, 8, i);
    BitIsBit(h, i);
  }

  lemma {:induction false} BitIsBit(n: nat, i: nat)
    ensures Bit(n, i) < 2
    decreases i
  {
    if i > 0 {
      BitIsBit(n / 2, i - 1);
    }
  }

  /** One step is exclusive or, then multiplication by the FNV prime, modulo 2^64. */
  lemma StepIsFnv1a(h: nat, b: byte)
    ensures Fnv1aStep(h, b) < 0x1_0000_0000_0000_0000
    ensures exists k: nat :: Mix(h, b) * 0x100_0000_01b3 == k * 0x1_0000_0000_0000_0000 + Fnv1aStep(h, b)
  {
    var p := Mix(h, b) * 0x100_0000_01b3;
    var k := p / 0x1_0000_0000_0000_0000;
    assert p == k * 0x1_0000_0000_0000_0000 + Fnv1aStep(h, b);
  }

  lemma StepValue(q: nat, low: nat, b: byte, x: nat, k: nat, r: nat)
    requires low < 256 && Xor(low, b, 8) == x && r < 0x1_0000_0000_0000_0000
    requires (256 * q + x) * 0x100_0000_01b3 == k * 0x1_0000_0000_0000_0000 + r
    ensures Fnv1aStep(256 * q + low, b) == r
  {
    hide Xor, Mix;
    MixValue(q, low, b);
    RemainderUnique((256 * q + x) * 0x100_0000_01b3, 0x1_0000_0000_0000_0000, k, r);
  }

  lemma MixValue(q: nat, low: nat, b: byte)
    requires low < 256
    ensures Mix(256 * q + low, b) == 256 * q + Xor(low, b, 8)
  {
    hide Xor;
    var h := 256 * q + low;
    RemainderUnique(h, 256, q, low);
    QuotientUnique(h, 256, q, low);
  }

  lemma KnownXor()
    ensures Xor(0x25, 0x61, 8) == 0x44
  {
    assert Xor(0, 0, 0) == 0;
    assert Xor(0, 0, 1) == 0;
    assert Xor(0, 1, 2) == 1;
    assert Xor(1, 3, 3) == 2;
    assert Xor(2, 6, 4) == 4;
    assert Xor(4, 12, 5) == 8;
    assert Xor(9, 24, 6) == 17;
    assert Xor(18, 48, 7) == 34;
    assert Xor(37, 97, 8) == 68;
  }

  /** The published value for the text "a". */
  lemma KnownHash()
    ensures Fnv1aFrom(0xcbf29ce484222325, [0x61]) == 0xaf63dc4c8601ec8c
  {
    hide Fnv1aStep, Xor, Fnv1aFrom;
    KnownXor();
    StepValue(0xcbf29ce4842223, 0x25, 0x61, 0x44, 0xcbf29ce5de, 0xaf63dc4c8601ec8c);
    HashAppend(0xcbf29ce484222325, [], 0x61);
    NoHash(0xcbf29ce484222325);
    assert [] + [0x61] == [0x61];
  }

  lemma NoHash(h: nat)
    ensures Fnv1aFrom(h, []) == h
  {
  }

  /** Bytes are taken in order. */
  lemma {:induction false} HashAppend(h: nat, s: bytes, b: byte)
    ensures Fnv1aFrom(h, s + [b]) == Fnv1aStep(Fnv1aFrom(h, s), b)
    decreases |s|
  {
    hide Fnv1aStep;
    if s == [] {
      assert s + [b] == [b] && [b][1..] == [];
      assert Fnv1aFrom(Fnv1aStep(h, b), []) == Fnv1aStep(h, b);
    } else {
      assert (s + [b])[0] == s[0] && (s + [b])[1..] == s[1..] + [b];
      HashAppend(Fnv1aStep(h, s[0]), s[1..], b);
    }
  }

  /** The engine of a row: the hash of prefix and first key part, or of the prefix alone, by
      the number of engines. */
  lemma RouteIsHash(a: Address, n: nat)
    requires n >= 1
    ensures var first := if a.parts == [] then [] else a.parts[0];
            Route(a, n) == Fnv1aFrom(0xcbf29ce484222325, DataPrefix(a.keyspace, a.table) + first) % n
  {
  }
}
