/** Bytes and the little-endian integers that every on-disk and in-cloud
    structure of the file system is built from. */
module Bytes {

  newtype Byte = x: int | 0 <= x < 0x100

  type Bytes = seq<Byte>

  const U32_LIMIT: nat := 0x1_0000_0000
  const U64_LIMIT: nat := 0x1_0000_0000_0000_0000

  /** A run of zero bytes: what a file holds past the last byte written to it. */
  function Zeros(n: nat): (z: Bytes)
    ensures |z| == n
    ensures forall i :: 0 <= i < n ==> z[i] == 0
  {
    seq(n, _ => 0)
  }

  /** `width` bytes holding `v` in little-endian order; high-order bits that do
      not fit are lost, as in a C cast. */
  function Encode(v: nat, width: nat): (s: Bytes)
    ensures |s| == width
    decreases width
  {
    if width == 0 then [] else [(v % 0x100) as Byte] + Encode(v / 0x100, width - 1)
  }

  /** The number a little-endian byte string stands for. */
  function Decode(s: Bytes): (v: nat)
  {
    if s == [] then 0 else s[0] as nat + 0x100 * Decode(s[1..])
  }

  function Pow256(n: nat): (p: nat)
    ensures p >= 1
  {
    if n == 0 then 1 else 0x100 * Pow256(n - 1)
  }

  lemma {:induction false} DecodeEncode(v: nat, width: nat)
    requires v < Pow256(width)
    ensures Decode(Encode(v, width)) == v
  {
    if width > 0 {
      assert Pow256(width) == 0x100 * Pow256(width - 1);
      DecodeEncode(v / 0x100, width - 1);
      assert Encode(v, width)[1..] == Encode(v / 0x100, width - 1);
    }
  }

  lemma {:induction false} EncodeDecode(s: Bytes)
    ensures Decode(s) < Pow256(|s|)
    ensures Encode(Decode(s), |s|) == s
  {
    if s != [] {
      EncodeDecode(s[1..]);
      assert Decode(s) == s[0] as nat + 0x100 * Decode(s[1..]);
      assert Decode(s) / 0x100 == Decode(s[1..]) && Decode(s) % 0x100 == s[0] as nat;
      assert s == [s[0]] + s[1..];
    }
  }

  lemma Widths()
    ensures Pow256(4) == U32_LIMIT && Pow256(8) == U64_LIMIT
  {
    assert Pow256(1) == 0x100;
    assert Pow256(2) == 0x1_0000;
    assert Pow256(3) == 0x100_0000;
    assert Pow256(4) == 0x1_0000_0000;
    assert Pow256(5) == 0x100_0000_0000;
    assert Pow256(6) == 0x1_0000_0000_0000;
    assert Pow256(7) == 0x100_0000_0000_0000;
  }

  function Le32(v: nat): (s: Bytes)
    ensures |s| == 4
  {
    Encode(v, 4)
  }

  function Le64(v: nat): (s: Bytes)
    ensures |s| == 8
  {
    Encode(v, 8)
  }

  /** Reading back what was written as a 32-bit integer. */
  lemma RoundTrip32(v: nat)
    requires v < U32_LIMIT
    ensures Decode(Le32(v)) == v
  {
    Widths();
    DecodeEncode(v, 4);
  }

  lemma RoundTrip64(v: nat)
    requires v < U64_LIMIT
    ensures Decode(Le64(v)) == v
  {
    Widths();
    DecodeEncode(v, 8);
  }

  /** Four bytes always decode to a 32-bit number, and to only one. */
  lemma Decode32(s: Bytes)
    requires |s| == 4
    ensures Decode(s) < U32_LIMIT && Le32(Decode(s)) == s
  {
    Widths();
    EncodeDecode(s);
  }

  lemma Decode64(s: Bytes)
    requires |s| == 8
    ensures Decode(s) < U64_LIMIT && Le64(Decode(s)) == s
  {
    Widths();
    EncodeDecode(s);
  }

  // ------------------------------------------------ bytes as machine words

  lemma Successor(x: bv8)
    requires x as int < 0xFF
    ensures (x + 1) as int == x as int + 1
  {
  }

  /** The eight-bit vector with a given value, counted up from zero. */
  function AsBits(n: nat): (r: bv8)
    requires n < 0x100
    ensures r as int == n
  {
    if n == 0 then 0 else Successor(AsBits(n - 1)); AsBits(n - 1) + 1
  }

  lemma Widened(x: bv8)
    ensures x as bv32 <= 0xFF && (x as bv32) as int == x as int
  {
  }

  lemma SmallWord(w: bv32)
    requires w <= 0xFF
    ensures 0 <= w as int < 0x100 && (w as int) as bv32 == w
  {
  }

  /** A byte as a 32-bit register. */
  function AsWord(b: Byte): (w: bv32)
    ensures w <= 0xFF && w as int == b as int
  {
    Widened(AsBits(b as int));
    AsBits(b as int) as bv32
  }

  function FromWord(w: bv32): (b: Byte)
    requires w <= 0xFF
    ensures b as int == w as int
  {
    SmallWord(w);
    w as Byte
  }

  lemma WordRoundTrip(w: bv32)
    requires w <= 0xFF
    ensures AsWord(FromWord(w)) == w
  {
    hide AsWord;
    SmallWord(w);
    SmallWord(AsWord(FromWord(w)));
  }
}
