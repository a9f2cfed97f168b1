/** SHA-1 of a whole message, as FIPS PUB 180-1 defines it. */
module Sha1Spec {
  import opened Base

  type Word = bv32
  type Block = b: seq<byte> | |b| == 64 witness seq(64, _ => 0)

  datatype Digest = Digest(a: Word, b: Word, c: Word, d: Word, e: Word)

  const H0 := Digest(0x67452301, 0xEFCDAB89, 0x98BADCFE, 0x10325476, 0xC3D2E1F0)

  // ---- sections 3, 5 and 6: words, functions and constants ----

  function Rotl1(w: Word): Word { (w << 1) | (w >> 31) }
  function Rotl5(w: Word): Word { (w << 5) | (w >> 27) }
  function Rotl30(w: Word): Word { (w << 30) | (w >> 2) }

  function Choose(b: Word, c: Word, d: Word): Word { (b & c) | (!b & d) }
  function Parity(b: Word, c: Word, d: Word): Word { b ^ c ^ d }
  function Majority(b: Word, c: Word, d: Word): Word { (b & c) | (b & d) | (c & d) }

  /** Addition modulo 2^32. */
  function Plus(x: Word, y: Word): Word { x + y }
  function Sum(v: Word, w: Word, x: Word, y: Word, z: Word): Word { v + w + x + y + z }

  function F(t: nat, b: Word, c: Word, d: Word): Word {
    if t < 20 then Choose(b, c, d)
    else if t < 40 then Parity(b, c, d)
    else if t < 60 then Majority(b, c, d)
    else Parity(b, c, d)
  }

  function K(t: nat): Word {
    if t < 20 then 0x5A827999
    else if t < 40 then 0x6ED9EBA1
    else if t < 60 then 0x8F1BBCDC
    else 0xCA62C1D6
  }

  function BigEndianWord(b0: byte, b1: byte, b2: byte, b3: byte): Word {
    ((b0 as bv32) << 24) | ((b1 as bv32) << 16) | ((b2 as bv32) << 8) | (b3 as bv32)
  }

  // ---- section 7: the computation on one block ----

  function Expanded(w3: Word, w8: Word, w14: Word, w16: Word): Word { Rotl1(w3 ^ w8 ^ w14 ^ w16) }

  function Schedule(block: Block, t: nat): Word {
    if t < 16 then BigEndianWord(block[4 * t], block[4 * t + 1], block[4 * t + 2], block[4 * t + 3])
    else Expanded(Schedule(block, t - 3), Schedule(block, t - 8), Schedule(block, t - 14), Schedule(block, t - 16))
  }

  function Round(g: Digest, t: nat, w: Word): Digest {
    Digest(Sum(Rotl5(g.a), F(t, g.b, g.c, g.d), g.e, w, K(t)), g.a, Rotl30(g.b), g.c, g.d)
  }

  function Rounds(g: Digest, block: Block, t: nat): Digest {
    if t == 0 then g else Round(Rounds(g, block, t - 1), t - 1, Schedule(block, t - 1))
  }

  function Add(g: Digest, h: Digest): Digest {
    Digest(Plus(g.a, h.a), Plus(g.b, h.b), Plus(g.c, h.c), Plus(g.d, h.d), Plus(g.e, h.e))
  }

  function Compress(g: Digest, block: Block): Digest {
    Add(g, Rounds(g, block, 80))
  }

  /** All blocks of a padded message, in order. */
  function Hash(g: Digest, m: seq<byte>): Digest
    requires |m| % 64 == 0
    decreases |m|
  {
    if m == [] then g else Compress(Hash(g, m[..|m| - 64]), m[|m| - 64..])
  }

  // ---- section 4: padding ----

  function Zeros(n: nat): (z: seq<byte>)
    ensures |z| == n
  {
    seq(n, _ => 0)
  }

  function BigEndian(n: nat, len: nat): (s: seq<byte>)
    ensures |s| == len
  {
    if len == 0 then [] else BigEndian(n / 256, len - 1) + [(n % 256) as byte]
  }

  /** The number of zero octets between the 0x80 octet and the length. */
  function ZeroCount(len: nat): nat { (119 - len % 64) % 64 }

  function Pad(m: seq<byte>): (p: seq<byte>)
    ensures |p| % 64 == 0
  {
    PadLength(|m|);
    m + [0x80] + Zeros(ZeroCount(|m|)) + BigEndian(8 * |m|, 8)
  }

  lemma PadLength(len: nat)
    ensures (len + 1 + ZeroCount(len) + 8) % 64 == 0
  {
    assert len == 64 * (len / 64) + len % 64;
  }

  function Sha1(m: seq<byte>): Digest { Hash(H0, Pad(m)) }

  lemma HashBlock(g: Digest, pre: seq<byte>, block: Block)
    requires |pre| % 64 == 0
    ensures Hash(g, pre + block) == Compress(Hash(g, pre), block)
  {
    var m := pre + block;
    assert m[..|m| - 64] == pre && m[|m| - 64..] == block;
  }

  /** The number that octets stand for, most significant first. */
  function Value(s: seq<byte>): nat {
    if s == [] then 0 else 256 * Value(s[..|s| - 1]) + s[|s| - 1] as int
  }

  lemma {:induction false} BigEndianValue(n: nat, len: nat)
    requires n < Pow256(len)
    ensures Value(BigEndian(n, len)) == n
  {
    if len > 0 {
      var s := BigEndian(n, len);
      assert s[..len - 1] == BigEndian(n / 256, len - 1) && s[len - 1] == (n % 256) as byte;
      BigEndianValue(n / 256, len - 1);
    }
  }

  /**
   The padded message, octet by octet: the message, a one bit, zeros, and in the last eight octets the length in bits,
   in the fewest 64-octet blocks that have room for all that.
   */
  lemma PadForm(m: seq<byte>)
    ensures var p := Pad(m);
            && |p| % 64 == 0 && |m| + 9 <= |p| < |m| + 73
            && p[..|m|] == m && p[|m|] == 0x80 && (forall i :: |m| < i < |p| - 8 ==> p[i] == 0)
            && (8 * |m| < 0x1_0000_0000_0000_0000 ==> Value(p[|p| - 8..]) == 8 * |m|)
  {
    var p := Pad(m);
    assert p[|p| - 8..] == BigEndian(8 * |m|, 8);
    if 8 * |m| < 0x1_0000_0000_0000_0000 {
      Pow256Eight();
      BigEndianValue(8 * |m|, 8);
    }
  }

  lemma Pow256Eight()
    ensures Pow256(8) == 0x1_0000_0000_0000_0000
  {
    assert Pow256(2) == 0x1_0000 && Pow256(4) == 0x1_0000_0000;
  }

  /** Padding loses nothing: the length octets tell where the message ends. */
  lemma PadInjective(m: seq<byte>, n: seq<byte>)
    requires Pad(m) == Pad(n) && 8 * |m| < 0x1_0000_0000_0000_0000 && 8 * |n| < 0x1_0000_0000_0000_0000
    ensures m == n
  {
    var p := Pad(m);
    assert p[|p| - 8..] == BigEndian(8 * |m|, 8);
    assert p[|p| - 8..] == BigEndian(8 * |n|, 8);
    BigEndianInjective(8 * |m|, 8 * |n|, 8);
    assert p[..|m|] == m && p[..|n|] == n;
  }

  function Pow256(k: nat): nat { if k == 0 then 1 else 256 * Pow256(k - 1) }

  lemma {:induction false} BigEndianInjective(a: nat, b: nat, len: nat)
    requires BigEndian(a, len) == BigEndian(b, len) && a < Pow256(len) && b < Pow256(len)
    ensures a == b
  {
    if len > 0 {
      var s, t := BigEndian(a, len), BigEndian(b, len);
      assert s[len - 1] == (a % 256) as byte && t[len - 1] == (b % 256) as byte;
      assert s[..len - 1] == BigEndian(a / 256, len - 1) && t[..len - 1] == BigEndian(b / 256, len - 1);
      BigEndianInjective(a / 256, b / 256, len - 1);
    }
  }
}
