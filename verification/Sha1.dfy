/** The streaming SHA-1 of Router/src/router/sha1.c, proved equal to the one-shot definition. */
module Sha1Stream {
  import opened Base
  import opened Sha1Spec

  const TWO64: int := 0x1_0000_0000_0000_0000

  class SHA1Context {
    const digest: array<Word>
    const block: array<byte>
    var lengthLow: nat
    var lengthHigh: nat
    var index: nat
    var computed: bool
    var corrupted: bool

    ghost var message: seq<byte>  // everything given to Input before the result was taken
    ghost var late: bool          // non-empty input was given after the result was taken

    ghost predicate Shape()
      reads this
    {
      digest.Length == 5 && block.Length == 64
    }

    ghost function Current(): Digest
      reads this, digest
      requires Shape()
    {
      Digest(digest[0], digest[1], digest[2], digest[3], digest[4])
    }

    /** The context has absorbed exactly the message `m`. */
    ghost predicate Absorbed(m: seq<byte>)
      reads this, digest, block
      requires Shape()
    {
      && index < 64
      && Holds(Current(), block[..index], m)
      && lengthLow < 0x1_0000_0000 && lengthHigh < 0x1_0000_0000
      && lengthHigh * 0x1_0000_0000 + lengthLow == 8 * |m|
    }

    ghost predicate Valid()
      reads this, digest, block
    {
      && Shape()
      && (corrupted <==> late || 8 * |message| >= TWO64)
      && (late ==> computed)
      && (!corrupted && !computed ==> Absorbed(message))
      && (!corrupted && computed ==> Current() == Sha1(message))
    }

    constructor ()
      ensures Valid() && fresh(digest) && fresh(block)
      ensures message == [] && !late && !computed
    {
      digest := new Word[5](i => 0);
      block := new byte[64](i => 0);
      new;
      Reset();
    }

    method Reset()
      requires Shape()
      modifies this, digest
      ensures Valid() && message == [] && !late && !computed
    {
      lengthLow, lengthHigh, index := 0, 0, 0;
      digest[0] := 0x67452301;
      digest[1] := 0xEFCDAB89;
      digest[2] := 0x98BADCFE;
      digest[3] := 0x10325476;
      digest[4] := 0xC3D2E1F0;
      computed, corrupted := false, false;
      message, late := [], false;
    }

    /** Replaces the digest by the compression of the full block into it. */
    method ProcessMessageBlock()
      requires Shape()
      modifies digest, this`index
      ensures Current() == Compress(old(Current()), block[..]) && index == 0
    {
      hide Rounds, Plus, Schedule;
      ghost var b: Block := block[..];
      var w := ExpandSchedule(block);
      var r := RunRounds(Digest(digest[0], digest[1], digest[2], digest[3], digest[4]), w, b);
      digest[0] := Plus(digest[0], r.a);
      digest[1] := Plus(digest[1], r.b);
      digest[2] := Plus(digest[2], r.c);
      digest[3] := Plus(digest[3], r.d);
      digest[4] := Plus(digest[4], r.e);
      index := 0;
    }

    /** The 64-bit length counts one octet more; it wraps to zero exactly when the message is too long. */
    method CountByte(ghost n: nat)
      requires lengthLow < 0x1_0000_0000 && lengthHigh < 0x1_0000_0000 && !corrupted
      requires lengthHigh * 0x1_0000_0000 + lengthLow == 8 * n
      modifies this`lengthLow, this`lengthHigh, this`corrupted
      ensures lengthLow < 0x1_0000_0000 && lengthHigh < 0x1_0000_0000
      ensures corrupted <==> 8 * (n + 1) >= TWO64
      ensures !corrupted ==> lengthHigh * 0x1_0000_0000 + lengthLow == 8 * (n + 1)
    {
      CountWraps(lengthHigh, lengthLow, n);
      lengthLow := (lengthLow + 8) % 0x1_0000_0000;
      if lengthLow == 0 {
        lengthHigh := (lengthHigh + 1) % 0x1_0000_0000;
        if lengthHigh == 0 {
          corrupted := true;
        }
      }
    }

    method StoreByte(x: byte)
      requires Shape() && index < 64
      modifies this`index, block
      ensures index == old(index) + 1 && block[..index] == old(block[..index]) + [x]
    {
      block[index] := x;
      index := index + 1;
    }

    /** One octet of the message. */
    method InputByte(ghost m: seq<byte>, x: byte)
      requires Shape() && Absorbed(m) && !corrupted
      modifies this`index, this`lengthLow, this`lengthHigh, this`corrupted, digest, block
      ensures corrupted <==> 8 * |m + [x]| >= TWO64
      ensures !corrupted ==> Absorbed(m + [x])
    {
      hide Holds, Compress;
      HoldsMore(Current(), block[..index], m, x);
      StoreByte(x);
      CountByte(|m|);
      if index == 64 {
        assert block[..] == block[..64];
        HoldsBlock(Current(), block[..], m + [x]);
        ProcessMessageBlock();
        assert block[..0] == [];
      }
    }

    method Input(chunk: seq<byte>)
      requires Valid()
      modifies this, digest, block
      ensures Valid() && computed == old(computed)
      ensures computed ==> message == old(message) && (late <==> old(late) || chunk != [])
      ensures !computed ==> message == old(message) + chunk && late == old(late)
    {
      hide Holds, Sha1;
      if |chunk| == 0 {
        assert old(message) + chunk == message;
        return;
      }
      if computed || corrupted {
        if computed {
          late := true;
        } else {
          message := message + chunk;
        }
        corrupted := true;
        return;
      }
      InputBytes(message, chunk);
      message := message + chunk;
    }

    /** The loop over the input; it stops when the length overflows. */
    method InputBytes(ghost m: seq<byte>, chunk: seq<byte>)
      requires Shape() && Absorbed(m) && !corrupted
      modifies this`index, this`lengthLow, this`lengthHigh, this`corrupted, digest, block
      ensures corrupted <==> 8 * |m + chunk| >= TWO64
      ensures !corrupted ==> Absorbed(m + chunk)
    {
      hide Absorbed;
      var i := 0;
      assert m + chunk[..0] == m;
      assert 8 * |m| < TWO64 by { AbsorbedFits(m); }
      while i < |chunk| && !corrupted
        invariant 0 <= i <= |chunk|
        invariant corrupted <==> 8 * (|m| + i) >= TWO64
        invariant !corrupted ==> Absorbed(m + chunk[..i])
      {
        InputByte(m + chunk[..i], chunk[i]);
        assert m + chunk[..i] + [chunk[i]] == m + chunk[..i + 1];
        i := i + 1;
      }
      assert i == |chunk| ==> chunk[..i] == chunk;
    }

    lemma AbsorbedFits(m: seq<byte>)
      requires Shape() && Absorbed(m)
      ensures 8 * |m| < TWO64
    {
      hide Holds;
    }

    /** Fills the block with zeros from `index` up to `end`. */
    method ZeroFill(end: nat)
      requires Shape() && index <= end <= 64
      modifies block, this`index
      ensures index == end
      ensures block[..end] == old(block[..index]) + Zeros(end - old(index))
    {
      ghost var start := index;
      while index < end
        invariant start <= index <= end
        invariant block[..index] == old(block[..index]) + Zeros(index - start)
      {
        block[index] := 0;
        index := index + 1;
        assert block[..index] == block[..index - 1] + [0];
      }
    }

    /** One 32-bit word as four octets, most significant first. */
    method StoreWord(at: nat, x: nat)
      requires Shape() && at + 4 <= 64 && x < 0x1_0000_0000
      modifies block
      ensures block[..at + 4] == old(block[..at]) + Octets(x)
    {
      block[at] := (x / 0x100_0000 % 256) as byte;
      block[at + 1] := (x / 0x1_0000 % 256) as byte;
      block[at + 2] := (x / 0x100 % 256) as byte;
      block[at + 3] := (x % 256) as byte;
      assert block[at..at + 4] == Octets(x);
      assert block[..at] == old(block[..at]);
    }

    method StoreLength()
      requires Shape() && lengthLow < 0x1_0000_0000 && lengthHigh < 0x1_0000_0000
      modifies block
      ensures block[..] == old(block[..56]) + BigEndian(lengthHigh * 0x1_0000_0000 + lengthLow, 8)
    {
      hide BigEndian, Octets;
      BigEndianHalves(lengthHigh, lengthLow);
      StoreWord(56, lengthHigh);
      StoreWord(60, lengthLow);
      assert block[..] == block[..64];
      Concat(old(block[..56]), Octets(lengthHigh), Octets(lengthLow));
    }

    /** The last octets of the message fill the block beyond octet 55: pad over two blocks. */
    method PadTwoBlocks(ghost m: seq<byte>, ghost k: nat)
      requires Shape() && k % 64 == 0 && k + 55 < |m| < k + 64
      requires Current() == Hash(H0, m[..k])
      requires index == |m| - k + 1 && block[..index] == m[k..] + [0x80]
      requires lengthLow < 0x1_0000_0000 && lengthHigh < 0x1_0000_0000
      requires lengthHigh * 0x1_0000_0000 + lengthLow == 8 * |m|
      modifies digest, block, this`index
      ensures Current() == Sha1(m)
    {
      hide Compress, Hash, BigEndian;
      ZeroFill(64);
      ghost var first := block[..];
      assert block[..64] == first == m[k..] + [0x80] + Zeros(63 - (|m| - k));
      ProcessMessageBlock();
      HashBlock(H0, m[..k], first);
      ZeroFill(56);
      assert block[..56] == Zeros(56);
      StoreLength();
      PadSplitTwo(m, k);
      HashBlock(H0, m[..k] + first, block[..]);
      ProcessMessageBlock();
    }

    method PadOneBlock(ghost m: seq<byte>, ghost k: nat)
      requires Shape() && k % 64 == 0 && k <= |m| <= k + 55
      requires Current() == Hash(H0, m[..k])
      requires index == |m| - k + 1 && block[..index] == m[k..] + [0x80]
      requires lengthLow < 0x1_0000_0000 && lengthHigh < 0x1_0000_0000
      requires lengthHigh * 0x1_0000_0000 + lengthLow == 8 * |m|
      modifies digest, block, this`index
      ensures Current() == Sha1(m)
    {
      hide Compress, Hash, BigEndian;
      ZeroFill(56);
      StoreLength();
      PadSplitOne(m, k);
      HashBlock(H0, m[..k], block[..]);
      ProcessMessageBlock();
    }

    method PadMessage(ghost m: seq<byte>)
      requires Shape() && Absorbed(m)
      modifies digest, block, this`index
      ensures Current() == Sha1(m)
    {
      hide Hash, Sha1;
      ghost var k, n := |m| - index, index;
      var twoBlocks := index > 55;
      block[index] := 0x80;
      index := index + 1;
      assert block[..index] == m[k..] + [0x80] by {
        assert block[..n] == m[k..];
      }
      if twoBlocks {
        PadTwoBlocks(m, k);
      } else {
        PadOneBlock(m, k);
      }
    }

    method Result() returns (ok: bool)
      requires Valid()
      modifies this`computed, this`index, digest, block
      ensures Valid() && message == old(message) && late == old(late)
      ensures ok <==> !late && 8 * |message| < TWO64
      ensures ok ==> computed && Current() == Sha1(message)
    {
      if corrupted {
        return false;
      }
      if !computed {
        PadMessage(message);
        computed := true;
      }
      return true;
    }
  }

  /** Both words being multiples of eight bits, the low one carries exactly at 2^32 and the high one at 2^64. */
  lemma CountWraps(high: nat, low: nat, n: nat)
    requires low < 0x1_0000_0000 && high < 0x1_0000_0000 && high * 0x1_0000_0000 + low == 8 * n
    ensures low + 8 <= 0x1_0000_0000
    ensures high == 0xFFFF_FFFF && low + 8 == 0x1_0000_0000 <==> 8 * (n + 1) >= TWO64
  {
    assert low == 8 * (n - high * 0x2000_0000);
  }

  /** The digest covers all blocks of the message up to a tail. */
  ghost predicate Holds(d: Digest, tail: seq<byte>, m: seq<byte>) {
    && |tail| <= |m| && (|m| - |tail|) % 64 == 0
    && d == Hash(H0, m[..|m| - |tail|]) && tail == m[|m| - |tail|..]
  }

  lemma HoldsMore(d: Digest, tail: seq<byte>, m: seq<byte>, x: byte)
    requires Holds(d, tail, m)
    ensures Holds(d, tail + [x], m + [x])
  {
    hide Hash;
    var k := |m| - |tail|;
    assert (m + [x])[k..] == m[k..] + [x] && (m + [x])[..k] == m[..k];
  }

  lemma HoldsBlock(d: Digest, block: Block, m: seq<byte>)
    requires Holds(d, block, m)
    ensures Holds(Compress(d, block), [], m)
  {
    hide Hash, Compress;
    var k := |m| - 64;
    SplitAt(m, k);
    HashBlock(H0, m[..k], block);
    assert m[..|m|] == m;
  }

  method ExpandSchedule(block: array<byte>) returns (w: array<Word>)
    requires block.Length == 64
    ensures fresh(w) && w.Length == 80
    ensures forall t :: 0 <= t < 80 ==> w[t] == Schedule(block[..], t)
  {
    hide BigEndianWord, Expanded, Schedule;
    ghost var b: Block := block[..];
    w := new Word[80](i => 0);
    for t := 0 to 16
      invariant forall j :: 0 <= j < t ==> w[j] == Schedule(b, j)
    {
      ScheduleWord(b, t);
      w[t] := BigEndianWord(block[4 * t], block[4 * t + 1], block[4 * t + 2], block[4 * t + 3]);
    }
    for t := 16 to 80
      invariant forall j :: 0 <= j < t ==> w[j] == Schedule(b, j)
    {
      ScheduleExpanded(b, t);
      w[t] := Expanded(w[t - 3], w[t - 8], w[t - 14], w[t - 16]);
    }
  }

  lemma ScheduleWord(b: Block, t: nat)
    requires t < 16
    ensures Schedule(b, t) == BigEndianWord(b[4 * t], b[4 * t + 1], b[4 * t + 2], b[4 * t + 3])
  {
  }

  lemma ScheduleExpanded(b: Block, t: nat)
    requires t >= 16
    ensures Schedule(b, t) ==
            Expanded(Schedule(b, t - 3), Schedule(b, t - 8), Schedule(b, t - 14), Schedule(b, t - 16))
  {
  }

  lemma RoundsStep(g: Digest, b: Block, t: nat)
    ensures Rounds(g, b, t + 1) == Round(Rounds(g, b, t), t, Schedule(b, t))
  {
  }

  method RunRounds(g: Digest, w: array<Word>, ghost b: Block) returns (r: Digest)
    requires w.Length == 80 && forall t :: 0 <= t < 80 ==> w[t] == Schedule(b, t)
    ensures r == Rounds(g, b, 80)
  {
    hide Rounds, Schedule, Rotl5, Rotl30, Choose, Parity, Majority, Sum;
    var A, B, C, D, E := g.a, g.b, g.c, g.d, g.e;
    RoundsNone(g, b);
    for t := 0 to 20
      invariant Digest(A, B, C, D, E) == Rounds(g, b, t)
    {
      RoundsStep(g, b, t);
      var temp := Sum(Rotl5(A), Choose(B, C, D), E, w[t], 0x5A827999);
      A, B, C, D, E := temp, A, Rotl30(B), C, D;
    }
    for t := 20 to 40
      invariant Digest(A, B, C, D, E) == Rounds(g, b, t)
    {
      RoundsStep(g, b, t);
      var temp := Sum(Rotl5(A), Parity(B, C, D), E, w[t], 0x6ED9EBA1);
      A, B, C, D, E := temp, A, Rotl30(B), C, D;
    }
    for t := 40 to 60
      invariant Digest(A, B, C, D, E) == Rounds(g, b, t)
    {
      RoundsStep(g, b, t);
      var temp := Sum(Rotl5(A), Majority(B, C, D), E, w[t], 0x8F1BBCDC);
      A, B, C, D, E := temp, A, Rotl30(B), C, D;
    }
    for t := 60 to 80
      invariant Digest(A, B, C, D, E) == Rounds(g, b, t)
    {
      RoundsStep(g, b, t);
      var temp := Sum(Rotl5(A), Parity(B, C, D), E, w[t], 0xCA62C1D6);
      A, B, C, D, E := temp, A, Rotl30(B), C, D;
    }
    r := Digest(A, B, C, D, E);
  }

  lemma RoundsNone(g: Digest, b: Block)
    ensures Rounds(g, b, 0) == g
  {
  }

  function Octets(x: nat): (s: seq<byte>)
    requires x < 0x1_0000_0000
    ensures |s| == 4
  {
    [(x / 0x100_0000 % 256) as byte, (x / 0x1_0000 % 256) as byte, (x / 0x100 % 256) as byte, (x % 256) as byte]
  }

  lemma BigEndianFour(x: nat)
    requires x < 0x1_0000_0000
    ensures BigEndian(x, 4) == Octets(x)
  {
    var x1, x2, x3 := x / 256, x / 0x1_0000, x / 0x100_0000;
    assert x1 / 256 == x2 && x2 / 256 == x3 && x3 / 256 == 0;
    assert BigEndian(x3, 1) == BigEndian(0, 0) + [(x3 % 256) as byte];
    assert BigEndian(x2, 2) == BigEndian(x3, 1) + [(x2 % 256) as byte];
    assert BigEndian(x1, 3) == BigEndian(x2, 2) + [(x1 % 256) as byte];
    assert BigEndian(x, 4) == BigEndian(x1, 3) + [(x % 256) as byte];
  }

  /** Big-endian octets of a number from those of its upper part and its low octets. */
  lemma {:induction false} BigEndianSplit(hi: nat, lo: nat, len: nat, k: nat)
    requires lo < Pow256(k)
    ensures BigEndian(hi * Pow256(k) + lo, len + k) == BigEndian(hi, len) + BigEndian(lo, k)
    decreases k
  {
    if k > 0 {
      var n := hi * Pow256(k) + lo;
      var p := Pow256(k - 1);
      assert hi * Pow256(k) == 256 * (hi * p);
      assert n / 256 == hi * p + lo / 256 && n % 256 == lo % 256;
      BigEndianSplit(hi, lo / 256, len, k - 1);
    }
  }

  lemma PowFour()
    ensures Pow256(4) == 0x1_0000_0000
  {
    assert Pow256(1) == 256 && Pow256(2) == 0x1_0000 && Pow256(3) == 0x100_0000;
  }

  lemma BigEndianHalves(hi: nat, lo: nat)
    requires hi < 0x1_0000_0000 && lo < 0x1_0000_0000
    ensures BigEndian(hi * 0x1_0000_0000 + lo, 8) == Octets(hi) + Octets(lo)
  {
    PowFour();
    hide Pow256, BigEndian, Octets;
    BigEndianSplit(hi, lo, 4, 4);
    BigEndianFour(hi);
    BigEndianFour(lo);
  }

  lemma ZerosOne(len: nat, k: nat)
    requires k <= len <= k + 55 && k % 64 == 0
    ensures ZeroCount(len) == 55 - (len - k)
  {
  }

  lemma ZerosTwo(len: nat, k: nat)
    requires k + 55 < len < k + 64 && k % 64 == 0
    ensures ZeroCount(len) == 119 - (len - k)
  {
  }

  lemma PadIs(m: seq<byte>)
    ensures Pad(m) == m + [0x80] + Zeros(ZeroCount(|m|)) + BigEndian(8 * |m|, 8)
  {
    hide BigEndian, Zeros, ZeroCount;
  }

  /** The padded message, seen from the last block boundary `k` of the message. */
  lemma PadSplitOne(m: seq<byte>, k: nat)
    requires k <= |m| <= k + 55 && k % 64 == 0
    ensures Pad(m) == m[..k] + (m[k..] + [0x80] + Zeros(55 - (|m| - k)) + BigEndian(8 * |m|, 8))
  {
    hide BigEndian, Zeros, Pad, ZeroCount;
    ZerosOne(|m|, k);
    PadIs(m);
    SplitAt(m, k);
    RegroupOne(m[..k], m[k..], [0x80], Zeros(55 - (|m| - k)), BigEndian(8 * |m|, 8));
  }

  lemma PadSplitTwo(m: seq<byte>, k: nat)
    requires k + 55 < |m| < k + 64 && k % 64 == 0
    ensures Pad(m) == m[..k] + (m[k..] + [0x80] + Zeros(63 - (|m| - k))) + (Zeros(56) + BigEndian(8 * |m|, 8))
  {
    hide BigEndian, Zeros, Pad, ZeroCount;
    var n := |m| - k;
    ZerosTwo(|m|, k);
    PadIs(m);
    SplitAt(m, k);
    ZerosSplit(63 - n, 56);
    RegroupTwo(m[..k], m[k..], [0x80], Zeros(63 - n), Zeros(56), BigEndian(8 * |m|, 8));
  }

  lemma ZerosSplit(a: nat, b: nat)
    ensures Zeros(a + b) == Zeros(a) + Zeros(b)
  {
  }

  lemma RegroupOne<T>(a: seq<T>, b: seq<T>, c: seq<T>, d: seq<T>, e: seq<T>)
    ensures a + b + c + d + e == a + (b + c + d + e)
  {
  }

  lemma RegroupTwo<T>(a: seq<T>, b: seq<T>, c: seq<T>, d: seq<T>, e: seq<T>, f: seq<T>)
    ensures a + b + c + (d + e) + f == a + (b + c + d) + (e + f)
  {
    Concat(a + b + c, d, e);
    Concat(a + b + c + d, e, f);
    RegroupOne(a, b, c, d, []);
    assert b + c + d + [] == b + c + d && a + b + c + d + [] == a + b + c + d;
  }

  /**
   Streaming equals one-shot: for every message and every way of cutting it into pieces, the digest is
   the standard's digest of the whole, and the result fails exactly when the message has 2^64 bits or more.
   */
  method HashPieces(pieces: seq<seq<byte>>) returns (ok: bool, d: Digest)
    ensures ok <==> 8 * |Flatten(pieces)| < TWO64
    ensures ok ==> d == Sha1(Flatten(pieces))
  {
    var ctx := new SHA1Context();
    for i := 0 to |pieces|
      invariant ctx.Valid() && fresh(ctx) && fresh(ctx.digest) && fresh(ctx.block)
      invariant !ctx.computed && !ctx.late && ctx.message == Flatten(pieces[..i])
    {
      ctx.Input(pieces[i]);
      assert pieces[..i + 1] == pieces[..i] + [pieces[i]];
      FlattenAppend(pieces[..i], [pieces[i]]);
      FlattenSingle(pieces[i]);
    }
    assert pieces[..|pieces|] == pieces;
    ok := ctx.Result();
    d := Digest(ctx.digest[0], ctx.digest[1], ctx.digest[2], ctx.digest[3], ctx.digest[4]);
  }
}
