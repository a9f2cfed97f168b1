/**
 The two Internet checksum routines, TCP/src/tcp_sum.c and `cksum` of Router/src/router/sr_utils.c, on a
 little-endian host: a 16-bit value v is stored as the octets v % 256, v / 256.
 */
module Checksum {
  import opened Base

  const TCP_HEADER_LEN: int := 20
  const SUM_OFFSET: int := 16  // th_sum
  const TWO32: int := 0x1_0000_0000

  type Address = a: seq<byte> | |a| == 4 witness [0, 0, 0, 0]

  // ---- sums of 16-bit words ----

  function LittleWord(d: seq<byte>, k: nat): nat
    requires 2 * k + 1 < |d|
  {
    d[2 * k] as int + 256 * d[2 * k + 1] as int
  }

  function BigWord(d: seq<byte>, k: nat): nat
    requires 2 * k + 1 < |d|
  {
    256 * d[2 * k] as int + d[2 * k + 1] as int
  }

  function LittleWords(d: seq<byte>, k: nat): nat
    requires 2 * k <= |d|
  {
    if k == 0 then 0 else LittleWords(d, k - 1) + LittleWord(d, k - 1)
  }

  function BigWords(d: seq<byte>, k: nat): nat
    requires 2 * k <= |d|
  {
    if k == 0 then 0 else BigWords(d, k - 1) + BigWord(d, k - 1)
  }

  /** All words; an odd last octet is followed by a zero octet. */
  function LittleSum(d: seq<byte>): nat {
    LittleWords(d, |d| / 2) + (if |d| % 2 == 1 then d[|d| - 1] as int else 0)
  }

  function BigSum(d: seq<byte>): nat {
    BigWords(d, |d| / 2) + (if |d| % 2 == 1 then 256 * d[|d| - 1] as int else 0)
  }

  // ---- folding ----

  /** The ones' complement representative of a sum: zero only for zero, otherwise 1 to 65535. */
  function Folded(s: nat): nat {
    if s == 0 then 0 else 1 + (s - 1) % 65535
  }

  function Swap(v: nat): nat { v % 256 * 256 + v / 256 }

  lemma FoldOnce(s: nat)
    ensures Folded(s / 65536 + s % 65536) == Folded(s)
  {
    var t := s / 65536 + s % 65536;
    assert s == t + 65535 * (s / 65536);
    if s > 0 {
      assert t > 0;
      assert (s - 1) % 65535 == (t - 1) % 65535;
    }
  }

  /** Two folds, the second one a carry-in whose overflow the cast drops, suffice for 32-bit sums. */
  lemma TwoFoldsSuffice(s: nat)
    requires s < TWO32
    ensures var x := s / 65536 + s % 65536;
            (x + x / 65536) % 65536 == Folded(s)
  {
    var x := s / 65536 + s % 65536;
    FoldOnce(s);
    if x < 65536 {
      assert x / 65536 == 0;
    } else {
      assert x == 65536 + (x - 65536) && x - 65536 < 65535;
      assert (x - 1) % 65535 == x - 65536;
    }
  }

  // ---- byte order does not matter ----

  lemma {:induction false} WordsSwap(d: seq<byte>, k: nat)
    requires 2 * k <= |d|
    ensures (256 * BigWords(d, k) - LittleWords(d, k)) % 65535 == 0
  {
    if k > 0 {
      WordsSwap(d, k - 1);
      var x := d[2 * k - 2] as int;
      assert 256 * BigWord(d, k - 1) - LittleWord(d, k - 1) == 65535 * x;
      AddMultiples(256 * BigWords(d, k - 1) - LittleWords(d, k - 1), 65535 * x, 0);
    }
  }

  lemma {:induction false} WordsZero(d: seq<byte>, k: nat)
    requires 2 * k <= |d|
    ensures BigWords(d, k) == 0 <==> LittleWords(d, k) == 0
  {
    if k > 0 {
      WordsZero(d, k - 1);
    }
  }

  lemma SumSwap(d: seq<byte>)
    ensures (256 * BigSum(d) - LittleSum(d)) % 65535 == 0
    ensures BigSum(d) == 0 <==> LittleSum(d) == 0
  {
    WordsSwap(d, |d| / 2);
    WordsZero(d, |d| / 2);
    hide BigWords, LittleWords;
    if |d| % 2 == 1 {
      AddMultiples(256 * BigWords(d, |d| / 2) - LittleWords(d, |d| / 2), 65535 * d[|d| - 1] as int, 0);
    }
  }

  /** Folding congruent sums gives the same result, up to the two encodings of zero. */
  lemma FoldedCongruent(s: nat, t: nat)
    ensures (s - t) % 65535 == 0 && (s == 0 <==> t == 0) <==> Folded(s) == Folded(t)
  {
    if s > 0 && t > 0 {
      var q, r := (s - 1) / 65535, (t - 1) / 65535;
      assert s - t == 65535 * (q - r) + Folded(s) - Folded(t);
    }
  }

  /** Summing byte-swapped words is swapping the folded sum. */
  lemma SwapCommutes(d: seq<byte>)
    ensures Folded(LittleSum(d)) == Swap(Folded(BigSum(d)))
  {
    FoldedRange(BigSum(d));
    hide Folded, Swap, LittleSum, BigSum;
    var b := Folded(BigSum(d));
    SumSwap(d);
    FoldedFixed(b);
    FoldedCongruent(BigSum(d), b);
    SwapCongruent(b);
    FoldedFixed(Swap(b));
    assert (256 * b - 256 * BigSum(d)) % 65535 == 0 by { Scale256(b - BigSum(d)); }
    AddMultiples(Swap(b) - 256 * b, 256 * b - 256 * BigSum(d), 256 * BigSum(d) - LittleSum(d));
    FoldedCongruent(Swap(b), LittleSum(d));
  }

  lemma FoldedRange(s: nat)
    ensures Folded(s) <= 65535 && (Folded(s) == 0 <==> s == 0)
  {
  }

  lemma FoldedFixed(v: nat)
    requires v <= 65535
    ensures Folded(v) == v
  {
  }

  lemma SwapCongruent(v: nat)
    requires v <= 65535
    ensures (Swap(v) - 256 * v) % 65535 == 0 && Swap(v) <= 65535 && (Swap(v) == 0 <==> v == 0)
    ensures Swap(Swap(v)) == v && Swap(65535 - v) == 65535 - Swap(v)
  {
    var hi, lo := v / 256, v % 256;
    SwapParts(hi, lo);
    SwapParts(lo, hi);
    SwapParts(255 - hi, 255 - lo);
    assert v == 256 * hi + lo;
    hide Swap;
    assert Swap(v) - 256 * v == -65535 * hi;
  }

  lemma SwapParts(hi: nat, lo: nat)
    requires hi < 256 && lo < 256
    ensures Swap(256 * hi + lo) == 256 * lo + hi
  {
    assert (256 * hi + lo) % 256 == lo && (256 * hi + lo) / 256 == hi;
  }

  lemma Scale256(x: int)
    requires x % 65535 == 0
    ensures (256 * x) % 65535 == 0
  {
    assert 256 * x == 65535 * (256 * (x / 65535));
  }

  lemma AddMultiples(x: int, y: int, z: int)
    requires x % 65535 == 0 && y % 65535 == 0 && z % 65535 == 0
    ensures (x + y + z) % 65535 == 0
  {
  }

  // ---- cksum ----

  /** The value returned by `cksum` for a sum: `htons` of the complement, zero replaced. */
  function CksumOf(sum: nat): nat {
    var v := Swap(65535 - Folded(sum));
    if v == 0 then 0xffff else v
  }

  /** Folding until the sum fits 16 bits ends, and preserves it modulo 65535. */
  method FoldLoop(total: nat) returns (sum: nat)
    ensures sum == Folded(total) && sum <= 0xffff
  {
    sum := total;
    while sum > 0xffff
      invariant Folded(sum) == Folded(total)
      decreases sum
    {
      FoldOnce(sum);
      sum := sum / 65536 + sum % 65536;
    }
    FoldedFixed(sum);
  }

  lemma WrapSum(x: nat, w: nat)
    ensures (x % TWO32 + w) % TWO32 == (x + w) % TWO32
  {
  }

  /** The sum is kept in 32 bits. */
  method Cksum(data: seq<byte>) returns (r: nat)
    ensures r == CksumOf(BigSum(data) % TWO32)
    ensures 0 < r <= 0xffff
  {
    hide Folded, Swap;
    var sum, k := 0, 0;
    while 2 * k + 2 <= |data|
      invariant 2 * k <= |data| && sum == BigWords(data, k) % TWO32
    {
      WrapSum(BigWords(data, k), BigWord(data, k));
      sum := (sum + (256 * data[2 * k] as int + data[2 * k + 1] as int)) % TWO32;
      k := k + 1;
    }
    assert k == |data| / 2;
    if |data| - 2 * k > 0 {
      WrapSum(BigWords(data, k), 256 * data[2 * k] as int);
      sum := (sum + 256 * data[2 * k] as int) % TWO32;
    }
    assert sum == BigSum(data) % TWO32;
    hide BigSum, BigWords;
    sum := FoldLoop(sum);
    SwapCongruent(65535 - sum);
    sum := Swap(65535 - sum);
    r := if sum != 0 then sum else 0xffff;
  }

  // ---- the TCP checksum ----

  /** Octets of the pseudo header: source, destination, 0, protocol 6, length in network order. */
  function PseudoHeader(src: Address, dst: Address, len: nat): (h: seq<byte>)
    requires len < 65536
    ensures |h| == 12
  {
    src + dst + [0, 6, (len / 256) as byte, (len % 256) as byte]
  }

  function Cleared(p: seq<byte>): seq<byte>
    requires TCP_HEADER_LEN <= |p|
  {
    p[SUM_OFFSET := 0][SUM_OFFSET + 1 := 0]
  }

  predicate Sized(p: seq<byte>) { 20 <= |p| <= 1500 }

  /** The checksum as RFC 793 words it: over the pseudo header and the packet with th_sum as zero. */
  function TcpSum(src: Address, dst: Address, p: seq<byte>): nat
    requires Sized(p)
  {
    65535 - Folded(LittleSum(PseudoHeader(src, dst, |p|)) + LittleSum(Cleared(p)))
  }

  lemma {:induction false} WordsBound(d: seq<byte>, k: nat)
    requires 2 * k <= |d|
    ensures LittleWords(d, k) <= 65535 * k && BigWords(d, k) <= 65535 * k
  {
    if k > 0 {
      WordsBound(d, k - 1);
    }
  }

  lemma {:induction false} WordsAgree(d: seq<byte>, e: seq<byte>, k: nat)
    requires 2 * k <= |d| && 2 * k <= |e| && d[..2 * k] == e[..2 * k]
    ensures LittleWords(d, k) == LittleWords(e, k) && BigWords(d, k) == BigWords(e, k)
  {
    if k > 0 {
      assert d[..2 * k][..2 * k - 2] == d[..2 * k - 2] && e[..2 * k][..2 * k - 2] == e[..2 * k - 2];
      WordsAgree(d, e, k - 1);
      assert d[2 * k - 2] == d[..2 * k][2 * k - 2] && e[2 * k - 2] == e[..2 * k][2 * k - 2];
      assert d[2 * k - 1] == d[..2 * k][2 * k - 1] && e[2 * k - 1] == e[..2 * k][2 * k - 1];
    }
  }

  /** The loop over the packet skips the th_sum word. */
  method SumPacket(p: seq<byte>) returns (sum: nat)
    requires Sized(p)
    ensures sum == LittleSum(Cleared(p))
  {
    sum := 0;
    ghost var c := Cleared(p);
    for k := 0 to |p| / 2
      invariant sum == LittleWords(c, k)
    {
      if k != SUM_OFFSET / 2 {
        sum := sum + LittleWord(p, k);
      }
    }
    if |p| % 2 == 1 {
      sum := sum + p[|p| - 1] as int;
    }
  }

  lemma SumFits(header: seq<byte>, p: seq<byte>)
    requires |header| == 12 && |p| <= 1500
    ensures LittleSum(header) + LittleSum(p) < 0x8000_0000
  {
    WordsBound(header, 6);
    WordsBound(p, |p| / 2);
  }

  /** `_mysock_tcp_checksum`: the sum fits `int32_t` and is folded twice. */
  method TcpChecksum(src: Address, dst: Address, p: seq<byte>) returns (r: nat)
    requires Sized(p)
    ensures r == TcpSum(src, dst, p)
  {
    hide Folded, PseudoHeader;
    var header := PseudoHeader(src, dst, |p|);
    var sum := 0;
    for k := 0 to 6
      invariant sum == LittleWords(header, k)
    {
      sum := sum + LittleWord(header, k);
    }
    var body := SumPacket(p);
    assert sum == LittleSum(header);
    hide LittleSum;
    sum := sum + body;
    SumFits(header, Cleared(p));
    TwoFoldsSuffice(sum);
    sum := sum / 65536 + sum % 65536;
    sum := sum + sum / 65536;
    r := 65535 - sum % 65536;
  }

  // ---- the two routines agree ----

  lemma {:induction false} WordsAppend(a: seq<byte>, b: seq<byte>, k: nat)
    requires |a| % 2 == 0 && 2 * k <= |b|
    ensures LittleWords(a + b, |a| / 2 + k) == LittleWords(a, |a| / 2) + LittleWords(b, k)
    ensures BigWords(a + b, |a| / 2 + k) == BigWords(a, |a| / 2) + BigWords(b, k)
  {
    if k == 0 {
      assert (a + b)[..|a|] == a[..|a|];
      WordsAgree(a + b, a, |a| / 2);
    } else {
      WordsAppend(a, b, k - 1);
    }
  }

  lemma SumAppend(a: seq<byte>, b: seq<byte>)
    requires |a| % 2 == 0
    ensures LittleSum(a + b) == LittleSum(a) + LittleSum(b)
    ensures BigSum(a + b) == BigSum(a) + BigSum(b)
  {
    WordsAppend(a, b, |b| / 2);
    assert |a + b| / 2 == |a| / 2 + |b| / 2;
  }

  /**
   On every TCP packet the two routines store the same octets, except that where `_mysock_tcp_checksum`
   stores zero `cksum` stores the other encoding of zero.
   */
  lemma RoutinesAgree(src: Address, dst: Address, p: seq<byte>)
    requires Sized(p)
    ensures var d := PseudoHeader(src, dst, |p|) + Cleared(p);
            var t := TcpSum(src, dst, p);
            && BigSum(d) < TWO32
            && CksumOf(BigSum(d)) == if t == 0 then 0xffff else t
  {
    hide LittleWords, BigWords;
    var d := PseudoHeader(src, dst, |p|) + Cleared(p);
    SumAppend(PseudoHeader(src, dst, |p|), Cleared(p));
    SwapCommutes(d);
    WordsBound(d, |d| / 2);
    SwapCongruent(Folded(BigSum(d)));
  }

  // ---- setting, then verifying ----

  /** The packet with the checksum stored in native order. */
  function Stamped(src: Address, dst: Address, p: seq<byte>): (q: seq<byte>)
    requires Sized(p)
    ensures |q| == |p|
  {
    var t := TcpSum(src, dst, p);
    p[SUM_OFFSET := (t % 256) as byte][SUM_OFFSET + 1 := (t / 256) as byte]
  }

  predicate Verifies(src: Address, dst: Address, p: seq<byte>)
    requires Sized(p)
  {
    TcpSum(src, dst, p) == LittleWord(p, SUM_OFFSET / 2)
  }

  method SetChecksum(src: Address, dst: Address, packet: array<byte>)
    requires Sized(packet[..])
    modifies packet
    ensures packet[..] == Stamped(src, dst, old(packet[..]))
  {
    var t := TcpChecksum(src, dst, packet[..]);
    packet[SUM_OFFSET] := (t % 256) as byte;
    packet[SUM_OFFSET + 1] := (t / 256) as byte;
  }

  method VerifyChecksum(src: Address, dst: Address, packet: array<byte>) returns (ok: bool)
    requires Sized(packet[..])
    ensures ok <==> Verifies(src, dst, packet[..])
  {
    var mine := TcpChecksum(src, dst, packet[..]);
    ok := mine == packet[SUM_OFFSET] as int + 256 * packet[SUM_OFFSET + 1] as int;
  }

  lemma AddressesCommute(src: Address, dst: Address, p: seq<byte>)
    requires Sized(p)
    ensures TcpSum(src, dst, p) == TcpSum(dst, src, p)
  {
    var rest := [0, 6, (|p| / 256) as byte, (|p| % 256) as byte];
    SumAppend(src + dst, rest);
    SumAppend(dst + src, rest);
    SumAppend(src, dst);
    SumAppend(dst, src);
  }

  /** A stamped packet verifies, with the addresses either way round. */
  lemma StampedVerifies(src: Address, dst: Address, p: seq<byte>)
    requires Sized(p)
    ensures Verifies(src, dst, Stamped(src, dst, p)) && Verifies(dst, src, Stamped(src, dst, p))
  {
    var q := Stamped(src, dst, p);
    assert Cleared(q) == Cleared(p);
    AddressesCommute(src, dst, q);
  }

  lemma {:induction false} WordsUpdate(d: seq<byte>, i: nat, v: byte, k: nat)
    requires i < |d| && 2 * k <= |d|
    ensures LittleWords(d[i := v], k) - LittleWords(d, k) ==
            if i >= 2 * k then 0 else if i % 2 == 0 then v as int - d[i] as int else 256 * (v as int - d[i] as int)
    ensures BigWords(d[i := v], k) - BigWords(d, k) ==
            if i >= 2 * k then 0 else if i % 2 == 1 then v as int - d[i] as int else 256 * (v as int - d[i] as int)
  {
    if k > 0 {
      WordsUpdate(d, i, v, k - 1);
    }
  }

  /** Any change of a single octet of a stamped packet is detected. */
  lemma OneOctetDetected(src: Address, dst: Address, p: seq<byte>, i: nat, v: byte)
    requires Sized(p) && i < |p| && Verifies(src, dst, p) && v != p[i]
    ensures !Verifies(src, dst, p[i := v])
  {
    hide Folded, LittleSum, PseudoHeader;
    var q := p[i := v];
    if i == SUM_OFFSET || i == SUM_OFFSET + 1 {
      assert Cleared(q) == Cleared(p);
    } else {
      assert Cleared(q) == Cleared(p)[i := v] && Cleared(p)[i] == p[i];
      assert LittleWord(q, SUM_OFFSET / 2) == LittleWord(p, SUM_OFFSET / 2);
      hide Cleared, LittleWord;
      OctetChangesSum(Cleared(p), i, v);
      var h := LittleSum(PseudoHeader(src, dst, |p|));
      FoldedDiffer(h + LittleSum(Cleared(p)), h + LittleSum(Cleared(q)));
    }
  }

  /** One octet changes the sum by less than 65535. */
  lemma OctetChangesSum(d: seq<byte>, i: nat, v: byte)
    requires i < |d| && v != d[i]
    ensures LittleSum(d[i := v]) != LittleSum(d) && -65535 < LittleSum(d[i := v]) - LittleSum(d) < 65535
  {
    hide LittleWords;
    WordsUpdate(d, i, v, |d| / 2);
  }

  lemma FoldedDiffer(s: nat, t: nat)
    requires s != t && -65535 < s - t < 65535
    ensures Folded(s) != Folded(t)
  {
    FoldedCongruent(s, t);
  }

  /** Storing `cksum` of a block in a zeroed field at an even offset makes `cksum` of the block 0xffff. */
  lemma StoredCksumChecks(d: seq<byte>, i: nat)
    requires i % 2 == 0 && i + 1 < |d| && d[i] == 0 && d[i + 1] == 0
    requires BigSum(d) + 65535 < TWO32
    ensures var c := CksumOf(BigSum(d));
            var d' := d[i := (c % 256) as byte][i + 1 := (c / 256) as byte];
            BigSum(d') < TWO32 && CksumOf(BigSum(d')) == 0xffff
  {
    var c := CksumOf(BigSum(d));
    FoldedRange(BigSum(d));
    SwapCongruent(65535 - Folded(BigSum(d)));
    FieldSum(d, i, c);
    ComplementCancels(BigSum(d));
  }

  lemma FieldSum(d: seq<byte>, i: nat, c: nat)
    requires i % 2 == 0 && i + 1 < |d| && d[i] == 0 && d[i + 1] == 0 && c <= 65535
    ensures BigSum(d[i := (c % 256) as byte][i + 1 := (c / 256) as byte]) == BigSum(d) + Swap(c)
  {
    hide BigWords, LittleWords;
    var d1 := d[i := (c % 256) as byte];
    WordsUpdate(d, i, (c % 256) as byte, |d| / 2);
    WordsUpdate(d1, i + 1, (c / 256) as byte, |d| / 2);
  }

  /** Adding the stored checksum to the sum it was taken from folds to 0xffff. */
  lemma ComplementCancels(s: nat)
    ensures CksumOf(s + Swap(CksumOf(s))) == 0xffff && Swap(CksumOf(s)) <= 65535
  {
    var f := Folded(s);
    FoldedRange(s);
    FoldedFixed(f);
    FoldedCongruent(s, f);
    SwapCongruent(65535 - f);
    var w := Swap(CksumOf(s));
    assert w == if f == 65535 then 65535 else 65535 - f;
    hide Folded, Swap;
    assert (s - f) % 65535 == 0;
    AddMultiples(s - f, w + f - 65535, 0);
    FoldedCongruent(s + w, 65535);
    FoldedFixed(65535);
    SwapCongruent(0);
  }

  // ---- the octets, in so many words ----

  /** The pseudo header: the addresses, a zero octet, protocol 6, and the length, most significant octet first. */
  lemma PseudoHeaderOctets(src: Address, dst: Address, len: nat)
    requires len < 65536
    ensures var h := PseudoHeader(src, dst, len);
            && h[..4] == src && h[4..8] == dst && h[8] == 0 && h[9] == 6
            && 256 * h[10] as int + h[11] as int == len
  {
  }

  /** A stamp writes octets 16 and 17 only, least significant first. */
  lemma StampedOctets(src: Address, dst: Address, p: seq<byte>)
    requires Sized(p)
    ensures var q := Stamped(src, dst, p);
            && q[16] as int + 256 * q[17] as int == TcpSum(src, dst, p)
            && forall i :: 0 <= i < |p| && i != 16 && i != 17 ==> q[i] == p[i]
  {
    hide TcpSum;
    assert TcpSum(src, dst, p) <= 65535 by { SumRange(src, dst, p); }
  }

  lemma SumRange(src: Address, dst: Address, p: seq<byte>)
    requires Sized(p)
    ensures TcpSum(src, dst, p) <= 65535
  {
    FoldedRange(LittleSum(PseudoHeader(src, dst, |p|)) + LittleSum(Cleared(p)));
    hide Folded, LittleSum, PseudoHeader;
  }

  /**
   The check that section 3.1 of RFC 793 and section 1 of RFC 1071 ask for: over the pseudo header and the stamped
   packet the big-endian 16-bit words sum to a multiple of 65535.
   */
  lemma StampedSumsToZero(src: Address, dst: Address, p: seq<byte>)
    requires Sized(p)
    ensures var h := [src[0], src[1], src[2], src[3], dst[0], dst[1], dst[2], dst[3],
                      0, 6, (|p| / 256) as byte, (|p| % 256) as byte];
            BigSum(h + Stamped(src, dst, p)) % 65535 == 0
  {
    var h, q := PseudoHeader(src, dst, |p|), Stamped(src, dst, p);
    assert h == [src[0], src[1], src[2], src[3], dst[0], dst[1], dst[2], dst[3],
                 0, 6, (|p| / 256) as byte, (|p| % 256) as byte];
    StampedWord(src, dst, p);
    hide PseudoHeader, Stamped, LittleSum, BigSum, Cleared, TcpSum;
    SumAppend(h, q);
    var s := LittleSum(h) + LittleSum(Cleared(p));
    assert LittleSum(h + q) == s + TcpSum(src, dst, p);
    assert (s + TcpSum(src, dst, p)) % 65535 == 0 by { SumComplements(src, dst, p); }
    SumSwap(h + q);
    HalfTurn(BigSum(h + q), LittleSum(h + q));
  }

  lemma SumComplements(src: Address, dst: Address, p: seq<byte>)
    requires Sized(p)
    ensures (LittleSum(PseudoHeader(src, dst, |p|)) + LittleSum(Cleared(p)) + TcpSum(src, dst, p)) % 65535 == 0
  {
    hide LittleSum, PseudoHeader, Cleared;
    var s := LittleSum(PseudoHeader(src, dst, |p|)) + LittleSum(Cleared(p));
    FoldedRange(s);
    FoldedFixed(Folded(s));
    FoldedCongruent(s, Folded(s));
    hide Folded;
    assert (s - Folded(s) + 65535) % 65535 == 0;
  }

  /** Swapped words sum to a multiple of 65535 together. */
  lemma HalfTurn(big: nat, little: nat)
    requires (256 * big - little) % 65535 == 0 && little % 65535 == 0
    ensures big % 65535 == 0
  {
    AddMultiples(256 * big - little, little, 0);
    Scale256(256 * big);
    assert 256 * (256 * big) == big + 65535 * big;
    AddMultiples(256 * (256 * big), -65535 * big, 0);
  }

  lemma StampedWord(src: Address, dst: Address, p: seq<byte>)
    requires Sized(p)
    ensures LittleSum(Stamped(src, dst, p)) == LittleSum(Cleared(p)) + TcpSum(src, dst, p)
  {
    SumRange(src, dst, p);
    var t := TcpSum(src, dst, p);
    hide TcpSum, LittleWords;
    var c := Cleared(p);
    var c1 := c[16 := (t % 256) as byte];
    assert Stamped(src, dst, p) == c1[17 := (t / 256) as byte];
    WordsUpdate(c, 16, (t % 256) as byte, |p| / 2);
    WordsUpdate(c1, 17, (t / 256) as byte, |p| / 2);
  }

  /** The example of section 3 of RFC 1071: the words sum to 2ddf0, which folds to ddf2, whose complement is 220d. */
  lemma Rfc1071Example()
    ensures BigSum([0x00, 0x01, 0xf2, 0x03, 0xf4, 0xf5, 0xf6, 0xf7]) == 0x2ddf0
    ensures CksumOf(0x2ddf0) == Swap(0x220d)
  {
    var d: seq<byte> := [0x00, 0x01, 0xf2, 0x03, 0xf4, 0xf5, 0xf6, 0xf7];
    assert BigWords(d, 1) == 0x0001 && BigWords(d, 2) == 0xf204 && BigWords(d, 3) == 0x1e6f9;
  }
}
