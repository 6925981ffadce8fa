/** The checksum that guards the transport's packets (section 1 of RFC 1071), and what it notices. */
module Checksum {
  import opened Arith

  const MAX_PACKET: nat := 512

  function Word(high: nat, low: nat): nat
  {
    256 * high + low
  }

  /** The sum of the big-endian words of the bytes, a last odd byte counting as the high half of one. */
  function WordSum(data: seq<byte>): nat
  {
    if data == [] then 0
    else if |data| == 1 then Word(data[0], 0)
    else Word(data[0], data[1]) + WordSum(data[2..])
  }

  /** What the checksum says about a sum: its residue modulo 65535, complemented and never zero. */
  function Complement(sum: nat): (c: nat)
    ensures 0 < c <= 0xffff
  {
    0xffff - sum % 0xffff
  }

  /** The example of section 3 of RFC 1071. */
  lemma KnownAnswer(data: seq<byte>)
    requires data == [0x00, 0x01, 0xf2, 0x03, 0xf4, 0xf5, 0xf6, 0xf7]
    ensures Complement(WordSum(data)) == 0x220d
  {
    assert data[2..] == [0xf2, 0x03, 0xf4, 0xf5, 0xf6, 0xf7] && data[2..][2..] == [0xf4, 0xf5, 0xf6, 0xf7];
    assert data[2..][2..][2..] == [0xf6, 0xf7] && data[2..][2..][2..][2..] == [];
    assert WordSum(data[2..][2..][2..]) == 0xf6f7;
    assert WordSum(data[2..][2..]) == 0xf4f5 + 0xf6f7;
  }

  lemma ComplementTells(a: nat, b: nat)
    ensures Complement(a) == Complement(b) <==> a % 0xffff == b % 0xffff
  {
  }

  /** Adding the carries in keeps the residue, and zero stays apart. */
  lemma FoldKeeps(sum: nat)
    requires sum > 0xffff
    ensures var s := sum / 0x1_0000 + sum % 0x1_0000;
      0 < s < sum && s % 0xffff == sum % 0xffff
  {
    var q, r := sum / 0x1_0000, sum % 0x1_0000;
    assert sum == q * 0xffff + (q + r);
    var d, e := (q + r) / 0xffff, (q + r) % 0xffff;
    MulAdd(q, d, 0xffff);
    DivModUnique(q + d, 0xffff, e);
  }

  lemma {:induction false} WordSumBound(data: seq<byte>)
    ensures WordSum(data) <= 0xffff * ((|data| + 1) / 2)
  {
    if |data| >= 2 {
      WordSumBound(data[2..]);
    }
  }

  lemma {:induction false} WordSumMost(n: nat)
    ensures WordSum(seq(2 * n, _ => 255)) == 0xffff * n
  {
    if n > 0 {
      var s := seq(2 * n, _ => 255 as byte);
      assert s[2..] == seq(2 * (n - 1), _ => 255);
      WordSumMost(n - 1);
    }
  }

  /** The 32-bit sum cannot overflow for any bytes exactly up to this length, far above a packet's. */
  lemma SumFits(n: nat)
    ensures (forall data: seq<byte> :: |data| == 2 * n ==> WordSum(data) < 0x1_0000_0000) <==> n <= 0x1_0001
  {
    if n <= 0x1_0001 {
      forall data: seq<byte> | |data| == 2 * n
        ensures WordSum(data) < 0x1_0000_0000
      {
        WordSumBound(data);
      }
    } else {
      WordSumMost(n);
      assert |seq(2 * n, _ => 255 as byte)| == 2 * n;
    }
  }

  /** cksum: the two bytes it is stored in, high byte first, as one number. */
  method Cksum(data: seq<byte>) returns (c: nat)
    requires |data| <= MAX_PACKET
    ensures c == Complement(WordSum(data))
  {
    var sum: nat, i: nat := 0, 0;
    assert data[0..] == data;
    while |data| - i >= 2
      invariant i <= |data| && sum + WordSum(data[i..]) == WordSum(data)
      decreases |data| - i
    {
      assert data[i..][2..] == data[i + 2..];
      sum := sum + Word(data[i], data[i + 1]);
      i := i + 2;
    }
    if |data| - i > 0 {
      assert data[i..] == [data[i]];
      sum := sum + Word(data[i], 0);
    }
    assert sum == WordSum(data);
    while sum > 0xffff
      invariant sum % 0xffff == WordSum(data) % 0xffff
      decreases sum
    {
      FoldKeeps(sum);
      sum := sum / 0x1_0000 + sum % 0x1_0000;
    }
    c := 0xffff - sum;
    if c == 0 {
      c := 0xffff;
    }
  }

  // ---------------------------------------------------------------------------------------------
  // Packets
  // ---------------------------------------------------------------------------------------------

  /** The bytes of a packet: the checksum, the length, the ackno, and for data the seqno and the payload. */
  predicate Packet(p: seq<byte>)
  {
    8 <= |p| <= MAX_PACKET && LengthField(p) == |p|
  }

  function LengthField(p: seq<byte>): nat
    requires |p| >= 4
  {
    Word(p[2], p[3])
  }

  function Stored(p: seq<byte>): nat
    requires |p| >= 2
  {
    Word(p[0], p[1])
  }

  /** The packet with its checksum set to zero. */
  function Cleared(p: seq<byte>): (r: seq<byte>)
    requires |p| >= 2
    ensures |r| == |p|
  {
    [0, 0] + p[2..]
  }

  /** What checksum_matches finds out, in a buffer that may be longer than the packet. */
  predicate Matches(buffer: seq<byte>)
    requires |buffer| == MAX_PACKET
  {
    var len := LengthField(buffer);
    0 < len <= MAX_PACKET && Stored(buffer) == Complement(WordSum(Cleared(buffer)[..len]))
  }

  method ChecksumMatches(buffer: array<byte>) returns (ok: bool)
    requires buffer.Length == MAX_PACKET
    modifies buffer
    ensures buffer[..] == old(buffer[..])
    ensures ok <==> Matches(buffer[..])
  {
    var len := Word(buffer[2], buffer[3]);
    if len == 0 || len > MAX_PACKET {
      return false;
    }
    var c0, c1 := buffer[0], buffer[1];
    ghost var was := buffer[..];
    buffer[0], buffer[1] := 0, 0;
    assert buffer[..] == Cleared(was);
    var computed := Cksum(buffer[..len]);
    buffer[0], buffer[1] := c0, c1;
    assert buffer[..] == was;
    ok := Word(c0, c1) == computed;
  }

  /** The senders set the checksum field to zero, compute, and store. */
  function Sealed(p: seq<byte>): (r: seq<byte>)
    requires |p| >= 2
    ensures |r| == |p|
  {
    var c := Complement(WordSum(Cleared(p)));
    [HighByte(c), LowByte(c)] + p[2..]
  }

  function HighByte(c: nat): byte
  {
    c / 256 % 256
  }

  function LowByte(c: nat): byte
  {
    c % 256
  }

  /** In the receiver's buffer, with anything behind it. */
  predicate Holds(buffer: seq<byte>, p: seq<byte>)
  {
    |buffer| == MAX_PACKET && p <= buffer
  }

  predicate Good(p: seq<byte>)
    requires |p| >= 2
  {
    Stored(p) == Complement(WordSum(Cleared(p)))
  }

  /** For a packet whose length field is right, what lies behind it does not matter. */
  lemma MatchesIsGood(buffer: seq<byte>, p: seq<byte>)
    requires Packet(p) && Holds(buffer, p)
    ensures Matches(buffer) <==> Good(p)
  {
    assert buffer[..|p|] == p;
    assert Cleared(buffer)[..|p|] == Cleared(p);
    assert p[0] == buffer[0] && p[1] == buffer[1] && p[2] == buffer[2] && p[3] == buffer[3];
  }

  /** Every packet that the senders build is accepted. */
  lemma SealedMatches(p: seq<byte>, buffer: seq<byte>)
    requires Packet(p) && Holds(buffer, Sealed(p))
    ensures Matches(buffer)
  {
    var s := Sealed(p);
    assert s[2] == p[2] && s[3] == p[3];
    assert Cleared(s) == Cleared(p);
    MatchesIsGood(buffer, s);
  }

  // ---------------------------------------------------------------------------------------------
  // A flipped bit
  // ---------------------------------------------------------------------------------------------

  /** data[bit / 8] ^= 1 << (bit % 8) */
  function FlipByte(v: byte, b: nat): nat
  {
    Xor(v, Pow2(b))
  }

  lemma {:induction false} XorPow2(v: nat, b: nat, n: nat)
    requires v < Pow2(n) && b < n
    ensures Xor(v, Pow2(b)) < Pow2(n)
    ensures Xor(v, Pow2(b)) == v + Pow2(b) || Xor(v, Pow2(b)) == v - Pow2(b)
  {
    if b > 0 {
      XorPow2(v / 2, b - 1, n - 1);
      XorNext(v, Pow2(b - 1));
    } else {
      XorZero(v / 2);
    }
  }

  function FlipBit(p: seq<byte>, bit: nat): (r: seq<byte>)
    requires bit < 8 * |p|
    ensures |r| == |p|
  {
    Pow2Values();
    XorPow2(p[bit / 8], bit % 8, 8);
    p[bit / 8 := FlipByte(p[bit / 8], bit % 8)]
  }

  /** How much byte i weighs in the sum. */
  function Weight(i: nat): nat
  {
    if i % 2 == 0 then 256 else 1
  }

  lemma {:induction false} WordSumUpdate(data: seq<byte>, i: nat, v: byte)
    requires i < |data|
    ensures WordSum(data[i := v]) == WordSum(data) + Weight(i) * v - Weight(i) * data[i]
  {
    if i >= 2 {
      assert data[i := v][2..] == data[2..][i - 2 := v];
      WordSumUpdate(data[2..], i - 2, v);
    } else {
      assert |data| >= 2 ==> data[i := v][2..] == data[2..];
    }
  }

  /** A change by a power of two below 2^16 never goes unnoticed. */
  lemma ResidueMoves(a: nat, b: nat, d: nat)
    requires 0 < d < 0xffff && (b == a + d || a == b + d)
    ensures a % 0xffff != b % 0xffff
  {
  }

  /** The flip changes one byte by a power of two. */
  lemma FlipChanges(p: seq<byte>, bit: nat) returns (d: nat)
    requires bit < 8 * |p|
    ensures 0 < d <= 128 && (FlipBit(p, bit)[bit / 8] == p[bit / 8] + d || p[bit / 8] == FlipBit(p, bit)[bit / 8] + d)
  {
    d := Pow2(bit % 8);
    Pow2Values();
    XorPow2(p[bit / 8], bit % 8, 8);
    Pow2Mono(bit % 8, 7);
  }

  lemma SumMoves(s: seq<byte>, i: nat, v: byte, d: nat)
    requires i < |s| && 0 < d <= 128 && (v == s[i] + d || s[i] == v + d)
    ensures Complement(WordSum(s[i := v])) != Complement(WordSum(s))
  {
    WordSumUpdate(s, i, v);
    Weighs(WordSum(s), WordSum(s[i := v]), i, s[i], v, d);
    ComplementTells(WordSum(s), WordSum(s[i := v]));
  }

  lemma Weighs(a: nat, b: nat, i: nat, u: nat, v: nat, d: nat)
    requires 0 < d <= 128 && (v == u + d || u == v + d)
    requires b == a + Weight(i) * v - Weight(i) * u
    ensures a % 0xffff != b % 0xffff
  {
    ResidueMoves(a, b, if i % 2 == 0 then 256 * d else d);
  }

  /** A packet that is good is rejected after any one of its bits is flipped, those of its length field apart. */
  lemma FlipRejected(p: seq<byte>, bit: nat, buffer: seq<byte>)
    requires Packet(p) && Good(p) && bit < 8 * |p| && bit / 8 != 2 && bit / 8 != 3
    requires Holds(buffer, FlipBit(p, bit))
    ensures !Matches(buffer)
  {
    var q, i := FlipBit(p, bit), bit / 8;
    var d := FlipChanges(p, bit);
    assert q[2] == p[2] && q[3] == p[3];
    MatchesIsGood(buffer, q);
    if i < 2 {
      assert Cleared(q) == Cleared(p);
    } else {
      assert Cleared(q) == Cleared(p)[i := q[i]];
      SumMoves(Cleared(p), i, q[i], d);
    }
  }
}
