/** A stream known in advance: fourteen times the letter a, as one literal and one match, pins the header, the fixed
    code, the order in which bits fill bytes, and the checksum. */
module ZlibAnswer {
  import opened Arith
  import opened Deflate
  import Compress

  lemma LiteralWord(n: nat)
    requires n == 0x61
    ensures SymbolBits(n) == Bits(0x89, 8)
  {
    FixedCode(n);
    assert Rev(8, 0x91) == 0x89;
  }

  lemma SymbolWord(n: nat)
    requires n == 266
    ensures SymbolBits(n) == Bits(0x28, 7)
  {
    FixedCode(n);
    assert Rev(7, 10) == 0x28;
  }

  lemma NinthRow(j: nat)
    requires j == 9
    ensures LengthStart(j) == 13 && LengthStart(j + 1) == 15 && LengthExtra(j) == 1
  {
    Pow2Values();
  }

  lemma LengthWord(len: nat, j: nat, w: Bits)
    requires len == 13 && j == 9 && w == Bits(0x28, 7)
    requires SymbolBits(257 + j) == w
    ensures LengthBits(len) == w.Cat(Bits(0, 1))
  {
    NinthRow(j);
    LengthIn(len, j, 13, 15, 1);
  }

  lemma DistanceWordOne(dist: nat, j: nat)
    requires dist == 1 && j == 0
    ensures DistanceBits(dist) == DistanceSymbolBits(j).Cat(Bits(0, 0))
  {
    DistSymbol(dist, j);
  }

  lemma MatchWord(len: nat, dist: nat, a: Bits, b: Bits)
    requires 3 <= len <= 258 && 1 <= dist <= 32767 && LengthBits(len) == a && DistanceBits(dist) == b
    ensures TokenBits(Match(len, dist)) == a.Cat(b)
  {
  }

  lemma OneToken(ts: seq<Token>, t: Token, a: Bits)
    requires ts == [t] && Expressible(t) && TokenBits(t) == a
    ensures AllExpressible(ts) && TokensBits(ts) == a
  {
    assert ts[1..] == [];
    CatEmpty(a);
  }

  lemma OneMore(ts: seq<Token>, t: Token, a: Bits, b: Bits)
    requires AllExpressible(ts) && TokensBits(ts) == a && Expressible(t) && TokenBits(t) == b
    ensures AllExpressible(ts + [t]) && TokensBits(ts + [t]) == a.Cat(b)
  {
    TokensBitsAppend(ts, t);
  }

  lemma BlockOf(ts: seq<Token>, a: Bits)
    requires AllExpressible(ts) && TokensBits(ts) == a
    ensures BlockBits(ts) == Bits(3, 3).Cat(a).Cat(Bits(0, 7))
  {
  }

  lemma StreamOf(ts: seq<Token>, a: Bits)
    requires AllExpressible(ts) && BlockBits(ts) == a
    ensures Compress.StreamBits(ts) == Bits(0x5e78, 16).Cat(a)
  {
  }

  /** A sum with a multiple of a power of two. */
  lemma CatIs(a: Bits, b: Bits, p: nat)
    requires Pow2(a.len) == p
    ensures a.Cat(b) == Bits(a.val + b.val * p, a.len + b.len)
  {
    ShlIsMul(b.val, a.len);
  }

  lemma CatZeros(a: Bits, n: nat)
    ensures a.Cat(Bits(0, n)) == Bits(a.val, a.len + n)
  {
    ShlIsMul(0, a.len);
  }

  lemma LengthIs(len: nat, j: nat, w: Bits)
    requires len == 13 && j == 9 && w == Bits(0x28, 7)
    ensures LengthBits(len) == Bits(0x28, 8)
  {
    SymbolWord(257 + j);
    LengthWord(len, j, w);
    CatZeros(w, 1);
  }

  lemma DistanceIs(dist: nat, k: nat, w: Bits)
    requires dist == 1 && k == 0 && w == Bits(0, 5)
    ensures DistanceBits(dist) == w
  {
    DistanceWordOne(dist, k);
    ZeroWord(k, w);
    CatZeros(w, 0);
  }

  lemma ZeroWord(k: nat, w: Bits)
    requires k == 0 && w == Bits(0, 5)
    ensures DistanceSymbolBits(k) == w
  {
    DistanceWord(k);
    RevZero(5);
  }

  /** Length 13 is the symbol 266 and a zero, distance 1 five zeros. */
  lemma MatchIs(len: nat, dist: nat, a: Bits, b: Bits)
    requires len == 13 && dist == 1 && a == Bits(0x28, 8) && b == Bits(0, 5)
    ensures TokenBits(Match(len, dist)) == Bits(0x28, 13)
  {
    LengthIs(len, 9, Bits(0x28, 7));
    DistanceIs(dist, 0, b);
    MatchWord(len, dist, a, b);
    CatZeros(a, 5);
  }

  lemma LiteralIs(t: Token, n: byte)
    requires n == 0x61 && t == Literal(n)
    ensures TokenBits(t) == Bits(0x89, 8)
  {
    LiteralWord(n);
  }

  lemma TokensAre(ts: seq<Token>, us: seq<Token>, s: Token, t: Token)
    requires us == [s] && ts == us + [t] && Expressible(s) && Expressible(t)
    requires TokenBits(s) == Bits(0x89, 8) && TokenBits(t) == Bits(0x28, 13)
    ensures AllExpressible(ts) && TokensBits(ts) == Bits(0x2889, 21)
  {
    OneToken(us, s, Bits(0x89, 8));
    OneMore(us, t, Bits(0x89, 8), Bits(0x28, 13));
    Pow2Values();
    CatIs(Bits(0x89, 8), Bits(0x28, 13), 256);
  }

  lemma StreamIs(ts: seq<Token>)
    requires AllExpressible(ts) && TokensBits(ts) == Bits(0x2889, 21)
    ensures Compress.StreamBits(ts) == Bits(0x1444b5e78, 47)
  {
    Pow2Values();
    BlockOf(ts, Bits(0x2889, 21));
    CatIs(Bits(3, 3), Bits(0x2889, 21), 8);
    CatZeros(Bits(0x1444b, 24), 7);
    StreamOf(ts, Bits(0x1444b, 31));
    CatIs(Bits(0x5e78, 16), Bits(0x1444b, 31), 65536);
  }

  lemma PackedIs(bits: Bits)
    requires bits == Bits(0x1444b5e78, 47)
    ensures Compress.Packed(bits) == [0x78, 0x5e, 0x4b, 0x44, 0x01, 0x00]
  {
    var v := bits.val;
    assert Compress.Bytes(v, 6) == [v % 256] + Compress.Bytes(v / 256, 5);
    LastBytes(v / 256);
  }

  lemma LastBytes(v: nat)
    requires v == 0x1444b5e
    ensures Compress.Bytes(v, 5) == [0x5e, 0x4b, 0x44, 0x01, 0x00]
  {
    assert Compress.Bytes(v, 5) == [v % 256] + Compress.Bytes(v / 256, 4);
    assert Compress.Bytes(v / 256, 4) == [0x4b] + Compress.Bytes(0x144, 3);
    assert Compress.Bytes(0x144, 3) == [0x44, 0x01, 0x00];
  }

  /** Both sums of the checksum after n letters. */
  lemma {:induction false} Sums(data: seq<byte>, n: nat, m: nat)
    requires n <= |data| == 14 && 2 * m == n * (n + 1)
    requires forall i :: 0 <= i < |data| ==> data[i] == 0x61
    ensures Compress.AdlerA(data, n) == 1 + 97 * n && Compress.AdlerB(data, n) == n + 97 * m
  {
    if n > 0 {
      Sums(data, n - 1, m - n);
    }
  }

  lemma AnswerFor(ts: seq<Token>, us: seq<Token>, s: Token, t: Token, n: byte, len: nat, dist: nat)
    requires n == 0x61 && s == Literal(n) && len == 13 && dist == 1 && t == Match(len, dist)
    requires us == [s] && ts == us + [t]
    ensures AllExpressible(ts) && Compress.Packed(Compress.StreamBits(ts)) == [0x78, 0x5e, 0x4b, 0x44, 0x01, 0x00]
  {
    LiteralIs(s, n);
    MatchIs(len, dist, Bits(0x28, 8), Bits(0, 5));
    TokensAre(ts, us, s, t);
    StreamIs(ts);
    PackedIs(Bits(0x1444b5e78, 47));
  }

  lemma AdlerIs(a: nat, b: nat)
    requires a == 1359 && b == 10199
    ensures Compress.AdlerBytes(a, b) == [0x27, 0xd7, 0x05, 0x4f]
  {
  }

  /** The stream of fourteen letters a, byte by byte. */
  lemma KnownAnswer(ts: seq<Token>, data: seq<byte>)
    requires ts == [Literal(0x61), Match(13, 1)]
    requires |data| == 14 && forall i :: 0 <= i < |data| ==> data[i] == 0x61
    ensures AllExpressible(ts)
    ensures Compress.ZlibStream(ts, data) == [0x78, 0x5e, 0x4b, 0x44, 0x01, 0x00, 0x27, 0xd7, 0x05, 0x4f]
  {
    AnswerFor(ts, ts[..1], ts[0], ts[1], ts[0].b, ts[1].len, ts[1].dist);
    Sums(data, |data|, 105);
    AdlerIs(1 + 97 * |data|, |data| + 97 * 105);
  }
}
