/** The compressor: bit writer, match finder with hash lists and lazy matching, Adler-32. */
module Compress {
  import opened Arith
  import opened CanonicalCode
  import opened Deflate

  // ---------------------------------------------------------------------------------------------
  // Writing bits
  // ---------------------------------------------------------------------------------------------

  class BitWriter {
    var out: seq<byte>
    var bitbuf: nat
    var bitcount: nat

    /** Between calls fewer than eight bits wait, and no stray bits lie above them. */
    ghost predicate Valid()
      reads this
    {
      bitcount < 8 && bitbuf < Pow2(bitcount)
    }

    /** Everything written so far. */
    ghost function Written(): Bits
      reads this
    {
      Bits(LEVal(out) + Shl(bitbuf, 8 * |out|), 8 * |out| + bitcount)
    }

    constructor ()
      ensures Valid() && Written() == Bits(0, 0)
    {
      out := [];
      bitbuf := 0;
      bitcount := 0;
    }

    method Push(b: byte)
      requires Valid() && bitcount == 0
      modifies this
      ensures Valid() && bitcount == 0
      ensures Written() == old(Written()).Cat(Bits(b, 8))
    {
      PushValue(out, b, 0);
      ShlIsMul(0, 8 * |out|);
      ShlIsMul(0, 8 * |out| + 8);
      out := out + [b];
    }

    /** At most a word of bits waits; w is written, and left of its bits will wait in the end. */
    ghost predicate Flushing(w: Bits, left: nat)
      reads this
    {
      bitcount < 32 && bitbuf < Pow2(bitcount) && bitcount % 8 == left && Written() == w
    }

    method Flush()
      requires bitcount < 32 && bitbuf < Pow2(bitcount)
      modifies this
      ensures Valid() && bitcount == old(bitcount) % 8
      ensures Written() == old(Written())
    {
      ghost var w, left := Written(), bitcount % 8;
      while bitcount >= 8
        invariant Flushing(w, left)
        decreases bitcount
      {
        FlushByte(w, left);
      }
    }

    method FlushByte(ghost w: Bits, ghost left: nat)
      requires bitcount >= 8 && Flushing(w, left)
      modifies this
      ensures Flushing(w, left) && bitcount == old(bitcount) - 8
    {
      FlushedBits(out, bitbuf, bitcount, out + [bitbuf % 256], bitbuf / 256);
      out := out + [bitbuf % 256];
      bitbuf := bitbuf / 256;
      bitcount := bitcount - 8;
    }

    method Add(code: nat, codebits: nat)
      requires Valid() && codebits <= 24 && code < Pow2(codebits)
      modifies this
      ensures Valid() && bitcount == (old(bitcount) + codebits) % 8
      ensures Written() == old(Written()).Cat(Bits(code, codebits))
    {
      Put(code, codebits);
      Flush();
    }

    /** At most 7 + 24 bits are in the buffer, so 32 of them are enough. */
    method Put(code: nat, codebits: nat)
      requires Valid() && codebits <= 24 && code < Pow2(codebits)
      modifies this`bitbuf, this`bitcount
      ensures bitcount == old(bitcount) + codebits && bitbuf < Pow2(bitcount)
      ensures Written() == old(Written()).Cat(Bits(code, codebits))
    {
      ghost var n, done := 8 * |out|, LEVal(out);
      PutValue(bitbuf, code, codebits, bitcount, n);
      bitbuf := Or(bitbuf, Shl(code, bitcount));
      bitcount := bitcount + codebits;
      assert Written() == Bits(done + Shl(bitbuf, n), n + bitcount);
    }

    method HuffA(b: nat, c: nat)
      requires Valid() && c <= 16
      modifies this
      ensures Valid()
      ensures Written() == old(Written()).Cat(Bits(Rev(c, b), c))
    {
      var r := Bitrev(b, c);
      Add(r, c);
    }

    /** The four ranges of the fixed code. */
    method Huff(n: nat)
      requires Valid() && n < 288
      modifies this
      ensures Valid()
      ensures Written() == old(Written()).Cat(SymbolBits(n))
    {
      FixedCode(n);
      if n <= 143 {
        HuffA(0x30 + n, 8);
      } else if n <= 255 {
        HuffA(0x190 + n - 144, 9);
      } else if n <= 279 {
        HuffA(0 + n - 256, 7);
      } else {
        HuffA(0xc0 + n - 280, 8);
      }
    }

    /** The symbol 256, which the third range writes. */
    method HuffEnd()
      requires Valid()
      modifies this
      ensures Valid()
      ensures Written() == old(Written()).Cat(EndBits())
    {
      RevZero(7);
      HuffA(0 + END_OF_BLOCK - 256, 7);
    }

    method HuffB(n: byte)
      requires Valid()
      modifies this
      ensures Valid()
      ensures Written() == old(Written()).Cat(TokenBits(Literal(n)))
    {
      FixedCode(n);
      if n <= 143 {
        HuffA(0x30 + n, 8);
      } else {
        HuffA(0x190 + n - 144, 9);
      }
    }

    method LengthOut(len: nat)
      requires Valid() && 3 <= len <= 258
      modifies this
      ensures Valid()
      ensures Written() == old(Written()).Cat(LengthBits(len))
    {
      var j := FindRow(LENGTHC, len);
      LengthRow(j);
      Huff(j + 257);
      ExtraOut(len, LENGTHC[j], LENGTHEB[j], old(Written()), SymbolBits(257 + j));
    }

    method DistanceOut(dist: nat)
      requires Valid() && 1 <= dist <= 32767
      modifies this
      ensures Valid()
      ensures Written() == old(Written()).Cat(DistanceBits(dist))
    {
      var j := FindRow(DISTC, dist);
      DistRow(j);
      HuffA(j, 5);
      DistanceWord(j);
      ExtraOut(dist, DISTC[j], DISTEB[j], old(Written()), DistanceSymbolBits(j));
    }

    method ExtraOut(v: nat, base: nat, eb: nat, ghost before: Bits, ghost front: Bits)
      requires Valid() && eb <= 24 && base <= v < base + Pow2(eb)
      requires Written() == before.Cat(front)
      modifies this
      ensures Valid()
      ensures Written() == before.Cat(front.Cat(Bits(v - base, eb)))
    {
      AddExtra(v - base, eb);
      CatAssoc(before, front, Bits(v - base, eb));
    }

    method AddExtra(v: nat, eb: nat)
      requires Valid() && eb <= 24 && v < Pow2(eb)
      modifies this
      ensures Valid()
      ensures Written() == old(Written()).Cat(Bits(v, eb))
    {
      if eb != 0 {
        Add(v, eb);
      } else {
        CatEmpty(Written());
      }
    }

    /** Pads with zero bits up to a whole byte. */
    method Pad()
      requires Valid()
      modifies this
      ensures Valid() && bitcount == 0
      ensures out == Packed(old(Written()))
    {
      ghost var w := Written();
      while bitcount != 0
        invariant Valid()
        invariant Written().val == w.val
        invariant w.len <= Written().len && (bitcount != 0 ==> |out| == w.len / 8)
        invariant bitcount == 0 ==> |out| == (w.len + 7) / 8
        decreases if bitcount == 0 then 0 else 8 - bitcount
      {
        ShlIsMul(0, Written().len);
        Add(0, 1);
      }
      ShlIsMul(0, 8 * |out|);
      BytesOfValue(out);
    }
  }

  lemma PushValue(out: seq<byte>, b: byte, rest: nat)
    ensures LEVal(out + [b]) + Shl(rest, 8 * |out| + 8) == LEVal(out) + Shl(b + 256 * rest, 8 * |out|)
  {
    var n := 8 * |out|;
    LEValPush(out, b);
    ShlAdd(b, 256 * rest, n);
    ShlByte(rest);
    ShlShl(rest, 8, n);
  }

  lemma LEValPush(out: seq<byte>, b: byte)
    ensures LEVal(out + [b]) == LEVal(out) + Shl(b, 8 * |out|)
  {
    LEValAppendShl(out, [b]);
    LEValOne([b]);
  }

  lemma LEValOne(s: seq<byte>)
    requires |s| == 1
    ensures LEVal(s) == s[0]
  {
    assert LEVal(s[1..]) == 0;
  }

  lemma ShlByte(x: nat)
    ensures Shl(x, 8) == 256 * x
  {
    ShlIsMul(x, 8);
    Pow2Values();
  }

  lemma FlushValue(c: nat, n: nat)
    requires n >= 8 && c < Pow2(n)
    ensures c / 256 < Pow2(n - 8) && c == c % 256 + 256 * (c / 256)
  {
    Pow2Add(8, n - 8);
    Pow2Values();
  }

  /** One byte moved to the output. */
  lemma FlushedBits(out: seq<byte>, c: nat, n: nat, out': seq<byte>, c': nat)
    requires n >= 8 && c < Pow2(n) && out' == out + [c % 256] && c' == c / 256
    ensures c' < Pow2(n - 8)
    ensures Bits(LEVal(out') + Shl(c', 8 * |out'|), 8 * |out'| + (n - 8)) ==
      Bits(LEVal(out) + Shl(c, 8 * |out|), 8 * |out| + n)
  {
    FlushValue(c, n);
    PushValue(out, c % 256, c');
  }

  lemma PutValue(c: nat, code: nat, codebits: nat, n: nat, m: nat)
    requires c < Pow2(n) && code < Pow2(codebits)
    ensures Or(c, Shl(code, n)) < Pow2(n + codebits)
    ensures Shl(Or(c, Shl(code, n)), m) == Shl(c, m) + Shl(code, m + n)
  {
    OrDisjoint(c, n, code);
    ShlBound(c, code, codebits, n);
    ShlAdd(c, Shl(code, n), m);
    ShlShl(code, n, m);
  }

  method Bitrev(code: nat, codebits: nat) returns (res: nat)
    ensures res == Rev(codebits, code)
  {
    res := 0;
    var c := code;
    for k := 0 to codebits
      invariant res == Rev(k, code) && c == Shr(code, k)
    {
      RevSnoc(k, code);
      DivDiv(code, Pow2(k), 2);
      res := 2 * res + c % 2;
      c := c / 2;
    }
  }

  method FindRow(table: seq<nat>, v: nat) returns (j: nat)
    requires |table| > 1 && table[0] <= v < table[|table| - 1]
    ensures j == Row(table, v, 0)
    ensures j + 1 < |table| && table[j] <= v < table[j + 1]
  {
    j := 0;
    while v >= table[j + 1]
      invariant j + 1 < |table| && table[j] <= v
      invariant Row(table, v, j) == Row(table, v, 0)
      decreases |table| - j
    {
      j := j + 1;
    }
  }

  // ---------------------------------------------------------------------------------------------
  // Finding matches
  // ---------------------------------------------------------------------------------------------

  const ZHASH: nat := 16384
  const WINDOW: nat := 32768

  /** A 32-bit mix of three bytes, cut to a table index. */
  function Zhash(d0: byte, d1: byte, d2: byte): (h: nat)
    ensures h < ZHASH
  {
    var word := 0x1_0000_0000;
    var h0 := d0 + 256 * d1 + 65536 * d2;
    var h1 := Xor(h0, (8 * h0) % word);
    var h2 := (h1 + h1 / 32) % word;
    var h3 := Xor(h2, (16 * h2) % word);
    var h4 := (h3 + h3 / 131072) % word;
    var h5 := Xor(h4, (33554432 * h4) % word);
    var h6 := (h5 + h5 / 64) % word;
    h6 % ZHASH
  }

  /** How many bytes from position i on equal the bytes dist before them, up to limit. */
  function Agree(data: seq<byte>, dist: nat, i: nat, limit: nat): (n: nat)
    requires dist <= i && i + limit <= |data|
    ensures n <= limit
    decreases limit
  {
    if limit == 0 || data[i] != data[i - dist] then 0 else 1 + Agree(data, dist, i + 1, limit - 1)
  }

  lemma {:induction false} AgreeSound(data: seq<byte>, dist: nat, i: nat, limit: nat)
    requires dist <= i && i + limit <= |data|
    ensures forall k :: i <= k < i + Agree(data, dist, i, limit) ==> data[k] == data[k - dist]
    decreases limit
  {
    if limit > 0 && data[i] == data[i - dist] {
      AgreeSound(data, dist, i + 1, limit - 1);
    }
  }

  /** The length of the match of position i with an earlier position p: at most 258, within the data. */
  function MatchLength(data: seq<byte>, p: nat, i: nat): (n: nat)
    requires p <= i <= |data|
    ensures n <= 258 && i + n <= |data|
  {
    Agree(data, i - p, i, if |data| - i < 258 then |data| - i else 258)
  }

  method Countm(data: seq<byte>, a: nat, b: nat, limit: nat) returns (i: nat)
    requires a <= b && b + limit == |data|
    ensures i == MatchLength(data, a, b)
  {
    i := 0;
    ghost var most := if limit < 258 then limit else 258;
    ghost var total := MatchLength(data, a, b);
    while i < limit && i < 258
      invariant i <= most
      invariant Agree(data, b - a, b + i, most - i) == total - i
      decreases most - i
    {
      if data[a + i] != data[b + i] {
        break;
      }
      i := i + 1;
    }
  }

  predicate AllBefore(hlist: seq<nat>, i: nat)
  {
    forall k :: 0 <= k < |hlist| ==> hlist[k] < i
  }

  /** Candidate k matches position i with at most best bytes, or lies outside the window. */
  ghost predicate NoLonger(data: seq<byte>, i: nat, hlist: seq<nat>, k: nat, best: nat)
    requires i <= |data| && AllBefore(hlist, i) && k < |hlist|
  {
    i - hlist[k] < WINDOW ==> MatchLength(data, hlist[k], i) <= best
  }

  ghost predicate NoneLonger(data: seq<byte>, i: nat, hlist: seq<nat>, n: nat, best: nat)
    requires i <= |data| && AllBefore(hlist, i) && n <= |hlist|
  {
    forall k :: 0 <= k < n ==> NoLonger(data, i, hlist, k, best)
  }

  /** The candidate at loc matches best bytes, and later candidates in the window fewer. */
  ghost predicate LastBest(data: seq<byte>, i: nat, hlist: seq<nat>, n: nat, loc: nat, best: nat)
    requires i <= |data| && AllBefore(hlist, i) && n <= |hlist|
  {
    exists k: nat :: k < n && hlist[k] == loc && best > 0 && FewerAfter(data, i, hlist, k, n, best - 1)
  }

  ghost predicate FewerAfter(data: seq<byte>, i: nat, hlist: seq<nat>, k: nat, n: nat, best: nat)
    requires i <= |data| && AllBefore(hlist, i) && n <= |hlist|
  {
    forall j :: k < j < n ==> NoLonger(data, i, hlist, j, best)
  }

  lemma LastBestOn(data: seq<byte>, i: nat, hlist: seq<nat>, n: nat, loc: nat, best: nat)
    requires i <= |data| && AllBefore(hlist, i) && n < |hlist|
    requires LastBest(data, i, hlist, n, loc, best) && NoLonger(data, i, hlist, n, best - 1)
    ensures LastBest(data, i, hlist, n + 1, loc, best)
  {
    var k: nat :| k < n && hlist[k] == loc && best > 0 && FewerAfter(data, i, hlist, k, n, best - 1);
    assert FewerAfter(data, i, hlist, k, n + 1, best - 1);
  }

  lemma LastBestNew(data: seq<byte>, i: nat, hlist: seq<nat>, n: nat, best: nat)
    requires i <= |data| && AllBefore(hlist, i) && n < |hlist| && best > 0
    ensures LastBest(data, i, hlist, n + 1, hlist[n], best)
  {
    assert FewerAfter(data, i, hlist, n, n + 1, best - 1);
  }

  /** The longest match of at least three bytes among the candidates in the window;
      none means that every candidate in the window matches fewer than three bytes. */
  method FindMatch(data: seq<byte>, i: nat, hlist: seq<nat>) returns (best: nat, loc: int)
    requires i < |data| && AllBefore(hlist, i)
    ensures loc == -1 || (0 <= loc < i && i - loc < WINDOW && 3 <= best == MatchLength(data, loc, i))
    ensures NoneLonger(data, i, hlist, |hlist|, if loc == -1 then 2 else best)
    ensures loc >= 0 ==> LastBest(data, i, hlist, |hlist|, loc, best)
  {
    best := 3;
    loc := -1;
    for j := 0 to |hlist|
      invariant 3 <= best && (loc == -1 ==> best == 3)
      invariant loc == -1 || (0 <= loc < i && i - loc < WINDOW && best == MatchLength(data, loc, i))
      invariant NoneLonger(data, i, hlist, j, if loc == -1 then 2 else best)
      invariant loc >= 0 ==> LastBest(data, i, hlist, j, loc, best)
    {
      var p := hlist[j];
      if p - i > -32768 {
        var d := Countm(data, p, i, |data| - i);
        if d >= best {
          best := d;
          loc := p;
          LastBestNew(data, i, hlist, j, best);
        } else if loc >= 0 {
          LastBestOn(data, i, hlist, j, loc, best);
        }
      } else if loc >= 0 {
        LastBestOn(data, i, hlist, j, loc, best);
      }
    }
  }

  /** Whether a candidate matches more than best bytes at the next position i. */
  method NextIsBetter(data: seq<byte>, i: nat, hlist: seq<nat>, best: nat) returns (better: bool)
    requires i < |data| && AllBefore(hlist, i)
    ensures better <==> !NoneLonger(data, i, hlist, |hlist|, best)
  {
    better := false;
    for j := 0 to |hlist|
      invariant NoneLonger(data, i, hlist, j, best)
    {
      var p := hlist[j];
      if p - (i - 1) > -32767 {
        var e := Countm(data, p, i, |data| - i);
        if e > best {
          assert !NoLonger(data, i, hlist, j, best);
          return true;
        }
      }
    }
  }

  // ---------------------------------------------------------------------------------------------
  // Adler-32 (section 8.2 of RFC 1950)
  // ---------------------------------------------------------------------------------------------

  const ADLER_MOD: nat := 65521

  function AdlerA(data: seq<byte>, n: nat): (a: nat)
    requires n <= |data|
    ensures a < ADLER_MOD
  {
    if n == 0 then 1 else (AdlerA(data, n - 1) + data[n - 1]) % ADLER_MOD
  }

  function AdlerB(data: seq<byte>, n: nat): (b: nat)
    requires n <= |data|
    ensures b < ADLER_MOD
  {
    if n == 0 then 0 else (AdlerB(data, n - 1) + AdlerA(data, n)) % ADLER_MOD
  }

  lemma ModOfSum(a: nat, x: nat, b: nat, d: nat, m: nat)
    requires m > 0
    ensures ((a * m + x) + (b * m + d)) % m == (x + d) % m
  {
    MulAdd(a, b, m);
    ModShift(a + b, x + d, m);
  }

  lemma ModShift(k: nat, y: nat, m: nat)
    requires m > 0
    ensures (k * m + y) % m == y % m
  {
    var q, r := y / m, y % m;
    MulAdd(k, q, m);
    DivModUnique(k + q, m, r);
  }

  lemma ModStep(x: nat, d: nat, m: nat)
    requires m > 0
    ensures (x + d) % m == (x % m + d % m) % m
  {
    var a, y := Divide(x, m);
    var b, e := Divide(d, m);
    ModOfSum(a, y, b, e, m);
  }

  lemma Divide(x: nat, m: nat) returns (q: nat, r: nat)
    requires m > 0
    ensures x == q * m + r && r == x % m
  {
    q, r := x / m, x % m;
  }

  /** The sums that the loop of a block has after i of its bytes, before any remainder. */
  function RawA(block: seq<byte>, a: nat, i: nat): nat
    requires i <= |block|
  {
    if i == 0 then a else RawA(block, a, i - 1) + block[i - 1]
  }

  function RawB(block: seq<byte>, a: nat, b: nat, i: nat): nat
    requires i <= |block|
  {
    if i == 0 then b else RawB(block, a, b, i - 1) + RawA(block, a, i)
  }

  /** No sum of the block reaches 2^32. */
  ghost predicate NoOverflow(block: seq<byte>, a: nat, b: nat)
  {
    forall i: nat :: i <= |block| ==> RawA(block, a, i) < WORD && RawB(block, a, b, i) < WORD
  }

  /** The largest second sum after i bytes of a block. */
  function SumBound(i: nat): nat
  {
    if i == 0 then 65520 else SumBound(i - 1) + 65520 + 255 * i
  }

  lemma {:induction false} SumBoundValue(i: nat)
    ensures 2 * SumBound(i) == 131040 + 131040 * i + 255 * (i * i + i)
  {
    if i > 0 {
      SumBoundValue(i - 1);
      assert (i - 1) * (i - 1) == i * i - 2 * i + 1;
    }
  }

  lemma BoundFits(i: nat)
    ensures SumBound(i) < WORD <==> i <= 5552
  {
    SumBoundValue(i);
    if i <= 5552 {
      MulMono(i, 5552, i);
      MulMono(i, 5552, 5552);
    } else {
      MulMono(5553, i, i);
      MulMono(5553, i, 5553);
    }
  }

  lemma {:induction false} RawBound(block: seq<byte>, a: nat, b: nat, i: nat)
    requires i <= |block| && a < ADLER_MOD && b < ADLER_MOD
    ensures RawA(block, a, i) <= 65520 + 255 * i && RawB(block, a, b, i) <= SumBound(i)
  {
    if i > 0 { RawBound(block, a, b, i - 1); }
  }

  lemma FitsWithin(block: seq<byte>, a: nat, b: nat)
    requires |block| <= 5552 && a < ADLER_MOD && b < ADLER_MOD
    ensures NoOverflow(block, a, b)
  {
    forall i: nat | i <= |block|
      ensures RawA(block, a, i) < WORD && RawB(block, a, b, i) < WORD
    {
      RawBound(block, a, b, i);
      BoundFits(i);
    }
  }

  /** Full bytes on the largest sums reach the bound. */
  lemma {:induction false} RawFull(block: seq<byte>, i: nat)
    requires i <= |block| && forall k :: 0 <= k < |block| ==> block[k] == 255
    ensures RawA(block, 65520, i) == 65520 + 255 * i && RawB(block, 65520, 65520, i) == SumBound(i)
  {
    if i > 0 { RawFull(block, i - 1); }
  }

  lemma FullOverflows(n: nat) returns (block: seq<byte>)
    requires n > 5552
    ensures |block| == n && (forall k :: 0 <= k < n ==> block[k] == 255) && !NoOverflow(block, 65520, 65520)
  {
    block := seq(n, _ => 255);
    RawFull(block, n);
    BoundFits(n);
    assert RawB(block, 65520, 65520, n) >= WORD;
  }

  /** 5552 is the longest block whose sums cannot overflow 32 bits, whatever its bytes and the sums before it. */
  lemma SumFits(n: nat)
    ensures (forall block: seq<byte>, a: nat, b: nat ::
               |block| == n && a < ADLER_MOD && b < ADLER_MOD ==> NoOverflow(block, a, b)) <==> n <= 5552
  {
    if n <= 5552 {
      forall block: seq<byte>, a: nat, b: nat | |block| == n && a < ADLER_MOD && b < ADLER_MOD
        ensures NoOverflow(block, a, b)
      {
        FitsWithin(block, a, b);
      }
    } else {
      var block := FullOverflows(n);
      assert !NoOverflow(block, 65520, 65520);
    }
  }

  lemma AdlerStep(data: seq<byte>, k: nat, s1: nat, s2: nat)
    requires k < |data|
    requires s1 % ADLER_MOD == AdlerA(data, k) && s2 % ADLER_MOD == AdlerB(data, k)
    ensures (s1 + data[k]) % ADLER_MOD == AdlerA(data, k + 1)
    ensures (s2 + (s1 + data[k])) % ADLER_MOD == AdlerB(data, k + 1)
  {
    ModStep(s1, data[k], ADLER_MOD);
    ModStep(AdlerA(data, k), data[k], ADLER_MOD);
    ModStep(s2, s1 + data[k], ADLER_MOD);
    ModStep(AdlerB(data, k), AdlerA(data, k + 1), ADLER_MOD);
    ModTwice(s1, ADLER_MOD);
    ModTwice(s2, ADLER_MOD);
    ModTwice(s1 + data[k], ADLER_MOD);
  }

  lemma ModTwice(x: nat, m: nat)
    requires m > 0
    ensures (x % m) % m == x % m
  {
  }

  /** One block of at most 5552 bytes, with the remainders left to its end. The sums have 32 bits and none wraps. */
  method AdlerBlock(data: seq<byte>, j: nat, blocklen: nat, a: nat, b: nat) returns (s1: nat, s2: nat)
    requires j + blocklen <= |data| && blocklen <= 5552
    requires a == AdlerA(data, j) && b == AdlerB(data, j)
    ensures NoOverflow(data[j..j + blocklen], a, b)
    ensures s1 == AdlerA(data, j + blocklen) && s2 == AdlerB(data, j + blocklen)
  {
    ghost var block := data[j..j + blocklen];
    FitsWithin(block, a, b);
    s1, s2 := a, b;
    for i := 0 to blocklen
      invariant s1 == RawA(block, a, i) && s1 % ADLER_MOD == AdlerA(data, j + i)
      invariant s2 == RawB(block, a, b, i) && s2 % ADLER_MOD == AdlerB(data, j + i)
    {
      AdlerStep(data, j + i, s1, s2);
      s1, s2 := AddByte(data, j, block, i, a, b, s1, s2);
    }
    s1, s2 := s1 % ADLER_MOD, s2 % ADLER_MOD;
  }

  /** Both sums, in 32 bits. */
  method AddByte(data: seq<byte>, j: nat, ghost block: seq<byte>, i: nat, ghost a: nat, ghost b: nat, s1: nat, s2: nat)
    returns (t1: nat, t2: nat)
    requires j + i < |data| && i < |block| && block[i] == data[j + i] && NoOverflow(block, a, b)
    requires s1 == RawA(block, a, i) && s2 == RawB(block, a, b, i)
    ensures t1 == s1 + data[j + i] == RawA(block, a, i + 1) && t2 == s2 + t1 == RawB(block, a, b, i + 1)
  {
    assert RawA(block, a, i + 1) < WORD && RawB(block, a, b, i + 1) < WORD;
    t1 := (s1 + data[j + i]) % WORD;
    t2 := (s2 + t1) % WORD;
  }

  /** The first block may be empty; the loop still ends. */
  method Adler32(data: seq<byte>) returns (s1: nat, s2: nat)
    ensures s1 == AdlerA(data, |data|) && s2 == AdlerB(data, |data|)
  {
    s1, s2 := 1, 0;
    var blocklen: nat, j: nat := |data| % 5552, 0;
    ghost var blocks: int := |data| / 5552;
    while j < |data|
      invariant blocklen <= 5552 && blocks >= -1
      invariant j + blocklen + 5552 * blocks == |data| && (blocks == -1 ==> j == |data|)
      invariant s1 == AdlerA(data, j) && s2 == AdlerB(data, j)
      decreases |data| - j, if blocklen == 0 then 1 else 0
    {
      s1, s2 := AdlerBlock(data, j, blocklen, s1, s2);
      j := j + blocklen;
      blocklen := 5552;
      blocks := blocks - 1;
    }
  }

  // ---------------------------------------------------------------------------------------------
  // The whole stream
  // ---------------------------------------------------------------------------------------------

  /** The lowest n bytes of v, low byte first. */
  function Bytes(v: nat, n: nat): (s: seq<byte>)
    ensures |s| == n
  {
    if n == 0 then [] else [v % 256] + Bytes(v / 256, n - 1)
  }

  lemma {:induction false} BytesOfValue(s: seq<byte>)
    ensures Bytes(LEVal(s), |s|) == s
  {
    if s != [] {
      BytesOfValue(s[1..]);
      DivModUnique(LEVal(s[1..]), 256, s[0]);
    }
  }

  /** Bits in bytes, the last byte filled up with zeros. */
  function Packed(bits: Bits): seq<byte>
  {
    Bytes(bits.val, (bits.len + 7) / 8)
  }

  /** The checksum, high byte first. */
  function AdlerBytes(s1: nat, s2: nat): (s: seq<byte>)
    requires s1 < 65536 && s2 < 65536
    ensures |s| == 4
  {
    [s2 / 256, s2 % 256, s1 / 256, s1 % 256]
  }

  /** Two header bytes, then the block. */
  function HeadBits(): Bits
  {
    Bits(0x78 + 256 * 0x5e, 16)
  }

  function StreamBits(ts: seq<Token>): Bits
    requires AllExpressible(ts)
  {
    HeadBits().Cat(BlockBits(ts))
  }

  /** The zlib stream that holds the tokens ts and the checksum of data. */
  function ZlibStream(ts: seq<Token>, data: seq<byte>): seq<byte>
    requires AllExpressible(ts)
  {
    Packed(StreamBits(ts)) + AdlerBytes(AdlerA(data, |data|), AdlerB(data, |data|))
  }

  /** Every position in the hash lists lies before i. */
  ghost predicate TableOK(table: array<seq<nat>>, i: nat)
    reads table
  {
    table.Length == ZHASH && forall h :: 0 <= h < ZHASH ==> AllBefore(table[h], i)
  }

  /** The lists once position i, of hash h, has joined its own; a full list first loses its older half. */
  function Joined(lists: seq<seq<nat>>, h: nat, i: nat, quality: nat): (r: seq<seq<nat>>)
    ensures |r| == |lists|
  {
    if h < |lists| then
      lists[h := (if |lists[h]| == 2 * quality then lists[h][quality..] else lists[h]) + [i]]
    else lists
  }

  /** Position i joins the list of its hash; a full list first loses its older half. */
  method Insert(table: array<seq<nat>>, h: nat, i: nat, quality: nat)
    requires TableOK(table, i) && h < ZHASH
    modifies table
    ensures TableOK(table, i + 1)
    ensures table[h] == (if |old(table[h])| == 2 * quality then old(table[h])[quality..] else old(table[h])) + [i]
    ensures forall k :: 0 <= k < ZHASH && k != h ==> table[k] == old(table[k])
    ensures table[..] == Joined(old(table[..]), h, i, quality)
  {
    if |table[h]| == 2 * quality {
      table[h] := table[h][quality..];
    }
    table[h] := table[h] + [i];
  }

  /** The hash of the three bytes at each position, as a function value. */
  type Hashes = nat -> nat

  function HashesOf(data: seq<byte>): Hashes
  {
    (i: nat) => if i + 2 < |data| then Zhash(data[i], data[i + 1], data[i + 2]) else 0
  }

  predicate HashAt(data: seq<byte>, zh: Hashes, i: nat)
  {
    i + 2 < |data| ==> zh(i) == Zhash(data[i], data[i + 1], data[i + 2])
  }

  ghost predicate Hashing(data: seq<byte>, zh: Hashes)
  {
    forall i: nat {:trigger HashAt(data, zh, i)} :: HashAt(data, zh, i)
  }

  lemma HashesHash(data: seq<byte>) returns (zh: Hashes)
    ensures zh == HashesOf(data) && Hashing(data, zh)
  {
    zh := HashesOf(data);
    forall i: nat
      ensures HashAt(data, zh, i)
    {
    }
  }

  /** What the compressor makes of position i, given the candidates for it and, with i among them, for the next
      position: the longest match, the last one of those, unless there is none of three bytes or the next position has
      a longer one. */
  ghost predicate Chosen(data: seq<byte>, i: nat, cands: seq<nat>, nexts: seq<nat>, t: Token)
  {
    && i + 3 < |data| && AllBefore(cands, i) && AllBefore(nexts, i + 1)
    && match t
       case Match(len, dist) =>
         && 3 <= len && dist <= i && LastBest(data, i, cands, |cands|, i - dist, len)
         && NoneLonger(data, i, cands, |cands|, len) && NoneLonger(data, i + 1, nexts, |nexts|, len)
       case Literal(b) =>
         && b == data[i]
         && (NoneLonger(data, i, cands, |cands|, 2) || exists len :: LongerNext(data, i, cands, nexts, len))
  }

  ghost predicate LongerNext(data: seq<byte>, i: nat, cands: seq<nat>, nexts: seq<nat>, len: nat)
    requires i + 3 < |data| && AllBefore(cands, i) && AllBefore(nexts, i + 1)
  {
    3 <= len && NoneLonger(data, i, cands, |cands|, len) && !NoneLonger(data, i + 1, nexts, |nexts|, len)
  }

  lemma MatchChosen(data: seq<byte>, i: nat, cands: seq<nat>, nexts: seq<nat>, loc: nat, best: nat)
    requires i + 3 < |data| && AllBefore(cands, i) && AllBefore(nexts, i + 1) && loc < i && 3 <= best
    requires NoneLonger(data, i, cands, |cands|, best) && LastBest(data, i, cands, |cands|, loc, best)
    requires NoneLonger(data, i + 1, nexts, |nexts|, best)
    ensures Chosen(data, i, cands, nexts, Match(best, i - loc))
  {
  }

  lemma LiteralChosen(data: seq<byte>, i: nat, cands: seq<nat>, nexts: seq<nat>, loc: int, best: nat)
    requires i + 3 < |data| && AllBefore(cands, i) && AllBefore(nexts, i + 1)
    requires NoneLonger(data, i, cands, |cands|, if loc == -1 then 2 else best)
    requires loc != -1 ==> 3 <= best && !NoneLonger(data, i + 1, nexts, |nexts|, best)
    ensures Chosen(data, i, cands, nexts, Literal(data[i]))
  {
    if loc != -1 { assert LongerNext(data, i, cands, nexts, best); }
  }

  /** One token of the main loop: the best match at i unless the next position has a better one. */
  method ChooseToken(data: seq<byte>, i: nat, table: array<seq<nat>>, quality: nat, ghost zh: Hashes)
    returns (t: Token)
    requires i + 3 < |data| && TableOK(table, i) && Hashing(data, zh)
    modifies table
    ensures TableOK(table, i + 1)
    ensures ValidToken(t, i) && i + TokenLength(t) <= |data|
    ensures ExpandToken(data[..i], t) == data[..i + TokenLength(t)]
    ensures t.Match? ==> t.len == MatchLength(data, i - t.dist, i)
    ensures zh(i) < ZHASH && table[..] == Joined(old(table[..]), zh(i), i, quality)
    ensures zh(i + 1) < ZHASH && Chosen(data, i, old(table[zh(i)]), table[zh(i + 1)], t)
  {
    assert HashAt(data, zh, i) && HashAt(data, zh, i + 1);
    var h := Zhash(data[i], data[i + 1], data[i + 2]);
    ghost var cands := table[h];
    var best, loc := FindMatch(data, i, table[h]);
    Insert(table, h, i, quality);
    ghost var nexts, found := table[zh(i + 1)], loc;
    if loc != -1 {
      h := Zhash(data[i + 1], data[i + 2], data[i + 3]);
      var better := NextIsBetter(data, i + 1, table[h], best);
      if better {
        loc := -1;
      }
    }
    if loc != -1 {
      MatchExpands(data, loc, i);
      MatchChosen(data, i, cands, nexts, loc, best);
      t := Match(best, i - loc);
    } else {
      LiteralChosen(data, i, cands, nexts, found, best);
      t := Literal(data[i]);
      assert data[..i] + [data[i]] == data[..i + 1];
    }
  }

  lemma MatchExpands(data: seq<byte>, p: nat, i: nat)
    requires p < i <= |data|
    ensures CopyBack(data[..i], i - p, MatchLength(data, p, i)) == data[..i + MatchLength(data, p, i)]
  {
    AgreeSound(data, i - p, i, if |data| - i < 258 then |data| - i else 258);
    CopyBackAgrees(data, i, i - p, MatchLength(data, p, i));
  }

  method EmitToken(w: BitWriter, t: Token)
    requires w.Valid() && Expressible(t)
    modifies w
    ensures w.Valid() && w.Written() == old(w.Written()).Cat(TokenBits(t))
  {
    match t
    case Literal(b) =>
      w.HuffB(b);
    case Match(len, dist) =>
      w.LengthOut(len);
      w.DistanceOut(dist);
      CatAssoc(old(w.Written()), LengthBits(len), DistanceBits(dist));
  }

  method Start() returns (w: BitWriter)
    ensures fresh(w) && w.Valid() && w.Written() == HeadBits().Cat(Bits(3, 3))
  {
    w := new BitWriter();
    w.Push(0x78);
    w.Push(0x5e);
    StartIs(w.Written());
    w.Add(1, 1);
    w.Add(1, 2);
  }

  lemma TwoBytes(a: byte, b: byte)
    ensures Bits(0, 0).Cat(Bits(a, 8)).Cat(Bits(b, 8)) == Bits(a + 256 * b, 16)
  {
    CatEmpty(Bits(a, 8));
    ShlByte(b);
  }

  /** The two bytes, and the marks of the block after them. */
  lemma StartIs(w: Bits)
    requires w == Bits(0, 0).Cat(Bits(0x78, 8)).Cat(Bits(0x5e, 8))
    ensures w.Cat(Bits(1, 1)).Cat(Bits(1, 2)) == HeadBits().Cat(Bits(3, 3)) && 1 < Pow2(1) && 1 < Pow2(2)
  {
    TwoBytes(0x78, 0x5e);
    OneAndOne(w);
  }

  lemma OneAndOne(w: Bits)
    ensures w.Cat(Bits(1, 1)).Cat(Bits(1, 2)) == w.Cat(Bits(3, 3)) && 1 < Pow2(1) && 1 < Pow2(2)
  {
    CatAssoc(w, Bits(1, 1), Bits(1, 2));
    Pow2Values();
    assert Shl(1, 1) == 2;
  }

  lemma TableLater(table: array<seq<nat>>, i: nat, j: nat)
    requires TableOK(table, i) && i <= j
    ensures TableOK(table, j)
  {
  }

  /** The tokens stand for the first i bytes. */
  ghost predicate Encodes(data: seq<byte>, i: nat, ts: seq<Token>)
  {
    i <= |data| && ValidTokens(ts, 0) && AllExpressible(ts) && Expand([], ts) == data[..i]
  }

  /** How many bytes the tokens stand for. */
  function Size(ts: seq<Token>): nat
  {
    if ts == [] then 0 else Size(ts[..|ts| - 1]) + TokenLength(ts[|ts| - 1])
  }

  /** The lists after these tokens: the position of each has joined that of its hash. */
  function ListsAfter(zh: Hashes, quality: nat, ts: seq<Token>): (r: seq<seq<nat>>)
    ensures |r| == ZHASH
  {
    if ts == [] then seq(ZHASH, _ => [])
    else
      var before := ts[..|ts| - 1];
      Joined(ListsAfter(zh, quality, before), zh(Size(before)), Size(before), quality)
  }

  /** Each token is what the compressor makes of its position. */
  ghost predicate Greedy(data: seq<byte>, zh: Hashes, quality: nat, ts: seq<Token>)
  {
    ts == [] ||
    var before := ts[..|ts| - 1];
    && Greedy(data, zh, quality, before)
    && ChosenAfter(data, zh, ListsAfter(zh, quality, before), ListsAfter(zh, quality, ts), Size(before), ts[|ts| - 1])
  }

  ghost predicate ChosenAfter(data: seq<byte>, zh: Hashes, before: seq<seq<nat>>, after: seq<seq<nat>>, i: nat,
                              t: Token)
  {
    zh(i) < |before| && zh(i + 1) < |after| && Chosen(data, i, before[zh(i)], after[zh(i + 1)], t)
  }

  /** Where the main loop stands. */
  ghost predicate Running(data: seq<byte>, zh: Hashes, quality: nat, ts: seq<Token>, i: nat, lists: seq<seq<nat>>)
  {
    i == Size(ts) && lists == ListsAfter(zh, quality, ts) && Greedy(data, zh, quality, ts)
  }

  lemma RunningNext(data: seq<byte>, zh: Hashes, quality: nat, ts: seq<Token>, i: nat, before: seq<seq<nat>>,
                    after: seq<seq<nat>>, t: Token)
    requires Running(data, zh, quality, ts, i, before) && after == Joined(before, zh(i), i, quality)
    requires ChosenAfter(data, zh, before, after, i, t)
    ensures Running(data, zh, quality, ts + [t], i + TokenLength(t), after)
  {
    assert (ts + [t])[..|ts|] == ts;
  }

  function Literals(s: seq<byte>): (ts: seq<Token>)
    ensures |ts| == |s| && forall k :: 0 <= k < |ts| ==> ts[k] == Literal(s[k])
  {
    seq(|s|, k requires 0 <= k < |s| => Literal(s[k]))
  }

  /** The tokens of the main loop, which ends before the last three bytes, and literals for what is left. */
  ghost predicate GreedyTokens(data: seq<byte>, quality: nat, ts: seq<Token>, ms: seq<Token>)
  {
    && Greedy(data, HashesOf(data), quality, ms)
    && Size(ms) <= |data| <= Size(ms) + 3 && ts == ms + Literals(data[Size(ms)..])
  }

  lemma LiteralsOn(data: seq<byte>, from: nat, i: nat, ts0: seq<Token>)
    requires from <= i < |data|
    ensures ts0 + Literals(data[from..i]) + [Literal(data[i])] == ts0 + Literals(data[from..i + 1])
  {
    assert data[from..i] + [data[i]] == data[from..i + 1];
    assert Literals(data[from..i]) + [Literal(data[i])] == Literals(data[from..i + 1]);
  }

  lemma EncodesNext(data: seq<byte>, i: nat, ts: seq<Token>, t: Token)
    requires Encodes(data, i, ts) && ValidToken(t, i) && i + TokenLength(t) <= |data|
    requires ExpandToken(data[..i], t) == data[..i + TokenLength(t)]
    ensures Encodes(data, i + TokenLength(t), ts + [t])
  {
    ExpandAppend([], ts, t);
  }

  /** What is written once the tokens ts are out after head. */
  function WrittenFor(head: Bits, ts: seq<Token>): Bits
    requires AllExpressible(ts)
  {
    head.Cat(TokensBits(ts))
  }

  lemma WrittenNext(head: Bits, ts: seq<Token>, t: Token)
    requires AllExpressible(ts) && Expressible(t)
    ensures AllExpressible(ts + [t])
    ensures WrittenFor(head, ts).Cat(TokenBits(t)) == WrittenFor(head, ts + [t])
  {
    TokensBitsAppend(ts, t);
    CatAssoc(head, TokensBits(ts), TokenBits(t));
  }

  lemma WrittenEnd(head: Bits, ts: seq<Token>)
    requires AllExpressible(ts) && head == HeadBits().Cat(Bits(3, 3))
    ensures WrittenFor(head, ts).Cat(EndBits()) == StreamBits(ts)
  {
    var b, e := Bits(3, 3), EndBits();
    CatAssoc(HeadBits(), b, TokensBits(ts));
    CatAssoc(HeadBits(), b.Cat(TokensBits(ts)), e);
  }

  lemma TokenNext(data: seq<byte>, i: nat, ts: seq<Token>, t: Token, head: Bits)
    requires Encodes(data, i, ts) && ValidToken(t, i) && i + TokenLength(t) <= |data|
    requires ExpandToken(data[..i], t) == data[..i + TokenLength(t)]
    ensures Encodes(data, i + TokenLength(t), ts + [t])
    ensures WrittenFor(head, ts).Cat(TokenBits(t)) == WrittenFor(head, ts + [t])
  {
    EncodesNext(data, i, ts, t);
    WrittenNext(head, ts, t);
  }

  /** Where the main loop stands, and what it has written. */
  ghost predicate Standing(data: seq<byte>, zh: Hashes, quality: nat, ts: seq<Token>, i: nat, lists: seq<seq<nat>>,
                           head: Bits, written: Bits)
  {
    Encodes(data, i, ts) && Running(data, zh, quality, ts, i, lists) && written == WrittenFor(head, ts)
  }

  lemma StandingFirst(data: seq<byte>, zh: Hashes, quality: nat, lists: seq<seq<nat>>, head: Bits)
    requires |lists| == ZHASH && forall h :: 0 <= h < ZHASH ==> lists[h] == []
    ensures Standing(data, zh, quality, [], 0, lists, head, head)
  {
    CatEmpty(head);
    assert lists == seq(ZHASH, _ => []);
  }

  /** The token for what comes next, chosen and written. */
  method WriteToken(data: seq<byte>, i: nat, table: array<seq<nat>>, quality: nat, w: BitWriter,
                    ghost head: Bits, ghost ts: seq<Token>, ghost zh: Hashes)
    returns (t: Token)
    requires i + 3 < |data| && TableOK(table, i) && Hashing(data, zh)
    requires w.Valid() && Standing(data, zh, quality, ts, i, table[..], head, w.Written())
    modifies table, w
    ensures TokenLength(t) > 0 && i + TokenLength(t) <= |data| && TableOK(table, i + TokenLength(t))
    ensures w.Valid()
    ensures Standing(data, zh, quality, ts + [t], i + TokenLength(t), table[..], head, w.Written())
  {
    t := ChooseToken(data, i, table, quality, zh);
    RunningNext(data, zh, quality, ts, i, old(table[..]), table[..], t);
    EmitToken(w, t);
    TokenNext(data, i, ts, t, head);
    TableLater(table, i + 1, i + TokenLength(t));
  }

  /** The main loop, while three more bytes can be hashed. */
  method WriteMatches(data: seq<byte>, quality: nat, w: BitWriter, ghost head: Bits, ghost zh: Hashes)
    returns (i: nat, ghost ts: seq<Token>)
    requires w.Valid() && w.Written() == head && Hashing(data, zh)
    modifies w
    ensures w.Valid() && Encodes(data, i, ts) && w.Written() == WrittenFor(head, ts)
    ensures Greedy(data, zh, quality, ts) && Size(ts) == i && |data| <= i + 3
  {
    var table := new seq<nat>[ZHASH](_ => []);
    StandingFirst(data, zh, quality, table[..], head);
    i := 0;
    ts := [];
    while i < |data| - 3
      invariant w.Valid() && TableOK(table, i)
      invariant i <= |data| && Standing(data, zh, quality, ts, i, table[..], head, w.Written())
      decreases |data| - i
    {
      var t := WriteToken(data, i, table, quality, w, head, ts, zh);
      ts := ts + [t];
      i := i + TokenLength(t);
    }
  }

  lemma LiteralNext(data: seq<byte>, from: nat, i: nat, ts0: seq<Token>, ts: seq<Token>, head: Bits)
    returns (ts': seq<Token>)
    requires Encodes(data, i, ts) && from <= i < |data| && ts == ts0 + Literals(data[from..i])
    ensures Encodes(data, i + 1, ts') && ts' == ts0 + Literals(data[from..i + 1])
    ensures WrittenFor(head, ts') == WrittenFor(head, ts).Cat(TokenBits(Literal(data[i])))
  {
    var t := Literal(data[i]);
    assert data[..i] + [data[i]] == data[..i + 1];
    ts' := ts + [t];
    EncodesNext(data, i, ts, t);
    WrittenNext(head, ts, t);
    LiteralsOn(data, from, i, ts0);
  }

  /** Where the loop over the bytes that are left stands. */
  ghost predicate Rest(data: seq<byte>, from: nat, i: nat, ts0: seq<Token>, ts: seq<Token>, head: Bits, written: Bits)
  {
    && from <= i <= |data| && ts == ts0 + Literals(data[from..i])
    && Encodes(data, i, ts) && written == WrittenFor(head, ts)
  }

  method WriteLiteral(data: seq<byte>, ghost from: nat, i: nat, ghost ts0: seq<Token>, ghost ts: seq<Token>,
                      w: BitWriter, ghost head: Bits)
    returns (ghost ts': seq<Token>)
    requires i < |data| && w.Valid() && Rest(data, from, i, ts0, ts, head, w.Written())
    modifies w
    ensures w.Valid() && Rest(data, from, i + 1, ts0, ts', head, w.Written())
  {
    w.HuffB(data[i]);
    ts' := LiteralNext(data, from, i, ts0, ts, head);
  }

  /** The bytes that are left go out as literals. */
  method WriteRest(data: seq<byte>, i0: nat, ghost ts0: seq<Token>, w: BitWriter, ghost head: Bits)
    returns (ghost ts: seq<Token>)
    requires w.Valid() && Encodes(data, i0, ts0) && w.Written() == WrittenFor(head, ts0)
    modifies w
    ensures w.Valid() && Encodes(data, |data|, ts) && w.Written() == WrittenFor(head, ts)
    ensures i0 <= |data| && ts == ts0 + Literals(data[i0..])
  {
    var i := i0;
    ts := ts0;
    assert ts0 + Literals(data[i0..i]) == ts0;
    while i < |data|
      invariant w.Valid() && Rest(data, i0, i, ts0, ts, head, w.Written())
    {
      ts := WriteLiteral(data, i0, i, ts0, ts, w, head);
      i := i + 1;
    }
  }

  /** Everything up to the end mark. */
  method WriteBlock(data: seq<byte>, quality: nat) returns (w: BitWriter, ghost ts: seq<Token>, ghost ms: seq<Token>)
    ensures fresh(w) && w.Valid() && Encodes(data, |data|, ts)
    ensures w.Written() == StreamBits(ts) && GreedyTokens(data, quality, ts, ms)
  {
    ghost var zh := HashesHash(data);
    w := Start();
    ghost var head := w.Written();
    var i;
    i, ms := WriteMatches(data, quality, w, head, zh);
    ts := WriteRest(data, i, ms, w, head);
    w.HuffEnd();
    WrittenEnd(head, ts);
  }

  /** The bytes are a stream whose tokens stand for the data. */
  ghost predicate StreamOf(data: seq<byte>, out: seq<byte>)
  {
    exists ts :: Encodes(data, |data|, ts) && out == ZlibStream(ts, data)
  }

  /** And the tokens are those that the compressor chooses, position by position. */
  ghost predicate GreedyStream(data: seq<byte>, quality: nat, out: seq<byte>)
  {
    exists ts, ms :: GreedyTokens(data, quality, ts, ms) && AllExpressible(ts) && out == ZlibStream(ts, data)
  }

  /** stbi_zlib_compress. */
  method Compress(data: seq<byte>, quality: int) returns (out: seq<byte>)
    ensures StreamOf(data, out)
    ensures GreedyStream(data, if quality < 5 then 5 else quality, out)
  {
    var w;
    ghost var ts, ms;
    w, ts, ms := WriteBlock(data, if quality < 5 then 5 else quality);
    w.Pad();
    var s1, s2 := Adler32(data);
    out := w.out + AdlerBytes(s1, s2);
  }
}
