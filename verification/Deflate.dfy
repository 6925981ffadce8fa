/** The deflate format with the fixed Huffman code (sections 3.2.5 and 3.2.6 of RFC 1951):
    what a list of literals and matches expands to, and which bits stand for it. */
module Deflate {
  import opened Arith
  import opened CanonicalCode

  datatype Token =
    | Literal(b: byte)
    | Match(len: nat, dist: nat)

  // ---------------------------------------------------------------------------------------------
  // What tokens mean
  // ---------------------------------------------------------------------------------------------

  /** Appends len bytes, each one copied from dist positions back; the copy may overlap itself. */
  function CopyBack(out: seq<byte>, dist: nat, len: nat): (r: seq<byte>)
    requires 1 <= dist <= |out|
    ensures |r| == |out| + len && r[..|out|] == out
    decreases len
  {
    if len == 0 then out else CopyBack(out + [out[|out| - dist]], dist, len - 1)
  }

  function TokenLength(t: Token): nat
  {
    match t
    case Literal(_) => 1
    case Match(len, _) => len
  }

  /** Lengths and distances that the format can express and that the compressor uses. */
  predicate Expressible(t: Token)
  {
    t.Match? ==> 3 <= t.len <= 258 && 1 <= t.dist <= 32767
  }

  predicate ValidToken(t: Token, size: nat)
  {
    Expressible(t) && (t.Match? ==> t.dist <= size)
  }

  predicate AllExpressible(ts: seq<Token>)
  {
    forall i :: 0 <= i < |ts| ==> Expressible(ts[i])
  }

  /** Every match refers to bytes that exist once size bytes and the earlier tokens are out. */
  predicate ValidTokens(ts: seq<Token>, size: nat)
  {
    ts == [] || (ValidToken(ts[0], size) && ValidTokens(ts[1..], size + TokenLength(ts[0])))
  }

  function ExpandToken(out: seq<byte>, t: Token): (r: seq<byte>)
    requires ValidToken(t, |out|)
    ensures |r| == |out| + TokenLength(t)
  {
    match t
    case Literal(b) => out + [b]
    case Match(len, dist) => CopyBack(out, dist, len)
  }

  function Expand(out: seq<byte>, ts: seq<Token>): (r: seq<byte>)
    requires ValidTokens(ts, |out|)
    ensures |r| >= |out|
    decreases |ts|
  {
    if ts == [] then out else Expand(ExpandToken(out, ts[0]), ts[1..])
  }

  lemma {:induction false} ExpandAppend(out: seq<byte>, ts: seq<Token>, t: Token)
    requires ValidTokens(ts, |out|) && ValidToken(t, |Expand(out, ts)|)
    ensures ValidTokens(ts + [t], |out|)
    ensures Expand(out, ts + [t]) == ExpandToken(Expand(out, ts), t)
    decreases |ts|
  {
    if ts == [] {
      assert [] + [t] == [t];
      assert [t][1..] == [];
    } else {
      assert (ts + [t])[1..] == ts[1..] + [t];
      ExpandAppend(ExpandToken(out, ts[0]), ts[1..], t);
    }
  }

  /** A copy of data that agrees with itself dist positions back. */
  lemma {:induction false} CopyBackAgrees(data: seq<byte>, i: nat, dist: nat, len: nat)
    requires 1 <= dist <= i && i + len <= |data|
    requires forall k :: i <= k < i + len ==> data[k] == data[k - dist]
    ensures CopyBack(data[..i], dist, len) == data[..i + len]
    decreases len
  {
    if len > 0 {
      assert data[..i] + [data[i - dist]] == data[..i + 1];
      CopyBackAgrees(data, i + 1, dist, len - 1);
    }
  }

  // ---------------------------------------------------------------------------------------------
  // Strings of bits, the first bit lowest
  // ---------------------------------------------------------------------------------------------

  datatype Bits = Bits(val: nat, len: nat)
  {
    ghost predicate Valid() { val < Pow2(len) }

    function Cat(b: Bits): Bits
    {
      Bits(val + Shl(b.val, len), len + b.len)
    }
  }

  lemma CatAssoc(a: Bits, b: Bits, c: Bits)
    ensures a.Cat(b).Cat(c) == a.Cat(b.Cat(c))
  {
    ShlAdd(b.val, Shl(c.val, b.len), a.len);
    ShlShl(c.val, b.len, a.len);
  }

  lemma CatEmpty(a: Bits)
    ensures a.Cat(Bits(0, 0)) == a
    ensures Bits(0, 0).Cat(a) == a
  {
    ShlIsMul(0, a.len);
  }

  lemma CatValid(a: Bits, b: Bits)
    requires a.Valid() && b.Valid()
    ensures a.Cat(b).Valid()
  {
    ShlBound(a.val, b.val, b.len, a.len);
  }

  // ---------------------------------------------------------------------------------------------
  // The fixed code
  // ---------------------------------------------------------------------------------------------

  function FixedLength(i: nat): nat
  {
    if i <= 143 then 8 else if i <= 255 then 9 else if i <= 279 then 7 else 8
  }

  function FixedLengths(): (sz: seq<nat>)
    ensures |sz| == 288 && forall i :: 0 <= i < 288 ==> sz[i] == FixedLength(i)
  {
    seq(288, i requires 0 <= i => FixedLength(i))
  }

  function FixedDistances(): (sz: seq<nat>)
    ensures |sz| == 32 && forall i :: 0 <= i < 32 ==> sz[i] == 5
  {
    seq(32, _ => 5)
  }

  function FixedCount(s: nat, n: nat): nat
    requires n <= 288
  {
    match s
    case 7 => if n <= 256 then 0 else if n <= 280 then n - 256 else 24
    case 8 => if n <= 144 then n else if n <= 280 then 144 else n - 136
    case 9 => if n <= 144 then 0 else if n <= 256 then n - 144 else 112
    case _ => 0
  }

  lemma {:induction false} FixedCounts(s: nat, n: nat)
    requires n <= 288
    ensures Count(FixedLengths(), s, n) == FixedCount(s, n)
  {
    if n > 0 {
      FixedCounts(s, n - 1);
    }
  }

  lemma {:induction false} DistanceCounts(s: nat, n: nat)
    requires n <= 32
    ensures Count(FixedDistances(), s, n) == if s == 5 then n else 0
  {
    if n > 0 {
      DistanceCounts(s, n - 1);
    }
  }

  lemma {:induction false} FixedFirst(s: nat)
    requires 1 <= s <= 15
    ensures FirstCode(FixedLengths(), s) ==
      if s <= 7 then 0 else if s == 8 then 0x30 else if s == 9 then 0x190 else Pow2(s)
  {
    if s > 1 {
      FixedFirst(s - 1);
      FixedCounts(s - 1, 288);
      assert Pow2(9) == 512;
    }
  }

  lemma {:induction false} DistanceFirst(s: nat)
    requires 1 <= s <= 15
    ensures FirstCode(FixedDistances(), s) == if s <= 5 then 0 else Pow2(s)
  {
    if s > 1 {
      DistanceFirst(s - 1);
      DistanceCounts(s - 1, 32);
      assert Pow2(5) == 32;
    }
  }

  lemma FixedFits()
    ensures SizeList(FixedLengths()) && Fits(FixedLengths())
    ensures SizeList(FixedDistances()) && Fits(FixedDistances())
  {
    forall s | 1 <= s <= 15
      ensures FitsAt(FixedLengths(), s) && FitsAt(FixedDistances(), s)
    {
      FixedFirst(s);
      FixedCounts(s, 288);
      DistanceFirst(s);
      DistanceCounts(s, 32);
      Pow2Values();
    }
  }

  /** The numbers that section 3.2.6 of RFC 1951 gives for the fixed code are the canonical ones. */
  lemma FixedCode(n: nat)
    requires n < 288
    ensures Code(FixedLengths(), n) ==
      if n <= 143 then 0x30 + n
      else if n <= 255 then 0x190 + n - 144
      else if n <= 279 then 0 + n - 256
      else 0xc0 + n - 280
  {
    FixedFirst(FixedLength(n));
    FixedCounts(FixedLength(n), n);
  }

  lemma DistanceCode(n: nat)
    requires n < 32
    ensures Code(FixedDistances(), n) == n
  {
    DistanceFirst(5);
    DistanceCounts(5, n);
  }

  // ---------------------------------------------------------------------------------------------
  // Lengths and distances as a code and extra bits
  // ---------------------------------------------------------------------------------------------

  /** The reader's tables. */
  const LENGTH_BASE: seq<nat> := [
    3, 4, 5, 6, 7, 8, 9, 10, 11, 13, 15, 17, 19, 23, 27, 31, 35, 43, 51, 59,
    67, 83, 99, 115, 131, 163, 195, 227, 258, 0, 0]
  const LENGTH_EXTRA: seq<nat> := [
    0, 0, 0, 0, 0, 0, 0, 0, 1, 1, 1, 1, 2, 2, 2, 2, 3, 3, 3, 3, 4, 4, 4, 4, 5, 5, 5, 5, 0, 0, 0]
  const DIST_BASE: seq<nat> := [
    1, 2, 3, 4, 5, 7, 9, 13, 17, 25, 33, 49, 65, 97, 129, 193, 257, 385, 513, 769,
    1025, 1537, 2049, 3073, 4097, 6145, 8193, 12289, 16385, 24577, 0, 0]
  const DIST_EXTRA: seq<nat> := [
    0, 0, 0, 0, 1, 1, 2, 2, 3, 3, 4, 4, 5, 5, 6, 6, 7, 7, 8, 8, 9, 9, 10, 10, 11, 11, 12, 12, 13, 13, 0, 0]

  /** The writer's tables, which end in a sentinel. */
  const LENGTHC: seq<nat> := [
    3, 4, 5, 6, 7, 8, 9, 10, 11, 13, 15, 17, 19, 23, 27, 31, 35, 43, 51, 59,
    67, 83, 99, 115, 131, 163, 195, 227, 258, 259]
  const LENGTHEB: seq<nat> := [
    0, 0, 0, 0, 0, 0, 0, 0, 1, 1, 1, 1, 2, 2, 2, 2, 3, 3, 3, 3, 4, 4, 4, 4, 5, 5, 5, 5, 0]
  const DISTC: seq<nat> := [
    1, 2, 3, 4, 5, 7, 9, 13, 17, 25, 33, 49, 65, 97, 129, 193, 257, 385, 513, 769,
    1025, 1537, 2049, 3073, 4097, 6145, 8193, 12289, 16385, 24577, 32768]
  const DISTEB: seq<nat> := [
    0, 0, 0, 0, 1, 1, 2, 2, 3, 3, 4, 4, 5, 5, 6, 6, 7, 7, 8, 8, 9, 9, 10, 10, 11, 11, 12, 12, 13, 13]

  /** Section 3.2.5 of RFC 1951 in closed form: after the first eight lengths, each number of extra bits serves four
      rows; after the first four distances, two. */
  function LengthStart(j: nat): nat
  {
    if j < 8 then j + 3 else if j < 28 then 3 + (4 + j % 4) * Pow2((j - 4) / 4) else 230 + j
  }

  function LengthExtra(j: nat): nat
  {
    if 8 <= j < 28 then (j - 4) / 4 else 0
  }

  function DistStart(j: nat): nat
  {
    if j < 4 then j + 1 else if j < 30 then 1 + (2 + j % 2) * Pow2((j - 2) / 2) else 32768
  }

  function DistExtra(j: nat): nat
  {
    if j < 4 then 0 else (j - 2) / 2
  }

  /** Both tables of lengths are the standard's; the writer's ends with 259, which no length reaches. */
  lemma LengthTable(j: nat)
    requires j < 30
    ensures LENGTHC[j] == LengthStart(j)
    ensures j < 29 ==> LENGTH_BASE[j] == LengthStart(j) && LENGTH_EXTRA[j] == LENGTHEB[j] == LengthExtra(j)
  {
    LengthStarts(j);
    if j < 29 {
      LengthsSame(j);
      LengthExtras(j);
    }
  }

  lemma LengthStarts(j: nat)
    requires j < 30
    ensures LENGTHC[j] == LengthStart(j)
  {
    Pow2Values();
  }

  lemma LengthExtras(j: nat)
    requires j < 29
    ensures LENGTHEB[j] == LengthExtra(j)
  {
    if j < 8 {
    } else if j < 28 {
      assert LENGTHEB[j] == j / 4 - 1;
    } else {
      assert j == 28;
    }
  }

  lemma LengthsSame(j: nat)
    requires j < 29
    ensures LENGTHC[j] == LENGTH_BASE[j] && LENGTHEB[j] == LENGTH_EXTRA[j]
  {
  }

  /** Both tables of distances are the standard's; the writer's ends with the size of its window. */
  lemma DistTable(j: nat)
    requires j < 31
    ensures DISTC[j] == DistStart(j)
    ensures j < 30 ==> DIST_BASE[j] == DistStart(j) && DIST_EXTRA[j] == DISTEB[j] == DistExtra(j)
  {
    DistStarts(j);
    if j < 30 {
      DistsSame(j);
      DistExtras(j);
    }
  }

  lemma DistExtras(j: nat)
    requires j < 30
    ensures DISTEB[j] == DistExtra(j)
  {
  }

  lemma DistsSame(j: nat)
    requires j < 30
    ensures DISTC[j] == DIST_BASE[j] && DISTEB[j] == DIST_EXTRA[j]
  {
  }

  lemma DistStarts(j: nat)
    requires j < 31
    ensures DISTC[j] == DistStart(j)
  {
    Pow2Values();
    if j < 8 {
    } else if j < 16 {
    } else if j < 24 {
    } else {
    }
  }

  lemma LengthRow(j: nat)
    requires j < 29
    ensures LENGTHC[j] == LENGTH_BASE[j] && LENGTHEB[j] == LENGTH_EXTRA[j]
    ensures LENGTHC[j + 1] <= LENGTHC[j] + Pow2(LENGTHEB[j]) && LENGTHEB[j] <= 5
  {
    Pow2Values();
  }

  lemma DistRow(j: nat)
    requires j < 30
    ensures DISTC[j] == DIST_BASE[j] && DISTEB[j] == DIST_EXTRA[j]
    ensures DISTC[j + 1] <= DISTC[j] + Pow2(DISTEB[j]) && DISTEB[j] <= 13
  {
    Pow2Values();
  }

  /** The row of a table with a sentinel that v falls into, searched upward from row j. */
  function Row(table: seq<nat>, v: nat, j: nat): (r: nat)
    requires j + 1 < |table| && table[j] <= v < table[|table| - 1]
    ensures j <= r && r + 1 < |table| && table[r] <= v < table[r + 1]
    decreases |table| - j
  {
    if v >= table[j + 1] then Row(table, v, j + 1) else j
  }

  // ---------------------------------------------------------------------------------------------
  // The bits of tokens
  // ---------------------------------------------------------------------------------------------

  /** The code word of a literal or length symbol. */
  function SymbolBits(n: nat): Bits
    requires n < 288
  {
    Bits(Word(FixedLengths(), n), FixedLengths()[n])
  }

  function LengthBits(len: nat): Bits
    requires 3 <= len <= 258
  {
    LengthRowBits(len, Row(LENGTHC, len, 0))
  }

  lemma LengthBitsRow(len: nat) returns (j: nat)
    requires 3 <= len <= 258
    ensures j < 29 && LENGTHC[j] <= len < LENGTHC[j + 1] && LengthBits(len) == LengthRowBits(len, j)
  {
    j := Row(LENGTHC, len, 0);
  }

  lemma DistanceBitsRow(dist: nat) returns (j: nat)
    requires 1 <= dist <= 32767
    ensures j < 30 && DISTC[j] <= dist < DISTC[j + 1] && DistanceBits(dist) == DistanceRowBits(dist, j)
  {
    j := Row(DISTC, dist, 0);
  }

  function LengthRowBits(len: nat, j: nat): Bits
    requires j < 29 && LENGTHC[j] <= len
  {
    SymbolBits(257 + j).Cat(Bits(len - LENGTHC[j], LENGTHEB[j]))
  }

  function DistanceBits(dist: nat): Bits
    requires 1 <= dist <= 32767
  {
    DistanceRowBits(dist, Row(DISTC, dist, 0))
  }

  function DistanceRowBits(dist: nat, j: nat): Bits
    requires j < 30 && DISTC[j] <= dist
  {
    DistanceSymbolBits(j).Cat(Bits(dist - DISTC[j], DISTEB[j]))
  }

  /** The row that a value falls into is the only one that holds it. */
  lemma {:induction false} RowIs(table: seq<nat>, v: nat, k: nat, j: nat)
    requires k <= j && j + 1 < |table| && table[k] <= v < table[|table| - 1] && table[j] <= v < table[j + 1]
    requires forall i: nat :: k < i <= j ==> table[i] <= v
    ensures Row(table, v, k) == j
    decreases j - k
  {
    if k < j { RowIs(table, v, k + 1, j); }
  }

  lemma {:induction false} LengthsRise(i: nat, j: nat)
    requires i <= j < 30
    ensures LENGTHC[i] <= LENGTHC[j]
    decreases j
  {
    if i < j {
      LengthsRise(i, j - 1);
      LengthStep(j - 1);
    }
  }

  lemma LengthStep(j: nat)
    requires j < 29
    ensures LENGTHC[j] < LENGTHC[j + 1]
  {
  }

  lemma {:induction false} DistsRise(i: nat, j: nat)
    requires i <= j < 31
    ensures DISTC[i] <= DISTC[j]
    decreases j
  {
    if i < j {
      DistsRise(i, j - 1);
      DistStep(j - 1);
    }
  }

  lemma DistStep(j: nat)
    requires j < 30
    ensures DISTC[j] < DISTC[j + 1]
  {
  }

  lemma LengthRowOf(len: nat, j: nat)
    requires 3 <= len <= 258 && j < 29 && LENGTHC[j] <= len < LENGTHC[j + 1]
    ensures LengthBits(len) == LengthRowBits(len, j)
  {
    forall i: nat | i <= j
      ensures LENGTHC[i] <= len
    {
      LengthsRise(i, j);
    }
    RowIs(LENGTHC, len, 0, j);
  }

  lemma DistRowOf(dist: nat, j: nat)
    requires 1 <= dist <= 32767 && j < 30 && DISTC[j] <= dist < DISTC[j + 1]
    ensures DistanceBits(dist) == DistanceRowBits(dist, j)
  {
    forall i: nat | i <= j
      ensures DISTC[i] <= dist
    {
      DistsRise(i, j);
    }
    RowIs(DISTC, dist, 0, j);
  }

  lemma LengthBetween(len: nat, j: nat, low: nat, high: nat, e: nat)
    requires 3 <= len <= 258 && j < 29 && low <= len < high
    requires LENGTHC[j] == low && LENGTHC[j + 1] == high && LENGTHEB[j] == e
    ensures LengthBits(len) == SymbolBits(257 + j).Cat(Bits(len - low, e))
  {
    LengthRowOf(len, j);
  }

  lemma LengthNumbers(j: nat, low: nat, high: nat, e: nat)
    requires j < 29 && low == LengthStart(j) && high == LengthStart(j + 1) && e == LengthExtra(j)
    ensures LENGTHC[j] == low && LENGTHC[j + 1] == high && LENGTHEB[j] == e
  {
    LengthTable(j);
    LengthTable(j + 1);
  }

  lemma LengthIn(len: nat, j: nat, low: nat, high: nat, e: nat)
    requires 3 <= len <= 258 && j < 29 && low <= len < high
    requires low == LengthStart(j) && high == LengthStart(j + 1) && e == LengthExtra(j)
    ensures LengthBits(len) == SymbolBits(257 + j).Cat(Bits(len - low, e))
  {
    LengthNumbers(j, low, high, e);
    LengthBetween(len, j, low, high, e);
  }

  /** The symbol of a length and the extra bits after it: the symbol says in which row of the standard's table it lies,
      the extra bits how far from the start of the row. */
  lemma LengthSymbol(len: nat, j: nat)
    requires 3 <= len <= 258 && j < 29 && LengthStart(j) <= len < LengthStart(j + 1)
    ensures LengthBits(len) == SymbolBits(257 + j).Cat(Bits(len - LengthStart(j), LengthExtra(j)))
  {
    LengthIn(len, j, LengthStart(j), LengthStart(j + 1), LengthExtra(j));
  }

  lemma DistBetween(dist: nat, j: nat, low: nat, high: nat, e: nat)
    requires 1 <= dist <= 32767 && j < 30 && low <= dist < high
    requires DISTC[j] == low && DISTC[j + 1] == high && DISTEB[j] == e
    ensures DistanceBits(dist) == DistanceSymbolBits(j).Cat(Bits(dist - low, e))
  {
    DistRowOf(dist, j);
  }

  lemma DistNumbers(j: nat, low: nat, high: nat, e: nat)
    requires j < 30 && low == DistStart(j) && high == DistStart(j + 1) && e == DistExtra(j)
    ensures DISTC[j] == low && DISTC[j + 1] == high && DISTEB[j] == e
  {
    DistTable(j);
    DistTable(j + 1);
  }

  lemma DistIn(dist: nat, j: nat, low: nat, high: nat, e: nat)
    requires 1 <= dist <= 32767 && j < 30 && low <= dist < high
    requires low == DistStart(j) && high == DistStart(j + 1) && e == DistExtra(j)
    ensures DistanceBits(dist) == DistanceSymbolBits(j).Cat(Bits(dist - low, e))
  {
    DistNumbers(j, low, high, e);
    DistBetween(dist, j, low, high, e);
  }

  /** The symbol of a distance and the extra bits after it. */
  lemma DistSymbol(dist: nat, j: nat)
    requires 1 <= dist <= 32767 && j < 30 && DistStart(j) <= dist < DistStart(j + 1)
    ensures DistanceBits(dist) == DistanceSymbolBits(j).Cat(Bits(dist - DistStart(j), DistExtra(j)))
  {
    DistIn(dist, j, DistStart(j), DistStart(j + 1), DistExtra(j));
  }

  /** The code word of a distance symbol. */
  function DistanceSymbolBits(n: nat): Bits
    requires n < 32
  {
    Bits(Word(FixedDistances(), n), FixedDistances()[n])
  }

  /** Five bits, the number itself. */
  lemma DistanceWord(n: nat)
    requires n < 32
    ensures DistanceSymbolBits(n) == Bits(Rev(5, n), 5)
  {
    DistanceCode(n);
  }

  function TokenBits(t: Token): Bits
    requires Expressible(t)
  {
    match t
    case Literal(b) => SymbolBits(b)
    case Match(len, dist) => LengthBits(len).Cat(DistanceBits(dist))
  }

  function TokensBits(ts: seq<Token>): Bits
    requires AllExpressible(ts)
  {
    if ts == [] then Bits(0, 0) else TokenBits(ts[0]).Cat(TokensBits(ts[1..]))
  }

  const END_OF_BLOCK: nat := 256

  /** The end mark: its code word is seven zero bits. */
  function EndBits(): Bits
  {
    Bits(0, 7)
  }

  lemma EndBitsAreWord()
    ensures Word(FixedLengths(), END_OF_BLOCK) == 0 && FixedLengths()[END_OF_BLOCK] == 7
  {
    FixedCode(END_OF_BLOCK);
    RevZero(7);
  }

  /** One final block with the fixed code: the header bits, the tokens, and the end mark. */
  function BlockBits(ts: seq<Token>): Bits
    requires AllExpressible(ts)
  {
    Bits(3, 3).Cat(TokensBits(ts)).Cat(EndBits())
  }

  lemma {:induction false} TokensBitsAppend(ts: seq<Token>, t: Token)
    requires AllExpressible(ts) && Expressible(t)
    ensures AllExpressible(ts + [t])
    ensures TokensBits(ts + [t]) == TokensBits(ts).Cat(TokenBits(t))
  {
    if ts == [] {
      assert [] + [t] == [t];
      assert [t][1..] == [];
      CatEmpty(TokenBits(t));
    } else {
      assert (ts + [t])[1..] == ts[1..] + [t];
      TokensBitsAppend(ts[1..], t);
      CatAssoc(TokenBits(ts[0]), TokensBits(ts[1..]), TokenBits(t));
    }
  }

  lemma TokenBitsValid(t: Token)
    requires Expressible(t)
    ensures TokenBits(t).Valid()
  {
    if t.Match? {
      LengthBitsValid(t.len, Row(LENGTHC, t.len, 0));
      DistanceBitsValid(t.dist, Row(DISTC, t.dist, 0));
      CatValid(LengthBits(t.len), DistanceBits(t.dist));
    }
  }

  lemma LengthBitsValid(len: nat, j: nat)
    requires j < 29 && LENGTHC[j] <= len < LENGTHC[j + 1]
    ensures LengthRowBits(len, j).Valid()
  {
    LengthRow(j);
    CatValid(SymbolBits(257 + j), Bits(len - LENGTHC[j], LENGTHEB[j]));
  }

  lemma DistanceBitsValid(dist: nat, j: nat)
    requires j < 30 && DISTC[j] <= dist < DISTC[j + 1]
    ensures DistanceRowBits(dist, j).Valid()
  {
    DistRow(j);
    CatValid(DistanceSymbolBits(j), Bits(dist - DISTC[j], DISTEB[j]));
  }

  lemma {:induction false} TokensBitsValid(ts: seq<Token>)
    requires AllExpressible(ts)
    ensures TokensBits(ts).Valid()
  {
    if ts != [] {
      TokenBitsValid(ts[0]);
      TokensBitsValid(ts[1..]);
      CatValid(TokenBits(ts[0]), TokensBits(ts[1..]));
    }
  }
}
