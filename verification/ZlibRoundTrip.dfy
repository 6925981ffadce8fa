/** Inflating what the compressor wrote gives the data back. */
module ZlibRoundTrip {
  import opened Arith
  import opened CanonicalCode
  import opened Deflate
  import opened Inflate
  import Compress

  /** The buffer after writing s at its start. */
  function Overwrite(buf: seq<byte>, s: seq<byte>): seq<byte>
    requires |s| <= |buf|
  {
    s + buf[|s|..]
  }

  // ---------------------------------------------------------------------------------------------
  // One symbol
  // ---------------------------------------------------------------------------------------------

  lemma CatShl(a: Bits, b: Bits, rest: nat)
    ensures a.Cat(b).val + Shl(rest, a.Cat(b).len) == a.val + Shl(b.val + Shl(rest, b.len), a.len)
  {
    ShlAdd(b.val, Shl(rest, b.len), a.len);
    ShlShl(rest, b.len, a.len);
  }

  /** The input r starts with the bits b, and rest comes after them. */
  ghost predicate Starts(r: nat, b: Bits, rest: nat)
  {
    r == b.val + Shl(rest, b.len)
  }

  lemma SplitStarts(r: nat, a: Bits, b: Bits, rest: nat) returns (r1: nat)
    requires Starts(r, a.Cat(b), rest)
    ensures Starts(r, a, r1) && Starts(r1, b, rest)
  {
    CatShl(a, b, rest);
    r1 := b.val + Shl(rest, b.len);
  }

  lemma ReadWordOf(sz: seq<nat>, n: nat, r: nat, rest: nat)
    requires SizeList(sz) && Fits(sz) && n < |sz| && sz[n] > 0
    requires Starts(r, Bits(Word(sz, n), sz[n]), rest)
    ensures Lookup(sz, r) == n && Shr(r, sz[n]) == rest
  {
    DecodeWord(sz, n, rest);
  }

  lemma ReadWord(n: nat, r: nat, rest: nat)
    requires n < 288 && Starts(r, SymbolBits(n), rest)
    ensures Lookup(FixedLengths(), r) == n && Shr(r, FixedLengths()[n]) == rest
  {
    FixedFits();
    ReadWordOf(FixedLengths(), n, r, rest);
  }

  lemma ExtraBits(v: nat, eb: nat, r: nat, rest: nat)
    requires v < Pow2(eb) && Starts(r, Bits(v, eb), rest)
    ensures Low(r, eb) == v && Shr(r, eb) == rest
  {
    ShrLowUnique(v, rest, eb);
  }

  /** A code word with extra bits behind it comes back as the symbol and the extra value. */
  lemma SymbolThenExtra(sz: seq<nat>, j: nat, v: nat, eb: nat, r: nat, rest: nat)
    requires SizeList(sz) && Fits(sz) && j < |sz| && sz[j] > 0 && v < Pow2(eb)
    requires Starts(r, Bits(Word(sz, j), sz[j]).Cat(Bits(v, eb)), rest)
    ensures Lookup(sz, r) == j && Low(Shr(r, sz[j]), eb) == v && Shr(Shr(r, sz[j]), eb) == rest
  {
    var mid := SplitStarts(r, Bits(Word(sz, j), sz[j]), Bits(v, eb), rest);
    ReadWordOf(sz, j, r, mid);
    ExtraBits(v, eb, mid, rest);
  }

  lemma ReadDistanceAt(dsz: seq<nat>, r: nat, len: nat, j: nat, base: nat, eb: nat, v: nat, rest: nat)
    requires j < |dsz| <= 32 && DIST_BASE[j] == base && DIST_EXTRA[j] == eb
    requires Lookup(dsz, r) == j && Low(Shr(r, dsz[j]), eb) == v && Shr(Shr(r, dsz[j]), eb) == rest
    ensures ReadDistance(dsz, r, len) == Fields(len, base + v, rest)
  {
  }

  lemma ReadDistanceRow(dsz: seq<nat>, j: nat, base: nat, eb: nat, v: nat, len: nat, r: nat, rest: nat)
    requires SizeList(dsz) && Fits(dsz) && j < |dsz| <= 32 && dsz[j] > 0
    requires v < Pow2(eb) && DIST_BASE[j] == base && DIST_EXTRA[j] == eb
    requires Starts(r, Bits(Word(dsz, j), dsz[j]).Cat(Bits(v, eb)), rest)
    ensures ReadDistance(dsz, r, len) == Fields(len, base + v, rest)
  {
    SymbolThenExtra(dsz, j, v, eb, r, rest);
    ReadDistanceAt(dsz, r, len, j, base, eb, v, rest);
  }

  /** The tables of the two directions agree. */
  lemma DistanceParts(dist: nat, j: nat) returns (base: nat, eb: nat, v: nat)
    requires j < 30 && DISTC[j] <= dist < DISTC[j + 1]
    ensures DIST_BASE[j] == base && DIST_EXTRA[j] == eb && base + v == dist && v < Pow2(eb)
    ensures DistanceRowBits(dist, j) == DistanceSymbolBits(j).Cat(Bits(v, eb))
  {
    DistRow(j);
    base, eb, v := DISTC[j], DISTEB[j], dist - DISTC[j];
  }

  /** A distance comes back. */
  lemma ReadDistanceBits(dist: nat, j: nat, len: nat, r: nat, rest: nat)
    requires j < 30 && DISTC[j] <= dist < DISTC[j + 1] && Starts(r, DistanceRowBits(dist, j), rest)
    ensures ReadDistance(FixedDistances(), r, len) == Fields(len, dist, rest)
  {
    FixedFits();
    var base, eb, v := DistanceParts(dist, j);
    ReadDistanceRow(FixedDistances(), j, base, eb, v, len, r, rest);
  }

  lemma ReadFieldsAt(dsz: seq<nat>, r: nat, j: nat, v: nat, rest: nat)
    requires |dsz| <= 32 && j < 29 && Low(r, LENGTH_EXTRA[j]) == v && Shr(r, LENGTH_EXTRA[j]) == rest
    ensures ReadFields(dsz, r, 257 + j) == ReadDistance(dsz, rest, LENGTH_BASE[j] + v)
  {
  }

  lemma ReadLengthRow(lsz: seq<nat>, dsz: seq<nat>, j: nat, base: nat, eb: nat, v: nat, r: nat, rest: nat)
    requires SizeList(lsz) && Fits(lsz) && j < 29 && |lsz| == 288 && lsz[257 + j] > 0 && |dsz| <= 32
    requires v < Pow2(eb) && LENGTH_BASE[j] == base && LENGTH_EXTRA[j] == eb
    requires Starts(r, Bits(Word(lsz, 257 + j), lsz[257 + j]).Cat(Bits(v, eb)), rest)
    ensures Lookup(lsz, r) == 257 + j
    ensures ReadFields(dsz, Shr(r, lsz[257 + j]), 257 + j) == ReadDistance(dsz, rest, base + v)
  {
    SymbolThenExtra(lsz, 257 + j, v, eb, r, rest);
    ReadFieldsAt(dsz, Shr(r, lsz[257 + j]), j, v, rest);
  }

  lemma LengthParts(len: nat, j: nat) returns (base: nat, eb: nat, v: nat)
    requires j < 29 && LENGTHC[j] <= len < LENGTHC[j + 1]
    ensures LENGTH_BASE[j] == base && LENGTH_EXTRA[j] == eb && base + v == len && v < Pow2(eb)
    ensures LengthRowBits(len, j) == SymbolBits(257 + j).Cat(Bits(v, eb))
  {
    LengthRow(j);
    base, eb, v := LENGTHC[j], LENGTHEB[j], len - LENGTHC[j];
  }

  lemma SymbolBitsOf(lsz: seq<nat>, n: nat)
    requires lsz == FixedLengths() && n < 288
    ensures |lsz| == 288 && lsz[n] > 0 && SymbolBits(n) == Bits(Word(lsz, n), lsz[n])
  {
  }

  /** What follows the bits of a length is read from rest. */
  lemma ReadLengthBits(lsz: seq<nat>, dsz: seq<nat>, len: nat, j: nat, r: nat, rest: nat)
    requires |dsz| <= 32 && SizeList(lsz) && Fits(lsz) && |lsz| == 288
    requires j < 29 && lsz[257 + j] > 0 && SymbolBits(257 + j) == Bits(Word(lsz, 257 + j), lsz[257 + j])
    requires LENGTHC[j] <= len < LENGTHC[j + 1] && Starts(r, LengthRowBits(len, j), rest)
    ensures Lookup(lsz, r) == 257 + j
    ensures ReadFields(dsz, Shr(r, lsz[257 + j]), 257 + j) == ReadDistance(dsz, rest, len)
  {
    var base, eb, v := LengthParts(len, j);
    ReadLengthRow(lsz, dsz, j, base, eb, v, r, rest);
  }

  lemma ReadMatchBits(len: nat, dist: nat, r: nat, rest: nat) returns (z: nat)
    requires 3 <= len <= 258 && 1 <= dist <= 32767
    requires Starts(r, LengthBits(len).Cat(DistanceBits(dist)), rest)
    ensures 257 <= z < 288 && Lookup(FixedLengths(), r) == z
    ensures ReadFields(FixedDistances(), Shr(r, FixedLengths()[z]), z) == Fields(len, dist, rest)
  {
    var r1 := SplitStarts(r, LengthBits(len), DistanceBits(dist), rest);
    var j := LengthBitsRow(len);
    FixedFits();
    SymbolBitsOf(FixedLengths(), 257 + j);
    ReadLengthBits(FixedLengths(), FixedDistances(), len, j, r, r1);
    var k := DistanceBitsRow(dist);
    ReadDistanceBits(dist, k, len, r1, rest);
    z := 257 + j;
  }

  // ---------------------------------------------------------------------------------------------
  // One token
  // ---------------------------------------------------------------------------------------------

  function WriteToken(buf: seq<byte>, zout: nat, t: Token): (r: seq<byte>)
    requires ValidToken(t, zout) && zout + TokenLength(t) <= |buf|
    ensures |r| == |buf|
  {
    match t
    case Literal(b) => buf[zout := b]
    case Match(len, dist) => CopyOut(buf, zout, dist, len)
  }

  lemma ReadLiteral(lsz: seq<nat>, dsz: seq<nat>, b: byte, r: nat, rest: nat, buf: seq<byte>, zout: nat)
    requires |lsz| == 288 && |dsz| <= 32 && zout <= |buf| && Lookup(lsz, r) == b && Shr(r, lsz[b]) == rest
    ensures ReadSymbol(lsz, dsz, r, buf, zout) == if zout >= |buf| then Stop(NoRoom)
      else More(rest, buf[zout := b], zout + 1)
  {
  }

  lemma ReadFieldsOf(lsz: seq<nat>, dsz: seq<nat>, z: nat, r: nat, f: Fields, buf: seq<byte>, zout: nat)
    requires |lsz| == 288 && |dsz| <= 32 && zout <= |buf| && 257 <= z < 288 && Lookup(lsz, r) == z
    requires ReadFields(dsz, Shr(r, lsz[z]), z) == f
    ensures ReadSymbol(lsz, dsz, r, buf, zout) == CopyFields(f, buf, zout)
  {
  }

  /** The reader turns the bits of a token into the token's bytes, or stops for lack of room. */
  lemma ReadToken(t: Token, r: nat, rest: nat, buf: seq<byte>, zout: nat)
    requires ValidToken(t, zout) && zout <= |buf| && Starts(r, TokenBits(t), rest)
    ensures ReadSymbol(FixedLengths(), FixedDistances(), r, buf, zout) ==
      if zout + TokenLength(t) > |buf| then Stop(NoRoom)
      else More(rest, WriteToken(buf, zout, t), zout + TokenLength(t))
  {
    match t
    case Literal(b) =>
      ReadWord(b, r, rest);
      ReadLiteral(FixedLengths(), FixedDistances(), b, r, rest, buf, zout);
    case Match(len, dist) =>
      var z := ReadMatchBits(len, dist, r, rest);
      ReadFieldsOf(FixedLengths(), FixedDistances(), z, r, Fields(len, dist, rest), buf, zout);
  }

  /** Copying inside the buffer is copying at the end of what is written. */
  lemma {:induction false} CopyOutIsCopyBack(buf: seq<byte>, zout: nat, dist: nat, len: nat)
    requires 1 <= dist <= zout && zout + len <= |buf|
    ensures CopyOut(buf, zout, dist, len) == Overwrite(buf, CopyBack(buf[..zout], dist, len))
    decreases len
  {
    if len == 0 {
      assert buf == buf[..zout] + buf[zout..];
    } else {
      var buf' := buf[zout := buf[zout - dist]];
      assert buf'[..zout + 1] == buf[..zout] + [buf[..zout][zout - dist]];
      CopyOutIsCopyBack(buf', zout + 1, dist, len - 1);
    }
  }

  lemma WriteTokenIsExpand(buf: seq<byte>, zout: nat, t: Token)
    requires ValidToken(t, zout) && zout + TokenLength(t) <= |buf|
    ensures WriteToken(buf, zout, t) == Overwrite(buf, ExpandToken(buf[..zout], t))
  {
    match t
    case Literal(b) =>
    case Match(len, dist) => CopyOutIsCopyBack(buf, zout, dist, len);
  }

  // ---------------------------------------------------------------------------------------------
  // Bits decode to tokens
  // ---------------------------------------------------------------------------------------------

  /** With these codes, input r is token t followed by input r1, whatever buffer it is read into. */
  ghost predicate Reads(lsz: seq<nat>, dsz: seq<nat>, r: nat, t: Token, r1: nat)
    requires |lsz| <= 288 && |dsz| <= 32
  {
    forall buf: seq<byte>, zout: nat | zout <= |buf| && ValidToken(t, zout) ::
      ReadSymbol(lsz, dsz, r, buf, zout) ==
        if zout + TokenLength(t) > |buf| then Stop(NoRoom)
        else More(r1, WriteToken(buf, zout, t), zout + TokenLength(t))
  }

  /** With these codes, input r is the end mark followed by input rest. */
  ghost predicate Ends(lsz: seq<nat>, r: nat, rest: nat)
  {
    |lsz| == 288 && Lookup(lsz, r) == END_OF_BLOCK && Shr(r, lsz[END_OF_BLOCK]) == rest
  }

  /** Input r is the tokens ts, then the end mark, then rest. */
  ghost predicate Spells(lsz: seq<nat>, dsz: seq<nat>, r: nat, ts: seq<Token>, rest: nat)
    requires |lsz| <= 288 && |dsz| <= 32
    decreases |ts|
  {
    if ts == [] then Ends(lsz, r, rest)
    else exists r1: nat :: Reads(lsz, dsz, r, ts[0], r1) && Spells(lsz, dsz, r1, ts[1..], rest)
  }

  lemma TokenReads(t: Token, r: nat, r1: nat)
    requires Expressible(t) && Starts(r, TokenBits(t), r1)
    ensures Reads(FixedLengths(), FixedDistances(), r, t, r1)
  {
    forall buf: seq<byte>, zout: nat | zout <= |buf| && ValidToken(t, zout)
      ensures ReadSymbol(FixedLengths(), FixedDistances(), r, buf, zout) ==
        if zout + TokenLength(t) > |buf| then Stop(NoRoom)
        else More(r1, WriteToken(buf, zout, t), zout + TokenLength(t))
    {
      ReadToken(t, r, r1, buf, zout);
    }
  }

  lemma EndReads(n: nat, r: nat, rest: nat)
    requires n == END_OF_BLOCK && Starts(r, EndBits(), rest)
    ensures Ends(FixedLengths(), r, rest)
  {
    EndBitsAreWord();
    ReadWord(n, r, rest);
  }

  lemma FirstToken(ts: seq<Token>, r: nat, rest: nat) returns (r1: nat)
    requires AllExpressible(ts) && ts != []
    requires Starts(r, TokensBits(ts).Cat(EndBits()), rest)
    ensures Starts(r, TokenBits(ts[0]), r1) && Starts(r1, TokensBits(ts[1..]).Cat(EndBits()), rest)
  {
    CatAssoc(TokenBits(ts[0]), TokensBits(ts[1..]), EndBits());
    r1 := SplitStarts(r, TokenBits(ts[0]), TokensBits(ts[1..]).Cat(EndBits()), rest);
  }

  lemma {:induction false} TokensSpell(ts: seq<Token>, r: nat, rest: nat)
    requires AllExpressible(ts) && Starts(r, TokensBits(ts).Cat(EndBits()), rest)
    ensures Spells(FixedLengths(), FixedDistances(), r, ts, rest)
  {
    if ts == [] {
      CatEmpty(EndBits());
      EndReads(END_OF_BLOCK, r, rest);
    } else {
      var r1 := FirstToken(ts, r, rest);
      TokenReads(ts[0], r, r1);
      TokensSpell(ts[1..], r1, rest);
    }
  }

  // ---------------------------------------------------------------------------------------------
  // Tokens expand to data
  // ---------------------------------------------------------------------------------------------

  /** What the reader should answer when out is the expansion. */
  function Filled(buf: seq<byte>, out: seq<byte>, rest: nat): Outcome
  {
    if |out| <= |buf| then Done(Overwrite(buf, out), |out|, rest) else NoRoom
  }

  lemma FilledNone(buf: seq<byte>, zout: nat, rest: nat)
    requires zout <= |buf|
    ensures Filled(buf, buf[..zout], rest) == Done(buf, zout, rest)
  {
    assert buf == buf[..zout] + buf[zout..];
  }

  lemma FilledOne(buf: seq<byte>, zout: nat, t: Token, ts: seq<Token>, rest: nat)
    requires zout <= |buf| && ValidToken(t, zout) && ValidTokens(ts, zout + TokenLength(t))
    ensures var out := Expand(ExpandToken(buf[..zout], t), ts);
      if zout + TokenLength(t) > |buf| then Filled(buf, out, rest) == NoRoom
      else
        var buf', zout' := WriteToken(buf, zout, t), zout + TokenLength(t);
        buf'[..zout'] == ExpandToken(buf[..zout], t) && Filled(buf, out, rest) == Filled(buf', out, rest)
  {
    if zout + TokenLength(t) <= |buf| {
      WriteTokenIsExpand(buf, zout, t);
      var out, zout' := Expand(ExpandToken(buf[..zout], t), ts), zout + TokenLength(t);
      var buf' := WriteToken(buf, zout, t);
      assert buf'[..zout'] == ExpandToken(buf[..zout], t);
      if |out| <= |buf| {
        assert buf'[|out|..] == buf[|out|..];
      }
    }
  }

  /** Reading one token of the list leaves the rest of the list to be read. */
  lemma FilledStep(buf: seq<byte>, zout: nat, ts: seq<Token>, r1: nat, rest: nat, s: Step)
    requires zout <= |buf| && ts != [] && ValidTokens(ts, zout)
    requires s == if zout + TokenLength(ts[0]) > |buf| then Stop(NoRoom)
                  else More(r1, WriteToken(buf, zout, ts[0]), zout + TokenLength(ts[0]))
    ensures s.More? ==> ValidTokens(ts[1..], s.zout)
    ensures Filled(buf, Expand(buf[..zout], ts), rest) ==
      if s.Stop? then NoRoom else Filled(s.buf, Expand(s.buf[..s.zout], ts[1..]), rest)
  {
    FilledOne(buf, zout, ts[0], ts[1..], rest);
  }

  lemma BlockEnd(lsz: seq<nat>, dsz: seq<nat>, r: nat, rest: nat, buf: seq<byte>, zout: nat)
    requires |lsz| <= 288 && |dsz| <= 32 && zout <= |buf| && ZeroTailStops(lsz) && Ends(lsz, r, rest)
    ensures ReadBlock(lsz, dsz, r, buf, zout) == Done(buf, zout, rest)
  {
    assert ReadSymbol(lsz, dsz, r, buf, zout) == Stop(Done(buf, zout, rest));
  }

  lemma ReadsAt(lsz: seq<nat>, dsz: seq<nat>, r: nat, t: Token, r1: nat, buf: seq<byte>, zout: nat) returns (s: Step)
    requires |lsz| <= 288 && |dsz| <= 32 && zout <= |buf| && Reads(lsz, dsz, r, t, r1) && ValidToken(t, zout)
    ensures s == ReadSymbol(lsz, dsz, r, buf, zout)
    ensures s == if zout + TokenLength(t) > |buf| then Stop(NoRoom)
      else More(r1, WriteToken(buf, zout, t), zout + TokenLength(t))
  {
    s := ReadSymbol(lsz, dsz, r, buf, zout);
  }

  /** What the block reader answers after a step. */
  function After(lsz: seq<nat>, dsz: seq<nat>, s: Step): Outcome
    requires |lsz| <= 288 && |dsz| <= 32 && ZeroTailStops(lsz) && (s.More? ==> s.zout <= |s.buf|)
  {
    match s
    case Stop(o) => o
    case More(r, buf, zout) => ReadBlock(lsz, dsz, r, buf, zout)
  }

  lemma BlockStep(lsz: seq<nat>, dsz: seq<nat>, r: nat, buf: seq<byte>, zout: nat, s: Step)
    requires |lsz| <= 288 && |dsz| <= 32 && zout <= |buf| && ZeroTailStops(lsz)
      && s == ReadSymbol(lsz, dsz, r, buf, zout)
    ensures s.More? ==> s.zout <= |s.buf| == |buf|
    ensures ReadBlock(lsz, dsz, r, buf, zout) == After(lsz, dsz, s)
  {
    ReadSymbolProgress(lsz, dsz, r, buf, zout);
  }

  lemma BlockMore(lsz: seq<nat>, dsz: seq<nat>, t: Token, r: nat, r1: nat, buf: seq<byte>, zout: nat) returns (s: Step)
    requires |lsz| <= 288 && |dsz| <= 32 && zout <= |buf| && ZeroTailStops(lsz)
    requires Reads(lsz, dsz, r, t, r1) && ValidToken(t, zout)
    ensures s == if zout + TokenLength(t) > |buf| then Stop(NoRoom)
      else More(r1, WriteToken(buf, zout, t), zout + TokenLength(t))
    ensures s.More? ==> s.zout <= |s.buf| == |buf|
    ensures ReadBlock(lsz, dsz, r, buf, zout) == After(lsz, dsz, s)
  {
    s := ReadsAt(lsz, dsz, r, t, r1, buf, zout);
    BlockStep(lsz, dsz, r, buf, zout, s);
  }

  /** One token of the list: the block reader and the expected answer move on together. */
  lemma TokensMore(lsz: seq<nat>, dsz: seq<nat>, ts: seq<Token>, r: nat, rest: nat, buf: seq<byte>, zout: nat,
                   r1: nat) returns (s: Step)
    requires |lsz| <= 288 && |dsz| <= 32 && zout <= |buf| && ZeroTailStops(lsz)
    requires ts != [] && ValidTokens(ts, zout) && Reads(lsz, dsz, r, ts[0], r1)
    ensures s.More? ==> s.zout <= |s.buf| && s.r == r1 && ValidTokens(ts[1..], s.zout)
    ensures s.More? ==> ReadBlock(lsz, dsz, r, buf, zout) == ReadBlock(lsz, dsz, r1, s.buf, s.zout)
    ensures s.Stop? ==> ReadBlock(lsz, dsz, r, buf, zout) == NoRoom
    ensures Filled(buf, Expand(buf[..zout], ts), rest) ==
      if s.Stop? then NoRoom else Filled(s.buf, Expand(s.buf[..s.zout], ts[1..]), rest)
  {
    s := BlockMore(lsz, dsz, ts[0], r, r1, buf, zout);
    FilledStep(buf, zout, ts, r1, rest, s);
  }

  /** Reading any token list and the end mark: the buffer starts with the expansion, nothing else in it
      changes, and what follows the block is left unread. Too small a buffer is reported. */
  lemma {:induction false} ReadTokens(lsz: seq<nat>, dsz: seq<nat>, ts: seq<Token>, r: nat, rest: nat, buf: seq<byte>,
                                      zout: nat)
    requires |lsz| <= 288 && |dsz| <= 32 && ZeroTailStops(lsz)
    requires zout <= |buf| && ValidTokens(ts, zout) && Spells(lsz, dsz, r, ts, rest)
    ensures ReadBlock(lsz, dsz, r, buf, zout) == Filled(buf, Expand(buf[..zout], ts), rest)
    decreases |ts|
  {
    if ts == [] {
      BlockEnd(lsz, dsz, r, rest, buf, zout);
      FilledNone(buf, zout, rest);
    } else {
      var r1: nat :| Reads(lsz, dsz, r, ts[0], r1) && Spells(lsz, dsz, r1, ts[1..], rest);
      var s := TokensMore(lsz, dsz, ts, r, rest, buf, zout, r1);
      if s.More? {
        ReadTokens(lsz, dsz, ts[1..], r1, rest, s.buf, s.zout);
      }
    }
  }

  // ---------------------------------------------------------------------------------------------
  // Bytes carry bits
  // ---------------------------------------------------------------------------------------------

  lemma {:induction false} BytesValue(v: nat, n: nat)
    requires v < Pow2(8 * n)
    ensures LEVal(Compress.Bytes(v, n)) == v
  {
    if n > 0 {
      Pow2Step8(n - 1);
      BytesValue(v / 256, n - 1);
      assert Compress.Bytes(v, n)[1..] == Compress.Bytes(v / 256, n - 1);
    }
  }

  /** Padding and trailing bytes come after the bits. */
  lemma PackedStarts(bits: Bits, tail: seq<byte>) returns (rest: nat)
    requires bits.Valid()
    ensures Starts(LEVal(Compress.Packed(bits) + tail), bits, rest)
  {
    var k := (bits.len + 7) / 8;
    Pow2Mono(bits.len, 8 * k);
    BytesValue(bits.val, k);
    LEValAppendShl(Compress.Packed(bits), tail);
    rest := ShiftIn(LEVal(tail), bits.len, 8 * k);
  }

  lemma ShiftIn(x: nat, m: nat, n: nat) returns (y: nat)
    requires m <= n
    ensures Shl(x, n) == Shl(y, m)
  {
    y := Shl(x, n - m);
    ShlShl(x, n - m, m);
  }

  lemma BlockBitsValid(ts: seq<Token>)
    requires AllExpressible(ts)
    ensures BlockBits(ts).Valid() && Compress.StreamBits(ts).Valid()
  {
    Pow2Values();
    TokensBitsValid(ts);
    CatValid(Bits(3, 3), TokensBits(ts));
    CatValid(Bits(3, 3).Cat(TokensBits(ts)), EndBits());
    CatValid(Compress.HeadBits(), BlockBits(ts));
  }

  lemma TwoFirst(input: seq<byte>)
    requires |input| >= 2
    ensures var a: nat, c: nat := input[0], input[1]; LEVal(input) == a + 256 * c + Shl(LEVal(input[2..]), 16)
  {
    var head := input[..2];
    assert input == head + input[2..];
    LEValAppendShl(head, input[2..]);
    assert head[1..] == [input[1]] && [input[1]][1..] == [];
  }

  /** A number splits in one way. */
  lemma SplitUnique(a: nat, x: nat, b: nat, y: nat, n: nat)
    requires a < Pow2(n) && b < Pow2(n) && a + Shl(x, n) == b + Shl(y, n)
    ensures a == b && x == y
  {
    ShrLowUnique(a, x, n);
    ShrLowUnique(b, y, n);
  }

  /** The first two bytes are the header, and the others continue with the block. */
  lemma HeaderBytes(input: seq<byte>, b: Bits, rest0: nat) returns (rest: nat)
    requires |input| >= 2 && Starts(LEVal(input), Compress.HeadBits().Cat(b), rest0)
    ensures input[0] == 0x78 && input[1] == 0x5e && Starts(LEVal(input[2..]), b, rest)
  {
    var r1 := SplitStarts(LEVal(input), Compress.HeadBits(), b, rest0);
    TwoFirst(input);
    Pow2Values();
    var a: nat, c: nat := input[0], input[1];
    SplitUnique(a + 256 * c, LEVal(input[2..]), Compress.HeadBits().val, r1, 16);
    rest := rest0;
  }

  /** The three header bits of the only block. */
  lemma BlockHeader(r: nat, b: Bits, rest: nat) returns (r1: nat)
    requires Starts(r, Bits(3, 3).Cat(b), rest)
    ensures Low(r, 1) == 1 && Low(Shr(r, 1), 2) == 1 && Shr(Shr(r, 1), 2) == r1
    ensures Starts(r1, b, rest)
  {
    r1 := SplitStarts(r, Bits(3, 3), b, rest);
    ThreeBits(r, r1);
  }

  lemma ThreeBits(r: nat, r1: nat)
    requires r == 3 + Shl(r1, 3)
    ensures Low(r, 1) == 1 && Low(Shr(r, 1), 2) == 1 && Shr(Shr(r, 1), 2) == r1
  {
    Pow2Values();
    ShlIsMul(r1, 3);
    DivModUnique(1 + 4 * r1, 2, 1);
    DivModUnique(r1, 4, 1);
  }

  lemma ReadStreamBits(ts: seq<Token>, r: nat, rest: nat, buf: seq<byte>)
    requires AllExpressible(ts) && ValidTokens(ts, 0) && Starts(r, BlockBits(ts), rest)
    ensures ReadStream(r, buf, 0) == Filled(buf, Expand([], ts), rest)
  {
    CatAssoc(Bits(3, 3), TokensBits(ts), EndBits());
    var r1 := BlockHeader(r, TokensBits(ts).Cat(EndBits()), rest);
    TokensSpell(ts, r1, rest);
    FixedStops();
    ReadStreamStep(r, buf, 0);
    ReadTokens(FixedLengths(), FixedDistances(), ts, r1, rest, buf, 0);
    assert buf[..0] == [];
  }

  /** A stream of the compressor is the header and then the bits of its block. */
  lemma StreamStarts(ts: seq<Token>, data: seq<byte>) returns (rest: nat)
    requires AllExpressible(ts)
    ensures var input := Compress.ZlibStream(ts, data);
      |input| >= 2 && input[0] == 0x78 && input[1] == 0x5e && Starts(LEVal(input[2..]), BlockBits(ts), rest)
  {
    BlockBitsValid(ts);
    var tail := Compress.AdlerBytes(Compress.AdlerA(data, |data|), Compress.AdlerB(data, |data|));
    var r := PackedStarts(Compress.StreamBits(ts), tail);
    rest := HeaderBytes(Compress.Packed(Compress.StreamBits(ts)) + tail, BlockBits(ts), r);
  }

  lemma DecodeStream(input: seq<byte>, buf: seq<byte>)
    requires |input| >= 2 && input[0] == 0x78 && input[1] == 0x5e
    ensures Decode(input, buf) == ReadStream(LEVal(input[2..]), buf, 0)
  {
    assert HeaderOK(0x78, 0x5e);
    assert |input| == 2 ==> input[2..] == [];
  }

  lemma TokensRoundTrip(data: seq<byte>, ts: seq<Token>, buf: seq<byte>)
    requires Compress.Encodes(data, |data|, ts)
    ensures var o := Decode(Compress.ZlibStream(ts, data), buf);
            if |data| <= |buf| then o.Done? && o.zout == |data| && o.buf == Overwrite(buf, data) else o == NoRoom
  {
    var input := Compress.ZlibStream(ts, data);
    var rest := StreamStarts(ts, data);
    DecodeStream(input, buf);
    ReadStreamBits(ts, LEVal(input[2..]), rest, buf);
    assert data[..|data|] == data;
  }

  /** The law of the pair: decoding a stream of the compressor gives the data back exactly when it fits. */
  lemma RoundTrip(data: seq<byte>, stream: seq<byte>, buf: seq<byte>)
    requires Compress.StreamOf(data, stream)
    ensures var o := Decode(stream, buf);
            if |data| <= |buf| then o.Done? && o.zout == |data| && o.buf == Overwrite(buf, data) else o == NoRoom
  {
    var ts :| Compress.Encodes(data, |data|, ts) && stream == Compress.ZlibStream(ts, data);
    TokensRoundTrip(data, ts, buf);
  }

  /** Both programs, one after the other. */
  method CompressThenDecode(data: seq<byte>, quality: int, room: nat) returns (n: int, result: seq<byte>)
    ensures |result| == room
    ensures if |data| <= room then n == |data| && result[..|data|] == data else n == -1
  {
    var stream := Compress.Compress(data, quality);
    var obuffer := new byte[room](_ => 0);
    RoundTrip(data, stream, obuffer[..]);
    n := DecodeBuffer(obuffer, stream);
    result := obuffer[..];
  }
}
