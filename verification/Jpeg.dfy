/** The entropy decoder of the JPEG reader: symbols and the bits after them, and the table that decodes small
    coefficients at once (section F.2.2 of ITU-T T.81). */
module Jpeg {
  import opened Arith
  import opened CanonicalCode
  import opened JpegHuffman

  /** The bit buffer: the valid bits are at the high end of 32. */
  class Entropy {
    var codeBuffer: nat
    var codeBits: int

    /** The buffer without its first n bits. */
    ghost function Rest(n: nat): nat
      reads this
    {
      Low(Shl(codeBuffer, n), 32)
    }

    method Consume(n: nat)
      requires codeBuffer < WORD
      modifies this
      ensures codeBuffer == old(Rest(n)) < WORD && codeBits == old(codeBits) - n
    {
      Pow2Values();
      Pow2Add(16, 16);
      codeBuffer := Low(Shl(codeBuffer, n), 32);
      codeBits := codeBits - n;
    }

    /** What decoding does and returns when the answer is number place with s bits, or none with s = 17. */
    ghost predicate Decoded(values: seq<nat>, answer: (int, nat), buffer: nat, rest: nat, bits: int, r: int)
      requires |values| == 256 && (answer.1 < 17 ==> 0 <= answer.0 < 256)
      reads this
    {
      if answer.1 >= 17 then r == -1 && codeBuffer == buffer && codeBits == bits - 16
      else if answer.1 > bits then r == -1 && codeBuffer == buffer && codeBits == bits
      else r == values[answer.0] && codeBuffer == rest && codeBits == bits - answer.1
    }

    /** The search for a code of ten bits or more. */
    method SlowSymbol(h: Huffman, ghost sz: seq<nat>) returns (place: int, s: nat)
      requires codeBuffer < WORD && h.Represents(sz) && Fits16(sz)
      ensures (place, s) == SlowAnswer(sz, Shr(codeBuffer, 16), 10)
    {
      TopBits(codeBuffer);
      var temp := Shr(codeBuffer, 16);
      s := 10;
      while temp >= h.maxcode[s]
        invariant 10 <= s <= 17 && SlowAnswer(sz, temp, s) == SlowAnswer(sz, temp, 10)
        decreases 17 - s
      {
        assert LengthRow(sz, s, h.maxcode[s], h.delta[s]);
        s := s + 1;
      }
      if s == 17 {
        return -1, s;
      }
      assert LengthRow(sz, s, h.maxcode[s], h.delta[s]);
      DeltaIs(sz, s, h.delta[s]);
      TopBitsOf(codeBuffer, s);
      place := Low(Shr(codeBuffer, 32 - s), s) + h.delta[s];
    }

    /** The fast table, and the search where it has no entry. */
    method FindSymbol(h: Huffman, ghost sz: seq<nat>) returns (place: int, s: nat)
      requires codeBuffer < WORD && h.Represents(sz) && Fits16(sz)
      ensures (place, s) == TableAnswer(sz, Shr(codeBuffer, 16))
    {
      TopBits(codeBuffer);
      var c := Low(Shr(codeBuffer, 23), 9);
      var k := h.fast[c];
      assert h.FastEntry(sz, |sz|, c);
      EntryDecides(sz, k, Shr(codeBuffer, 16));
      if k < 255 {
        assert h.size[k] == sz[k];
        return k, h.size[k];
      }
      place, s := SlowSymbol(h, sz);
    }

    /** stbi__jpeg_huff_decode on a buffer that was filled as far as it could be. */
    method HuffDecode(h: Huffman, ghost sz: seq<nat>) returns (r: int)
      requires codeBuffer < WORD && h.Represents(sz) && Fits16(sz)
      modifies this
      ensures codeBuffer < WORD
      ensures var answer := TableAnswer(sz, Shr(old(codeBuffer), 16));
        && (answer.1 < 17 ==> 0 <= answer.0 < 256)
        && Decoded(h.values[..], answer, old(codeBuffer), old(Rest(answer.1)), old(codeBits), r)
      ensures !Lost(sz, Shr(old(codeBuffer), 16)) ==>
        TableAnswer(sz, Shr(old(codeBuffer), 16)) == RightAnswer(sz, Shr(old(codeBuffer), 16))
    {
      TopBits(codeBuffer);
      TablePlace(sz, Shr(codeBuffer, 16));
      AnswerExact(sz, Shr(codeBuffer, 16));
      var place, s := FindSymbol(h, sz);
      if s == 17 {
        codeBits := codeBits - 16;
        return -1;
      }
      if s > codeBits {
        return -1;
      }
      Consume(s);
      r := h.values[place];
    }

    /** stbi__extend_receive on a buffer with enough bits: the next n bits as a signed number. */
    method ExtendReceive(n: nat) returns (v: int)
      requires codeBuffer < WORD && 1 <= n <= 15
      modifies this
      ensures v == Extend(n, Shr(old(codeBuffer), 32 - n))
      ensures codeBuffer == old(Rest(n)) < WORD && codeBits == old(codeBits) - n
    {
      SignBit(codeBuffer, n);
      Received(codeBuffer, n);
      var sgn := if codeBuffer >= 0x8000_0000 then -1 else 0;
      var k := Or(Low(Shl(codeBuffer, n), 32), Shr(codeBuffer, 32 - n));
      codeBuffer := k - Low(k, n);
      k := Low(k, n);
      codeBits := codeBits - n;
      v := k + if sgn == -1 then 0 else 1 - Pow2(n);
    }

    /** What decoding a coefficient does and says when the symbol found is number place with s bits, or none. */
    ghost predicate Stepped(values: seq<nat>, answer: (int, nat), buffer: nat, bits: int, step: AcStep)
      requires |values| == 256 && (answer.1 < 17 ==> 0 <= answer.0 < 256)
      reads this
    {
      if answer.1 >= 17 then step == Bad
      else
        var rs, len := values[answer.0], answer.1;
        && step == Meaning(rs, len, buffer)
        && codeBuffer == Low(Shl(buffer, Length(rs, len)), 32) && codeBits == bits - Length(rs, len)
    }

    /** A coefficient by way of the table for small ones: it says and does what decoding the symbol would. */
    method FastCoefficient(fac: array<int>, h: Huffman, ghost sz: seq<nat>, r: int) returns (step: AcStep)
      requires codeBuffer < WORD && h.Represents(sz) && Fits16(sz) && FacOK(fac[..], h)
      requires forall i :: 0 <= i < 256 ==> h.values[i] < 256
      requires fac.Length == 512 && r == fac[TopNine(codeBuffer)] != 0
      modifies this
      ensures codeBuffer < WORD
      ensures var answer := TableAnswer(sz, Shr(old(codeBuffer), 16));
        && answer == RightAnswer(sz, Shr(old(codeBuffer), 16)) && 0 <= answer.0 < 256 && answer.1 < 17
        && Stepped(h.values[..], answer, old(codeBuffer), old(codeBits), step)
    {
      TopBits(codeBuffer);
      ghost var f := FastSymbol(fac[..], h, sz, codeBuffer);
      EntryMeans(sz[f], h.values[f], codeBuffer, r);
      var s := r % 16;
      step := Coefficient(r / 16 % 16, r / 256);
      Consume(s);
    }

    /** A symbol, and the value it announces. */
    method SlowCoefficient(h: Huffman, ghost sz: seq<nat>) returns (step: AcStep)
      requires codeBuffer < WORD && h.Represents(sz) && Fits16(sz)
      requires forall i :: 0 <= i < 256 ==> h.values[i] < 256
      requires EnoughBits(sz, h, codeBuffer, codeBits)
      modifies this
      ensures var answer := TableAnswer(sz, Shr(old(codeBuffer), 16));
        && (answer.1 < 17 ==> 0 <= answer.0 < 256)
        && Stepped(h.values[..], answer, old(codeBuffer), old(codeBits), step)
    {
      ghost var b, answer := codeBuffer, TableAnswer(sz, Shr(codeBuffer, 16));
      var rs := HuffDecode(h, sz);
      if rs < 0 {
        return Bad;
      }
      var s, run := rs % 16, rs / 16;
      if s == 0 {
        step := if rs != 0xf0 then EndOfBlock else ZeroRun;
      } else {
        ValueAfter(rs, answer.1, b);
        var value := ExtendReceive(s);
        step := Coefficient(run, value);
      }
    }

    /** One turn of the loop over the coefficients of a block: the table changes nothing but the speed. */
    method NextCoefficient(fac: array<int>, h: Huffman, ghost sz: seq<nat>) returns (step: AcStep)
      requires codeBuffer < WORD && h.Represents(sz) && Fits16(sz)
      requires forall i :: 0 <= i < 256 ==> h.values[i] < 256
      requires fac.Length == 512 && FacOK(fac[..], h) && EnoughBits(sz, h, codeBuffer, codeBits)
      modifies this
      ensures var answer := TableAnswer(sz, Shr(old(codeBuffer), 16));
        && (answer.1 < 17 ==> 0 <= answer.0 < 256)
        && Stepped(h.values[..], answer, old(codeBuffer), old(codeBits), step)
      ensures !Lost(sz, Shr(old(codeBuffer), 16)) ==>
        TableAnswer(sz, Shr(old(codeBuffer), 16)) == RightAnswer(sz, Shr(old(codeBuffer), 16))
    {
      TopBits(codeBuffer);
      AnswerExact(sz, Shr(codeBuffer, 16));
      var r := fac[TopNine(codeBuffer)];
      if r != 0 {
        step := FastCoefficient(fac, h, sz, r);
      } else {
        step := SlowCoefficient(h, sz);
      }
    }
  }

  /** What a symbol and its bits say about the coefficients. */
  datatype AcStep = Bad | EndOfBlock | ZeroRun | Coefficient(run: nat, value: int)

  function Meaning(rs: nat, len: nat, buffer: nat): AcStep
    requires len + rs % 16 <= 32
  {
    if rs % 16 != 0 then Coefficient(rs / 16, Extend(rs % 16, BitsAfter(buffer, len, rs % 16)))
    else if rs == 0xf0 then ZeroRun else EndOfBlock
  }

  /** The symbol taken off the buffer, its bits are at the front, and taken off they leave what lies after both. */
  lemma ValueAfter(rs: nat, len: nat, buffer: nat)
    requires buffer < WORD && len + rs % 16 <= 32 && rs % 16 != 0
    ensures var rest, s := Low(Shl(buffer, len), 32), rs % 16;
      && Coefficient(rs / 16, Extend(s, Shr(rest, 32 - s))) == Meaning(rs, len, buffer)
      && Low(Shl(rest, s), 32) == Low(Shl(buffer, Length(rs, len)), 32)
  {
    DigitsAt(buffer, 32, len, rs % 16);
    RestTwice(buffer, len, rs % 16);
  }

  /** How many bits that takes. */
  function Length(rs: nat, len: nat): nat
  {
    len + rs % 16
  }

  /** The buffer holds the next symbol, as the tables find it, and its bits. */
  ghost predicate EnoughBits(sz: seq<nat>, h: Huffman, buffer: nat, bits: int)
    requires Lengths(sz) && h.values.Length == 256
    reads h.values
  {
    var (place, s) := TableAnswer(sz, Shr(buffer, 16));
    s < 17 && 0 <= place < 256 ==> Length(h.values[place], s) <= bits
  }

  function TopNine(buffer: nat): (c: nat)
  {
    Low(Shr(buffer, 23), 9)
  }

  // ---------------------------------------------------------------------------------------------
  // The table of small coefficients
  // ---------------------------------------------------------------------------------------------

  /** The entry for nine bits i that start with a code of length len for rs: value, run and length in one number. */
  function PackedEntry(len: nat, rs: nat, i: nat): int
  {
    var mag := rs % 16;
    if mag == 0 || len + mag > FAST_BITS then 0
    else
      var k := Extend(mag, Shr(Low(Shl(i, len), 9), 9 - mag));
      if -128 <= k <= 127 then k * 256 + rs / 16 % 16 * 16 + (len + mag) else 0
  }

  predicate FacRow(e: int, f: nat, size: seq<nat>, values: seq<nat>, i: nat)
    requires |size| == 257 && |values| == 256
  {
    e == if f < 255 then PackedEntry(size[f], values[f], i) else 0
  }

  ghost predicate FacOK(fac: seq<int>, h: Huffman)
    requires h.Valid()
    reads h.fast, h.size, h.values
  {
    |fac| == 512 && forall i :: 0 <= i < 512 ==> FacRow(fac[i], h.fast[i], h.size[..], h.values[..], i)
  }

  lemma FastSymbol(fac: seq<int>, h: Huffman, sz: seq<nat>, buffer: nat) returns (f: nat)
    requires buffer < WORD && h.Represents(sz) && Fits16(sz) && FacOK(fac, h)
    requires TopNine(buffer) < 512 && fac[TopNine(buffer)] != 0
    ensures f < |sz| && f < 255 && Find(sz, Shr(buffer, 16)) == f && TableAnswer(sz, Shr(buffer, 16)) == (f, sz[f])
    ensures fac[TopNine(buffer)] == PackedEntry(sz[f], h.values[f], TopNine(buffer))
  {
    var c := TopNine(buffer);
    TopBits(buffer);
    f := h.fast[c];
    assert h.FastEntry(sz, |sz|, c);
    assert FacRow(fac[c], h.fast[c], h.size[..], h.values[..], c);
    FastHit(sz, f, Shr(buffer, 16));
    assert h.size[f] == sz[f];
  }

  method BuildFastAc(h: Huffman) returns (fac: array<int>)
    requires h.Valid()
    ensures fresh(fac) && fac.Length == 512 && FacOK(fac[..], h)
  {
    fac := new int[512];
    for i := 0 to 512
      invariant forall u :: 0 <= u < i ==> FacRow(fac[u], h.fast[u], h.size[..], h.values[..], u)
    {
      var fast := h.fast[i];
      var e: int := 0;
      if fast < 255 {
        var rs := h.values[fast];
        var run := rs / 16 % 16;
        var magbits := rs % 16;
        var len := h.size[fast];
        if magbits != 0 && len + magbits <= FAST_BITS {
          var k: int := Shr(Low(Shl(i, len), 9), 9 - magbits);
          var m := Pow2(magbits - 1);
          if k < m {
            k := k - Pow2(magbits) + 1;
          }
          if k >= -128 && k <= 127 {
            e := k * 256 + run * 16 + (len + magbits);
          }
        }
      }
      fac[i] := e;
    }
  }

  lemma Unpack(k: int, run: nat, s: nat)
    requires run < 16 && s < 16
    ensures var r := k * 256 + run * 16 + s; r % 16 == s && r / 16 % 16 == run && r / 256 == k
  {
  }

  /** Digits near the top can be read in the top w digits alone. */
  lemma DigitsOfTop(buffer: nat, v: nat, w: nat, len: nat, mag: nat)
    requires buffer < Pow2(v + w) && len + mag <= w
    ensures Shr(Low(Shl(Low(Shr(buffer, v), w), len), w), w - mag) == Low(Shr(buffer, v + w - len - mag), mag)
  {
    var c := Shr(buffer, v);
    ShrBound(buffer, v, w);
    DivModUnique(0, Pow2(w), c);
    DigitsAt(c, w, len, mag);
    ShrShr(buffer, v, w - len - mag);
  }

  /** The top nine bits hold what a short code and its value need. */
  lemma TopNineDigits(buffer: nat, len: nat, mag: nat)
    requires buffer < WORD && len + mag <= 9
    ensures Shr(Low(Shl(TopNine(buffer), len), 9), 9 - mag) == BitsAfter(buffer, len, mag)
  {
    WordIsPow2();
    DigitsOfTop(buffer, 23, 9, len, mag);
  }

  /** An entry that is not zero says what the symbol and its bits mean. */
  lemma EntryMeans(len: nat, rs: nat, buffer: nat, r: int)
    requires buffer < WORD && rs < 256 && r == PackedEntry(len, rs, TopNine(buffer)) && r != 0
    ensures Length(rs, len) <= FAST_BITS && r % 16 == Length(rs, len)
    ensures Meaning(rs, len, buffer) == Coefficient(r / 16 % 16, r / 256)
  {
    var mag, digits := rs % 16, BitsAfter(buffer, len, rs % 16);
    TopNineDigits(buffer, len, mag);
    EntryUnpacks(len, rs, Extend(mag, digits), r);
  }

  lemma EntryUnpacks(len: nat, rs: nat, k: int, r: int)
    requires rs < 256 && len + rs % 16 < 16 && r == k * 256 + rs / 16 % 16 * 16 + (len + rs % 16)
    ensures r % 16 == Length(rs, len) && r / 16 % 16 == rs / 16 && r / 256 == k
  {
    Unpack(k, rs / 16, len + rs % 16);
  }

  /** The n bits of the buffer that come after the first m. */
  function BitsAfter(buffer: nat, m: nat, n: nat): nat
    requires m + n <= 32
  {
    Low(Shr(buffer, 32 - m - n), n)
  }

  /** The standard's EXTEND: half of the n-bit numbers stand for negative values. */
  function Extend(n: nat, v: nat): int
    requires n > 0
  {
    if v < Pow2(n - 1) then v - Pow2(n) + 1 else v
  }

  lemma SignBit(buffer: nat, n: nat)
    requires buffer < WORD && 1 <= n <= 15
    ensures buffer >= 0x8000_0000 <==> Shr(buffer, 32 - n) >= Pow2(n - 1)
  {
    Pow2Values();
    Pow2Add(n - 1, 32 - n);
    Pow2Add(16, 15);
    SlotStart(buffer, Pow2(32 - n), Pow2(n - 1));
  }

  /** Rotating and masking cuts the buffer in two. */
  lemma Received(buffer: nat, n: nat)
    requires buffer < WORD && n <= 32
    ensures var k := Or(Low(Shl(buffer, n), 32), Shr(buffer, 32 - n));
      Low(k, n) == Shr(buffer, 32 - n) && k - Low(k, n) == Low(Shl(buffer, n), 32) < WORD
  {
    WordIsPow2();
    CircularShiftRotates(n, buffer);
    ShrBound(buffer, 32 - n, n);
    ShrLowUnique(Shr(buffer, 32 - n), Low(buffer, 32 - n), n);
    ShiftedLow(buffer, 32 - n, n);
  }

  lemma RestTwice(buffer: nat, m: nat, n: nat)
    requires m + n <= 32
    ensures Low(Shl(Low(Shl(buffer, m), 32), n), 32) == Low(Shl(buffer, m + n), 32)
  {
    ShiftedLow(buffer, 32 - m - n, m + n);
    ShiftedLow(buffer, 32 - m, m);
    var x := Low(buffer, 32 - m);
    ShlShl(x, m, n);
    ShiftedLow(x, 32 - m - n, m + n);
    LowLow(buffer, 32 - m - n, n);
  }

  lemma LowLow(x: nat, m: nat, n: nat)
    ensures Low(Low(x, m + n), m) == Low(x, m)
  {
    Pow2Add(m, n);
    ModOfMod(x, Pow2(m), Pow2(n));
  }

  /** The top nine bits of the buffer, and of its top sixteen. */
  lemma TopBits(buffer: nat)
    requires buffer < WORD
    ensures Shr(buffer, 16) < 0x1_0000 && Low(Shr(buffer, 23), 9) < 512
    ensures Low(Shr(buffer, 23), 9) == DivNat(Shr(buffer, 16), 128)
  {
    Pow2Values();
    Pow2Add(16, 7);
    DivDiv(buffer, Pow2(16), 128);
  }

  lemma TopBitsOf(buffer: nat, s: nat)
    requires buffer < WORD && s <= 16
    ensures Low(Shr(buffer, 32 - s), s) == DivNat(Shr(buffer, 16), Pow2(16 - s))
  {
    WordIsPow2();
    ShrBound(buffer, 32 - s, s);
    DivModUnique(0, Pow2(s), Shr(buffer, 32 - s));
    ShrShr(buffer, 16, 16 - s);
  }

  lemma ShrShr(x: nat, m: nat, n: nat)
    ensures DivNat(Shr(x, m), Pow2(n)) == Shr(x, m + n)
  {
    Pow2Add(m, n);
    DivDiv(x, Pow2(m), Pow2(n));
  }

  // ---------------------------------------------------------------------------------------------
  // Coefficients as the standard's encoder writes them (section F.1.2 of ITU-T T.81)
  // ---------------------------------------------------------------------------------------------

  /** The category of a magnitude: how many bits it has. */
  function Category(m: nat): nat
  {
    if m == 0 then 0 else 1 + Category(m / 2)
  }

  /** The bits that the encoder appends to the category: those of a positive value as they are, those of a negative one
      counted from the least of its category. */
  function Appended(v: int): int
  {
    if v > 0 then v else v + Pow2(Category(-v)) - 1
  }

  lemma {:induction false} CategoryBounds(m: nat)
    requires m > 0
    ensures Category(m) > 0 && Pow2(Category(m) - 1) <= m < Pow2(Category(m))
  {
    if m > 1 { CategoryBounds(m / 2); } else { assert Category(1) == 1 && Pow2(1) == 2; }
  }

  /** Extending what the encoder appends gives the value back. */
  lemma ExtendAppended(v: int, s: nat)
    requires v != 0 && s == Category(if v > 0 then v else -v)
    ensures s > 0 && 0 <= Appended(v) < Pow2(s) && Extend(s, Appended(v)) == v
  {
    CategoryBounds(if v > 0 then v else -v);
  }

  /** A coefficient after a run of zeros, as the encoder writes it: the symbol is the run and the category, and the bits
      after its code say which value of that category it is. Two symbols have no value: sixteen zeros, and nothing but
      zeros up to the end. */
  lemma CoefficientReads(run: nat, v: int, s: nat, len: nat, buffer: nat)
    requires run < 16 && v != 0 && s == Category(if v > 0 then v else -v) && s < 16 && len + s <= 32
    requires BitsAfter(buffer, len, s) == Appended(v)
    ensures Meaning(16 * run + s, len, buffer) == Coefficient(run, v) && Length(16 * run + s, len) == len + s
    ensures Meaning(0xf0, len, buffer) == ZeroRun && Meaning(0, len, buffer) == EndOfBlock
  {
    ExtendAppended(v, s);
    assert (16 * run + s) / 16 == run && (16 * run + s) % 16 == s;
  }
}
