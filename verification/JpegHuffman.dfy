/** The Huffman tables of the JPEG reader (section F.2.2 of ITU-T T.81): codes of up to sixteen bits, read from the high
    bit down, with a table of nine-bit beginnings. */
module JpegHuffman {
  import opened Arith
  import opened CanonicalCode

  // ---------------------------------------------------------------------------------------------
  // Codes of up to sixteen bits, from the high bit down
  // ---------------------------------------------------------------------------------------------

  /** Code lengths of at most 256 symbols, in the order of their lengths. */
  predicate Lengths(sz: seq<nat>)
  {
    |sz| <= 256 && (forall i :: 0 <= i < |sz| ==> 1 <= sz[i] <= 16) && Ascending(sz)
  }

  predicate Ascending(sz: seq<nat>)
  {
    forall i, j :: 0 <= i <= j < |sz| ==> sz[i] <= sz[j]
  }

  ghost predicate Fits16(sz: seq<nat>)
  {
    forall s :: 1 <= s <= 16 ==> FitsAt(sz, s)
  }

  /** The sixteen bits k start with the code of symbol i. */
  ghost predicate Starts(sz: seq<nat>, i: nat, k: nat)
    requires Lengths(sz) && i < |sz|
  {
    DivNat(k, Pow2(16 - sz[i])) == Code(sz, i)
  }

  lemma CodeRange(sz: seq<nat>, i: nat)
    requires Lengths(sz) && Fits16(sz) && i < |sz|
    ensures FirstCode(sz, sz[i]) <= Code(sz, i) < EndCode(sz, sz[i]) <= Pow2(sz[i])
  {
    assert FitsAt(sz, sz[i]);
    CountMono(sz, sz[i], i + 1, |sz|);
  }

  /** The numbers that start with a code of length s lie between two limits. */
  lemma StartsBetween(sz: seq<nat>, i: nat, k: nat)
    requires Lengths(sz) && Fits16(sz) && i < |sz| && Starts(sz, i, k)
    ensures Limit(sz, sz[i] - 1) <= k < Limit(sz, sz[i])
  {
    var s := sz[i];
    CodeRange(sz, i);
    LimitStep(sz, s);
    Slot(k, 16 - s, FirstCode(sz, s), EndCode(sz, s));
  }

  lemma StartsUnique(sz: seq<nat>, i: nat, j: nat, k: nat)
    requires Lengths(sz) && Fits16(sz) && i < |sz| && j < |sz| && Starts(sz, i, k) && Starts(sz, j, k)
    ensures i == j
  {
    StartsBetween(sz, i, k);
    StartsBetween(sz, j, k);
    if sz[i] < sz[j] {
      LimitMono(sz, sz[i], sz[j] - 1);
    } else if sz[j] < sz[i] {
      LimitMono(sz, sz[j], sz[i] - 1);
    } else if i < j {
      CountMono(sz, sz[i], i + 1, j);
    } else if j < i {
      CountMono(sz, sz[i], j + 1, i);
    }
  }

  /** A number between the limits of length s starts with a code of that length. */
  lemma StartsOne(sz: seq<nat>, s: nat, k: nat) returns (i: nat)
    requires Lengths(sz) && 1 <= s <= 16 && Limit(sz, s - 1) <= k < Limit(sz, s)
    ensures i < |sz| && sz[i] == s && Starts(sz, i, k)
    ensures Count(sz, s, i) == DivNat(k, Pow2(16 - s)) - FirstCode(sz, s)
  {
    LimitStep(sz, s);
    Slot(k, 16 - s, FirstCode(sz, s), EndCode(sz, s));
    i := Nth(sz, s, DivNat(k, Pow2(16 - s)) - FirstCode(sz, s), |sz|);
  }

  lemma {:induction false} StartsShort(sz: seq<nat>, s: nat, k: nat) returns (i: nat)
    requires Lengths(sz) && s <= 16 && k < Limit(sz, s)
    ensures i < |sz| && sz[i] <= s && Starts(sz, i, k)
  {
    assert s > 0;
    if k < Limit(sz, s - 1) {
      i := StartsShort(sz, s - 1, k);
    } else {
      i := StartsOne(sz, s, k);
    }
  }

  // ---------------------------------------------------------------------------------------------
  // In the order of lengths, symbols of one length stand together
  // ---------------------------------------------------------------------------------------------

  /** The symbols with codes shorter than s are the first k. */
  predicate Boundary(sz: seq<nat>, s: nat, k: nat)
  {
    && k <= |sz|
    && (forall i :: 0 <= i < k ==> sz[i] < s)
    && (forall i :: k <= i < |sz| ==> sz[i] >= s)
  }

  /** So the place of a symbol is where its length starts plus its place among that length. */
  lemma PlaceIs(sz: seq<nat>, s: nat, k: nat, i: nat)
    requires Boundary(sz, s, k) && k <= i < |sz| && Ascending(sz) && sz[i] == s
    ensures i == k + Count(sz, s, i)
  {
    CountNone(sz, s, 0, k);
    CountAll(sz, s, k, i);
  }

  lemma {:induction false} CountAll(sz: seq<nat>, s: nat, k: nat, n: nat)
    requires k <= n <= |sz| && forall i :: k <= i < n ==> sz[i] == s
    ensures Count(sz, s, n) == Count(sz, s, k) + (n - k)
  {
    if k < n {
      CountAll(sz, s, k, n - 1);
    }
  }

  // ---------------------------------------------------------------------------------------------
  // The tables
  // ---------------------------------------------------------------------------------------------

  /** What a segment of the file says: how many codes there are of each length. */
  predicate Counts(counts: seq<nat>)
  {
    |counts| == 16 && SumTo(counts, 16) <= 256
  }

  function SumTo(counts: seq<nat>, n: nat): nat
    requires n <= |counts|
  {
    if n == 0 then 0 else SumTo(counts, n - 1) + counts[n - 1]
  }

  lemma {:induction false} SumToMono(counts: seq<nat>, m: nat, n: nat)
    requires m <= n <= |counts|
    ensures SumTo(counts, m) <= SumTo(counts, n)
  {
    if m < n { SumToMono(counts, m, n - 1); }
  }

  /** The lengths of the symbols, one after another. */
  function SizesOf(counts: seq<nat>, n: nat): (sz: seq<nat>)
    requires n <= |counts|
    ensures |sz| == SumTo(counts, n)
  {
    if n == 0 then [] else SizesOf(counts, n - 1) + seq(counts[n - 1], _ => n)
  }

  lemma {:induction false} SizesAscend(counts: seq<nat>, n: nat)
    requires n <= |counts|
    ensures Ascending(SizesOf(counts, n))
      && forall i :: 0 <= i < |SizesOf(counts, n)| ==> 1 <= SizesOf(counts, n)[i] <= n
  {
    if n > 0 {
      SizesAscend(counts, n - 1);
    }
  }

  /** Where length s starts, as the decoder wants it: the difference of the first symbol and the first code. */
  predicate DeltaAt(sz: seq<nat>, s: nat, d: int)
  {
    var k := d + FirstCode(sz, s);
    k >= 0 && Boundary(sz, s, k)
  }

  /** The two entries for length s. */
  predicate LengthRow(sz: seq<nat>, s: nat, max: nat, d: int)
    requires 1 <= s <= 16
  {
    max == Limit(sz, s) && DeltaAt(sz, s, d)
  }

  class Huffman {
    const fast: array<nat>
    const code: array<nat>
    const values: array<nat>
    const size: array<nat>
    const maxcode: array<nat>
    const delta: array<int>

    ghost predicate Valid()
    {
      && fast.Length == 512 && code.Length == 256 && values.Length == 256
      && size.Length == 257 && maxcode.Length == 18 && delta.Length == 17
      && code != size && maxcode != size && fast != size && fast != code && fast != maxcode && maxcode != code
      && values != fast && values != code && values != size && values != maxcode
      && delta as object != code && delta as object != maxcode && delta as object != size && delta as object != fast
    }

    ghost predicate SizesOK(sz: seq<nat>)
      requires Valid()
      reads size
    {
      Lengths(sz) && size[..|sz|] == sz && size[|sz|] == 0
    }

    /** The entries for lengths below n. */
    ghost predicate LengthsOK(sz: seq<nat>, n: nat)
      requires Valid() && n <= 17
      reads maxcode, delta
    {
      forall s :: 1 <= s < n ==> LengthRow(sz, s, maxcode[s], delta[s])
    }

    ghost predicate CodesOK(sz: seq<nat>, n: nat)
      requires Valid() && n <= |sz| <= 256
      reads code
    {
      forall i :: 0 <= i < n ==> code[i] == Code(sz, i) % 0x1_0000
    }

    method FillSizes(counts: seq<nat>) returns (k: nat)
      requires Valid() && Counts(counts)
      modifies size
      ensures k == SumTo(counts, 16) && SizesOK(SizesOf(counts, 16))
    {
      k := 0;
      for i := 0 to 16
        invariant k == SumTo(counts, i) <= 256 && size[..k] == SizesOf(counts, i)
      {
        SumToMono(counts, i + 1, 16);
        ghost var before := size[..k];
        for j := 0 to counts[i]
          invariant k == SumTo(counts, i) + j && size[..k] == before + seq(j, _ => i + 1)
        {
          size[k] := i + 1;
          k := k + 1;
        }
      }
      size[k] := 0;
      SizesAscend(counts, 16);
    }

    /** The codes of length j, from symbol k0 and code c0 on. */
    method AssignLength(ghost sz: seq<nat>, j: nat, k0: nat, c0: nat) returns (k: nat, c: nat)
      requires Valid() && SizesOK(sz) && 1 <= j <= 16 && Boundary(sz, j, k0) && c0 == FirstCode(sz, j)
        && CodesOK(sz, k0)
      modifies code
      ensures Boundary(sz, j + 1, k) && c == EndCode(sz, j) && CodesOK(sz, k)
      ensures k >= k0 && (k == k0 <==> c == c0)
    {
      k, c := k0, c0;
      while size[k] == j
        invariant k0 <= k <= |sz| && c == c0 + (k - k0)
        invariant forall i :: k0 <= i < k ==> sz[i] == j
        invariant CodesOK(sz, k)
        decreases 257 - k
      {
        PlaceIs(sz, j, k0, k);
        code[k] := c % 0x1_0000;
        k := k + 1;
        c := c + 1;
      }
      LengthEnds(sz, j, k0, k);
    }

    /** The loop over the lengths; it stops at a length with more codes than bits to tell them apart. */
    method AssignCodes(ghost sz: seq<nat>) returns (ok: bool)
      requires Valid() && SizesOK(sz)
      modifies code, delta, maxcode
      ensures ok <==> Fits16(sz)
      ensures ok ==> CodesOK(sz, |sz|) && LengthsOK(sz, 17)
    {
      var c, k := 0, 0;
      for j := 1 to 17
        invariant Boundary(sz, j, k) && c == FirstCode(sz, j) && CodesOK(sz, k)
        invariant forall s :: 1 <= s < j ==> FitsAt(sz, s)
        invariant LengthsOK(sz, j)
      {
        delta[j] := k - c;
        var k0, c0 := k, c;
        k, c := AssignLength(sz, j, k0, c0);
        if k != k0 && c - 1 >= Pow2(j) {
          assert !FitsAt(sz, j);
          return false;
        }
        FitsOn(sz, j, c, k == k0);
        maxcode[j] := Shl(c, 16 - j);
        LimitStep(sz, j);
        assert LengthRow(sz, j, maxcode[j], delta[j]);
        c := 2 * c;
      }
      assert k == |sz|;
      ok := true;
    }

    /** What the acceleration table should say about the nine bits p: the symbol whose code they start with, or 255. */
    ghost predicate FastEntry(sz: seq<nat>, n: nat, p: nat)
      requires Valid() && Lengths(sz) && n <= |sz| && p < 512
      reads fast
    {
      && (forall i :: 0 <= i < n && StartsFast(sz, i, p) ==> fast[p] == i)
      && ((forall i :: 0 <= i < n ==> !StartsFast(sz, i, p)) ==> fast[p] == 255)
    }

    ghost predicate FastOK(sz: seq<nat>, n: nat)
      requires Valid() && Lengths(sz) && n <= |sz|
      reads fast
    {
      forall p :: 0 <= p < 512 ==> FastEntry(sz, n, p)
    }

    /** Enters symbol i at all nine-bit strings that start with its code. */
    method EnterFast(ghost sz: seq<nat>, i: nat)
      requires Valid() && SizesOK(sz) && Fits16(sz) && i < |sz| && CodesOK(sz, |sz|) && FastOK(sz, i)
      modifies fast
      ensures FastOK(sz, i + 1)
    {
      var s := size[i];
      assert s == sz[i];
      ghost var was, n := fast[..], i + 1;
      if s <= FAST_BITS {
        FastRange(sz, i);
        FillRange(Shl(code[i], 9 - s), Pow2(9 - s), i);
      }
      forall p: nat | p < 512
        ensures FastEntry(sz, n, p)
      {
        assert old(FastEntry(sz, i, p));
        if s <= FAST_BITS { FastSlot(sz, i, p); }
        FastNext(sz, i, p, was[p], fast[p]);
      }
    }

    method FillRange(c: nat, m: nat, i: nat)
      requires Valid() && c + m <= 512
      modifies fast
      ensures forall p :: 0 <= p < 512 ==> fast[p] == if c <= p < c + m then i else old(fast[p])
    {
      for j := 0 to m
        invariant forall p :: 0 <= p < 512 ==> fast[p] == if c <= p < c + j then i else old(fast[p])
      {
        fast[c + j] := i;
      }
    }

    /** The tables stand for the canonical code with lengths sz. */
    ghost predicate Represents(sz: seq<nat>)
      reads fast, code, size, maxcode, delta
    {
      && Valid() && SizesOK(sz) && CodesOK(sz, |sz|) && LengthsOK(sz, 17) && maxcode[17] == 0xffff_ffff
        && FastOK(sz, |sz|)
    }

    /** Accepts exactly the counts that some prefix code has, and fills the tables for the canonical one. */
    method Build(counts: seq<nat>) returns (ok: bool)
      requires Valid() && Counts(counts)
      modifies fast, code, size, maxcode, delta
      ensures ok <==> Fits16(SizesOf(counts, 16))
      ensures ok ==> Represents(SizesOf(counts, 16))
    {
      ghost var sz := SizesOf(counts, 16);
      var k := FillSizes(counts);
      ok := AssignCodes(sz);
      if ok {
        maxcode[17] := 0xffff_ffff;
        FillFast(k, sz);
      }
    }

    method FillFast(k: nat, ghost sz: seq<nat>)
      requires Valid() && SizesOK(sz) && Fits16(sz) && k == |sz| && CodesOK(sz, k)
      modifies fast
      ensures FastOK(sz, k)
    {
      for j := 0 to 512
        invariant forall p :: 0 <= p < j ==> fast[p] == 255
      {
        fast[j] := 255;
      }
      for i := 0 to k
        invariant FastOK(sz, i)
      {
        EnterFast(sz, i);
      }
    }
  }

  /** Nine bits p of the sixteen k start with one short code at most. */
  lemma FastUnique(sz: seq<nat>, u: nat, i: nat, p: nat, k: nat)
    requires Lengths(sz) && Fits16(sz) && u < i < |sz| && StartsFast(sz, u, p) && p == DivNat(k, 128)
    ensures !StartsFast(sz, i, p)
  {
    FastIsTop(sz, u, k);
    FastIsTop(sz, i, k);
    if StartsFast(sz, i, p) {
      StartsUnique(sz, u, i, k);
    }
  }

  lemma SomeSixteen(p: nat) returns (k: nat)
    ensures p == DivNat(k, 128)
  {
    k := 128 * p;
  }

  /** One more symbol in one entry. */
  lemma FastNext(sz: seq<nat>, i: nat, p: nat, was: nat, now: nat)
    requires Lengths(sz) && Fits16(sz) && i < |sz| && p < 512
    requires now == if StartsFast(sz, i, p) then i else was
    requires forall u :: 0 <= u < i && StartsFast(sz, u, p) ==> was == u
    requires (forall u :: 0 <= u < i ==> !StartsFast(sz, u, p)) ==> was == 255
    ensures forall u :: 0 <= u <= i && StartsFast(sz, u, p) ==> now == u
    ensures (forall u :: 0 <= u <= i ==> !StartsFast(sz, u, p)) ==> now == 255
  {
    var k := SomeSixteen(p);
    forall u | 0 <= u < i && StartsFast(sz, u, p)
      ensures !StartsFast(sz, i, p)
    {
      FastUnique(sz, u, i, p, k);
    }
  }

  /** Nine bits decide about short codes. */
  lemma FastIsTop(sz: seq<nat>, i: nat, k: nat)
    requires Lengths(sz) && i < |sz|
    ensures StartsFast(sz, i, DivNat(k, 128)) <==> sz[i] <= 9 && Starts(sz, i, k)
  {
    if sz[i] <= 9 {
      Pow2Add(7, 9 - sz[i]);
      Pow2Values();
      DivDiv(k, 128, Pow2(9 - sz[i]));
    }
  }

  const FAST_BITS: nat := 9

  /** The nine bits p start with the code of symbol i. */
  ghost predicate StartsFast(sz: seq<nat>, i: nat, p: nat)
    requires Lengths(sz) && i < |sz|
  {
    sz[i] <= 9 && DivNat(p, Pow2(9 - sz[i])) == Code(sz, i)
  }

  /** The nine-bit strings that start with the code of a short symbol. */
  lemma FastRange(sz: seq<nat>, i: nat)
    requires Lengths(sz) && Fits16(sz) && i < |sz| && sz[i] <= 9
    ensures Code(sz, i) < 0x1_0000 && Shl(Code(sz, i), 9 - sz[i]) + Pow2(9 - sz[i]) <= 512
  {
    var s, c := sz[i], Code(sz, i);
    CodeRange(sz, i);
    Pow2Mono(s, 9);
    Pow2Values();
    ShlAdd(c, 1, 9 - s);
    ShlPow2(0, 9 - s);
    ShlMono(c + 1, Pow2(s), 9 - s);
    ShlPow2(s, 9 - s);
  }

  lemma FastSlot(sz: seq<nat>, i: nat, p: nat)
    requires Lengths(sz) && i < |sz| && sz[i] <= 9
    ensures StartsFast(sz, i, p) <==> Shl(Code(sz, i), 9 - sz[i]) <= p < Shl(Code(sz, i), 9 - sz[i]) + Pow2(9 - sz[i])
  {
    var c := Code(sz, i);
    Slot(p, 9 - sz[i], c, c + 1);
    ShlAdd(c, 1, 9 - sz[i]);
    ShlPow2(0, 9 - sz[i]);
  }

  lemma FitsOn(sz: seq<nat>, j: nat, c: nat, none: bool)
    requires 1 <= j <= 16 && c == EndCode(sz, j) && (forall s :: 1 <= s < j ==> FitsAt(sz, s))
    requires if none then c == FirstCode(sz, j) else c - 1 < Pow2(j)
    ensures FitsAt(sz, j)
  {
    if none && j > 1 {
      assert FitsAt(sz, j - 1);
    }
  }

  lemma LengthEnds(sz: seq<nat>, j: nat, k0: nat, k: nat)
    requires Ascending(sz) && Boundary(sz, j, k0) && k0 <= k <= |sz| && (forall i :: k0 <= i < k ==> sz[i] == j)
    requires k < |sz| ==> sz[k] != j
    ensures Boundary(sz, j + 1, k) && Total(sz, j) == k - k0
  {
    CountNone(sz, j, 0, k0);
    CountAll(sz, j, k0, k);
    forall i | k <= i < |sz|
      ensures sz[i] >= j + 1
    {
      assert sz[k] <= sz[i];
    }
    CountNone(sz, j, k, |sz|);
  }

  // ---------------------------------------------------------------------------------------------
  // Decoding
  // ---------------------------------------------------------------------------------------------

  /** The symbol whose code the sixteen bits k start with, or -1: what decoding means. */
  ghost function FindFrom(sz: seq<nat>, k: nat, n: nat): (sym: int)
    requires Lengths(sz) && n <= |sz|
    ensures sym == -1 || n <= sym < |sz|
    ensures sym >= 0 ==> Starts(sz, sym, k)
    ensures sym == -1 ==> forall i :: n <= i < |sz| ==> !Starts(sz, i, k)
    decreases |sz| - n
  {
    if n == |sz| then -1 else if Starts(sz, n, k) then n else FindFrom(sz, k, n + 1)
  }

  ghost function Find(sz: seq<nat>, k: nat): int
    requires Lengths(sz)
  {
    FindFrom(sz, k, 0)
  }

  lemma FindIs(sz: seq<nat>, i: nat, k: nat)
    requires Lengths(sz) && Fits16(sz) && i < |sz| && Starts(sz, i, k)
    ensures Find(sz, k) == i
  {
    StartsUnique(sz, i, Find(sz, k), k);
  }

  /** A short code is found by nine bits. */
  lemma FastHit(sz: seq<nat>, f: nat, k: nat)
    requires Lengths(sz) && Fits16(sz) && k < 0x1_0000 && f < 255
    requires forall i :: 0 <= i < |sz| && StartsFast(sz, i, DivNat(k, 128)) ==> f == i
    requires (forall i :: 0 <= i < |sz| ==> !StartsFast(sz, i, DivNat(k, 128))) ==> f == 255
    ensures f < |sz| && sz[f] <= 9 && Find(sz, k) == f
  {
    var i :| 0 <= i < |sz| && StartsFast(sz, i, DivNat(k, 128));
    FastIsTop(sz, i, k);
    FindIs(sz, i, k);
  }

  /** The first length from s on whose limit is above k. */
  lemma SlowHit(sz: seq<nat>, s: nat, k: nat, d: int) returns (i: nat)
    requires Lengths(sz) && Fits16(sz) && 1 <= s <= 16 && Limit(sz, s - 1) <= k < Limit(sz, s) && DeltaAt(sz, s, d)
    ensures i < |sz| && sz[i] == s && Find(sz, k) == i && i == DivNat(k, Pow2(16 - s)) + d
  {
    i := StartsOne(sz, s, k);
    FindIs(sz, i, k);
    PlaceIs(sz, s, d + FirstCode(sz, s), i);
  }

  lemma NoCode(sz: seq<nat>, k: nat)
    requires Lengths(sz) && Fits16(sz) && k >= Limit(sz, 16)
    ensures Find(sz, k) == -1
  {
    var i := Find(sz, k);
    if i >= 0 {
      StartsBetween(sz, i, k);
      LimitMono(sz, sz[i], 16);
    }
  }

  // ---------------------------------------------------------------------------------------------
  // What the tables and the search answer
  // ---------------------------------------------------------------------------------------------

  /** Decoding k should give this: a symbol and its length, or length 17 for no symbol. */
  ghost function RightAnswer(sz: seq<nat>, k: nat): (int, nat)
    requires Lengths(sz)
  {
    var i := Find(sz, k);
    if i >= 0 then (i, sz[i]) else (-1, 17)
  }

  /** The search in the limits, from length s on. */
  ghost function SlowAnswer(sz: seq<nat>, k: nat, s: nat): (int, nat)
    requires 1 <= s <= 17
    decreases 17 - s
  {
    if s == 17 then (-1, 17)
    else if k < Limit(sz, s) then (DivNat(k, Pow2(16 - s)) - FirstCode(sz, s) + FirstSymbol(sz, s), s)
    else SlowAnswer(sz, k, s + 1)
  }

  /** The nine-bit table, and the search from ten bits on where it has no entry. */
  ghost function TableAnswer(sz: seq<nat>, k: nat): (int, nat)
    requires Lengths(sz)
  {
    var i := Find(sz, k);
    if i >= 0 && sz[i] <= 9 && i != 255 then (i, sz[i]) else SlowAnswer(sz, k, 10)
  }

  ghost predicate AnswersRight(sz: seq<nat>, k: nat)
    requires Lengths(sz)
  {
    TableAnswer(sz, k) == RightAnswer(sz, k)
  }

  /** An entry of the nine-bit table decides between the two: it is 255 exactly when the search is needed. */
  lemma EntryDecides(sz: seq<nat>, f: nat, k: nat)
    requires Lengths(sz) && Fits16(sz) && k < 0x1_0000
    requires forall i :: 0 <= i < |sz| && StartsFast(sz, i, DivNat(k, 128)) ==> f == i
    requires (forall i :: 0 <= i < |sz| ==> !StartsFast(sz, i, DivNat(k, 128))) ==> f == 255
    ensures f < 255 ==> f < |sz| && TableAnswer(sz, k) == (f, sz[f])
    ensures f >= 255 ==> TableAnswer(sz, k) == SlowAnswer(sz, k, 10)
  {
    if f < 255 {
      FastHit(sz, f, k);
    } else {
      var i := Find(sz, k);
      if i >= 0 && sz[i] <= 9 { FastIsTop(sz, i, k); }
    }
  }

  lemma {:induction false} BoundaryIs(sz: seq<nat>, s: nat, n: nat, k: nat)
    requires Lengths(sz) && n <= |sz| && Boundary(sz, s, k)
    ensures Shorter(sz, s, n) == if n < k then n else k
  {
    if n > 0 {
      BoundaryIs(sz, s, n - 1, k);
    }
  }

  lemma {:induction false} BoundaryExists(sz: seq<nat>, s: nat, n: nat) returns (k: nat)
    requires Lengths(sz) && n <= |sz| && (forall i :: n <= i < |sz| ==> sz[i] >= s)
    ensures Boundary(sz, s, k)
  {
    if n > 0 && sz[n - 1] >= s {
      k := BoundaryExists(sz, s, n - 1);
    } else {
      k := n;
      forall i | 0 <= i < k
        ensures sz[i] < s
      {
        assert sz[i] <= sz[n - 1];
      }
    }
  }

  /** The offset of a length, as the search uses it. */
  lemma DeltaIs(sz: seq<nat>, s: nat, d: int)
    requires Lengths(sz) && DeltaAt(sz, s, d)
    ensures d == FirstSymbol(sz, s) - FirstCode(sz, s)
  {
    BoundaryIs(sz, s, |sz|, d + FirstCode(sz, s));
  }

  lemma {:induction false} SlowIsRight(sz: seq<nat>, k: nat, s: nat)
    requires Lengths(sz) && Fits16(sz) && 1 <= s <= 17 && k >= Limit(sz, s - 1)
    ensures SlowAnswer(sz, k, s) == RightAnswer(sz, k)
    decreases 17 - s
  {
    if s == 17 {
      NoCode(sz, k);
    } else if k < Limit(sz, s) {
      var b := BoundaryExists(sz, s, |sz|);
      BoundaryIs(sz, s, |sz|, b);
      var i := SlowHit(sz, s, k, b - FirstCode(sz, s));
    } else {
      SlowIsRight(sz, k, s + 1);
    }
  }

  lemma {:induction false} SlowIsLong(sz: seq<nat>, k: nat, s: nat)
    requires 10 <= s <= 17
    ensures SlowAnswer(sz, k, s).1 >= 10
    decreases 17 - s
  {
    if s < 17 && k >= Limit(sz, s) {
      SlowIsLong(sz, k, s + 1);
    }
  }

  // ---------------------------------------------------------------------------------------------
  // When the answer is right
  // ---------------------------------------------------------------------------------------------

  /** The bits start with a code of nine bits or fewer of the symbol whose number marks an empty entry. */
  ghost predicate Lost(sz: seq<nat>, k: nat)
    requires Lengths(sz)
  {
    |sz| == 256 && sz[255] <= 9 && Starts(sz, 255, k)
  }

  /** The answer to given bits is right unless they start with a short code of symbol 255. */
  lemma AnswerExact(sz: seq<nat>, k: nat)
    requires Lengths(sz) && Fits16(sz) && k < 0x1_0000
    ensures AnswersRight(sz, k) <==> !Lost(sz, k)
  {
    if Lost(sz, k) {
      FindIs(sz, 255, k);
      SlowIsLong(sz, k, 10);
    } else if k >= Limit(sz, 9) {
      SlowIsRight(sz, k, 10);
      ShortIsBelow(sz, k);
    } else {
      var i := StartsShort(sz, 9, k);
      FindIs(sz, i, k);
    }
  }

  /** No short code belongs to the symbol whose number marks an empty entry. */
  predicate Accelerated(sz: seq<nat>)
  {
    |sz| <= 255 || (|sz| == 256 && sz[255] > 9)
  }

  /** The answers are right for all bits exactly when symbol 255 has no short code. */
  lemma AccelerationExact(sz: seq<nat>)
    requires Lengths(sz) && Fits16(sz)
    ensures (forall k: nat :: k < 0x1_0000 ==> AnswersRight(sz, k)) <==> Accelerated(sz)
  {
    forall k: nat | k < 0x1_0000
      ensures AnswersRight(sz, k) <==> !Lost(sz, k)
    {
      AnswerExact(sz, k);
    }
    if !Accelerated(sz) {
      var k := FirstOf(sz, 255);
      assert !AnswersRight(sz, k);
    }
  }

  lemma ShortIsBelow(sz: seq<nat>, k: nat)
    requires Lengths(sz) && Fits16(sz) && k >= Limit(sz, 9)
    ensures Find(sz, k) >= 0 ==> sz[Find(sz, k)] > 9
  {
    var i := Find(sz, k);
    if i >= 0 {
      StartsBetween(sz, i, k);
      if sz[i] <= 9 { LimitMono(sz, sz[i], 9); }
    }
  }

  /** A sixteen-bit number that starts with the code of symbol i. */
  lemma FirstOf(sz: seq<nat>, i: nat) returns (k: nat)
    requires Lengths(sz) && Fits16(sz) && i < |sz|
    ensures k < 0x1_0000 && Starts(sz, i, k)
  {
    var s, c := sz[i], Code(sz, i);
    CodeRange(sz, i);
    k := Shl(c, 16 - s);
    ShlIsMul(c, 16 - s);
    DivModUnique(c, Pow2(16 - s), 0);
    Pow2Values();
    ShlBound(0, c, s, 16 - s);
  }

  // ---------------------------------------------------------------------------------------------
  // Right or wrong, the answer is the number of a symbol
  // ---------------------------------------------------------------------------------------------

  /** Lengths that no symbol has do not move the limit. */
  lemma {:induction false} LimitSame(sz: seq<nat>, s: nat, t: nat)
    requires s <= t <= 16 && forall i :: 0 <= i < |sz| ==> sz[i] <= s
    ensures Limit(sz, t) == Limit(sz, s)
    decreases t
  {
    if s < t {
      LimitSame(sz, s, t - 1);
      CountNone(sz, t, 0, |sz|);
      ShlIsMul(0, 16 - t);
    }
  }

  /** 256 codes of one bit do not fit. */
  lemma LastIsLong(sz: seq<nat>)
    requires Lengths(sz) && Fits16(sz) && |sz| == 256
    ensures sz[255] >= 2
  {
    Pow2Values();
    assert FitsAt(sz, 1);
    if sz[255] == 1 {
      forall i | 0 <= i < 256
        ensures sz[i] == 1
      {
        assert sz[i] <= sz[255];
      }
      CountAll(sz, 1, 0, 256);
    }
  }

  /** Bits that start with the last code of all are close to the last limit. */
  lemma LastCode(sz: seq<nat>, k: nat)
    requires Lengths(sz) && Fits16(sz) && Lost(sz, k)
    ensures Limit(sz, 9) - Pow2(16 - sz[255]) <= k < Limit(sz, 9)
  {
    var s, c := sz[255], Code(sz, 255);
    assert EndCode(sz, s) == c + 1;
    Slot(k, 16 - s, c, c + 1);
    LimitStep(sz, s);
    ShlAdd(c, 1, 16 - s);
    ShlPow2(0, 16 - s);
    LimitSame(sz, s, 9);
  }

  lemma LostPlace(sz: seq<nat>, k: nat)
    requires Lengths(sz) && Fits16(sz) && Lost(sz, k)
    ensures var (place, s) := TableAnswer(sz, k); 0 <= place < 256 && s == 10
  {
    FindIs(sz, 255, k);
    LastIsLong(sz);
    LastCode(sz, k);
    LimitMono(sz, 9, 10);
    LimitStep(sz, 10);
    ShlIsMul(FirstCode(sz, 10), 6);
    Pow2Mono(16 - sz[255], 14);
    Pow2Values();
    Pow2Add(7, 7);
    BoundaryIs(sz, 10, 256, 256);
    PlaceNear(k, FirstCode(sz, 10), Pow2(16 - sz[255]));
  }

  lemma PlaceNear(k: nat, f: nat, p: nat)
    requires f * 64 - p <= k < f * 64 && p <= 16384
    ensures 0 <= DivNat(k, 64) - f + 256 < 256
  {
  }

  lemma TablePlace(sz: seq<nat>, k: nat)
    requires Lengths(sz) && Fits16(sz) && k < 0x1_0000
    ensures var (place, s) := TableAnswer(sz, k); 1 <= s <= 17 && (s < 17 ==> 0 <= place < 256 && s <= 16)
  {
    AnswerExact(sz, k);
    if Lost(sz, k) { LostPlace(sz, k); }
  }

  // ---------------------------------------------------------------------------------------------
  // A table that loses a symbol
  // ---------------------------------------------------------------------------------------------

  /** 255 codes of eight bits and one of nine; a file has one byte for each count. */
  predicate FullCounts(counts: seq<nat>)
  {
    |counts| == 16 && forall i :: 0 <= i < 16 ==> counts[i] == if i == 7 then 255 else if i == 8 then 1 else 0
  }

  predicate FullTable(sz: seq<nat>)
  {
    |sz| == 256 && forall i :: 0 <= i < 256 ==> sz[i] == if i < 255 then 8 else 9
  }

  lemma {:induction false} FullSizes(counts: seq<nat>, n: nat)
    requires FullCounts(counts) && n <= 16
    ensures |SizesOf(counts, n)| == if n < 8 then 0 else if n == 8 then 255 else 256
    ensures forall i :: 0 <= i < |SizesOf(counts, n)| ==> SizesOf(counts, n)[i] == if i < 255 then 8 else 9
  {
    if n > 0 { FullSizes(counts, n - 1); }
  }

  lemma FullTotal(sz: seq<nat>, s: nat)
    requires FullTable(sz)
    ensures Total(sz, s) == if s == 8 then 255 else if s == 9 then 1 else 0
  {
    if s == 8 { CountAll(sz, s, 0, 255); } else { CountNone(sz, s, 0, 255); }
    if s == 9 { CountAll(sz, s, 255, 256); } else { CountNone(sz, s, 255, 256); }
  }

  lemma {:induction false} FullCodes(sz: seq<nat>, s: nat)
    requires FullTable(sz) && 1 <= s <= 16
    ensures FirstCode(sz, s) == if s <= 8 then 0 else if s == 9 then 510 else Pow2(s) - Pow2(s - 9)
    ensures FitsAt(sz, s)
  {
    Pow2Values();
    FullTotal(sz, s);
    if s > 1 {
      FullCodes(sz, s - 1);
      FullTotal(sz, s - 1);
    }
  }

  lemma FullFits(sz: seq<nat>)
    requires FullTable(sz)
    ensures Lengths(sz) && Fits16(sz)
  {
    forall s | 1 <= s <= 16
      ensures FitsAt(sz, s)
    {
      FullCodes(sz, s);
    }
  }

  /** The number of the code of nine bits, and where the search takes bits that start with it. */
  lemma FullTableAnswers(sz: seq<nat>, k: nat)
    requires FullTable(sz) && Lengths(sz) && Fits16(sz) && k == 0xff00
    ensures RightAnswer(sz, k) == (255, 9) && TableAnswer(sz, k) == (254, 10)
  {
    Pow2Values();
    FullCodes(sz, 9);
    CountNone(sz, 9, 0, 255);
    assert Starts(sz, 255, k);
    FindIs(sz, 255, k);
    FullCodes(sz, 10);
    Pow2Add(8, 2);
    LastCode(sz, k);
    LimitMono(sz, 9, 10);
    BoundaryIs(sz, 10, 256, 256);
    TenBits(sz, k);
  }

  lemma TenBits(sz: seq<nat>, k: nat)
    requires k < Limit(sz, 10) && k == 0xff00 && FirstCode(sz, 10) == 1022 && FirstSymbol(sz, 10) == 256
    ensures SlowAnswer(sz, k, 10) == (254, 10)
  {
    Pow2Values();
  }

  /** This table, each of whose counts fits a byte of a file, is accepted and answers wrongly: bits that start with the
      code of number 255 are taken for number 254 with ten bits. */
  lemma FullTableExample(counts: seq<nat>)
    requires FullCounts(counts)
    ensures Counts(counts) && (forall i :: 0 <= i < |counts| ==> counts[i] <= 255)
    ensures Lengths(SizesOf(counts, 16)) && Fits16(SizesOf(counts, 16))
    ensures RightAnswer(SizesOf(counts, 16), 0xff00) == (255, 9)
      && TableAnswer(SizesOf(counts, 16), 0xff00) == (254, 10)
  {
    FullSizes(counts, 16);
    var sz := SizesOf(counts, 16);
    FullFits(sz);
    FullTableAnswers(sz, 0xff00);
  }
}
