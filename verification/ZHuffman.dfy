/** The decoding tables of the inflater: nine-bit fast lookup, and per-length limits for longer codes. */
module ZHuffman {
  import opened Arith
  import opened CanonicalCode

  const FAST_BITS: nat := 9

  /** Entry e of the fast table, for nine stream bits k, once the first n symbols are entered:
      the length and symbol of a short code that k starts with, or 0 when there is none. */
  ghost predicate FastEntry(e: nat, sz: seq<nat>, n: nat, k: nat)
    requires n <= |sz|
  {
    if e == 0 then
      forall i :: 0 <= i < n && 1 <= sz[i] <= FAST_BITS ==> !Matches(sz, i, k)
    else
      var i := e % 512;
      i < n && sz[i] <= FAST_BITS && e / 512 == sz[i] && Matches(sz, i, k)
  }

  ghost predicate FastOK(fast: seq<nat>, sz: seq<nat>, n: nat)
    requires n <= |sz|
  {
    |fast| == 512 && forall k :: 0 <= k < 512 ==> FastEntry(fast[k], sz, n, k)
  }

  class Table {
    const fast: array<nat>
    const firstcode: array<nat>
    const maxcode: array<nat>
    const firstsymbol: array<nat>
    const size: array<nat>
    const value: array<nat>

    ghost predicate Valid()
    {
      && fast.Length == 512 && firstcode.Length == 16 && maxcode.Length == 17
      && firstsymbol.Length == 16 && size.Length == 288 && value.Length == 288
      && firstcode != firstsymbol && size != value
      && firstcode != maxcode && firstsymbol != maxcode
    }

    ghost function Repr(): set<object>
    {
      {fast, firstcode, maxcode, firstsymbol, size, value}
    }

    /** The per-length entries below length n. */
    ghost predicate LimitsOK(sz: seq<nat>, n: nat)
      requires Valid() && n <= 16
      reads firstcode, maxcode, firstsymbol
    {
      forall s :: 1 <= s < n ==>
        && firstcode[s] == FirstCode(sz, s)
        && maxcode[s] == Limit(sz, s)
        && firstsymbol[s] == FirstSymbol(sz, s)
    }

    /** The first n symbols stand at their ranks. */
    ghost predicate ValuesOK(sz: seq<nat>, n: nat)
      requires Valid() && n <= |sz|
      reads size, value
    {
      forall i :: 0 <= i < n && sz[i] > 0 ==>
        Rank(sz, i) < 288 && size[Rank(sz, i)] == sz[i] && value[Rank(sz, i)] == i
    }

    /** The tables stand for the canonical code with lengths sz. */
    ghost predicate Represents(sz: seq<nat>)
      requires Valid()
      reads Repr()
    {
      && SizeList(sz) && Fits(sz)
      && FastOK(fast[..], sz, |sz|)
      && LimitsOK(sz, 16)
      && maxcode[16] == 65536
      && ValuesOK(sz, |sz|)
    }

    constructor ()
      ensures Valid() && fresh(Repr())
    {
      fast := new nat[512];
      firstcode := new nat[16];
      maxcode := new nat[17];
      firstsymbol := new nat[16];
      size := new nat[288];
      value := new nat[288];
    }

    /** Accepts exactly the length lists that some prefix code has, and fills the tables for them. */
    method Build(sizelist: seq<nat>) returns (ok: bool)
      requires Valid() && SizeList(sizelist)
      modifies Repr()
      ensures ok <==> Fits(sizelist)
      ensures ok ==> Represents(sizelist)
    {
      var sizes := CountSizes(sizelist);
      for i := 1 to 16
        invariant forall s :: 1 <= s < i ==> Total(sizelist, s) <= Pow2(s)
      {
        if sizes[i] > Pow2(i) {
          assert !FitsAt(sizelist, i);
          return false;
        }
      }
      var nextCode;
      ok, nextCode := AssignCodes(sizelist, sizes);
      if ok {
        maxcode[16] := 0x10000;
        EnterSymbols(sizelist, nextCode);
      }
    }

    static method CountSizes(sizelist: seq<nat>) returns (sizes: seq<nat>)
      requires SizeList(sizelist)
      ensures |sizes| == 17 && sizes[0] == 0
      ensures forall s :: 1 <= s < 17 ==> sizes[s] == Total(sizelist, s)
    {
      sizes := seq(17, _ => 0);
      for i := 0 to |sizelist|
        invariant |sizes| == 17
        invariant forall s :: 0 <= s < 17 ==> sizes[s] == Count(sizelist, s, i)
      {
        sizes := sizes[sizelist[i] := sizes[sizelist[i]] + 1];
      }
      sizes := sizes[0 := 0];
    }

    /** Section 3.2.2 of RFC 1951, step 2: the smallest code of each length. */
    method AssignCodes(sizelist: seq<nat>, sizes: seq<nat>) returns (ok: bool, nextCode: seq<nat>)
      requires Valid() && SizeList(sizelist) && |sizes| == 17
      requires forall s :: 1 <= s < 17 ==> sizes[s] == Total(sizelist, s)
      modifies firstcode, firstsymbol, maxcode
      ensures ok <==> Fits(sizelist)
      ensures ok ==> LimitsOK(sizelist, 16)
      ensures ok ==> |nextCode| == 16 && forall s :: 1 <= s < 16 ==> nextCode[s] == FirstCode(sizelist, s)
    {
      ghost var first, symbol, limit := Recurrences(sizelist, sizes);
      ok, nextCode := FillLimits(sizes, first, symbol, limit);
    }

    /** The loop itself, against the recurrences that the three tables satisfy. */
    method FillLimits(sizes: seq<nat>, ghost first: seq<nat>, ghost symbol: seq<nat>, ghost limit: seq<nat>)
      returns (ok: bool, nextCode: seq<nat>)
      requires Valid()
      requires |first| == |symbol| == |limit| == |sizes| == 17
      requires first[1] == symbol[1] == 0
      requires forall s :: 1 <= s < 16 ==> Recurrence(first, symbol, limit, sizes, s)
      modifies firstcode, firstsymbol, maxcode
      ensures ok <==> forall s :: 1 <= s < 16 ==> HasRoom(first, sizes, s)
      ensures ok ==> |nextCode| == 16
      ensures ok ==> forall s :: 1 <= s < 16 ==> nextCode[s] == first[s]
      ensures ok ==> forall s :: 1 <= s < 16 ==> firstcode[s] == first[s]
      ensures ok ==> forall s :: 1 <= s < 16 ==> maxcode[s] == limit[s]
      ensures ok ==> forall s :: 1 <= s < 16 ==> firstsymbol[s] == symbol[s]
    {
      var code, k := 0, 0;
      nextCode := seq(16, _ => 0);
      for i := 1 to 16
        invariant code == first[i] <= Pow2(i) && k == symbol[i] && |nextCode| == 16
        invariant forall s :: 1 <= s < i ==> HasRoom(first, sizes, s)
        invariant forall s :: 1 <= s < i ==> nextCode[s] == first[s]
        invariant forall s :: 1 <= s < i ==> firstcode[s] == first[s]
        invariant forall s :: 1 <= s < i ==> maxcode[s] == limit[s]
        invariant forall s :: 1 <= s < i ==> firstsymbol[s] == symbol[s]
      {
        assert Recurrence(first, symbol, limit, sizes, i);
        nextCode := nextCode[i := code];
        firstcode[i] := code;
        firstsymbol[i] := k;
        code := code + sizes[i];
        if sizes[i] != 0 {
          if code - 1 >= Pow2(i) {
            assert !HasRoom(first, sizes, i);
            return false, nextCode;
          }
        }
        assert HasRoom(first, sizes, i);
        maxcode[i] := Shl(code, 16 - i);
        code := 2 * code;
        k := k + sizes[i];
      }
      ok := true;
    }

    /** Enters every symbol at its rank, and short codes at every nine-bit string they begin. */
    method EnterSymbols(sizelist: seq<nat>, firstCodes: seq<nat>)
      requires Valid() && SizeList(sizelist) && Fits(sizelist)
      requires |firstCodes| == 16 && forall s :: 1 <= s < 16 ==> firstCodes[s] == FirstCode(sizelist, s)
      requires LimitsOK(sizelist, 16)
      modifies fast, size, value
      ensures FastOK(fast[..], sizelist, |sizelist|)
      ensures ValuesOK(sizelist, |sizelist|)
    {
      ClearFast(sizelist);
      var nextCode := firstCodes;
      for i := 0 to |sizelist|
        invariant |nextCode| == 16
        invariant forall s :: 1 <= s < 16 ==> nextCode[s] == FirstCode(sizelist, s) + Count(sizelist, s, i)
        invariant FastOK(fast[..], sizelist, i)
        invariant ValuesOK(sizelist, i)
      {
        var s := sizelist[i];
        if s != 0 {
          EnterSymbol(sizelist, i, nextCode[s]);
          nextCode := nextCode[s := nextCode[s] + 1];
        } else {
          FastSkip(fast[..], sizelist, i);
          ValuesSkip(sizelist, i);
        }
      }
    }

    lemma ValuesSkip(sz: seq<nat>, i: nat)
      requires Valid() && i < |sz| && sz[i] == 0 && ValuesOK(sz, i)
      ensures ValuesOK(sz, i + 1)
    {
    }

    method ClearFast(ghost sizelist: seq<nat>)
      requires Valid()
      modifies fast
      ensures FastOK(fast[..], sizelist, 0)
    {
      for j := 0 to 512
        invariant forall k :: 0 <= k < j ==> fast[k] == 0
      {
        fast[j] := 0;
      }
    }

    method EnterSymbol(sizelist: seq<nat>, i: nat, code: nat)
      requires Valid() && SizeList(sizelist) && Fits(sizelist) && LimitsOK(sizelist, 16)
      requires i < |sizelist| && sizelist[i] > 0 && code == Code(sizelist, i)
      requires FastOK(fast[..], sizelist, i) && ValuesOK(sizelist, i)
      modifies fast, size, value
      ensures FastOK(fast[..], sizelist, i + 1) && ValuesOK(sizelist, i + 1)
    {
      var s := sizelist[i];
      EnterValue(sizelist, i, code - firstcode[s] + firstsymbol[s]);
      if s <= FAST_BITS {
        EnterFast(sizelist, i, code);
      } else {
        FastSkip(fast[..], sizelist, i);
      }
    }

    method EnterValue(sizelist: seq<nat>, i: nat, c: int)
      requires Valid() && SizeList(sizelist)
      requires i < |sizelist| && sizelist[i] > 0 && c == Rank(sizelist, i)
      requires ValuesOK(sizelist, i)
      modifies size, value
      ensures ValuesOK(sizelist, i + 1)
    {
      RankBound(sizelist, i);
      forall j | 0 <= j < i && sizelist[j] > 0 ensures Rank(sizelist, j) != c {
        RankInjective(sizelist, i, j);
      }
      size[c] := sizelist[i];
      value[c] := i;
    }

    method EnterFast(sizelist: seq<nat>, i: nat, code: nat)
      requires Valid() && SizeList(sizelist) && Fits(sizelist)
      requires i < |sizelist| && 1 <= sizelist[i] <= FAST_BITS && code == Code(sizelist, i)
      requires FastOK(fast[..], sizelist, i)
      modifies fast
      ensures FastOK(fast[..], sizelist, i + 1)
    {
      ghost var was := fast[..];
      var s := sizelist[i];
      var fastv := Or(i, Shl(s, 9));
      FastEntryValue(sizelist, i, fastv);
      var k := Rev(s, code);
      forall j: nat | j < k ensures !Matches(sizelist, i, j) { DivModUnique(0, Pow2(s), j); }
      DivModUnique(0, Pow2(s), k);
      while k < 512
        invariant k % Pow2(s) == Rev(s, code)
        invariant forall j :: 0 <= j < 512 ==>
          fast[j] == if j < k && Matches(sizelist, i, j) then fastv else was[j]
      {
        forall j: nat | k <= j <= k + Pow2(s) ensures j % Pow2(s) == k % Pow2(s) <==> j == k || j == k + Pow2(s) {
          NextInClass(k, Pow2(s), j);
        }
        fast[k] := fastv;
        k := k + Pow2(s);
      }
    }
  }

  /** A symbol without a short code leaves the fast table as it is. */
  lemma FastSkip(fast: seq<nat>, sz: seq<nat>, i: nat)
    requires i < |sz| && FastOK(fast, sz, i) && (sz[i] == 0 || sz[i] > FAST_BITS)
    ensures FastOK(fast, sz, i + 1)
  {
    forall k | 0 <= k < 512 ensures FastEntry(fast[k], sz, i + 1, k) {
      assert FastEntry(fast[k], sz, i, k);
    }
  }

  lemma FastEntryValue(sz: seq<nat>, i: nat, e: nat)
    requires i < |sz| <= 288 && 1 <= sz[i] <= 9 && e == Or(i, Shl(sz[i], 9))
    ensures 0 < e < 65536 && e % 512 == i && e / 512 == sz[i]
  {
    PackEntry(i, sz[i]);
  }

  lemma PackEntry(i: nat, s: nat)
    requires i < 288 && 1 <= s <= 9
    ensures var e := Or(i, Shl(s, 9)); 0 < e < 65536 && e % 512 == i && e / 512 == s
  {
    assert Pow2(9) == 512;
    OrDisjoint(i, 9, s);
    ShlIsMul(s, 9);
    DivModUnique(s, 512, i);
  }

  /** How the entries of length s lead to those of length s + 1. */
  ghost predicate Recurrence(first: seq<nat>, symbol: seq<nat>, limit: seq<nat>, sizes: seq<nat>, s: nat)
    requires |first| == |symbol| == |limit| == |sizes| == 17 && s < 16
  {
    && first[s + 1] == 2 * (first[s] + sizes[s])
    && symbol[s + 1] == symbol[s] + sizes[s]
    && limit[s] == Shl(first[s] + sizes[s], 16 - s)
  }

  ghost predicate HasRoom(first: seq<nat>, sizes: seq<nat>, s: nat)
    requires |first| == |sizes| == 17 && s < 17
  {
    first[s] + sizes[s] <= Pow2(s)
  }

  lemma Recurrences(sz: seq<nat>, sizes: seq<nat>) returns (first: seq<nat>, symbol: seq<nat>, limit: seq<nat>)
    requires SizeList(sz) && |sizes| == 17 && forall s :: 1 <= s < 17 ==> sizes[s] == Total(sz, s)
    ensures |first| == |symbol| == |limit| == 17
    ensures first[1] == symbol[1] == 0
    ensures forall s :: 1 <= s < 16 ==> Recurrence(first, symbol, limit, sizes, s)
    ensures forall s :: 1 <= s < 16 ==> first[s] == FirstCode(sz, s)
    ensures forall s :: 1 <= s < 16 ==> symbol[s] == FirstSymbol(sz, s)
    ensures forall s :: 1 <= s < 16 ==> limit[s] == Limit(sz, s)
    ensures Fits(sz) <==> forall s :: 1 <= s < 16 ==> HasRoom(first, sizes, s)
  {
    first := seq(17, s requires 0 <= s < 17 => FirstCode(sz, s));
    symbol := seq(17, s requires 0 <= s < 17 => FirstSymbol(sz, s));
    limit := seq(17, s requires 0 <= s < 17 => Limit(sz, s));
    ShorterNone(sz, |sz|);
    forall s | 1 <= s < 16
      ensures Recurrence(first, symbol, limit, sizes, s)
      ensures FitsAt(sz, s) <==> HasRoom(first, sizes, s)
    {
      LimitStep(sz, s);
      ShorterStep(sz, s, |sz|);
    }
  }

  lemma {:induction false} ShorterNone(sz: seq<nat>, n: nat)
    requires n <= |sz|
    ensures Shorter(sz, 1, n) == 0
  {
    if n > 0 {
      ShorterNone(sz, n - 1);
    }
  }
}
