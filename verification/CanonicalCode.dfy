/** The canonical prefix code that a list of code lengths stands for (section 3.2.2 of RFC 1951).
    A code word is packed into the bit stream from its high bit down, so it appears there reversed. */
module CanonicalCode {
  import opened Arith

  /** Code lengths of at most 288 symbols; length 0 means that the symbol has no code. */
  predicate SizeList(sz: seq<nat>)
  {
    |sz| <= 288 && forall i :: 0 <= i < |sz| ==> sz[i] <= 15
  }

  /** How many of the first n symbols have length s. */
  function Count(sz: seq<nat>, s: nat, n: nat): (c: nat)
    requires n <= |sz|
    ensures c <= n
  {
    if n == 0 then 0 else Count(sz, s, n - 1) + if sz[n - 1] == s then 1 else 0
  }

  function Total(sz: seq<nat>, s: nat): nat
  {
    Count(sz, s, |sz|)
  }

  /** The numerically smallest code of length s. */
  function FirstCode(sz: seq<nat>, s: nat): nat
  {
    if s <= 1 then 0 else 2 * (FirstCode(sz, s - 1) + Total(sz, s - 1))
  }

  /** One past the last code of length s. */
  function EndCode(sz: seq<nat>, s: nat): nat
  {
    FirstCode(sz, s) + if s == 0 then 0 else Total(sz, s)
  }

  /** How many of the first n symbols have a code shorter than s. */
  function Shorter(sz: seq<nat>, s: nat, n: nat): (c: nat)
    requires n <= |sz|
    ensures c <= n
  {
    if n == 0 then 0 else Shorter(sz, s, n - 1) + if 0 < sz[n - 1] < s then 1 else 0
  }

  function FirstSymbol(sz: seq<nat>, s: nat): nat
  {
    Shorter(sz, s, |sz|)
  }

  function Code(sz: seq<nat>, i: nat): nat
    requires i < |sz|
  {
    FirstCode(sz, sz[i]) + Count(sz, sz[i], i)
  }

  /** The position of symbol i when symbols are ordered by length, then by number. */
  function Rank(sz: seq<nat>, i: nat): nat
    requires i < |sz|
  {
    FirstSymbol(sz, sz[i]) + Count(sz, sz[i], i)
  }

  /** The bits that the stream holds for symbol i, as a number. */
  function Word(sz: seq<nat>, i: nat): nat
    requires i < |sz|
  {
    Rev(sz[i], Code(sz, i))
  }

  /** Every length has room for its codes. */
  ghost predicate Fits(sz: seq<nat>)
  {
    forall s :: 1 <= s <= 15 ==> FitsAt(sz, s)
  }

  ghost predicate FitsAt(sz: seq<nat>, s: nat)
  {
    EndCode(sz, s) <= Pow2(s)
  }

  /** The bits r start with the code word of symbol i. */
  predicate Matches(sz: seq<nat>, i: nat, r: nat)
    requires i < |sz|
  {
    sz[i] > 0 && Low(r, sz[i]) == Word(sz, i)
  }

  /** The symbol whose code word the bits r start with, or -1. This is what decoding means. */
  function Lookup(sz: seq<nat>, r: nat): (sym: int)
    ensures -1 <= sym < |sz|
    ensures sym >= 0 ==> Matches(sz, sym, r)
    ensures sym == -1 ==> forall i :: 0 <= i < |sz| ==> !Matches(sz, i, r)
  {
    LookupFrom(sz, r, 0)
  }

  function LookupFrom(sz: seq<nat>, r: nat, n: nat): (sym: int)
    requires n <= |sz|
    ensures sym == -1 || n <= sym < |sz|
    ensures sym >= 0 ==> Matches(sz, sym, r)
    ensures sym == -1 ==> forall i :: n <= i < |sz| ==> !Matches(sz, i, r)
    decreases |sz| - n
  {
    if n == |sz| then -1 else if Matches(sz, n, r) then n else LookupFrom(sz, r, n + 1)
  }

  // ---------------------------------------------------------------------------------------------
  // Counting
  // ---------------------------------------------------------------------------------------------

  lemma {:induction false} CountMono(sz: seq<nat>, s: nat, m: nat, n: nat)
    requires m <= n <= |sz|
    ensures Count(sz, s, m) <= Count(sz, s, n)
  {
    if m < n {
      CountMono(sz, s, m, n - 1);
    }
  }

  /** The j-th symbol of length s exists when j is below their number. */
  lemma {:induction false} Nth(sz: seq<nat>, s: nat, j: nat, n: nat) returns (i: nat)
    requires n <= |sz| && j < Count(sz, s, n)
    ensures i < n && sz[i] == s && Count(sz, s, i) == j
  {
    if j < Count(sz, s, n - 1) {
      i := Nth(sz, s, j, n - 1);
    } else {
      i := n - 1;
    }
  }

  lemma {:induction false} ShorterStep(sz: seq<nat>, s: nat, n: nat)
    requires s > 0 && n <= |sz|
    ensures Shorter(sz, s + 1, n) == Shorter(sz, s, n) + Count(sz, s, n)
    ensures Shorter(sz, s, n) + Count(sz, s, n) <= n
  {
    if n > 0 {
      ShorterStep(sz, s, n - 1);
    }
  }

  lemma {:induction false} ShorterMono(sz: seq<nat>, s: nat, t: nat, n: nat)
    requires s <= t && n <= |sz|
    ensures Shorter(sz, s, n) <= Shorter(sz, t, n)
  {
    if n > 0 {
      ShorterMono(sz, s, t, n - 1);
    }
  }

  /** Every symbol with a code has a rank of its own, below the number of symbols. */
  lemma RankBound(sz: seq<nat>, i: nat)
    requires i < |sz| && sz[i] > 0
    ensures FirstSymbol(sz, sz[i]) <= Rank(sz, i) < FirstSymbol(sz, sz[i] + 1) <= |sz|
  {
    CountMono(sz, sz[i], i + 1, |sz|);
    ShorterStep(sz, sz[i], |sz|);
  }

  lemma RankInjective(sz: seq<nat>, i: nat, j: nat)
    requires i < |sz| && j < |sz| && sz[i] > 0 && sz[j] > 0 && i != j
    ensures Rank(sz, i) != Rank(sz, j)
  {
    RankBound(sz, i);
    RankBound(sz, j);
    if sz[i] < sz[j] {
      ShorterMono(sz, sz[i] + 1, sz[j], |sz|);
    } else if sz[j] < sz[i] {
      ShorterMono(sz, sz[j] + 1, sz[i], |sz|);
    } else if i < j {
      CountMono(sz, sz[i], i + 1, j);
    } else {
      CountMono(sz, sz[i], j + 1, i);
    }
  }

  // ---------------------------------------------------------------------------------------------
  // Kraft's inequality
  // ---------------------------------------------------------------------------------------------

  /** The share of all 15-bit strings that the codes of the first n symbols take. */
  function KraftSum(sz: seq<nat>, n: nat): nat
    requires SizeList(sz) && n <= |sz|
  {
    if n == 0 then 0 else KraftSum(sz, n - 1) + if sz[n - 1] > 0 then Pow2(15 - sz[n - 1]) else 0
  }

  /** The same sum, gathered by length: the first n symbols with lengths 1 to s. */
  function KraftByLength(sz: seq<nat>, s: nat, n: nat): nat
    requires s <= 15 && n <= |sz|
  {
    if s == 0 then 0 else KraftByLength(sz, s - 1, n) + Count(sz, s, n) * Pow2(15 - s)
  }

  lemma {:induction false} KraftByLengthStep(sz: seq<nat>, s: nat, n: nat)
    requires s <= 15 && 0 < n <= |sz|
    ensures KraftByLength(sz, s, n) == KraftByLength(sz, s, n - 1) +
            if 0 < sz[n - 1] <= s then Pow2(15 - sz[n - 1]) else 0
  {
    if s > 0 {
      KraftByLengthStep(sz, s - 1, n);
      MulAdd(Count(sz, s, n - 1), 1, Pow2(15 - s));
    }
  }

  lemma {:induction false} KraftAgree(sz: seq<nat>, n: nat)
    requires SizeList(sz) && n <= |sz|
    ensures KraftSum(sz, n) == KraftByLength(sz, 15, n)
  {
    if n == 0 {
      KraftEmpty(sz, 15);
    } else {
      KraftByLengthStep(sz, 15, n);
      KraftAgree(sz, n - 1);
    }
  }

  lemma {:induction false} KraftEmpty(sz: seq<nat>, s: nat)
    requires s <= 15
    ensures KraftByLength(sz, s, 0) == 0
  {
    if s > 0 {
      KraftEmpty(sz, s - 1);
    }
  }

  lemma {:induction false} KraftEnd(sz: seq<nat>, s: nat)
    requires 1 <= s <= 15
    ensures KraftByLength(sz, s, |sz|) == EndCode(sz, s) * Pow2(15 - s)
  {
    if s == 1 {
      assert KraftByLength(sz, 0, |sz|) == 0;
    } else {
      KraftEnd(sz, s - 1);
      MulAssoc(EndCode(sz, s - 1), 2, Pow2(15 - s));
    }
    MulAdd(FirstCode(sz, s), Total(sz, s), Pow2(15 - s));
  }

  lemma {:induction false} KraftGrows(sz: seq<nat>, s: nat, t: nat)
    requires s <= t <= 15
    ensures KraftByLength(sz, s, |sz|) <= KraftByLength(sz, t, |sz|)
  {
    if s < t {
      KraftGrows(sz, s, t - 1);
    }
  }

  lemma CancelPow2(e: nat, a: nat, b: nat)
    requires a <= b
    ensures e * Pow2(b - a) <= Pow2(b) <==> e <= Pow2(a)
  {
    Pow2Add(a, b - a);
    var p, q := Pow2(a), Pow2(b - a);
    if e <= p { MulMono(e, p, q); } else { MulMono(p + 1, e, q); }
  }

  /** A code exists for these lengths exactly when they satisfy Kraft's inequality. */
  lemma KraftInequality(sz: seq<nat>)
    requires SizeList(sz)
    ensures Fits(sz) <==> KraftSum(sz, |sz|) <= Pow2(15)
  {
    KraftAgree(sz, |sz|);
    KraftEnd(sz, 15);
    assert Fits(sz) ==> FitsAt(sz, 15);
    forall s | 1 <= s <= 15 && KraftSum(sz, |sz|) <= Pow2(15)
      ensures FitsAt(sz, s)
    {
      KraftEnd(sz, s);
      KraftGrows(sz, s, 15);
      CancelPow2(EndCode(sz, s), s, 15);
    }
  }

  // ---------------------------------------------------------------------------------------------
  // Code words as intervals of 16-bit numbers
  // ---------------------------------------------------------------------------------------------

  /** The codes of length at most s are the prefixes of the 16-bit numbers below Limit(s). */
  function Limit(sz: seq<nat>, s: nat): nat
    requires s <= 16
  {
    if s == 0 then 0 else Limit(sz, s - 1) + Shl(Total(sz, s), 16 - s)
  }

  lemma {:induction false} LimitStep(sz: seq<nat>, s: nat)
    requires 1 <= s <= 16
    ensures Shl(FirstCode(sz, s), 16 - s) == Limit(sz, s - 1)
    ensures Shl(EndCode(sz, s), 16 - s) == Limit(sz, s)
  {
    if s == 1 {
      ShlIsMul(0, 15);
    } else {
      LimitStep(sz, s - 1);
      ShlDouble(EndCode(sz, s - 1), 16 - s);
    }
    ShlAdd(FirstCode(sz, s), Total(sz, s), 16 - s);
  }

  lemma {:induction false} LimitMono(sz: seq<nat>, s: nat, t: nat)
    requires s <= t <= 16
    ensures Limit(sz, s) <= Limit(sz, t)
  {
    if s < t {
      LimitMono(sz, s, t - 1);
    }
  }

  lemma CodeFits(sz: seq<nat>, i: nat)
    requires Fits(sz) && SizeList(sz) && i < |sz| && sz[i] > 0
    ensures FirstCode(sz, sz[i]) <= Code(sz, i) < EndCode(sz, sz[i]) <= Pow2(sz[i])
  {
    assert FitsAt(sz, sz[i]);
    CountMono(sz, sz[i], i + 1, |sz|);
  }

  /** Read from its high bit, a match is the code itself. */
  lemma MatchIsCode(sz: seq<nat>, i: nat, r: nat)
    requires Fits(sz) && SizeList(sz) && i < |sz| && sz[i] > 0
    ensures Matches(sz, i, r) <==> Rev(sz[i], r) == Code(sz, i)
  {
    var s, c := sz[i], Code(sz, i);
    CodeFits(sz, i);
    RevLow(s, r);
    RevRev(s, r);
    RevRev(s, c);
    DivModUnique(0, Pow2(s), c);
  }

  /** k lies in the slots f to e of width 2^n exactly when its own slot does. */
  lemma Slot(k: nat, n: nat, f: nat, e: nat)
    ensures k / Pow2(n) >= 0
    ensures f <= k / Pow2(n) < e <==> Shl(f, n) <= k < Shl(e, n)
  {
    SlotStart(k, Pow2(n), f);
    SlotStart(k, Pow2(n), e);
    ShlIsMul(f, n);
    ShlIsMul(e, n);
  }

  lemma SlotStart(k: nat, p: nat, f: nat)
    requires p > 0
    ensures k / p >= 0
    ensures f <= k / p <==> f * p <= k
  {
    var c := k / p;
    assert k == c * p + k % p;
    MulAdd(c, 1, p);
    if f <= c { MulMono(f, c, p); } else { MulMono(c + 1, f, p); }
  }

  /** A match puts the 16-bit reversal of the stream into the interval of its length. */
  lemma MatchInterval(sz: seq<nat>, i: nat, r: nat)
    requires Fits(sz) && SizeList(sz) && i < |sz| && Matches(sz, i, r)
    ensures Rev(16, r) / Pow2(16 - sz[i]) == Code(sz, i)
    ensures Limit(sz, sz[i] - 1) <= Rev(16, r) < Limit(sz, sz[i])
  {
    var s, c, k := sz[i], Code(sz, i), Rev(16, r);
    MatchIsCode(sz, i, r);
    RevSplit(16, s, r);
    CodeFits(sz, i);
    LimitStep(sz, s);
    Slot(k, 16 - s, FirstCode(sz, s), EndCode(sz, s));
  }

  /** Symbol i owns the 16-bit numbers k of its own slot. */
  ghost predicate Owns(sz: seq<nat>, i: nat, k: nat)
    requires i < |sz| && 1 <= sz[i] <= 15
  {
    Limit(sz, sz[i] - 1) <= k < Limit(sz, sz[i]) && k / Pow2(16 - sz[i]) == Code(sz, i)
  }

  lemma OwnerUnique(sz: seq<nat>, i: nat, j: nat, k: nat)
    requires i < |sz| && j < |sz| && 1 <= sz[i] <= sz[j] <= 15
    requires Owns(sz, i, k) && Owns(sz, j, k)
    ensures i == j
  {
    if sz[i] < sz[j] {
      LimitMono(sz, sz[i], sz[j] - 1);
    } else if i < j {
      CountMono(sz, sz[i], i + 1, j);
    } else if j < i {
      CountMono(sz, sz[i], j + 1, i);
    }
  }

  /** No two symbols match the same bits. */
  lemma MatchUnique(sz: seq<nat>, i: nat, j: nat, r: nat)
    requires Fits(sz) && SizeList(sz) && i < |sz| && j < |sz|
    requires Matches(sz, i, r) && Matches(sz, j, r)
    ensures i == j
  {
    assert Owns(sz, i, Rev(16, r)) by { MatchInterval(sz, i, r); }
    assert Owns(sz, j, Rev(16, r)) by { MatchInterval(sz, j, r); }
    if sz[i] <= sz[j] {
      OwnerUnique(sz, i, j, Rev(16, r));
    } else {
      OwnerUnique(sz, j, i, Rev(16, r));
    }
  }

  lemma LookupIs(sz: seq<nat>, i: nat, r: nat)
    requires Fits(sz) && SizeList(sz) && i < |sz| && Matches(sz, i, r)
    ensures Lookup(sz, r) == i
  {
    var j := Lookup(sz, r);
    assert j >= 0;
    MatchUnique(sz, i, j, r);
  }

  /** The code is prefix-free: no code word starts with another one. */
  lemma PrefixFree(sz: seq<nat>, i: nat, j: nat)
    requires Fits(sz) && SizeList(sz) && i < |sz| && j < |sz| && i != j
    requires 0 < sz[i] <= sz[j]
    ensures Low(Word(sz, j), sz[i]) != Word(sz, i)
  {
    var r := Word(sz, j);
    DivModUnique(0, Pow2(sz[j]), r);
    assert Matches(sz, j, r);
    if Low(r, sz[i]) == Word(sz, i) {
      MatchUnique(sz, i, j, r);
    }
  }

  /** A code word followed by anything decodes to its symbol. */
  lemma DecodeWord(sz: seq<nat>, i: nat, rest: nat)
    requires Fits(sz) && SizeList(sz) && i < |sz| && sz[i] > 0
    ensures var r := Word(sz, i) + Shl(rest, sz[i]);
            Lookup(sz, r) == i && Shr(r, sz[i]) == rest
  {
    var r := Word(sz, i) + Shl(rest, sz[i]);
    ShrLowUnique(Word(sz, i), rest, sz[i]);
    assert Matches(sz, i, r);
    LookupIs(sz, i, r);
  }

  lemma SlotCode(sz: seq<nat>, s: nat, k: nat) returns (c: nat)
    requires 1 <= s <= 15 && Limit(sz, s - 1) <= k < Limit(sz, s)
    ensures c == k / Pow2(16 - s) && FirstCode(sz, s) <= c < EndCode(sz, s)
  {
    LimitStep(sz, s);
    Slot(k, 16 - s, FirstCode(sz, s), EndCode(sz, s));
    c := k / Pow2(16 - s);
  }

  lemma OwnerExists(sz: seq<nat>, s: nat, k: nat) returns (i: nat)
    requires 1 <= s <= 15 && Limit(sz, s - 1) <= k < Limit(sz, s)
    ensures i < |sz| && sz[i] == s && Owns(sz, i, k)
  {
    var c := SlotCode(sz, s, k);
    i := Nth(sz, s, c - FirstCode(sz, s), |sz|);
  }

  lemma OwnerMatches(sz: seq<nat>, i: nat, r: nat)
    requires Fits(sz) && SizeList(sz) && i < |sz| && sz[i] > 0 && Owns(sz, i, Rev(16, r))
    ensures Matches(sz, i, r)
  {
    RevSplit(16, sz[i], r);
    MatchIsCode(sz, i, r);
  }

  /** Everything below Limit(s) is covered by a code of length at most s. */
  lemma {:induction false} Covered(sz: seq<nat>, s: nat, r: nat) returns (i: nat)
    requires Fits(sz) && SizeList(sz) && s <= 15 && Rev(16, r) < Limit(sz, s)
    ensures i < |sz| && 0 < sz[i] <= s && Matches(sz, i, r)
  {
    assert s > 0;
    if Rev(16, r) < Limit(sz, s - 1) {
      i := Covered(sz, s - 1, r);
    } else {
      i := OwnerExists(sz, s, Rev(16, r));
      OwnerMatches(sz, i, r);
    }
  }

  /** -1 means exactly that the bits lie above every code. */
  lemma NoMatch(sz: seq<nat>, r: nat)
    requires Fits(sz) && SizeList(sz)
    ensures Lookup(sz, r) == -1 <==> Rev(16, r) >= Limit(sz, 15)
  {
    if Rev(16, r) < Limit(sz, 15) {
      var i := Covered(sz, 15, r);
    } else if Lookup(sz, r) != -1 {
      var i := Lookup(sz, r);
      MatchInterval(sz, i, r);
      LimitMono(sz, sz[i], 15);
    }
  }

  // ---------------------------------------------------------------------------------------------
  // The order of the codes
  // ---------------------------------------------------------------------------------------------

  lemma {:induction false} CountNone(sz: seq<nat>, s: nat, m: nat, n: nat)
    requires m <= n <= |sz| && forall i :: m <= i < n ==> sz[i] != s
    ensures Count(sz, s, n) == Count(sz, s, m)
  {
    if m < n {
      CountNone(sz, s, m, n - 1);
    }
  }

  /** In the order of the codes symbols are sorted by length, and those of one length by number. */
  predicate Before(sz: seq<nat>, i: nat, j: nat)
    requires i < |sz| && j < |sz|
  {
    0 < sz[i] && (sz[i] < sz[j] || (sz[i] == sz[j] && i < j))
  }

  /** Nothing comes between. */
  predicate NextAfter(sz: seq<nat>, i: nat, j: nat)
    requires i < |sz| && j < |sz|
  {
    Before(sz, i, j) && forall k: nat :: k < |sz| ==> !(Before(sz, i, k) && Before(sz, k, j))
  }

  lemma {:induction false} FirstCodeSkips(sz: seq<nat>, s: nat, t: nat)
    requires 1 <= s < t && forall i :: 0 <= i < |sz| ==> !(s < sz[i] < t)
    ensures FirstCode(sz, t) == Shl(FirstCode(sz, s) + Total(sz, s), t - s)
    decreases t
  {
    if s + 1 < t {
      FirstCodeSkips(sz, s, t - 1);
      CountNone(sz, t - 1, 0, |sz|);
    } else {
      assert Shl(FirstCode(sz, s) + Total(sz, s), 1) == 2 * (FirstCode(sz, s) + Total(sz, s));
    }
  }

  /** The first symbol in the order has code zero. */
  lemma FirstIsZero(sz: seq<nat>, i: nat)
    requires i < |sz| && sz[i] > 0 && forall k: nat :: k < |sz| ==> !Before(sz, k, i)
    ensures Code(sz, i) == 0
  {
    forall k: nat | k < |sz|
      ensures !(0 < sz[k] < sz[i]) && (k < i ==> sz[k] != sz[i])
    {
      assert !Before(sz, k, i);
    }
    CountNone(sz, sz[i], 0, i);
    NothingShorter(sz, sz[i]);
  }

  lemma {:induction false} NothingShorter(sz: seq<nat>, s: nat)
    requires s > 0 && forall k: nat :: k < |sz| ==> !(0 < sz[k] < s)
    ensures FirstCode(sz, s) == 0
  {
    if s > 1 {
      NothingShorter(sz, s - 1);
      CountNone(sz, s - 1, 0, |sz|);
    }
  }

  /** Each code is the one before it plus one, with zeros appended up to its length: with FirstIsZero, this says all
      of section 3.2.2 of RFC 1951 about which codes the lengths stand for. */
  lemma NextCode(sz: seq<nat>, i: nat, j: nat)
    requires i < |sz| && j < |sz| && NextAfter(sz, i, j)
    ensures Code(sz, j) == Shl(Code(sz, i) + 1, sz[j] - sz[i])
  {
    var s, t := sz[i], sz[j];
    if s == t {
      forall k: nat | i < k < j
        ensures sz[k] != s
      {
        assert !(Before(sz, i, k) && Before(sz, k, j));
      }
      CountNone(sz, s, i + 1, j);
    } else {
      LastOfLength(sz, i, j);
      CountNone(sz, t, 0, j);
      FirstCodeSkips(sz, s, t);
    }
  }

  lemma LastOfLength(sz: seq<nat>, i: nat, j: nat)
    requires i < |sz| && j < |sz| && NextAfter(sz, i, j) && sz[i] < sz[j]
    ensures Total(sz, sz[i]) == Count(sz, sz[i], i) + 1
    ensures (forall k :: 0 <= k < j ==> sz[k] != sz[j]) && forall k :: 0 <= k < |sz| ==> !(sz[i] < sz[k] < sz[j])
  {
    forall k: nat | k < |sz|
      ensures (i < k ==> sz[k] != sz[i]) && (k < j ==> sz[k] != sz[j]) && !(sz[i] < sz[k] < sz[j])
    {
      assert !(Before(sz, i, k) && Before(sz, k, j));
    }
    CountNone(sz, sz[i], i + 1, |sz|);
  }
}
