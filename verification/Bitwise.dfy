/** Bitwise operations, binary digit by binary digit. */
module Bitwise {
  import opened Arith

  // ---------------------------------------------------------------------------------------------
  // Digits
  // ---------------------------------------------------------------------------------------------

  /** Binary digit i of x. */
  function Digit(x: nat, i: nat): (d: nat)
    ensures d < 2
  {
    Shr(x, i) % 2
  }

  lemma DigitUp(x: nat, i: nat)
    ensures Digit(x, 0) == x % 2 && Digit(x, i + 1) == Digit(x / 2, i)
  {
    DivDiv(x, 2, Pow2(i));
  }

  /** A number from its lowest digit and the rest. */
  function Joined(d: nat, h: nat): (v: nat)
    requires d < 2
    ensures v % 2 == d && v / 2 == h
  {
    d + 2 * h
  }

  lemma AndUp(c: nat, d: nat, x: nat, y: nat)
    requires c < 2 && d < 2
    ensures And(Joined(c, x), Joined(d, y)) == Joined(if c == 1 && d == 1 then 1 else 0, And(x, y))
  {
  }

  lemma OrUp(c: nat, d: nat, x: nat, y: nat)
    requires c < 2 && d < 2
    ensures Or(Joined(c, x), Joined(d, y)) == Joined(if c == 1 || d == 1 then 1 else 0, Or(x, y))
  {
  }

  lemma XorUp(c: nat, d: nat, x: nat, y: nat)
    requires c < 2 && d < 2
    ensures Xor(Joined(c, x), Joined(d, y)) == Joined(if c != d then 1 else 0, Xor(x, y))
  {
  }

  lemma DigitJoined(d: nat, h: nat, i: nat)
    requires d < 2
    ensures Digit(Joined(d, h), i) == if i == 0 then d else Digit(h, i - 1)
  {
    if i > 0 {
      DigitUp(Joined(d, h), i - 1);
    } else {
      DigitUp(Joined(d, h), 0);
    }
  }

  lemma {:induction false} BitwiseDigit(x: nat, y: nat, i: nat)
    ensures Digit(And(x, y), i) == if Digit(x, i) == 1 && Digit(y, i) == 1 then 1 else 0
    ensures Digit(Or(x, y), i) == if Digit(x, i) == 1 || Digit(y, i) == 1 then 1 else 0
    ensures Digit(Xor(x, y), i) == if Digit(x, i) != Digit(y, i) then 1 else 0
    decreases i
  {
    var c, d, h, k := x % 2, y % 2, x / 2, y / 2;
    assert x == Joined(c, h) && y == Joined(d, k);
    AndUp(c, d, h, k);
    OrUp(c, d, h, k);
    XorUp(c, d, h, k);
    DigitJoined(c, h, i);
    DigitJoined(d, k, i);
    DigitJoined(if c == 1 && d == 1 then 1 else 0, And(h, k), i);
    DigitJoined(if c == 1 || d == 1 then 1 else 0, Or(h, k), i);
    DigitJoined(if c != d then 1 else 0, Xor(h, k), i);
    if i > 0 {
      BitwiseDigit(h, k, i - 1);
    }
  }

  /** The digits of the complement among n digits. */
  lemma {:induction false} NotDigit(x: nat, n: nat, i: nat)
    requires x < Pow2(n) && i < n
    ensures Digit(Pow2(n) - 1 - x, i) == 1 - Digit(x, i)
    decreases i
  {
    var d, h := x % 2, x / 2;
    assert x == Joined(d, h) && Pow2(n) - 1 - x == Joined(1 - d, Pow2(n - 1) - 1 - h);
    DigitJoined(d, h, i);
    DigitJoined(1 - d, Pow2(n - 1) - 1 - h, i);
    if i > 0 {
      NotDigit(h, n - 1, i - 1);
    }
  }

  /** Where the digits of two parts go. */
  lemma {:induction false} JoinDigits(low: nat, high: nat, n: nat, i: nat)
    requires low < Pow2(n)
    ensures Digit(low + Shl(high, n), i) == if i < n then Digit(low, i) else Digit(high, i - n)
    decreases n
  {
    if n > 0 {
      var d, h := low % 2, low / 2;
      assert low == Joined(d, h) && low + Shl(high, n) == Joined(d, h + Shl(high, n - 1));
      DigitJoined(d, h, i);
      DigitJoined(d, h + Shl(high, n - 1), i);
      if i > 0 { JoinDigits(h, high, n - 1, i - 1); }
    }
  }

  /** The low m digits change places with the high n ones. */
  lemma TurnedDigit(low: nat, high: nat, m: nat, n: nat, i: nat, j: nat)
    requires low < Pow2(m) && high < Pow2(n) && j == if i < m then i + n else i - m
    requires j < m + n && i < m + n
    ensures Digit(high + Shl(low, n), j) == Digit(low + Shl(high, m), i)
  {
    JoinDigits(low, high, m, i);
    JoinDigits(high, low, n, j);
  }

  lemma RotateParts(n: nat, x: nat) returns (low: nat, high: nat)
    requires n <= 32 && x < WORD
    ensures low < Pow2(32 - n) && high < Pow2(n)
    ensures x == low + Shl(high, 32 - n) && Rotate(n, x) == high + Shl(low, n)
  {
    RotateBound(n, x);
    ShrLow(x, 32 - n);
    low, high := Low(x, 32 - n), Shr(x, 32 - n);
  }

  /** A digit that falls out at the top of a word comes in below: digit i moves n places up, to j. */
  lemma RotateDigit(n: nat, x: nat, i: nat, j: nat)
    requires n <= 32 && x < WORD && i < 32 && j == if i + n < 32 then i + n else i + n - 32
    ensures Digit(Rotate(n, x), j) == Digit(x, i)
  {
    var low, high := RotateParts(n, x);
    TurnedDigit(low, high, 32 - n, n, i, j);
  }

  // ---------------------------------------------------------------------------------------------
  // Three numbers, digit by digit
  // ---------------------------------------------------------------------------------------------

  /** Kind 1 chooses the second or the third by the first, kind 2 tells whether one or three hold, kind 3 whether
      two do. */
  predicate Pick(kind: nat, x: bool, y: bool, z: bool)
  {
    if kind == 1 then (if x then y else z) else if kind == 2 then (x == y) == z else if x then y || z else y && z
  }

  function OnDigits(kind: nat, p: nat, q: nat, r: nat): (d: nat)
    ensures d < 2
  {
    if Pick(kind, p == 1, q == 1, r == 1) then 1 else 0
  }

  /** The low n digits. */
  function OnNumbers(kind: nat, n: nat, b: nat, c: nat, d: nat): nat
    decreases n
  {
    if n == 0 then 0
    else Joined(OnDigits(kind, b % 2, c % 2, d % 2), OnNumbers(kind, n - 1, b / 2, c / 2, d / 2))
  }

  lemma OnUp(kind: nat, n: nat, p: nat, q: nat, r: nat, b: nat, c: nat, d: nat)
    requires p < 2 && q < 2 && r < 2
    ensures OnNumbers(kind, n + 1, Joined(p, b), Joined(q, c), Joined(r, d)) ==
      Joined(OnDigits(kind, p, q, r), OnNumbers(kind, n, b, c, d))
  {
  }

  lemma ChooseUp(p: nat, q: nat, r: nat, b: nat, c: nat, d: nat, n: nat)
    requires p < 2 && q < 2 && r < 2 && b < Pow2(n)
    ensures Or(And(Joined(p, b), Joined(q, c)), And(Pow2(n + 1) - 1 - Joined(p, b), Joined(r, d))) ==
      Joined(OnDigits(1, p, q, r), Or(And(b, c), And(Pow2(n) - 1 - b, d)))
  {
    assert Pow2(n + 1) - 1 - Joined(p, b) == Joined(1 - p, Pow2(n) - 1 - b);
    AndUp(p, q, b, c);
    AndUp(1 - p, r, Pow2(n) - 1 - b, d);
    OrUp(if p == 1 && q == 1 then 1 else 0, if 1 - p == 1 && r == 1 then 1 else 0, And(b, c), And(Pow2(n) - 1 - b, d));
  }

  lemma {:induction false} ChooseIs(n: nat, b: nat, c: nat, d: nat)
    requires b < Pow2(n) && c < Pow2(n) && d < Pow2(n)
    ensures Or(And(b, c), And(Pow2(n) - 1 - b, d)) == OnNumbers(1, n, b, c, d)
    decreases n
  {
    if n > 0 {
      var p, q, r, b', c', d' := b % 2, c % 2, d % 2, b / 2, c / 2, d / 2;
      ChooseIs(n - 1, b', c', d');
      ChooseUp(p, q, r, b', c', d', n - 1);
      assert b == Joined(p, b') && c == Joined(q, c') && d == Joined(r, d');
    }
  }

  lemma ParityUp(p: nat, q: nat, r: nat, b: nat, c: nat, d: nat)
    requires p < 2 && q < 2 && r < 2
    ensures Xor(Xor(Joined(p, b), Joined(q, c)), Joined(r, d)) == Joined(OnDigits(2, p, q, r), Xor(Xor(b, c), d))
  {
    XorUp(p, q, b, c);
    XorUp(if p != q then 1 else 0, r, Xor(b, c), d);
  }

  lemma {:induction false} ParityIs(n: nat, b: nat, c: nat, d: nat)
    requires b < Pow2(n) && c < Pow2(n) && d < Pow2(n)
    ensures Xor(Xor(b, c), d) == OnNumbers(2, n, b, c, d)
    decreases n
  {
    if n > 0 {
      var p, q, r, b', c', d' := b % 2, c % 2, d % 2, b / 2, c / 2, d / 2;
      ParityIs(n - 1, b', c', d');
      ParityUp(p, q, r, b', c', d');
      assert b == Joined(p, b') && c == Joined(q, c') && d == Joined(r, d');
    }
  }

  lemma MajorityUp(p: nat, q: nat, r: nat, b: nat, c: nat, d: nat)
    requires p < 2 && q < 2 && r < 2
    ensures Or(Or(And(Joined(p, b), Joined(q, c)), And(Joined(p, b), Joined(r, d))), And(Joined(q, c), Joined(r, d))) ==
      Joined(OnDigits(3, p, q, r), Or(Or(And(b, c), And(b, d)), And(c, d)))
  {
    var pq, pr, qr := if p == 1 && q == 1 then 1 else 0, if p == 1 && r == 1 then 1 else 0,
      if q == 1 && r == 1 then 1 else 0;
    AndUp(p, q, b, c);
    AndUp(p, r, b, d);
    AndUp(q, r, c, d);
    OrUp(pq, pr, And(b, c), And(b, d));
    OrUp(if pq == 1 || pr == 1 then 1 else 0, qr, Or(And(b, c), And(b, d)), And(c, d));
  }

  lemma {:induction false} MajorityIs(n: nat, b: nat, c: nat, d: nat)
    requires b < Pow2(n) && c < Pow2(n) && d < Pow2(n)
    ensures Or(Or(And(b, c), And(b, d)), And(c, d)) == OnNumbers(3, n, b, c, d)
    decreases n
  {
    if n > 0 {
      var p, q, r, b', c', d' := b % 2, c % 2, d % 2, b / 2, c / 2, d / 2;
      MajorityIs(n - 1, b', c', d');
      MajorityUp(p, q, r, b', c', d');
      assert b == Joined(p, b') && c == Joined(q, c') && d == Joined(r, d');
    }
  }
}
