/** Words of 32 bits as eight hexadecimal digits of four truth values each, and the operations of a machine on them. */
module Hexadecimal {
  import opened Arith
  import opened Bitwise

  function Bit(b: bool): (d: nat)
    ensures d < 2
  {
    if b then 1 else 0
  }

  datatype Digit = Digit(b3: bool, b2: bool, b1: bool, b0: bool)
  {
    function Val(): (v: nat)
      ensures v < 16
    {
      8 * Bit(b3) + 4 * Bit(b2) + 2 * Bit(b1) + Bit(b0)
    }
  }

  /** The value of eight digits. */
  function Horner(d7: int, d6: int, d5: int, d4: int, d3: int, d2: int, d1: int, d0: int): int
  {
    0x1000_0000 * d7 + 0x100_0000 * d6 + 0x10_0000 * d5 + 0x1_0000 * d4 + 0x1000 * d3 + 0x100 * d2 + 0x10 * d1 + d0
  }

  /** Eight digits, the highest first. */
  datatype Hex = Hex(h7: Digit, h6: Digit, h5: Digit, h4: Digit, h3: Digit, h2: Digit, h1: Digit, h0: Digit)
  {
    function Val(): nat
    {
      Horner(h7.Val(), h6.Val(), h5.Val(), h4.Val(), h3.Val(), h2.Val(), h1.Val(), h0.Val())
    }

    function List(): (s: seq<Digit>)
      ensures |s| == 8
    {
      [h7] + [h6] + [h5] + [h4] + [h3] + [h2] + [h1] + [h0]
    }
  }

  const D0 := Digit(false, false, false, false)
  const D1 := Digit(false, false, false, true)
  const D2 := Digit(false, false, true, false)
  const D3 := Digit(false, false, true, true)
  const D4 := Digit(false, true, false, false)
  const D5 := Digit(false, true, false, true)
  const D6 := Digit(false, true, true, false)
  const D7 := Digit(false, true, true, true)
  const D8 := Digit(true, false, false, false)
  const D9 := Digit(true, false, false, true)
  const DA := Digit(true, false, true, false)
  const DB := Digit(true, false, true, true)
  const DC := Digit(true, true, false, false)
  const DD := Digit(true, true, false, true)
  const DE := Digit(true, true, true, false)
  const DF := Digit(true, true, true, true)

  const ZERO := Hex(D0, D0, D0, D0, D0, D0, D0, D0)

  lemma DigitVals()
    ensures D0.Val() == 0 && D1.Val() == 1 && D2.Val() == 2 && D3.Val() == 3
    ensures D4.Val() == 4 && D5.Val() == 5 && D6.Val() == 6 && D7.Val() == 7
    ensures D8.Val() == 8 && D9.Val() == 9 && DA.Val() == 10 && DB.Val() == 11
    ensures DC.Val() == 12 && DD.Val() == 13 && DE.Val() == 14 && DF.Val() == 15
  {
  }

  lemma ValBound(x: Hex)
    ensures x.Val() < WORD
  {
  }

  // ---------------------------------------------------------------------------------------------
  // Bitwise operations
  // ---------------------------------------------------------------------------------------------

  function OnDigit(kind: nat, x: Digit, y: Digit, z: Digit): Digit
  {
    Digit(Pick(kind, x.b3, y.b3, z.b3), Pick(kind, x.b2, y.b2, z.b2),
          Pick(kind, x.b1, y.b1, z.b1), Pick(kind, x.b0, y.b0, z.b0))
  }

  function OnHex(kind: nat, x: Hex, y: Hex, z: Hex): Hex
  {
    Hex(OnDigit(kind, x.h7, y.h7, z.h7), OnDigit(kind, x.h6, y.h6, z.h6),
        OnDigit(kind, x.h5, y.h5, z.h5), OnDigit(kind, x.h4, y.h4, z.h4),
        OnDigit(kind, x.h3, y.h3, z.h3), OnDigit(kind, x.h2, y.h2, z.h2),
        OnDigit(kind, x.h1, y.h1, z.h1), OnDigit(kind, x.h0, y.h0, z.h0))
  }

  /** The operation on the low n digits of three numbers, and on three digits. */
  type Numbers = (nat, nat, nat, nat) -> nat
  type Picker = (nat, nat, nat) -> nat

  ghost predicate UpAt(f: Numbers, g: Picker, n: nat, p: nat, q: nat, r: nat, b: nat, c: nat, d: nat)
  {
    p < 2 && q < 2 && r < 2 ==> f(n + 1, p + 2 * b, q + 2 * c, r + 2 * d) == g(p, q, r) + 2 * f(n, b, c, d)
  }

  /** A binary digit more below the numbers. */
  ghost predicate Up(f: Numbers, g: Picker)
  {
    forall n, p, q, r, b, c, d {:trigger UpAt(f, g, n, p, q, r, b, c, d)} :: UpAt(f, g, n, p, q, r, b, c, d)
  }

  function NumbersOf(kind: nat): Numbers
  {
    (n: nat, b: nat, c: nat, d: nat) => OnNumbers(kind, n, b, c, d)
  }

  function PickerOf(kind: nat): Picker
  {
    (p: nat, q: nat, r: nat) => OnDigits(kind, p, q, r)
  }

  lemma NumbersUpAt(f: Numbers, g: Picker, kind: nat, n: nat, p: nat, q: nat, r: nat, b: nat, c: nat, d: nat)
    requires f == NumbersOf(kind) && g == PickerOf(kind)
    ensures UpAt(f, g, n, p, q, r, b, c, d)
  {
    if p < 2 && q < 2 && r < 2 { OnUp(kind, n, p, q, r, b, c, d); }
  }

  lemma NumbersUp(kind: nat) returns (f: Numbers, g: Picker)
    ensures f == NumbersOf(kind) && g == PickerOf(kind) && Up(f, g)
  {
    f, g := NumbersOf(kind), PickerOf(kind);
    forall n: nat, p: nat, q: nat, r: nat, b: nat, c: nat, d: nat
      ensures UpAt(f, g, n, p, q, r, b, c, d)
    {
      NumbersUpAt(f, g, kind, n, p, q, r, b, c, d);
    }
  }

  lemma TwoUp(f: Numbers, g: Picker, n: nat, x1: nat, x0: nat, y1: nat, y0: nat, z1: nat, z0: nat,
              b: nat, c: nat, d: nat)
    requires Up(f, g) && x1 < 2 && x0 < 2 && y1 < 2 && y0 < 2 && z1 < 2 && z0 < 2
    ensures f(n + 2, 2 * x1 + x0 + 4 * b, 2 * y1 + y0 + 4 * c, 2 * z1 + z0 + 4 * d) ==
      2 * g(x1, y1, z1) + g(x0, y0, z0) + 4 * f(n, b, c, d)
  {
    assert UpAt(f, g, n, x1, y1, z1, b, c, d);
    assert UpAt(f, g, n + 1, x0, y0, z0, x1 + 2 * b, y1 + 2 * c, z1 + 2 * d);
    assert x0 + 2 * (x1 + 2 * b) == 2 * x1 + x0 + 4 * b;
    assert y0 + 2 * (y1 + 2 * c) == 2 * y1 + y0 + 4 * c;
    assert z0 + 2 * (z1 + 2 * d) == 2 * z1 + z0 + 4 * d;
  }

  lemma FourUp(f: Numbers, g: Picker, n: nat, x3: nat, x2: nat, x1: nat, x0: nat, y3: nat, y2: nat, y1: nat, y0: nat,
               z3: nat, z2: nat, z1: nat, z0: nat, b: nat, c: nat, d: nat)
    requires Up(f, g) && x3 < 2 && x2 < 2 && x1 < 2 && x0 < 2 && y3 < 2 && y2 < 2 && y1 < 2 && y0 < 2
    requires z3 < 2 && z2 < 2 && z1 < 2 && z0 < 2
    ensures f(n + 4, 8 * x3 + 4 * x2 + 2 * x1 + x0 + 16 * b, 8 * y3 + 4 * y2 + 2 * y1 + y0 + 16 * c,
              8 * z3 + 4 * z2 + 2 * z1 + z0 + 16 * d) ==
      8 * g(x3, y3, z3) + 4 * g(x2, y2, z2) + 2 * g(x1, y1, z1) + g(x0, y0, z0) + 16 * f(n, b, c, d)
  {
    TwoUp(f, g, n, x3, x2, y3, y2, z3, z2, b, c, d);
    TwoUp(f, g, n + 2, x1, x0, y1, y0, z1, z0, 2 * x3 + x2 + 4 * b, 2 * y3 + y2 + 4 * c, 2 * z3 + z2 + 4 * d);
    assert 2 * x1 + x0 + 4 * (2 * x3 + x2 + 4 * b) == 8 * x3 + 4 * x2 + 2 * x1 + x0 + 16 * b;
    assert 2 * y1 + y0 + 4 * (2 * y3 + y2 + 4 * c) == 8 * y3 + 4 * y2 + 2 * y1 + y0 + 16 * c;
    assert 2 * z1 + z0 + 4 * (2 * z3 + z2 + 4 * d) == 8 * z3 + 4 * z2 + 2 * z1 + z0 + 16 * d;
  }

  ghost predicate PicksAt(g: Picker, kind: nat, x: bool, y: bool, z: bool)
  {
    g(Bit(x), Bit(y), Bit(z)) == Bit(Pick(kind, x, y, z))
  }

  ghost predicate Picks(g: Picker, kind: nat)
  {
    forall x, y, z {:trigger PicksAt(g, kind, x, y, z)} :: PicksAt(g, kind, x, y, z)
  }

  lemma PickerPicks(g: Picker, kind: nat)
    requires g == PickerOf(kind)
    ensures Picks(g, kind)
  {
    forall x, y, z
      ensures PicksAt(g, kind, x, y, z)
    {
    }
  }

  lemma OnDigitBits(g: Picker, kind: nat, x: Digit, y: Digit, z: Digit, r: Digit)
    requires Picks(g, kind) && r == OnDigit(kind, x, y, z)
    ensures Bit(r.b3) == g(Bit(x.b3), Bit(y.b3), Bit(z.b3)) && Bit(r.b2) == g(Bit(x.b2), Bit(y.b2), Bit(z.b2))
    ensures Bit(r.b1) == g(Bit(x.b1), Bit(y.b1), Bit(z.b1)) && Bit(r.b0) == g(Bit(x.b0), Bit(y.b0), Bit(z.b0))
  {
    assert PicksAt(g, kind, x.b3, y.b3, z.b3) && PicksAt(g, kind, x.b2, y.b2, z.b2);
    assert PicksAt(g, kind, x.b1, y.b1, z.b1) && PicksAt(g, kind, x.b0, y.b0, z.b0);
  }

  /** One more hexadecimal digit. */
  lemma OnUpDigit(f: Numbers, g: Picker, n: nat, x: Digit, y: Digit, z: Digit, r: Digit, b: nat, c: nat, d: nat)
    requires Up(f, g)
    requires Bit(r.b3) == g(Bit(x.b3), Bit(y.b3), Bit(z.b3)) && Bit(r.b2) == g(Bit(x.b2), Bit(y.b2), Bit(z.b2))
    requires Bit(r.b1) == g(Bit(x.b1), Bit(y.b1), Bit(z.b1)) && Bit(r.b0) == g(Bit(x.b0), Bit(y.b0), Bit(z.b0))
    ensures f(n + 4, x.Val() + 16 * b, y.Val() + 16 * c, z.Val() + 16 * d) ==
      r.Val() + 16 * f(n, b, c, d)
  {
    FourUp(f, g, n, Bit(x.b3), Bit(x.b2), Bit(x.b1), Bit(x.b0), Bit(y.b3), Bit(y.b2), Bit(y.b1), Bit(y.b0),
           Bit(z.b3), Bit(z.b2), Bit(z.b1), Bit(z.b0), b, c, d);
  }

  /** What a digit counts. */
  type Count = Digit -> nat

  function DigitCount(): Count
  {
    (x: Digit) => x.Val()
  }

  function ValBy(val: Count, x: Hex): nat
  {
    Horner(val(x.h7), val(x.h6), val(x.h5), val(x.h4), val(x.h3), val(x.h2), val(x.h1), val(x.h0))
  }

  lemma ValByIs(val: Count, x: Hex)
    requires val == DigitCount()
    ensures ValBy(val, x) == x.Val()
  {
  }

  function ListVal(val: Count, s: seq<Digit>): nat
  {
    if s == [] then 0 else val(s[|s| - 1]) + 16 * ListVal(val, s[..|s| - 1])
  }

  lemma ListValSnoc(val: Count, s: seq<Digit>, d: Digit)
    ensures ListVal(val, s + [d]) == val(d) + 16 * ListVal(val, s)
  {
    assert (s + [d])[..|s|] == s;
  }

  lemma ListValIs(val: Count, x: Hex)
    ensures ListVal(val, x.List()) == ValBy(val, x)
  {
    ListValSnoc(val, [], x.h7);
    assert [] + [x.h7] == [x.h7];
    ListValSnoc(val, [x.h7], x.h6);
    ListValSnoc(val, [x.h7] + [x.h6], x.h5);
    ListValSnoc(val, [x.h7] + [x.h6] + [x.h5], x.h4);
    ListValSnoc(val, [x.h7] + [x.h6] + [x.h5] + [x.h4], x.h3);
    ListValSnoc(val, [x.h7] + [x.h6] + [x.h5] + [x.h4] + [x.h3], x.h2);
    ListValSnoc(val, [x.h7] + [x.h6] + [x.h5] + [x.h4] + [x.h3] + [x.h2], x.h1);
    ListValSnoc(val, [x.h7] + [x.h6] + [x.h5] + [x.h4] + [x.h3] + [x.h2] + [x.h1], x.h0);
  }

  /** What is done to one digit. */
  type Operation = (Digit, Digit, Digit) -> Digit

  ghost predicate OperatesAt(g: Operation, f: Numbers, val: Count, n: nat, x: Digit, y: Digit, z: Digit,
                             b: nat, c: nat, d: nat)
  {
    f(n + 4, val(x) + 16 * b, val(y) + 16 * c, val(z) + 16 * d) == val(g(x, y, z)) + 16 * f(n, b, c, d)
  }

  ghost predicate Operates(g: Operation, f: Numbers, val: Count)
  {
    forall n, x, y, z, b, c, d {:trigger OperatesAt(g, f, val, n, x, y, z, b, c, d)} ::
      OperatesAt(g, f, val, n, x, y, z, b, c, d)
  }

  function OperationOf(kind: nat): Operation
  {
    (x: Digit, y: Digit, z: Digit) => OnDigit(kind, x, y, z)
  }

  lemma OperationIs(f: Numbers, p: Picker, kind: nat, val: Count) returns (g: Operation)
    requires val == DigitCount() && Up(f, p) && Picks(p, kind)
    ensures g == OperationOf(kind) && Operates(g, f, val)
  {
    g := OperationOf(kind);
    forall n: nat, x, y, z, b: nat, c: nat, d: nat
      ensures OperatesAt(g, f, val, n, x, y, z, b, c, d)
    {
      OnDigitBits(p, kind, x, y, z, g(x, y, z));
      OnUpDigit(f, p, n, x, y, z, g(x, y, z), b, c, d);
    }
  }

  function OnList(g: Operation, x: seq<Digit>, y: seq<Digit>, z: seq<Digit>): (r: seq<Digit>)
    requires |x| == |y| == |z|
    ensures |r| == |x|
  {
    seq(|x|, i requires 0 <= i < |x| => g(x[i], y[i], z[i]))
  }

  lemma OnListUp(g: Operation, x: seq<Digit>, y: seq<Digit>, z: seq<Digit>, n: nat)
    requires |x| == |y| == |z| == n + 1
    ensures OnList(g, x, y, z) == OnList(g, x[..n], y[..n], z[..n]) + [g(x[n], y[n], z[n])]
  {
  }

  lemma {:induction false} OnListIs(g: Operation, f: Numbers, val: Count, x: seq<Digit>, y: seq<Digit>,
                                    z: seq<Digit>)
    requires |x| == |y| == |z| && Operates(g, f, val) && f(0, 0, 0, 0) == 0
    ensures ListVal(val, OnList(g, x, y, z)) == f(4 * |x|, ListVal(val, x), ListVal(val, y), ListVal(val, z))
    decreases |x|
  {
    if x != [] {
      var n := |x| - 1;
      OnListIs(g, f, val, x[..n], y[..n], z[..n]);
      OnListUp(g, x, y, z, n);
      ListValSnoc(val, OnList(g, x[..n], y[..n], z[..n]), g(x[n], y[n], z[n]));
      assert OperatesAt(g, f, val, 4 * n, x[n], y[n], z[n],
                        ListVal(val, x[..n]), ListVal(val, y[..n]), ListVal(val, z[..n]));
    }
  }

  function OnHexBy(g: Operation, x: Hex, y: Hex, z: Hex): Hex
  {
    Hex(g(x.h7, y.h7, z.h7), g(x.h6, y.h6, z.h6), g(x.h5, y.h5, z.h5), g(x.h4, y.h4, z.h4),
        g(x.h3, y.h3, z.h3), g(x.h2, y.h2, z.h2), g(x.h1, y.h1, z.h1), g(x.h0, y.h0, z.h0))
  }

  lemma OnHexList(g: Operation, x: Hex, y: Hex, z: Hex)
    ensures OnList(g, x.List(), y.List(), z.List()) == OnHexBy(g, x, y, z).List()
  {
  }

  lemma OnListNumber(g: Operation, f: Numbers, val: Count, x: Hex, y: Hex, z: Hex)
    requires Operates(g, f, val) && f(0, 0, 0, 0) == 0
    ensures ValBy(val, OnHexBy(g, x, y, z)) == f(32, ValBy(val, x), ValBy(val, y), ValBy(val, z))
  {
    OnHexList(g, x, y, z);
    ListValIs(val, x);
    ListValIs(val, y);
    ListValIs(val, z);
    ListValIs(val, OnHexBy(g, x, y, z));
    OnListIs(g, f, val, x.List(), y.List(), z.List());
  }

  lemma OnHexByIs(g: Operation, kind: nat, x: Hex, y: Hex, z: Hex)
    requires g == OperationOf(kind)
    ensures OnHexBy(g, x, y, z) == OnHex(kind, x, y, z)
  {
  }

  lemma NumbersAt(f: Numbers, kind: nat, n: nat, b: nat, c: nat, d: nat)
    requires f == NumbersOf(kind) && n == 32
    ensures f(32, b, c, d) == OnNumbers(kind, n, b, c, d) && f(0, 0, 0, 0) == 0
  {
  }

  /** Eight digits at a time. */
  lemma OnHexIs(kind: nat, n: nat, x: Hex, y: Hex, z: Hex)
    requires n == 32
    ensures OnNumbers(kind, n, x.Val(), y.Val(), z.Val()) == OnHex(kind, x, y, z).Val()
  {
    var f, p := NumbersUp(kind);
    PickerPicks(p, kind);
    var val := DigitCount();
    var g := OperationIs(f, p, kind, val);
    NumbersAt(f, kind, n, x.Val(), y.Val(), z.Val());
    OnListNumber(g, f, val, x, y, z);
    OnHexByIs(g, kind, x, y, z);
    ValByIs(val, x);
    ValByIs(val, y);
    ValByIs(val, z);
    ValByIs(val, OnHex(kind, x, y, z));
  }

  // ---------------------------------------------------------------------------------------------
  // Rotations
  // ---------------------------------------------------------------------------------------------

  /** The four binary digits from the last three of x on. */
  function Slide1(x: Digit, y: Digit): Digit
  {
    Digit(x.b2, x.b1, x.b0, y.b3)
  }

  /** One place to the left. */
  function Left1(x: Hex): Hex
  {
    Hex(Slide1(x.h7, x.h6), Slide1(x.h6, x.h5), Slide1(x.h5, x.h4), Slide1(x.h4, x.h3),
        Slide1(x.h3, x.h2), Slide1(x.h2, x.h1), Slide1(x.h1, x.h0), Slide1(x.h0, x.h7))
  }

  lemma Slide1Val(x: Digit, y: Digit)
    ensures Slide1(x, y).Val() == 2 * x.Val() - 16 * Bit(x.b3) + Bit(y.b3)
  {
  }

  lemma Doubled(d7: int, d6: int, d5: int, d4: int, d3: int, d2: int, d1: int, d0: int,
                t7: int, t6: int, t5: int, t4: int, t3: int, t2: int, t1: int, t0: int)
    ensures Horner(2 * d7 - 16 * t7 + t6, 2 * d6 - 16 * t6 + t5, 2 * d5 - 16 * t5 + t4, 2 * d4 - 16 * t4 + t3,
                   2 * d3 - 16 * t3 + t2, 2 * d2 - 16 * t2 + t1, 2 * d1 - 16 * t1 + t0, 2 * d0 - 16 * t0 + t7) ==
      2 * Horner(d7, d6, d5, d4, d3, d2, d1, d0) - (WORD - 1) * t7
  {
  }

  lemma Left1Val(x: Hex)
    ensures Left1(x).Val() == 2 * x.Val() - (WORD - 1) * Bit(x.h7.b3)
  {
    Slide1Val(x.h7, x.h6);
    Slide1Val(x.h6, x.h5);
    Slide1Val(x.h5, x.h4);
    Slide1Val(x.h4, x.h3);
    Slide1Val(x.h3, x.h2);
    Slide1Val(x.h2, x.h1);
    Slide1Val(x.h1, x.h0);
    Slide1Val(x.h0, x.h7);
    Doubled(x.h7.Val(), x.h6.Val(), x.h5.Val(), x.h4.Val(), x.h3.Val(), x.h2.Val(), x.h1.Val(), x.h0.Val(),
            Bit(x.h7.b3), Bit(x.h6.b3), Bit(x.h5.b3), Bit(x.h4.b3), Bit(x.h3.b3), Bit(x.h2.b3), Bit(x.h1.b3),
            Bit(x.h0.b3));
  }

  function Left4(x: Hex): Hex
  {
    Hex(x.h6, x.h5, x.h4, x.h3, x.h2, x.h1, x.h0, x.h7)
  }

  lemma Left4Val(x: Hex)
    ensures Left4(x).Val() == 16 * x.Val() - (WORD - 1) * x.h7.Val()
  {
  }

  /** Five places to the left. */
  function Left5(x: Hex): Hex
  {
    Left1(Left4(x))
  }

  function Slide2(x: Digit, y: Digit): Digit
  {
    Digit(x.b1, x.b0, y.b3, y.b2)
  }

  /** Two places to the right, which are thirty to the left. */
  function Left30(x: Hex): Hex
  {
    Hex(Slide2(x.h0, x.h7), Slide2(x.h7, x.h6), Slide2(x.h6, x.h5), Slide2(x.h5, x.h4),
        Slide2(x.h4, x.h3), Slide2(x.h3, x.h2), Slide2(x.h2, x.h1), Slide2(x.h1, x.h0))
  }

  lemma Slide2Val(x: Digit, y: Digit)
    ensures Slide2(x, y).Val() == 4 * LowTwo(x) + HighTwo(y) && y.Val() == LowTwo(y) + 4 * HighTwo(y)
  {
  }

  function LowTwo(x: Digit): nat
  {
    2 * Bit(x.b1) + Bit(x.b0)
  }

  function HighTwo(x: Digit): nat
  {
    2 * Bit(x.b3) + Bit(x.b2)
  }

  lemma Quartered(l7: int, l6: int, l5: int, l4: int, l3: int, l2: int, l1: int, l0: int,
                  q7: int, q6: int, q5: int, q4: int, q3: int, q2: int, q1: int, q0: int)
    ensures Horner(l7 + 4 * q7, l6 + 4 * q6, l5 + 4 * q5, l4 + 4 * q4, l3 + 4 * q3, l2 + 4 * q2, l1 + 4 * q1,
                   l0 + 4 * q0) ==
      l0 + 4 * (Horner(4 * l0 + q7, 4 * l7 + q6, 4 * l6 + q5, 4 * l5 + q4, 4 * l4 + q3, 4 * l3 + q2, 4 * l2 + q1,
                       4 * l1 + q0) - 0x4000_0000 * l0)
  {
  }

  lemma Left30Val(x: Hex)
    ensures x.Val() == LowTwo(x.h0) + 4 * (Left30(x).Val() - 0x4000_0000 * LowTwo(x.h0))
    ensures Left30(x).Val() >= 0x4000_0000 * LowTwo(x.h0)
  {
    Slide2Val(x.h0, x.h7);
    Slide2Val(x.h7, x.h6);
    Slide2Val(x.h6, x.h5);
    Slide2Val(x.h5, x.h4);
    Slide2Val(x.h4, x.h3);
    Slide2Val(x.h3, x.h2);
    Slide2Val(x.h2, x.h1);
    Slide2Val(x.h1, x.h0);
    Quartered(LowTwo(x.h7), LowTwo(x.h6), LowTwo(x.h5), LowTwo(x.h4),
              LowTwo(x.h3), LowTwo(x.h2), LowTwo(x.h1), LowTwo(x.h0),
              HighTwo(x.h7), HighTwo(x.h6), HighTwo(x.h5), HighTwo(x.h4),
              HighTwo(x.h3), HighTwo(x.h2), HighTwo(x.h1), HighTwo(x.h0));
  }

  lemma RotateOf(n: nat, v: nat, low: nat, high: nat, p: nat, q: nat)
    requires n <= 32 && p == Pow2(32 - n) && q == Pow2(n) && low < p && v == low + high * p
    ensures Rotate(n, v) == low * q + high
  {
    ShlIsMul(high, 32 - n);
    ShrLowUnique(low, high, 32 - n);
    ShlIsMul(low, n);
  }

  lemma TopIs(x: Hex)
    ensures x.Val() == 0x8000_0000 * Bit(x.h7.b3) + x.(h7 := x.h7.(b3 := false)).Val()
    ensures x.(h7 := x.h7.(b3 := false)).Val() < 0x8000_0000
  {
  }

  lemma Left1Number(v: nat, high: nat, low: nat)
    requires v == 0x8000_0000 * high + low && low < 0x8000_0000 && high < 2
    ensures Rotate(1, v) == 2 * v - (WORD - 1) * high
  {
    WordIsPow2();
    assert Pow2(32) == 2 * Pow2(31);
    RotateOf(1, v, low, high, 0x8000_0000, 2);
  }

  lemma Left1Is(x: Hex)
    ensures Rotate(1, x.Val()) == Left1(x).Val()
  {
    Left1Val(x);
    TopIs(x);
    Left1Number(x.Val(), Bit(x.h7.b3), x.(h7 := x.h7.(b3 := false)).Val());
  }

  lemma TopFiveIs(x: Hex)
    ensures var low := x.(h7 := D0, h6 := x.h6.(b3 := false));
      low.Val() < 0x800_0000 && x.Val() == 0x800_0000 * (2 * x.h7.Val() + Bit(x.h6.b3)) + low.Val()
  {
  }

  lemma Left5Number(v: nat, high: nat, low: nat)
    requires v == 0x800_0000 * high + low && low < 0x800_0000 && high < 32
    ensures Rotate(5, v) == 32 * v - (WORD - 1) * high
  {
    Pow2Add(16, 11);
    Pow2Values();
    RotateOf(5, v, low, high, 0x800_0000, 32);
  }

  lemma Left5Val(x: Hex)
    ensures Left5(x).Val() == 32 * x.Val() - (WORD - 1) * (2 * x.h7.Val() + Bit(x.h6.b3))
  {
    Left4Val(x);
    Left1Val(Left4(x));
  }

  lemma Left5Is(x: Hex)
    ensures Rotate(5, x.Val()) == Left5(x).Val()
  {
    Left5Val(x);
    TopFiveIs(x);
    Left5Number(x.Val(), 2 * x.h7.Val() + Bit(x.h6.b3), x.(h7 := D0, h6 := x.h6.(b3 := false)).Val());
  }

  lemma Left30Number(v: nat, low: nat, high: nat)
    requires v == low + 4 * high && low < 4
    ensures Rotate(30, v) == 0x4000_0000 * low + high
  {
    WordIsPow2();
    assert Pow2(32) == 4 * Pow2(30);
    RotateOf(30, v, low, high, 4, 0x4000_0000);
  }

  lemma Left30Is(x: Hex)
    ensures Rotate(30, x.Val()) == Left30(x).Val()
  {
    Left30Val(x);
    Left30Number(x.Val(), LowTwo(x.h0), Left30(x).Val() - 0x4000_0000 * LowTwo(x.h0));
  }

  // ---------------------------------------------------------------------------------------------
  // Sums
  // ---------------------------------------------------------------------------------------------

  /** What stays in a column of three binary digits, and what it carries over. */
  predicate Odd(x: bool, y: bool, z: bool)
  {
    (x == y) == z
  }

  predicate Two(x: bool, y: bool, z: bool)
  {
    if x then y || z else y && z
  }

  /** A digit of a sum, and what it carries over. */
  datatype Column = Column(d: Digit, over: bool)

  function AddDigit(x: Digit, y: Digit, c0: bool): Column
  {
    var c1 := Two(x.b0, y.b0, c0);
    var c2 := Two(x.b1, y.b1, c1);
    var c3 := Two(x.b2, y.b2, c2);
    Column(Digit(Odd(x.b3, y.b3, c3), Odd(x.b2, y.b2, c2), Odd(x.b1, y.b1, c1), Odd(x.b0, y.b0, c0)),
           Two(x.b3, y.b3, c3))
  }

  lemma AddBit(x: bool, y: bool, c: bool)
    ensures Bit(Odd(x, y, c)) + 2 * Bit(Two(x, y, c)) == Bit(x) + Bit(y) + Bit(c)
  {
  }

  lemma ColumnsAdd(x: Digit, y: Digit, c0: bool, r: Column, c1: bool, c2: bool, c3: bool)
    requires Bit(r.d.b0) + 2 * Bit(c1) == Bit(x.b0) + Bit(y.b0) + Bit(c0)
    requires Bit(r.d.b1) + 2 * Bit(c2) == Bit(x.b1) + Bit(y.b1) + Bit(c1)
    requires Bit(r.d.b2) + 2 * Bit(c3) == Bit(x.b2) + Bit(y.b2) + Bit(c2)
    requires Bit(r.d.b3) + 2 * Bit(r.over) == Bit(x.b3) + Bit(y.b3) + Bit(c3)
    ensures r.d.Val() + 16 * Bit(r.over) == x.Val() + y.Val() + Bit(c0)
  {
  }

  lemma AddDigitVal(x: Digit, y: Digit, c0: bool)
    ensures AddDigit(x, y, c0).d.Val() + 16 * Bit(AddDigit(x, y, c0).over) == x.Val() + y.Val() + Bit(c0)
  {
    var c1 := Two(x.b0, y.b0, c0);
    var c2 := Two(x.b1, y.b1, c1);
    var c3 := Two(x.b2, y.b2, c2);
    AddBit(x.b0, y.b0, c0);
    AddBit(x.b1, y.b1, c1);
    AddBit(x.b2, y.b2, c2);
    AddBit(x.b3, y.b3, c3);
    ColumnsAdd(x, y, c0, AddDigit(x, y, c0), c1, c2, c3);
  }

  /** What is done to one column. */
  type Adder = (Digit, Digit, bool) -> Column

  ghost predicate AddsAt(f: Adder, val: Count, x: Digit, y: Digit, c: bool)
  {
    val(f(x, y, c).d) + 16 * Bit(f(x, y, c).over) == val(x) + val(y) + Bit(c)
  }

  ghost predicate Adds(f: Adder, val: Count)
  {
    forall x, y, c {:trigger AddsAt(f, val, x, y, c)} :: AddsAt(f, val, x, y, c)
  }

  function DigitAdder(): Adder
  {
    (x: Digit, y: Digit, c: bool) => AddDigit(x, y, c)
  }

  lemma AdderIs() returns (f: Adder, val: Count)
    ensures f == DigitAdder() && val == DigitCount() && Adds(f, val)
  {
    f, val := DigitAdder(), DigitCount();
    forall x, y, c
      ensures AddsAt(f, val, x, y, c)
    {
      AddDigitVal(x, y, c);
    }
  }

  /** All columns, the lowest first. */
  function AddBy(f: Adder, x: Hex, y: Hex): Hex
  {
    var r0 := f(x.h0, y.h0, false);
    var r1 := f(x.h1, y.h1, r0.over);
    var r2 := f(x.h2, y.h2, r1.over);
    var r3 := f(x.h3, y.h3, r2.over);
    var r4 := f(x.h4, y.h4, r3.over);
    var r5 := f(x.h5, y.h5, r4.over);
    var r6 := f(x.h6, y.h6, r5.over);
    var r7 := f(x.h7, y.h7, r6.over);
    Hex(r7.d, r6.d, r5.d, r4.d, r3.d, r2.d, r1.d, r0.d)
  }

  /** The sum modulo 2^32. */
  function Add(x: Hex, y: Hex): Hex
  {
    var r0 := AddDigit(x.h0, y.h0, false);
    var r1 := AddDigit(x.h1, y.h1, r0.over);
    var r2 := AddDigit(x.h2, y.h2, r1.over);
    var r3 := AddDigit(x.h3, y.h3, r2.over);
    var r4 := AddDigit(x.h4, y.h4, r3.over);
    var r5 := AddDigit(x.h5, y.h5, r4.over);
    var r6 := AddDigit(x.h6, y.h6, r5.over);
    var r7 := AddDigit(x.h7, y.h7, r6.over);
    Hex(r7.d, r6.d, r5.d, r4.d, r3.d, r2.d, r1.d, r0.d)
  }

  lemma NextColumn(f: Adder, val: Count, x: Digit, y: Digit, c: bool) returns (r: Column, k: nat)
    requires Adds(f, val)
    ensures r == f(x, y, c) && k == Bit(r.over) && val(r.d) + 16 * k == val(x) + val(y) + Bit(c)
  {
    assert AddsAt(f, val, x, y, c);
    r := f(x, y, c);
    k := Bit(r.over);
  }

  lemma ColumnsJoin(z7: int, z6: int, z5: int, z4: int, z3: int, z2: int, z1: int, z0: int,
                    x7: int, x6: int, x5: int, x4: int, x3: int, x2: int, x1: int, x0: int,
                    y7: int, y6: int, y5: int, y4: int, y3: int, y2: int, y1: int, y0: int,
                    k7: int, k6: int, k5: int, k4: int, k3: int, k2: int, k1: int, k0: int)
    requires z0 + 16 * k0 == x0 + y0
    requires z1 + 16 * k1 == x1 + y1 + k0
    requires z2 + 16 * k2 == x2 + y2 + k1
    requires z3 + 16 * k3 == x3 + y3 + k2
    requires z4 + 16 * k4 == x4 + y4 + k3
    requires z5 + 16 * k5 == x5 + y5 + k4
    requires z6 + 16 * k6 == x6 + y6 + k5
    requires z7 + 16 * k7 == x7 + y7 + k6
    ensures Horner(z7, z6, z5, z4, z3, z2, z1, z0) + WORD * k7 ==
      Horner(x7, x6, x5, x4, x3, x2, x1, x0) + Horner(y7, y6, y5, y4, y3, y2, y1, y0)
  {
  }

  lemma Wraps(s: nat, v: nat, k: nat)
    requires v < WORD && v + WORD * k == s
    ensures s % WORD == v
  {
  }

  lemma AddByVal(f: Adder, val: Count, x: Hex, y: Hex) returns (over: nat)
    requires Adds(f, val)
    ensures ValBy(val, AddBy(f, x, y)) + WORD * over == ValBy(val, x) + ValBy(val, y)
  {
    var r0, k0 := NextColumn(f, val, x.h0, y.h0, false);
    var r1, k1 := NextColumn(f, val, x.h1, y.h1, r0.over);
    var r2, k2 := NextColumn(f, val, x.h2, y.h2, r1.over);
    var r3, k3 := NextColumn(f, val, x.h3, y.h3, r2.over);
    var r4, k4 := NextColumn(f, val, x.h4, y.h4, r3.over);
    var r5, k5 := NextColumn(f, val, x.h5, y.h5, r4.over);
    var r6, k6 := NextColumn(f, val, x.h6, y.h6, r5.over);
    var r7, k7 := NextColumn(f, val, x.h7, y.h7, r6.over);
    ColumnsJoin(val(r7.d), val(r6.d), val(r5.d), val(r4.d), val(r3.d), val(r2.d), val(r1.d), val(r0.d),
                val(x.h7), val(x.h6), val(x.h5), val(x.h4), val(x.h3), val(x.h2), val(x.h1), val(x.h0),
                val(y.h7), val(y.h6), val(y.h5), val(y.h4), val(y.h3), val(y.h2), val(y.h1), val(y.h0),
                k7, k6, k5, k4, k3, k2, k1, k0);
    over := k7;
  }

  lemma AddIs(f: Adder, x: Hex, y: Hex)
    requires f == DigitAdder()
    ensures AddBy(f, x, y) == Add(x, y)
  {
  }

  // ---------------------------------------------------------------------------------------------
  // The operations together
  // ---------------------------------------------------------------------------------------------

  /** The operations on words, and the number that a word stands for. */
  datatype Machine = Machine(
    num: Hex -> nat,
    add: (Hex, Hex) -> Hex,
    on: (nat, Hex, Hex, Hex) -> Hex,
    left1: Hex -> Hex,
    left5: Hex -> Hex,
    left30: Hex -> Hex)

  function HexMachine(): Machine
  {
    Machine((x: Hex) => x.Val(), (x: Hex, y: Hex) => Add(x, y),
            (kind: nat, x: Hex, y: Hex, z: Hex) => OnHex(kind, x, y, z),
            (x: Hex) => Left1(x), (x: Hex) => Left5(x), (x: Hex) => Left30(x))
  }

  ghost predicate NumAt(m: Machine, x: Hex)
  {
    && m.num(x) < WORD && m.num(m.left1(x)) == Rotate(1, m.num(x))
    && m.num(m.left5(x)) == Rotate(5, m.num(x)) && m.num(m.left30(x)) == Rotate(30, m.num(x))
  }

  ghost predicate AddAt(m: Machine, x: Hex, y: Hex)
  {
    m.num(m.add(x, y)) == (m.num(x) + m.num(y)) % WORD
  }

  ghost predicate OnAt(m: Machine, n: nat, kind: nat, x: Hex, y: Hex, z: Hex)
  {
    n == 32 ==> m.num(m.on(kind, x, y, z)) == OnNumbers(kind, n, m.num(x), m.num(y), m.num(z))
  }

  /** The operations do to the words what the ones of Arith do to the numbers. */
  ghost predicate Works(m: Machine)
  {
    && (forall x {:trigger NumAt(m, x)} :: NumAt(m, x))
    && (forall x, y {:trigger AddAt(m, x, y)} :: AddAt(m, x, y))
    && (forall n, kind, x, y, z {:trigger OnAt(m, n, kind, x, y, z)} :: OnAt(m, n, kind, x, y, z))
  }

  lemma NumWorks(m: Machine, x: Hex)
    requires m == HexMachine()
    ensures NumAt(m, x)
  {
    ValBound(x);
    Left1Is(x);
    Left5Is(x);
    Left30Is(x);
  }

  lemma NumIs(m: Machine, x: Hex)
    requires m == HexMachine()
    ensures m.num(x) == x.Val()
  {
  }

  lemma AddersAgree(m: Machine, x: Hex, y: Hex) returns (f: Adder, val: Count)
    requires m == HexMachine()
    ensures Adds(f, val) && m.add(x, y) == AddBy(f, x, y)
    ensures ValBy(val, x) == m.num(x) && ValBy(val, y) == m.num(y)
    ensures ValBy(val, m.add(x, y)) == m.num(m.add(x, y)) < WORD
  {
    f, val := AdderIs();
    AddIs(f, x, y);
    ValByIs(val, x);
    ValByIs(val, y);
    ValByIs(val, Add(x, y));
    ValBound(Add(x, y));
  }

  lemma AddWorks(m: Machine, x: Hex, y: Hex)
    requires m == HexMachine()
    ensures AddAt(m, x, y)
  {
    var f, val := AddersAgree(m, x, y);
    var over := AddByVal(f, val, x, y);
    SumAt(m, x, y, over);
  }

  lemma SumAt(m: Machine, x: Hex, y: Hex, over: nat)
    requires m.num(m.add(x, y)) < WORD && m.num(m.add(x, y)) + WORD * over == m.num(x) + m.num(y)
    ensures AddAt(m, x, y)
  {
    Wraps(m.num(x) + m.num(y), m.num(m.add(x, y)), over);
  }

  lemma OnWorks(m: Machine, n: nat, kind: nat, x: Hex, y: Hex, z: Hex)
    requires m == HexMachine()
    ensures OnAt(m, n, kind, x, y, z)
  {
    if n == 32 { OnHexIs(kind, n, x, y, z); }
  }

  ghost predicate CountsAt(m: Machine, val: Count, x: Hex)
  {
    m.num(x) == ValBy(val, x) && m.left30(x) == Left30(x)
  }

  /** The numbers come from what the digits count. */
  ghost predicate Counts(m: Machine, val: Count)
  {
    forall x {:trigger CountsAt(m, val, x)} :: CountsAt(m, val, x)
  }

  lemma HexCounts(m: Machine, val: Count)
    requires m == HexMachine() && val == DigitCount()
    ensures Counts(m, val)
  {
    forall x
      ensures CountsAt(m, val, x)
    {
      NumIs(m, x);
      ValByIs(val, x);
    }
  }

  lemma HexWorks() returns (m: Machine)
    ensures m == HexMachine() && Works(m)
  {
    m := HexMachine();
    forall x, y
      ensures AddAt(m, x, y)
    {
      AddWorks(m, x, y);
    }
    forall x
      ensures NumAt(m, x)
    {
      NumWorks(m, x);
    }
    forall n: nat, kind: nat, x, y, z
      ensures OnAt(m, n, kind, x, y, z)
    {
      OnWorks(m, n, kind, x, y, z);
    }
  }
}
