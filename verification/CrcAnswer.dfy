/** A known answer of the check: the chunk type IEND, which is all that the last chunk of every PNG file has. */
module CrcAnswer {
  import opened Arith
  import opened Bitwise
  import opened Hexadecimal
  import Crc

  // ---------------------------------------------------------------------------------------------
  // One step of the register
  // ---------------------------------------------------------------------------------------------

  const POLY_HEX := Hex(DE, DD, DB, D8, D8, D3, D2, D0)

  function SlideDown(x: Digit, y: Digit): Digit
  {
    Digit(x.b0, y.b3, y.b2, y.b1)
  }

  /** One place to the right. */
  function Right1(x: Hex): Hex
  {
    Hex(SlideDown(D0, x.h7), SlideDown(x.h7, x.h6), SlideDown(x.h6, x.h5), SlideDown(x.h5, x.h4),
        SlideDown(x.h4, x.h3), SlideDown(x.h3, x.h2), SlideDown(x.h2, x.h1), SlideDown(x.h1, x.h0))
  }

  function StepHex(x: Hex): Hex
  {
    if x.h0.b0 then OnHex(2, Right1(x), POLY_HEX, ZERO) else Right1(x)
  }

  /** Half of a digit, with what comes down from the digit above. */
  lemma SlideDownVal(x: Digit, y: Digit)
    ensures 2 * SlideDown(x, y).Val() == 16 * Bit(x.b0) + y.Val() - Bit(y.b0)
  {
  }

  lemma Halved(d7: int, d6: int, d5: int, d4: int, d3: int, d2: int, d1: int, d0: int,
               e7: int, e6: int, e5: int, e4: int, e3: int, e2: int, e1: int, e0: int,
               b7: int, b6: int, b5: int, b4: int, b3: int, b2: int, b1: int, b0: int)
    requires 2 * e7 == d7 - b7
    requires 2 * e6 == 16 * b7 + d6 - b6
    requires 2 * e5 == 16 * b6 + d5 - b5
    requires 2 * e4 == 16 * b5 + d4 - b4
    requires 2 * e3 == 16 * b4 + d3 - b3
    requires 2 * e2 == 16 * b3 + d2 - b2
    requires 2 * e1 == 16 * b2 + d1 - b1
    requires 2 * e0 == 16 * b1 + d0 - b0
    ensures 2 * Horner(e7, e6, e5, e4, e3, e2, e1, e0) == Horner(d7, d6, d5, d4, d3, d2, d1, d0) - b0
  {
  }

  lemma Right1Val(x: Hex)
    ensures 2 * Right1(x).Val() == x.Val() - Bit(x.h0.b0)
  {
    SlideDownVal(D0, x.h7);
    SlideDownVal(x.h7, x.h6);
    SlideDownVal(x.h6, x.h5);
    SlideDownVal(x.h5, x.h4);
    SlideDownVal(x.h4, x.h3);
    SlideDownVal(x.h3, x.h2);
    SlideDownVal(x.h2, x.h1);
    SlideDownVal(x.h1, x.h0);
    var r := Right1(x);
    Halved(x.h7.Val(), x.h6.Val(), x.h5.Val(), x.h4.Val(), x.h3.Val(), x.h2.Val(), x.h1.Val(), x.h0.Val(),
           r.h7.Val(), r.h6.Val(), r.h5.Val(), r.h4.Val(), r.h3.Val(), r.h2.Val(), r.h1.Val(), r.h0.Val(),
           Bit(x.h7.b0), Bit(x.h6.b0), Bit(x.h5.b0), Bit(x.h4.b0),
           Bit(x.h3.b0), Bit(x.h2.b0), Bit(x.h1.b0), Bit(x.h0.b0));
  }

  lemma PolyIs(x: Hex, val: Count)
    requires x == POLY_HEX && val == DigitCount()
    ensures ValBy(val, x) == Crc.POLY
  {
    DigitVals();
  }

  /** A step on the number whose lowest digit is b. */
  lemma StepNumber(v: nat, b: nat, half: nat)
    requires v == b + 2 * half && b < 2
    ensures Crc.Step(v) == if b == 1 then Xor(half, Crc.POLY) else half
  {
    XorZero(half);
  }

  lemma RightNumber(val: Count, x: Hex)
    requires val == DigitCount()
    ensures ValBy(val, x) == Bit(x.h0.b0) + 2 * ValBy(val, Right1(x))
  {
    ValByIs(val, x);
    ValByIs(val, Right1(x));
    Right1Val(x);
  }

  lemma XorHex(val: Count, x: Hex, y: Hex, n: nat)
    requires val == DigitCount() && n == 32
    ensures ValBy(val, OnHex(2, x, y, ZERO)) == Xor(ValBy(val, x), ValBy(val, y)) && ValBy(val, x) < WORD
  {
    WordIsPow2();
    ValBound(x);
    ValBound(y);
    DigitVals();
    ParityIs(n, x.Val(), y.Val(), 0);
    OnHexIs(2, n, x, y, ZERO);
    XorZero(Xor(x.Val(), y.Val()));
    ValByIs(val, x);
    ValByIs(val, y);
    ValByIs(val, OnHex(2, x, y, ZERO));
  }

  lemma PolyStep(val: Count, x: Hex, n: nat)
    requires val == DigitCount() && n == 32
    ensures ValBy(val, OnHex(2, x, POLY_HEX, ZERO)) == Xor(ValBy(val, x), Crc.POLY)
  {
    PolyIs(POLY_HEX, val);
    XorHex(val, x, POLY_HEX, n);
  }

  lemma StepIs(val: Count, x: Hex, n: nat)
    requires val == DigitCount() && n == 32
    ensures ValBy(val, StepHex(x)) == Crc.Step(ValBy(val, x))
  {
    RightNumber(val, x);
    PolyStep(val, Right1(x), n);
    StepNumber(ValBy(val, x), Bit(x.h0.b0), ValBy(val, Right1(x)));
  }

  /** What is done in one step, and the number of a word. */
  type Stepper = Hex -> Hex
  type Numbering = Hex -> nat

  ghost predicate AlikeAt(f: Stepper, num: Numbering, x: Hex)
  {
    num(f(x)) == Crc.Step(num(x))
  }

  /** Each step does to the word what the register does to its number. */
  ghost predicate Alike(f: Stepper, num: Numbering)
  {
    forall x {:trigger AlikeAt(f, num, x)} :: AlikeAt(f, num, x)
  }

  function HexStepper(): Stepper
  {
    (x: Hex) => StepHex(x)
  }

  lemma HexAlike(f: Stepper, val: Count, num: Numbering, n: nat)
    requires f == HexStepper() && val == DigitCount() && num == ((x: Hex) => ValBy(val, x)) && n == 32
    ensures Alike(f, num)
  {
    forall x
      ensures AlikeAt(f, num, x)
    {
      StepIs(val, x, n);
    }
  }

  function StepsBy(f: Stepper, x: Hex, n: nat): Hex
    decreases n
  {
    if n == 0 then x else StepsBy(f, f(x), n - 1)
  }

  lemma {:induction false} StepsAre(f: Stepper, num: Numbering, x: Hex, k: nat)
    requires Alike(f, num)
    ensures num(StepsBy(f, x, k)) == Crc.Steps(num(x), k)
    decreases k
  {
    if k > 0 {
      assert AlikeAt(f, num, x);
      StepsAre(f, num, f(x), k - 1);
    }
  }

  lemma FourSteps(f: Stepper, x: Hex, n: nat)
    ensures StepsBy(f, x, n + 4) == StepsBy(f, f(f(f(f(x)))), n)
  {
    assert StepsBy(f, x, n + 4) == StepsBy(f, f(x), n + 3);
    assert StepsBy(f, f(x), n + 3) == StepsBy(f, f(f(x)), n + 2);
    assert StepsBy(f, f(f(x)), n + 2) == StepsBy(f, f(f(f(x))), n + 1);
  }

  // ---------------------------------------------------------------------------------------------
  // The steps of the answer
  // ---------------------------------------------------------------------------------------------

  function Four(x: Hex): Hex
  {
    StepHex(StepHex(StepHex(StepHex(x))))
  }

  /** The register before the steps and after each four of them. */
  const C0 := Hex(DB, DB, DB, D1, DB, DA, DB, D6)
  const C4 := Hex(D4, D6, D0, D9, D7, DA, DF, D3)
  const C8 := Hex(D2, D2, DB, D9, DA, D7, D0, D3)
  const C12 := Hex(D2, D4, DF, D2, DA, DA, DD, DC)
  const C16 := Hex(D9, D9, D2, DB, DE, D8, D1, DD)
  const C20 := Hex(D8, DF, D4, D1, D6, DC, D5, D5)
  const C24 := Hex(D6, D3, D9, DF, D4, D7, D3, D1)
  const C28 := Hex(D1, DB, D8, DE, DE, D4, D1, D7)
  const C32 := Hex(D5, D1, DB, DD, D9, DF, D7, DD)

  lemma StepsFrom0()
    ensures Four(C0) == C4
  {
  }

  lemma StepsFrom4()
    ensures Four(C4) == C8
  {
  }

  lemma StepsFrom8()
    ensures Four(C8) == C12
  {
  }

  lemma StepsFrom12()
    ensures Four(C12) == C16
  {
  }

  lemma StepsFrom16()
    ensures Four(C16) == C20
  {
  }

  lemma StepsFrom20()
    ensures Four(C20) == C24
  {
  }

  lemma StepsFrom24()
    ensures Four(C24) == C28
  {
  }

  lemma StepsFrom28()
    ensures Four(C28) == C32
  {
  }

  lemma FourBy(f: Stepper, x: Hex, y: Hex, n: nat)
    requires f == HexStepper() && Four(x) == y
    ensures StepsBy(f, x, n + 4) == StepsBy(f, y, n)
  {
    FourSteps(f, x, n);
  }

  lemma SixteenSteps(f: Stepper, n: nat)
    requires f == HexStepper()
    ensures StepsBy(f, C0, n + 16) == StepsBy(f, C16, n)
  {
    StepsFrom0();
    FourBy(f, C0, C4, n + 12);
    StepsFrom4();
    FourBy(f, C4, C8, n + 8);
    StepsFrom8();
    FourBy(f, C8, C12, n + 4);
    StepsFrom12();
    FourBy(f, C12, C16, n + 0);
  }

  lemma MoreSteps(f: Stepper, n: nat)
    requires f == HexStepper()
    ensures StepsBy(f, C16, n + 16) == StepsBy(f, C32, n)
  {
    StepsFrom16();
    FourBy(f, C16, C20, n + 12);
    StepsFrom20();
    FourBy(f, C20, C24, n + 8);
    StepsFrom24();
    FourBy(f, C24, C28, n + 4);
    StepsFrom28();
    FourBy(f, C28, C32, n + 0);
  }

  lemma AllSteps(f: Stepper, n: nat)
    requires f == HexStepper() && n == 16
    ensures StepsBy(f, C0, n + 16) == C32
  {
    SixteenSteps(f, n);
    MoreSteps(f, n - 16);
  }

  // ---------------------------------------------------------------------------------------------
  // The answer
  // ---------------------------------------------------------------------------------------------

  const ONES_HEX := Hex(DF, DF, DF, DF, DF, DF, DF, DF)
  const TYPE_HEX := Hex(D4, D4, D4, DE, D4, D5, D4, D9)

  /** The octets of the chunk type IEND. */
  const IEND: seq<byte> := [0x49, 0x45, 0x4e, 0x44]

  lemma TypeIs()
    ensures LEVal(IEND) == 0x444e_4549
  {
    assert LEVal(IEND[3..]) == 0x44;
    assert LEVal(IEND[2..]) == 0x444e && IEND[2..][1..] == IEND[3..];
    assert LEVal(IEND[1..]) == 0x44_4e45 && IEND[1..][1..] == IEND[2..];
  }

  lemma OnesIs(x: Hex, val: Count)
    requires x == ONES_HEX && val == DigitCount()
    ensures ValBy(val, x) == WORD - 1
  {
    DigitVals();
  }

  lemma TypeHexIs(x: Hex, val: Count)
    requires x == TYPE_HEX && val == DigitCount()
    ensures ValBy(val, x) == 0x444e_4549
  {
    DigitVals();
  }

  lemma LastIs(x: Hex, val: Count)
    requires x == C32 && val == DigitCount()
    ensures ValBy(val, x) == WORD - 1 - 0xae42_6082
  {
    DigitVals();
  }

  lemma FirstIs()
    ensures OnHex(2, ONES_HEX, TYPE_HEX, ZERO) == C0
  {
  }

  /** The register that the steps start with. */
  lemma StartIs(val: Count, n: nat)
    requires val == DigitCount() && n == 32
    ensures ValBy(val, C0) == Xor(WORD - 1, 0x444e_4549)
  {
    FirstIs();
    OnesIs(ONES_HEX, val);
    TypeHexIs(TYPE_HEX, val);
    XorHex(val, ONES_HEX, TYPE_HEX, n);
  }

  lemma Registers(n: nat)
    requires n == 32
    ensures Crc.Steps(Xor(WORD - 1, 0x444e_4549), n) == WORD - 1 - 0xae42_6082
  {
    var val := DigitCount();
    var f, num: Numbering := HexStepper(), (x: Hex) => ValBy(val, x);
    HexAlike(f, val, num, n);
    StepsAre(f, num, C0, n);
    AllSteps(f, n - 16);
    StartIs(val, n);
    LastIs(C32, val);
  }

  /** The check of the chunk type IEND. */
  lemma KnownAnswer()
    ensures Crc.Crc(IEND) == 0xae42_6082
  {
    TypeIs();
    Crc.FeedWordIs(WORD - 1, IEND, Crc.EIGHT);
    Registers(32);
  }
}
