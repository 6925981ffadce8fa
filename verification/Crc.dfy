/** The cyclic redundancy check of PNG chunks (section 3.4 of RFC 2083): the table-driven loop against the shift
    register, one bit at a time, and what the check notices. */
module Crc {
  import opened Arith

  const POLY: nat := 0xedb88320

  // ---------------------------------------------------------------------------------------------
  // The shift register
  // ---------------------------------------------------------------------------------------------

  /** What comes back in when bit falls out. */
  function Feedback(bit: nat): nat
  {
    if bit == 1 then POLY else 0
  }

  /** One step of the register: the low bit falls out. */
  function Step(c: nat): nat
  {
    Xor(c / 2, Feedback(c % 2))
  }

  /** A bit of the message is added to the low end of the register before a step. */
  function FeedBit(c: nat, bit: nat): nat
  {
    Step(Xor(c, bit))
  }

  type Feed = (nat, nat) -> nat

  /** n bits of the message, low bit first. */
  function FeedBits(f: Feed, c: nat, message: nat, n: nat): nat
    decreases n
  {
    if n == 0 then c else FeedBits(f, f(c, message % 2), message / 2, n - 1)
  }

  /** Units of w bits each, of which a byte has eight. */
  function FeedBytes(f: Feed, c: nat, data: seq<byte>, w: nat): nat
    decreases |data|
  {
    if data == [] then c else FeedBytes(f, FeedBits(f, c, data[0], w), data[1..], w)
  }

  const EIGHT: nat := 8

  /** Start with ones, feed all bytes, and complement the register. */
  function Crc(data: seq<byte>): int
  {
    WORD - 1 - FeedBytes(FeedBit, WORD - 1, data, EIGHT)
  }

  // ---------------------------------------------------------------------------------------------
  // Exclusive or
  // ---------------------------------------------------------------------------------------------

  lemma {:induction false} XorComm(a: nat, b: nat)
    ensures Xor(a, b) == Xor(b, a)
    decreases a + b
  {
    if a > 0 || b > 0 {
      XorComm(a / 2, b / 2);
    }
  }

  lemma {:induction false} XorSelf(a: nat)
    ensures Xor(a, a) == 0
  {
    if a > 0 {
      XorSelf(a / 2);
    }
  }

  lemma {:induction false} XorExchange(a: nat, b: nat, c: nat, d: nat)
    ensures Xor(Xor(a, b), Xor(c, d)) == Xor(Xor(a, c), Xor(b, d))
    decreases a + b + c + d
  {
    if a > 0 || b > 0 || c > 0 || d > 0 {
      XorExchange(a / 2, b / 2, c / 2, d / 2);
      XorHalves(a, b);
      XorHalves(c, d);
      XorHalves(a, c);
      XorHalves(b, d);
      XorHalves(Xor(a, b), Xor(c, d));
      XorHalves(Xor(a, c), Xor(b, d));
    }
  }

  function Parity(a: nat, b: nat): (p: nat)
    ensures p < 2
  {
    if a % 2 != b % 2 then 1 else 0
  }

  lemma Halves(x: nat, bit: nat, t: nat)
    requires bit < 2 && x == bit + 2 * t
    ensures x / 2 == t && x % 2 == bit
  {
  }

  lemma XorDigit(a: nat, b: nat)
    ensures Xor(a, b) == Parity(a, b) + 2 * Xor(a / 2, b / 2)
  {
  }

  lemma XorHalves(a: nat, b: nat)
    ensures Xor(a, b) / 2 == Xor(a / 2, b / 2) && Xor(a, b) % 2 == Parity(a, b)
  {
    XorDigit(a, b);
    Halves(Xor(a, b), Parity(a, b), Xor(a / 2, b / 2));
  }

  lemma {:induction false} XorNone(a: nat, b: nat)
    requires Xor(a, b) == 0
    ensures a == b
    decreases a + b
  {
    if a > 0 || b > 0 {
      XorNone(a / 2, b / 2);
    }
  }

  /** Numbers that become equal were equal. */
  lemma XorCancel(c: nat, a: nat, b: nat)
    requires Xor(c, a) == Xor(c, b)
    ensures a == b
  {
    XorExchange(c, a, c, b);
    XorSelf(c);
    XorSelf(Xor(c, a));
    XorComm(0, Xor(a, b));
    XorZero(Xor(a, b));
    XorNone(a, b);
  }

  lemma {:induction false} XorDisjoint(x: nat, n: nat, y: nat)
    requires x < Pow2(n)
    ensures Xor(x, Shl(y, n)) == x + Shl(y, n)
  {
    if n == 0 {
      XorComm(0, y);
      XorZero(y);
    } else {
      XorDisjoint(x / 2, n - 1, y);
      XorNext(x, Shl(y, n - 1));
    }
  }

  // ---------------------------------------------------------------------------------------------
  // Steps are linear, and lose nothing
  // ---------------------------------------------------------------------------------------------

  function Steps(c: nat, n: nat): nat
    decreases n
  {
    if n == 0 then c else Steps(Step(c), n - 1)
  }

  lemma ChoiceAdds(p: nat, s: bool, t: bool)
    ensures Xor(if s then p else 0, if t then p else 0) == if s != t then p else 0
  {
    XorSelf(p);
    XorZero(p);
    XorComm(p, 0);
  }

  lemma FeedbackAdds(a: nat, b: nat)
    ensures Feedback(Parity(a, b)) == Xor(Feedback(a % 2), Feedback(b % 2))
  {
    ChoiceAdds(POLY, a % 2 == 1, b % 2 == 1);
  }

  lemma StepAdds(a: nat, b: nat)
    ensures Step(Xor(a, b)) == Xor(Step(a), Step(b))
  {
    XorHalves(a, b);
    FeedbackAdds(a, b);
    XorExchange(a / 2, Feedback(a % 2), b / 2, Feedback(b % 2));
  }

  ghost predicate LinearAt(g: (nat, nat) -> nat, a: nat, b: nat)
  {
    Step(g(a, b)) == g(Step(a), Step(b))
  }

  ghost predicate Linear(g: (nat, nat) -> nat)
  {
    forall a: nat, b: nat :: LinearAt(g, a, b)
  }

  lemma {:induction false} StepsLinear(g: (nat, nat) -> nat, a: nat, b: nat, n: nat)
    requires Linear(g)
    ensures Steps(g(a, b), n) == g(Steps(a, n), Steps(b, n))
    decreases n
  {
    if n > 0 {
      assert LinearAt(g, a, b);
      StepsLinear(g, Step(a), Step(b), n - 1);
    }
  }

  function Plus(a: nat, b: nat): nat
  {
    Xor(a, b)
  }

  lemma PlusLinear(g: (nat, nat) -> nat)
    requires g == Plus
    ensures Linear(g)
  {
    forall c: nat, d: nat
      ensures LinearAt(g, c, d)
    {
      StepAdds(c, d);
    }
  }

  lemma StepsAdd(a: nat, b: nat, n: nat)
    ensures Steps(Xor(a, b), n) == Xor(Steps(a, n), Steps(b, n))
  {
    PlusLinear(Plus);
    StepsLinear(Plus, a, b, n);
  }

  lemma {:induction false} StepsOfShl(h: nat, n: nat)
    ensures Steps(Shl(h, n), n) == h
    decreases n
  {
    if n > 0 {
      XorZero(Shl(h, n - 1));
      StepsOfShl(h, n - 1);
    }
  }

  lemma StepBound(c: nat)
    requires c < WORD
    ensures Step(c) < WORD
  {
    WordIsPow2();
    BitwiseBound(c / 2, Feedback(c % 2), 32);
  }

  lemma StepNone(c: nat)
    requires c < WORD && Step(c) == 0
    ensures c == 0
  {
    XorNone(c / 2, Feedback(c % 2));
  }

  lemma {:induction false} StepsNone(c: nat, n: nat)
    requires c < WORD && Steps(c, n) == 0
    ensures c == 0
    decreases n
  {
    if n > 0 {
      StepBound(c);
      StepsNone(Step(c), n - 1);
      StepNone(c);
    }
  }

  /** Different registers stay different. */
  lemma StepsApart(a: nat, b: nat, n: nat)
    requires a < WORD && b < WORD && a != b
    ensures Steps(a, n) != Steps(b, n)
  {
    if Steps(a, n) == Steps(b, n) {
      StepsAdd(a, b, n);
      XorSelf(Steps(a, n));
      WordIsPow2();
      BitwiseBound(a, b, 32);
      StepsNone(Xor(a, b), n);
      XorNone(a, b);
    }
  }

  // ---------------------------------------------------------------------------------------------
  // Many bits at once
  // ---------------------------------------------------------------------------------------------

  lemma XorSwap(a: nat, b: nat, c: nat)
    ensures Xor(Xor(a, b), c) == Xor(Xor(a, c), b)
  {
    XorExchange(a, b, c, 0);
    XorZero(c);
    XorZero(b);
  }

  lemma StepOf(c: nat, b: nat)
    ensures Step(Xor(c, b)) == Xor(Xor(c / 2, b / 2), Feedback(Parity(c, b)))
  {
    XorHalves(c, b);
  }

  lemma StepFeeds(c: nat, b: nat, bit: nat, half: nat)
    requires b == bit + 2 * half && bit < 2
    ensures Step(Xor(c, b)) == Xor(Step(Xor(c, bit)), half)
  {
    StepOf(c, b);
    StepOf(c, bit);
    XorZero(c / 2);
    XorSwap(c / 2, half, Feedback(Parity(c, bit)));
  }

  /** Bits may as well be added all at once, before the steps. */
  lemma {:induction false} FeedBitsIsSteps(c: nat, b: nat, n: nat)
    requires b < Pow2(n)
    ensures FeedBits(FeedBit, c, b, n) == Steps(Xor(c, b), n)
    decreases n
  {
    if n == 0 {
      XorZero(c);
    } else {
      StepFeeds(c, b, b % 2, b / 2);
      FeedBitsIsSteps(Step(Xor(c, b % 2)), b / 2, n - 1);
    }
  }

  /** What is above the low n bits comes out as it is; what the low bits do can be looked up. */
  lemma StepsSplit(c: nat, n: nat)
    ensures Steps(c, n) == Xor(Shr(c, n), Steps(Low(c, n), n))
  {
    ShrLow(c, n);
    XorDisjoint(Low(c, n), n, Shr(c, n));
    StepsAdd(Low(c, n), Shl(Shr(c, n), n), n);
    StepsOfShl(Shr(c, n), n);
    XorComm(Steps(Low(c, n), n), Shr(c, n));
  }

  /** The step of the table-driven loop feeds one byte. */
  lemma TableStep(c: nat, b: byte, w: nat)
    requires w == 8
    ensures Xor(b, c % 256) < 256
    ensures FeedBits(FeedBit, c, b, w) == Xor(c / 256, Steps(Xor(b, c % 256), w))
  {
    Pow2Values();
    BitwiseBound(b, c % 256, w);
    FeedBitsIsSteps(c, b, w);
    StepsSplit(Xor(c, b), w);
    HighAndLow(c, b, w);
    XorComm(b, c % 256);
  }

  lemma {:induction false} HighAndLow(c: nat, b: nat, n: nat)
    requires b < Pow2(n)
    ensures Shr(Xor(c, b), n) == Shr(c, n) && Low(Xor(c, b), n) == Xor(Low(c, n), b)
  {
    WordSplit(c, n);
    BitwiseBound(Low(c, n), b, n);
    XorSwap(Low(c, n), Shl(Shr(c, n), n), b);
    XorDisjoint(Xor(Low(c, n), b), n, Shr(c, n));
    ShrLowUnique(Xor(Low(c, n), b), Shr(c, n), n);
  }

  lemma WordSplit(c: nat, n: nat)
    ensures Low(c, n) < Pow2(n) && c == Xor(Low(c, n), Shl(Shr(c, n), n))
  {
    ShrLow(c, n);
    XorDisjoint(Low(c, n), n, Shr(c, n));
  }

  // ---------------------------------------------------------------------------------------------
  // The program
  // ---------------------------------------------------------------------------------------------

  lemma {:induction false} FeedBytesAppend(f: Feed, c: nat, a: seq<byte>, b: seq<byte>, w: nat)
    ensures FeedBytes(f, c, a + b, w) == FeedBytes(f, FeedBytes(f, c, a, w), b, w)
    decreases |a|
  {
    if a == [] {
      assert a + b == b;
    } else {
      assert (a + b)[1..] == a[1..] + b;
      FeedBytesAppend(f, FeedBits(f, c, a[0], w), a[1..], b, w);
    }
  }

  lemma FeedBytesSnoc(f: Feed, c: nat, data: seq<byte>, b: byte, w: nat)
    ensures FeedBytes(f, c, data + [b], w) == FeedBits(f, FeedBytes(f, c, data, w), b, w)
  {
    FeedBytesAppend(f, c, data, [b], w);
    assert ([b])[1..] == [];
  }

  lemma {:induction false} StepsNext(c: nat, n: nat)
    ensures Steps(c, n + 1) == Step(Steps(c, n))
    decreases n
  {
    if n > 0 { StepsNext(Step(c), n - 1); }
  }

  lemma {:induction false} StepsBound(c: nat, n: nat)
    requires c < WORD
    ensures Steps(c, n) < WORD
    decreases n
  {
    if n > 0 {
      StepBound(c);
      StepsBound(Step(c), n - 1);
    }
  }

  lemma FeedIsSteps(c: nat, v: nat, n: nat)
    requires c < WORD && v < Pow2(n) && n <= 32
    ensures Xor(c, v) < WORD && FeedBits(FeedBit, c, v, n) == Steps(Xor(c, v), n) < WORD
  {
    WordIsPow2();
    Pow2Mono(n, 32);
    BitwiseBound(c, v, 32);
    FeedBitsIsSteps(c, v, n);
    StepsBound(Xor(c, v), n);
  }

  /** Entry i is what w steps make of i. */
  ghost predicate TableOK(table: seq<nat>, w: nat, n: nat)
    requires n <= |table|
  {
    forall i: nat :: i < n ==> table[i] == Steps(i, w)
  }

  method BuildTable(ghost w: nat) returns (table: array<nat>)
    requires w == 8
    ensures fresh(table) && table.Length == 256 && TableOK(table[..], w, 256)
  {
    table := new nat[256];
    for i := 0 to 256
      invariant TableOK(table[..], w, i)
    {
      table[i] := i;
      for j := 0 to 8
        invariant table[i] == Steps(i, j)
        invariant TableOK(table[..], w, i)
      {
        StepsNext(i, j);
        table[i] := Xor(table[i] / 2, if table[i] % 2 == 1 then POLY else 0);
      }
    }
  }

  method NextRegister(table: array<nat>, crc: nat, b: byte, ghost w: nat) returns (next: nat)
    requires w == 8 && table.Length == 256 && TableOK(table[..], w, 256) && crc < WORD
    ensures next == FeedBits(FeedBit, crc, b, w) < WORD
  {
    TableStep(crc, b, w);
    Pow2Values();
    FeedIsSteps(crc, b, w);
    next := Xor(crc / 256, table[Xor(b, crc % 256)]);
  }

  lemma FeedNext(f: Feed, ones: nat, buffer: seq<byte>, i: nat, crc: nat, w: nat)
    requires i < |buffer| && crc == FeedBytes(f, ones, buffer[..i], w)
    ensures FeedBytes(f, ones, buffer[..i + 1], w) == FeedBits(f, crc, buffer[i], w)
  {
    FeedBytesSnoc(f, ones, buffer[..i], buffer[i], w);
    assert buffer[..i + 1] == buffer[..i] + [buffer[i]];
  }

  method FeedAll(table: array<nat>, ones: nat, buffer: seq<byte>, ghost w: nat) returns (crc: nat)
    requires w == 8 && table.Length == 256 && TableOK(table[..], w, 256) && ones < WORD
    ensures crc == FeedBytes(FeedBit, ones, buffer, w) < WORD
  {
    crc := ones;
    for i := 0 to |buffer|
      invariant crc == FeedBytes(FeedBit, ones, buffer[..i], w) < WORD
    {
      FeedNext(FeedBit, ones, buffer, i, crc, w);
      crc := NextRegister(table, crc, buffer[i], w);
    }
    assert buffer[..|buffer|] == buffer;
  }

  method Crc32(buffer: seq<byte>) returns (crc: nat)
    ensures crc == Crc(buffer) < WORD
  {
    var table := BuildTable(EIGHT);
    crc := FeedAll(table, WORD - 1, buffer, EIGHT);
    crc := WORD - 1 - crc;
  }

  // ---------------------------------------------------------------------------------------------
  // What the check notices
  // ---------------------------------------------------------------------------------------------

  lemma HalfOfSum(low: nat, high: nat, m: nat)
    requires m > 0
    ensures (low + Shl(high, m)) / 2 == low / 2 + Shl(high, m - 1) && (low + Shl(high, m)) % 2 == low % 2
  {
  }

  lemma {:induction false} FeedBitsJoin(f: Feed, c: nat, low: nat, high: nat, m: nat, n: nat)
    requires low < Pow2(m)
    ensures FeedBits(f, c, low + Shl(high, m), m + n) == FeedBits(f, FeedBits(f, c, low, m), high, n)
    decreases m
  {
    if m > 0 {
      HalfOfSum(low, high, m);
      FeedBitsJoin(f, f(c, low % 2), low / 2, high, m - 1, n);
    }
  }

  lemma FirstByte(f: Feed, c: nat, b: byte, high: nat, w: nat, n: nat)
    requires w == 8
    ensures FeedBits(f, c, b + 256 * high, w + n) == FeedBits(f, FeedBits(f, c, b, w), high, n)
  {
    Pow2Values();
    ShlIsMul(high, w);
    FeedBitsJoin(f, c, b, high, w, n);
  }

  lemma FeedFirst(f: Feed, c: nat, data: seq<byte>, w: nat) returns (b: byte, tail: seq<byte>, c': nat)
    requires data != []
    ensures LEVal(data) == b + 256 * LEVal(tail) && |data| == 1 + |tail|
    ensures c' == FeedBits(f, c, b, w) && FeedBytes(f, c, data, w) == FeedBytes(f, c', tail, w)
  {
    b, tail := data[0], data[1..];
    c' := FeedBits(f, c, b, w);
  }

  lemma ByteThenBits(f: Feed, c: nat, b: byte, high: nat, v: nat, w: nat, n: nat, c': nat)
    requires w == 8 && n >= 8 && v == b + 256 * high && c' == FeedBits(f, c, b, w)
    ensures FeedBits(f, c, v, n) == FeedBits(f, c', high, n - 8)
  {
    FirstByte(f, c, b, high, w, n - 8);
  }

  /** Bytes are fed as the number they are, low byte first. */
  lemma {:induction false} FeedBytesIsBits(f: Feed, c: nat, data: seq<byte>, v: nat, n: nat, w: nat)
    requires w == 8 && v == LEVal(data) && n == 8 * |data|
    ensures FeedBytes(f, c, data, w) == FeedBits(f, c, v, n)
    decreases |data|
  {
    if data != [] {
      var b, tail, c' := FeedFirst(f, c, data, w);
      FeedBytesIsBits(f, c', tail, LEVal(tail), n - 8, w);
      ByteThenBits(f, c, b, LEVal(tail), v, w, n, c');
    }
  }

  lemma {:induction false} LEValTells(x: seq<byte>, y: seq<byte>)
    requires |x| == |y| && LEVal(x) == LEVal(y)
    ensures x == y
    decreases |x|
  {
    if x != [] {
      LEValTells(x[1..], y[1..]);
      assert x == [x[0]] + x[1..] && y == [y[0]] + y[1..];
    }
  }

  lemma FeedWordIs(c: nat, x: seq<byte>, w: nat)
    requires c < WORD && |x| <= 4 && w == 8
    ensures Xor(c, LEVal(x)) < WORD && FeedBytes(FeedBit, c, x, w) == Steps(Xor(c, LEVal(x)), 8 * |x|) < WORD
  {
    LEValBound(x);
    FeedBytesIsBits(FeedBit, c, x, LEVal(x), 8 * |x|, w);
    FeedIsSteps(c, LEVal(x), 8 * |x|);
  }

  /** Up to four different bytes leave different registers. */
  lemma WordsApart(c: nat, x: seq<byte>, y: seq<byte>, w: nat)
    requires c < WORD && |x| == |y| <= 4 && x != y && w == 8
    ensures FeedBytes(FeedBit, c, x, w) < WORD && FeedBytes(FeedBit, c, y, w) < WORD
      && FeedBytes(FeedBit, c, x, w) != FeedBytes(FeedBit, c, y, w)
  {
    FeedWordIs(c, x, w);
    FeedWordIs(c, y, w);
    if LEVal(x) == LEVal(y) { LEValTells(x, y); }
    if Xor(c, LEVal(x)) == Xor(c, LEVal(y)) { XorCancel(c, LEVal(x), LEVal(y)); }
    StepsApart(Xor(c, LEVal(x)), Xor(c, LEVal(y)), 8 * |x|);
  }

  lemma BitsApart(c: nat, d: nat, b: byte, w: nat)
    requires c < WORD && d < WORD && c != d && w == 8
    ensures FeedBits(FeedBit, c, b, w) < WORD && FeedBits(FeedBit, d, b, w) < WORD
      && FeedBits(FeedBit, c, b, w) != FeedBits(FeedBit, d, b, w)
  {
    Pow2Values();
    FeedIsSteps(c, b, w);
    FeedIsSteps(d, b, w);
    if Xor(c, b) == Xor(d, b) {
      XorComm(c, b);
      XorComm(d, b);
      XorCancel(b, c, d);
    }
    StepsApart(Xor(c, b), Xor(d, b), w);
  }

  /** Different registers stay different whatever follows. */
  lemma {:induction false} TailKeepsApart(c: nat, d: nat, tail: seq<byte>, w: nat)
    requires c < WORD && d < WORD && c != d && w == 8
    ensures FeedBytes(FeedBit, c, tail, w) != FeedBytes(FeedBit, d, tail, w)
    decreases |tail|
  {
    if tail != [] {
      BitsApart(c, d, tail[0], w);
      TailKeepsApart(FeedBits(FeedBit, c, tail[0], w), FeedBits(FeedBit, d, tail[0], w), tail[1..], w);
    }
  }

  lemma {:induction false} FeedBytesBound(c: nat, a: seq<byte>, w: nat)
    requires c < WORD && w == 8
    ensures FeedBytes(FeedBit, c, a, w) < WORD
    decreases |a|
  {
    if a != [] {
      Pow2Values();
      FeedIsSteps(c, a[0], w);
      FeedBytesBound(FeedBits(FeedBit, c, a[0], w), a[1..], w);
    }
  }

  lemma FeedThree(f: Feed, c: nat, front: seq<byte>, x: seq<byte>, tail: seq<byte>, w: nat)
    ensures FeedBytes(f, c, front + x + tail, w) == FeedBytes(f, FeedBytes(f, FeedBytes(f, c, front, w), x, w), tail, w)
  {
    FeedBytesAppend(f, c, front + x, tail, w);
    FeedBytesAppend(f, c, front, x, w);
  }

  /** Damage within any four neighbouring bytes is noticed. */
  lemma BurstNoticed(front: seq<byte>, x: seq<byte>, y: seq<byte>, tail: seq<byte>)
    requires |x| == |y| <= 4
    ensures Crc(front + x + tail) == Crc(front + y + tail) <==> x == y
  {
    var w, ones := EIGHT, WORD - 1;
    FeedBytesBound(ones, front, w);
    FeedThree(FeedBit, ones, front, x, tail, w);
    FeedThree(FeedBit, ones, front, y, tail, w);
    if x != y {
      var c := FeedBytes(FeedBit, ones, front, w);
      WordsApart(c, x, y, w);
      TailKeepsApart(FeedBytes(FeedBit, c, x, w), FeedBytes(FeedBit, c, y, w), tail, w);
    }
  }
}
