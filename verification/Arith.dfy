/** Powers of two, division by them, bit reversal, and byte strings read as little-endian numbers. */
module Arith {

  type byte = x: nat | x < 256

  function Pow2(n: nat): (p: nat)
    ensures p >= 1
  {
    if n == 0 then 1 else 2 * Pow2(n - 1)
  }

  lemma {:induction false} Pow2Add(a: nat, b: nat)
    ensures Pow2(a + b) == Pow2(a) * Pow2(b)
  {
    if a > 0 {
      Pow2Add(a - 1, b);
      assert Pow2(a + b) == 2 * Pow2(a - 1 + b);
      assert 2 * (Pow2(a - 1) * Pow2(b)) == (2 * Pow2(a - 1)) * Pow2(b);
    }
  }

  lemma {:induction false} Pow2Mono(a: nat, b: nat)
    requires a <= b
    ensures Pow2(a) <= Pow2(b)
  {
    if a < b {
      Pow2Mono(a, b - 1);
    }
  }

  /** x << n, one place at a time. */
  function Shl(x: nat, n: nat): nat
  {
    if n == 0 then x else 2 * Shl(x, n - 1)
  }

  lemma {:induction false} ShlIsMul(x: nat, n: nat)
    ensures Shl(x, n) == x * Pow2(n)
  {
    if n > 0 {
      ShlIsMul(x, n - 1);
      MulAssoc(2, x, Pow2(n - 1));
    }
  }

  /** x >> n for a number without sign. */
  function Shr(x: nat, n: nat): nat
  {
    DivNat(x, Pow2(n))
  }

  /** x & ((1 << n) - 1) */
  function Low(x: nat, n: nat): nat
  {
    x % Pow2(n)
  }

  function DivNat(x: nat, m: nat): nat
    requires m > 0
  {
    x / m
  }

  lemma ShrLow(x: nat, n: nat)
    ensures x == Low(x, n) + Shl(Shr(x, n), n) && Low(x, n) < Pow2(n)
  {
    ShlIsMul(Shr(x, n), n);
  }

  lemma ShrLowUnique(low: nat, high: nat, n: nat)
    requires low < Pow2(n)
    ensures Low(low + Shl(high, n), n) == low
    ensures Shr(low + Shl(high, n), n) == high
  {
    ShlIsMul(high, n);
    DivModUnique(high, Pow2(n), low);
  }

  /** Shifting down shrinks; by at least one place, strictly unless nothing is left. */
  lemma ShrShrinks(x: nat, n: nat)
    ensures Shr(x, n) <= x
    ensures n > 0 && x > 0 ==> Shr(x, n) < x
  {
    ShrLow(x, n);
    ShlGrows(Shr(x, n), n);
  }

  lemma {:induction false} ShlGrows(x: nat, n: nat)
    ensures Shl(x, n) >= x
    ensures n > 0 ==> Shl(x, n) >= 2 * x
  {
    if n > 0 {
      ShlGrows(x, n - 1);
    }
  }

  lemma {:induction false} ShlAdd(x: nat, y: nat, n: nat)
    ensures Shl(x + y, n) == Shl(x, n) + Shl(y, n)
  {
    if n > 0 {
      ShlAdd(x, y, n - 1);
    }
  }

  lemma {:induction false} ShlShl(x: nat, m: nat, n: nat)
    ensures Shl(Shl(x, m), n) == Shl(x, m + n)
  {
    if n > 0 {
      ShlShl(x, m, n - 1);
    }
  }

  lemma {:induction false} ShlMono(x: nat, y: nat, n: nat)
    requires x <= y
    ensures Shl(x, n) <= Shl(y, n)
  {
    if n > 0 {
      ShlMono(x, y, n - 1);
    }
  }

  lemma {:induction false} ShlPow2(m: nat, n: nat)
    ensures Shl(Pow2(m), n) == Pow2(m + n)
  {
    if n > 0 {
      ShlPow2(m, n - 1);
    }
  }

  /** A shifted number plus something below 2^n stays below the shifted bound. */
  lemma ShlBound(low: nat, x: nat, m: nat, n: nat)
    requires low < Pow2(n) && x < Pow2(m)
    ensures low + Shl(x, n) < Pow2(n + m)
  {
    ShlAdd(x, 1, n);
    ShlPow2(0, n);
    ShlMono(x + 1, Pow2(m), n);
    ShlPow2(m, n);
  }

  /** What is left of a number when its low m digits are cut off. */
  lemma ShrBound(x: nat, m: nat, n: nat)
    requires x < Pow2(m + n)
    ensures Shr(x, m) < Pow2(n)
  {
    ShrLow(x, m);
    if Shr(x, m) >= Pow2(n) {
      ShlMono(Pow2(n), Shr(x, m), m);
      ShlPow2(n, m);
    }
  }

  lemma ShlDouble(x: nat, n: nat)
    ensures Shl(2 * x, n) == Shl(x, n + 1)
  {
    ShlAdd(x, x, n);
  }

  lemma Pow2Values()
    ensures Pow2(1) == 2 && Pow2(2) == 4 && Pow2(3) == 8 && Pow2(4) == 16 && Pow2(5) == 32
    ensures Pow2(6) == 64 && Pow2(7) == 128 && Pow2(8) == 256 && Pow2(9) == 512 && Pow2(10) == 1024
    ensures Pow2(11) == 2048 && Pow2(12) == 4096 && Pow2(13) == 8192 && Pow2(14) == 16384
    ensures Pow2(15) == 32768 && Pow2(16) == 65536
  {
    assert Pow2(4) == 16;
    assert Pow2(8) == 256;
    assert Pow2(12) == 4096;
  }

  lemma MulMono(a: nat, b: nat, c: nat)
    requires a <= b
    ensures a * c <= b * c
  {
  }

  lemma MulComm(a: nat, b: nat)
    ensures a * b == b * a
  {
  }

  lemma MulAssoc(a: nat, b: nat, c: nat)
    ensures a * (b * c) == (a * b) * c
  {
  }

  lemma MulAdd(a: nat, b: nat, c: nat)
    ensures (a + b) * c == a * c + b * c
  {
  }

  lemma DivModUnique(q: int, m: nat, r: nat)
    requires r < m
    ensures (q * m + r) / m == q
    ensures (q * m + r) % m == r
  {
    var x := q * m + r;
    var d := x / m - q;
    assert d * m == r - x % m by {
      assert x == (x / m) * m + x % m;
      assert d * m == (x / m) * m - q * m;
    }
    assert d == 0 by {
      assert d >= 1 ==> d * m >= m;
      assert d <= -1 ==> d * m <= -1 * m;
    }
  }

  /** From k on, the next number with the same remainder is k + m. */
  lemma NextInClass(k: nat, m: nat, j: nat)
    requires m > 0 && k <= j <= k + m
    ensures j % m == k % m <==> j == k || j == k + m
  {
    var q, r, d := k / m, k % m, j - k;
    assert j == q * m + (r + d);
    if r + d < m {
      DivModUnique(q, m, r + d);
    } else if r + d < 2 * m {
      assert q * m + m == (q + 1) * m;
      DivModUnique(q + 1, m, r + d - m);
    }
  }

  /** Dividing twice is dividing by the product. */
  lemma DivDiv(x: nat, a: nat, b: nat)
    requires a > 0 && b > 0
    ensures a * b > 0
    ensures (x / a) / b == x / (a * b)
    ensures x % (a * b) == ((x / a) % b) * a + x % a
  {
    var y := x / a;
    var q, r := y / b, y % b;
    assert y == q * b + r;
    assert x == y * a + x % a;
    assert y * a == (q * b) * a + r * a;
    assert (q * b) * a == q * (a * b);
    var rem := r * a + x % a;
    assert r * a <= (b - 1) * a by {
      MulMono(r, b - 1, a);
    }
    assert (b - 1) * a == a * b - a;
    assert a * b > 0 by {
      MulMono(1, b, a);
    }
    assert rem < a * b;
    assert x == q * (a * b) + rem;
    DivModUnique(q, a * b, rem);
  }

  lemma ModOfMod(x: nat, a: nat, b: nat)
    requires a > 0 && b > 0
    ensures a * b > 0 && (x % (a * b)) % a == x % a
  {
    DivDiv(x, a, b);
    DivModUnique((x / a) % b, a, x % a);
  }

  // ---------------------------------------------------------------------------------------------
  // Reversing the low n bits
  // ---------------------------------------------------------------------------------------------

  /** The low n bits of x in the opposite order. */
  function Rev(n: nat, x: nat): (r: nat)
    ensures r < Pow2(n)
  {
    if n == 0 then 0 else
      var hi := if x % 2 == 1 then Pow2(n - 1) else 0;
      hi + Rev(n - 1, x / 2)
  }

  lemma {:induction false} RevZero(n: nat)
    ensures Rev(n, 0) == 0
  {
    if n > 0 { RevZero(n - 1); }
  }

  /** The next bit of x becomes the lowest bit of the reversal. */
  lemma {:induction false} RevSnoc(n: nat, x: nat)
    ensures Rev(n + 1, x) == 2 * Rev(n, x) + (x / Pow2(n)) % 2
  {
    if n > 0 {
      RevSnoc(n - 1, x / 2);
      DivDiv(x, 2, Pow2(n - 1));
    }
  }

  /** The top bits of a long reversal are the short reversal. */
  lemma {:induction false} RevSplit(n: nat, s: nat, x: nat)
    requires s <= n
    ensures Rev(n, x) / Pow2(n - s) == Rev(s, x)
    decreases n - s
  {
    if s == n {
    } else {
      RevSplit(n, s + 1, x);
      var y := Rev(n, x);
      DivDiv(y, Pow2(n - s - 1), 2);
      RevSnoc(s, x);
    }
  }

  lemma {:induction false} RevLow(n: nat, x: nat)
    ensures Rev(n, x) == Rev(n, x % Pow2(n))
  {
    if n > 0 {
      var p := Pow2(n - 1);
      DivDiv(x, 2, p);
      var y := x % (2 * p);
      assert y == ((x / 2) % p) * 2 + x % 2;
      DivModUnique((x / 2) % p, 2, x % 2);
      RevLow(n - 1, x / 2);
    }
  }

  /** The lowest bit becomes the highest one. */
  lemma RevTop(n: nat, x: nat)
    requires n > 0
    ensures Rev(n, x) / Pow2(n - 1) == x % 2
    ensures Rev(n, x) % Pow2(n - 1) == Rev(n - 1, x / 2)
  {
    DivModUnique(x % 2, Pow2(n - 1), Rev(n - 1, x / 2));
  }

  lemma LowBits(n: nat, x: nat)
    requires n > 0
    ensures x % Pow2(n) == 2 * ((x / 2) % Pow2(n - 1)) + x % 2
  {
    DivDiv(x, 2, Pow2(n - 1));
  }

  lemma {:induction false} RevRev(n: nat, x: nat)
    ensures Rev(n, Rev(n, x)) == x % Pow2(n)
  {
    if n > 0 {
      var r := Rev(n, x);
      RevTop(n, x);
      RevSnoc(n - 1, r);
      RevLow(n - 1, r);
      RevRev(n - 1, x / 2);
      LowBits(n, x);
    }
  }

  // ---------------------------------------------------------------------------------------------
  // Byte strings as numbers, low byte first
  // ---------------------------------------------------------------------------------------------

  function ZeroBytes(n: nat): (s: seq<byte>)
    ensures |s| == n
  {
    seq(n, _ => 0)
  }

  function LEVal(s: seq<byte>): (v: nat)
  {
    if s == [] then 0 else s[0] + 256 * LEVal(s[1..])
  }

  lemma Pow2Step8(k: nat)
    ensures Pow2(8 * (k + 1)) == 256 * Pow2(8 * k)
  {
    Pow2Add(8, 8 * k);
    Pow2Values();
  }

  lemma {:induction false} LEValBound(s: seq<byte>)
    ensures LEVal(s) < Pow2(8 * |s|)
  {
    if s != [] {
      LEValBound(s[1..]);
      Pow2Step8(|s| - 1);
    }
  }

  lemma {:induction false} LEValAppend(s: seq<byte>, t: seq<byte>)
    ensures LEVal(s + t) == LEVal(s) + Pow2(8 * |s|) * LEVal(t)
  {
    if s == [] {
      assert s + t == t;
    } else {
      assert (s + t)[1..] == s[1..] + t;
      LEValAppend(s[1..], t);
      Pow2Step8(|s| - 1);
      MulAssoc(256, Pow2(8 * (|s| - 1)), LEVal(t));
    }
  }

  lemma LEValAppendShl(s: seq<byte>, t: seq<byte>)
    ensures LEVal(s + t) == LEVal(s) + Shl(LEVal(t), 8 * |s|)
  {
    LEValAppend(s, t);
    MulComm(Pow2(8 * |s|), LEVal(t));
    ShlIsMul(LEVal(t), 8 * |s|);
  }

  /** Bitwise or, digit by digit. */
  function Or(x: nat, y: nat): nat
    decreases x + y
  {
    if x == 0 && y == 0 then 0
    else (if x % 2 == 1 || y % 2 == 1 then 1 else 0) + 2 * Or(x / 2, y / 2)
  }

  /** Or-ing in bits above everything already present is addition. */
  lemma {:induction false} OrDisjoint(x: nat, n: nat, y: nat)
    requires x < Pow2(n)
    ensures Or(x, Shl(y, n)) == x + Shl(y, n)
  {
    if n == 0 {
      OrZero(y);
    } else {
      OrDisjoint(x / 2, n - 1, y);
    }
  }

  lemma {:induction false} OrZero(y: nat)
    ensures Or(0, y) == y
  {
    if y > 0 {
      OrZero(y / 2);
    }
  }

  /** Bitwise exclusive or, digit by digit. */
  function Xor(x: nat, y: nat): nat
    decreases x + y
  {
    if x == 0 && y == 0 then 0
    else (if x % 2 != y % 2 then 1 else 0) + 2 * Xor(x / 2, y / 2)
  }

  lemma {:induction false} XorZero(v: nat)
    ensures Xor(v, 0) == v
  {
    if v > 0 {
      XorZero(v / 2);
    }
  }

  /** Bitwise and, digit by digit. */
  function And(x: nat, y: nat): nat
    decreases x + y
  {
    if x == 0 && y == 0 then 0
    else (if x % 2 == 1 && y % 2 == 1 then 1 else 0) + 2 * And(x / 2, y / 2)
  }

  lemma XorNext(v: nat, p: nat)
    ensures Xor(v, 2 * p) == v % 2 + 2 * Xor(v / 2, p)
  {
    assert (2 * p) % 2 == 0 && (2 * p) / 2 == p;
  }

  /** No digits appear where there were none. */
  lemma {:induction false} BitwiseBound(x: nat, y: nat, n: nat)
    requires x < Pow2(n) && y < Pow2(n)
    ensures And(x, y) < Pow2(n) && Or(x, y) < Pow2(n) && Xor(x, y) < Pow2(n)
  {
    if n > 0 {
      BitwiseBound(x / 2, y / 2, n - 1);
    }
  }

  lemma {:induction false} OrComm(x: nat, y: nat)
    ensures Or(x, y) == Or(y, x)
    decreases x + y
  {
    if x > 0 || y > 0 {
      OrComm(x / 2, y / 2);
    }
  }

  // ---------------------------------------------------------------------------------------------
  // Words of 32 bits
  // ---------------------------------------------------------------------------------------------

  const WORD: nat := 0x1_0000_0000

  lemma WordIsPow2()
    ensures WORD == Pow2(32)
  {
    Pow2Add(16, 16);
    Pow2Values();
  }

  /** The low digits move up n places, and the n digits that fall out at the top come in below. */
  function Rotate(n: nat, x: nat): nat
    requires n <= 32
  {
    Shl(Low(x, 32 - n), n) + Shr(x, 32 - n)
  }

  lemma RotateBound(n: nat, x: nat)
    requires n <= 32 && x < WORD
    ensures Shr(x, 32 - n) < Pow2(n) && Rotate(n, x) < WORD
  {
    WordIsPow2();
    var low, high := Low(x, 32 - n), Shr(x, 32 - n);
    ShrLow(x, 32 - n);
    ShrBound(x, 32 - n, n);
    ShlBound(high, low, 32 - n, n);
  }

  /** What lies above m + n places is cut off after shifting by n places. */
  lemma ShiftedOut(low: nat, high: nat, m: nat, n: nat)
    requires low < Pow2(m)
    ensures Low(Shl(low + Shl(high, m), n), m + n) == Shl(low, n)
  {
    ShlAdd(low, Shl(high, m), n);
    ShlShl(high, m, n);
    ShlBound(0, low, m, n);
    ShrLowUnique(Shl(low, n), high, m + n);
  }

  lemma ShiftsRotate(word: nat, m: nat, n: nat)
    requires word < Pow2(m + n)
    ensures Or(Low(Shl(word, n), m + n), Shr(word, m)) == Shl(Low(word, m), n) + Shr(word, m)
  {
    var low, high := Low(word, m), Shr(word, m);
    ShrLow(word, m);
    ShrBound(word, m, n);
    ShiftedOut(low, high, m, n);
    OrComm(Shl(low, n), high);
    OrDisjoint(high, n, low);
  }

  lemma CircularShiftRotates(bits: nat, word: nat)
    requires bits <= 32 && word < WORD
    ensures Or(Low(Shl(word, bits), 32), Shr(word, 32 - bits)) == Rotate(bits, word)
  {
    WordIsPow2();
    ShiftsRotate(word, 32 - bits, bits);
  }

  /** The n digits of x that come after its first m ones, x having w digits in all. */
  lemma DigitsAt(x: nat, w: nat, m: nat, n: nat)
    requires m + n <= w
    ensures Shr(Low(Shl(x, m), w), w - n) == Low(Shr(x, w - m - n), n)
  {
    DigitsFrom(x, w - m - n, m, n, w - n, w);
  }

  lemma DigitsFrom(x: nat, d: nat, m: nat, n: nat, e: nat, w: nat)
    requires e == m + d && w == n + d + m
    ensures Shr(Low(Shl(x, m), w), e) == Low(Shr(x, d), n)
  {
    ShiftedLow(x, n + d, m);
    ShrOfShl(Low(x, n + d), m, d);
    ShrOfLow(x, d, n);
  }

  lemma ShiftedLow(x: nat, m: nat, n: nat)
    ensures Low(Shl(x, n), m + n) == Shl(Low(x, m), n)
  {
    ShrLow(x, m);
    ShiftedOut(Low(x, m), Shr(x, m), m, n);
  }

  lemma ShrOfLow(x: nat, k: nat, n: nat)
    ensures Shr(Low(x, k + n), k) == Low(Shr(x, k), n)
  {
    var y := Shr(x, k);
    ShrLow(x, k);
    ShrLow(y, n);
    ThreeParts(x, Low(x, k), Low(y, n), Shr(y, n), k, n);
  }

  lemma ThreeParts(x: nat, low: nat, v: nat, top: nat, k: nat, n: nat)
    requires low < Pow2(k) && v < Pow2(n) && x == low + Shl(v + Shl(top, n), k)
    ensures Shr(Low(x, k + n), k) == v
  {
    ShlAdd(v, Shl(top, n), k);
    ShlShl(top, n, k);
    ShlBound(low, v, n, k);
    ShrLowUnique(low + Shl(v, k), top, k + n);
    ShrLowUnique(low, v, k);
  }

  lemma ShrOfShl(x: nat, m: nat, k: nat)
    ensures Shr(Shl(x, m), m + k) == Shr(x, k)
  {
    var low, high := Low(x, k), Shr(x, k);
    ShrLow(x, k);
    ShlAdd(low, Shl(high, k), m);
    ShlShl(high, k, m);
    ShlBound(0, low, k, m);
    ShrLowUnique(Shl(low, m), high, m + k);
  }
}
