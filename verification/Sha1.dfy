/** The secure hash that the router uses: a context fed in pieces, against the standard's one-shot definition. */
module Sha1 {
  import opened Arith
  import Bitwise

  type Octet = byte

  type Word = w: nat | w < WORD

  // ---------------------------------------------------------------------------------------------
  // Operations on words (FIPS 180-1, section 3)
  // ---------------------------------------------------------------------------------------------

  /** Addition modulo 2^32. */
  function Sum(x: Word, y: Word): Word
  {
    (x + y) % WORD
  }

  function Sum5(v: Word, w: Word, x: Word, y: Word, z: Word): Word
  {
    (v + w + x + y + z) % WORD
  }

  function AndW(x: Word, y: Word): Word
  {
    WordIsPow2();
    BitwiseBound(x, y, 32);
    And(x, y)
  }

  function OrW(x: Word, y: Word): Word
  {
    WordIsPow2();
    BitwiseBound(x, y, 32);
    Or(x, y)
  }

  function XorW(x: Word, y: Word): Word
  {
    WordIsPow2();
    BitwiseBound(x, y, 32);
    Xor(x, y)
  }

  function Not(x: Word): Word
  {
    WORD - 1 - x
  }

  function RotateW(n: nat, x: Word): Word
    requires n <= 32
  {
    RotateBound(n, x);
    Rotate(n, x)
  }

  // ---------------------------------------------------------------------------------------------
  // The standard (FIPS 180-1, sections 4 to 7)
  // ---------------------------------------------------------------------------------------------

  /** Five chaining words. */
  datatype Hash = Hash(a: Word, b: Word, c: Word, d: Word, e: Word)

  const INITIAL := Hash(0x67452301, 0xEFCDAB89, 0x98BADCFE, 0x10325476, 0xC3D2E1F0)

  function Choose(b: Word, c: Word, d: Word): Word
  {
    OrW(AndW(b, c), AndW(Not(b), d))
  }

  function Parity(b: Word, c: Word, d: Word): Word
  {
    XorW(XorW(b, c), d)
  }

  function Majority(b: Word, c: Word, d: Word): Word
  {
    OrW(OrW(AndW(b, c), AndW(b, d)), AndW(c, d))
  }

  function F(t: nat, b: Word, c: Word, d: Word): Word
  {
    if t < 20 then Choose(b, c, d)
    else if t < 40 then Parity(b, c, d)
    else if t < 60 then Majority(b, c, d)
    else Parity(b, c, d)
  }

  function K(t: nat): Word
  {
    if t < 20 then 0x5A827999 else if t < 40 then 0x6ED9EBA1 else if t < 60 then 0x8F1BBCDC else 0xCA62C1D6
  }

  /** Digit by digit, b chooses between c and d. */
  lemma ChooseDigit(b: Word, c: Word, d: Word, i: nat)
    requires i < 32
    ensures Bitwise.Digit(Choose(b, c, d), i) ==
      if Bitwise.Digit(b, i) == 1 then Bitwise.Digit(c, i) else Bitwise.Digit(d, i)
  {
    WordIsPow2();
    Bitwise.NotDigit(b, 32, i);
    Bitwise.BitwiseDigit(b, c, i);
    Bitwise.BitwiseDigit(Not(b), d, i);
    Bitwise.BitwiseDigit(AndW(b, c), AndW(Not(b), d), i);
  }

  /** Digit by digit, the sum modulo two. */
  lemma ParityDigit(b: Word, c: Word, d: Word, i: nat)
    ensures Bitwise.Digit(Parity(b, c, d), i) ==
      (Bitwise.Digit(b, i) + Bitwise.Digit(c, i) + Bitwise.Digit(d, i)) % 2
  {
    var x, y, z, u := Bitwise.Digit(b, i), Bitwise.Digit(c, i), Bitwise.Digit(d, i), Bitwise.Digit(XorW(b, c), i);
    assert u == (if x == y then 0 else 1) by { Bitwise.BitwiseDigit(b, c, i); }
    Bitwise.BitwiseDigit(XorW(b, c), d, i);
    OddOfThree(x, y, z, u);
  }

  lemma OddOfThree(x: nat, y: nat, z: nat, u: nat)
    requires x < 2 && y < 2 && z < 2 && u == if x == y then 0 else 1
    ensures (if u == z then 0 else 1) == (x + y + z) % 2
  {
  }

  /** Digit by digit, what at least two of the three have. */
  lemma MajorityDigit(b: Word, c: Word, d: Word, i: nat)
    ensures Bitwise.Digit(Majority(b, c, d), i) ==
      if Bitwise.Digit(b, i) + Bitwise.Digit(c, i) + Bitwise.Digit(d, i) >= 2 then 1 else 0
  {
    Bitwise.BitwiseDigit(b, c, i);
    Bitwise.BitwiseDigit(b, d, i);
    Bitwise.BitwiseDigit(c, d, i);
    Bitwise.BitwiseDigit(AndW(b, c), AndW(b, d), i);
    Bitwise.BitwiseDigit(OrW(AndW(b, c), AndW(b, d)), AndW(c, d), i);
  }

  /** The constant of a quarter is the whole part of 2^30 times the square root of 2, 3, 5 or 10. */
  lemma KIsRoot(t: nat)
    ensures var n := if t < 20 then 2 else if t < 40 then 3 else if t < 60 then 5 else 10;
      K(t) * K(t) <= n * 0x1000_0000_0000_0000 < (K(t) + 1) * (K(t) + 1)
  {
  }

  /** Four octets, the first one on the left. */
  function BigEndian(b0: Octet, b1: Octet, b2: Octet, b3: Octet): Word
  {
    0x100_0000 * b0 + 0x1_0000 * b1 + 0x100 * b2 + b3
  }

  /** The first n words of the message schedule. */
  function Schedule(block: seq<Octet>, n: nat): (w: seq<Word>)
    requires |block| == 64 && n <= 80
    ensures |w| == n
  {
    if n == 0 then []
    else
      var w, t := Schedule(block, n - 1), n - 1;
      w + [if t < 16 then BigEndian(block[4 * t], block[4 * t + 1], block[4 * t + 2], block[4 * t + 3])
           else RotateW(1, XorW(XorW(XorW(w[t - 3], w[t - 8]), w[t - 14]), w[t - 16]))]
  }

  /** The next words, given the first and the second one rotated. */
  function Rotated(h: Hash, shifted: Word, turned: Word, f: Word, k: Word, w: Word): Hash
  {
    Hash(Sum5(shifted, f, h.e, w, k), h.a, turned, h.c, h.d)
  }

  function Mix(h: Hash, f: Word, k: Word, w: Word): Hash
  {
    Rotated(h, RotateW(5, h.a), RotateW(30, h.b), f, k, w)
  }

  function Round(t: nat, h: Hash, w: Word): Hash
  {
    Mix(h, F(t, h.b, h.c, h.d), K(t), w)
  }

  /** The first n rounds. */
  function Rounds(h: Hash, w: seq<Word>, n: nat): Hash
    requires n <= |w|
  {
    if n == 0 then h else Round(n - 1, Rounds(h, w, n - 1), w[n - 1])
  }

  function Plus(h: Hash, r: Hash): Hash
  {
    Hash(Sum(h.a, r.a), Sum(h.b, r.b), Sum(h.c, r.c), Sum(h.d, r.d), Sum(h.e, r.e))
  }

  function Compress(h: Hash, block: seq<Octet>): Hash
    requires |block| == 64
  {
    Plus(h, Rounds(h, Schedule(block, 80), 80))
  }

  /** A compression function. */
  type Compression = (Hash, seq<Octet>) -> Hash

  function Sha1Compression(): Compression
  {
    (h: Hash, block: seq<Octet>) => if |block| == 64 then Compress(h, block) else h
  }

  predicate CompressesAt(f: Compression, h: Hash, block: seq<Octet>)
    requires |block| == 64
  {
    f(h, block) == Compress(h, block)
  }

  ghost predicate Compresses(f: Compression)
  {
    forall h, block: seq<Octet> {:trigger CompressesAt(f, h, block)} | |block| == 64 :: CompressesAt(f, h, block)
  }

  /** The chaining words after whole blocks. */
  function Blocks(f: Compression, data: seq<Octet>): Hash
    requires |data| % 64 == 0
  {
    if data == [] then INITIAL
    else f(Blocks(f, data[..|data| - 64]), data[|data| - 64..])
  }

  const MAX_BITS: nat := 0x1_0000_0000_0000_0000
  const MAX_OCTETS: nat := MAX_BITS / 8

  /** The number of bits of the message as eight octets. */
  function LengthOctets(bits: nat): (s: seq<Octet>)
    requires bits < MAX_BITS
    ensures |s| == 8
  {
    WordOctets(HighWord(bits)) + WordOctets(bits % WORD)
  }

  function HighWord(bits: nat): nat
  {
    bits / WORD
  }

  function WordOctets(v: nat): (s: seq<Octet>)
    requires v < 0x1_0000_0000
    ensures |s| == 4
  {
    [(v / 0x100_0000), (v / 0x1_0000 % 0x100), (v / 0x100 % 0x100), (v % 0x100)]
  }

  /** The fewest zeros that bring the length to 56 modulo 64, after the octet with the one bit. */
  function ZerosNeeded(n: nat): (k: nat)
    ensures (n + 1 + k) % 64 == 56 && k < 64
  {
    if n % 64 <= 55 then 55 - n % 64 else 119 - n % 64
  }

  lemma PaddedLength(n: nat)
    ensures (n + (9 + ZerosNeeded(n))) % 64 == 0
  {
  }

  /** A one bit, the fewest zeros that leave room for the length in the last block, and the length. */
  function Padding(n: nat): (s: seq<Octet>)
    requires n < MAX_OCTETS
    ensures |s| == 9 + ZerosNeeded(n) && (n + |s|) % 64 == 0
  {
    PaddedLength(n);
    [0x80] + ZeroBytes(ZerosNeeded(n)) + LengthOctets(8 * n)
  }

  function Digest(f: Compression, msg: seq<Octet>): Hash
    requires |msg| < MAX_OCTETS
  {
    Blocks(f, msg + Padding(|msg|))
  }

  // ---------------------------------------------------------------------------------------------
  // The program
  // ---------------------------------------------------------------------------------------------

  method CircularShift(bits: nat, word: Word) returns (r: Word)
    requires bits <= 32
    ensures r == RotateW(bits, word)
  {
    CircularShiftRotates(bits, word);
    RotateBound(bits, word);
    r := Or(Low(Shl(word, bits), 32), Shr(word, 32 - bits));
  }

  /** Or-ing in the next octet of a word. */
  lemma OrOctet(v: nat, b: Octet, n: nat)
    ensures Or(Shl(v, n + 8), Shl(b, n)) == Shl(256 * v + b, n)
  {
    Pow2Values();
    ShlIsMul(v, 8);
    ShlShl(v, 8, n);
    ShlAdd(256 * v, b, n);
    ShlBound(0, b, 8, n);
    OrComm(Shl(v, n + 8), Shl(b, n));
    OrDisjoint(Shl(b, n), n + 8, v);
  }

  lemma Sha1Compresses()
    ensures Compresses(Sha1Compression())
  {
    forall h, block: seq<Octet> | |block| == 64
      ensures CompressesAt(Sha1Compression(), h, block)
    {
    }
  }

  class Context {
    var digest: Hash
    var lengthLow: nat
    var lengthHigh: nat
    const messageBlock: array<Octet>
    var index: nat
    var computed: bool
    var corrupted: bool
    /** The message so far, and the whole blocks at the start of it that are in the digest. */
    ghost var msg: seq<Octet>
    ghost var processed: seq<Octet>
    ghost const f: Compression

    /** The context has taken in data: whole blocks are in the digest, what is left stands in the block. */
    ghost predicate Fed(data: seq<Octet>)
      reads this, messageBlock
    {
      && messageBlock.Length == 64 && index <= 64 && |processed| % 64 == 0
      && data == processed + messageBlock[..index]
      && digest == Blocks(f, processed)
    }

    ghost predicate LengthKept()
      reads this
    {
      && lengthLow < 0x1_0000_0000 && lengthHigh < 0x1_0000_0000 && |msg| < MAX_OCTETS
      && 0x1_0000_0000 * lengthHigh + lengthLow == 8 * |msg|
    }

    /** A context is corrupted, or has given its digest, or holds the message so far. */
    ghost predicate Valid()
      reads this, messageBlock
    {
      && messageBlock.Length == 64 && Compresses(f)
      && (!corrupted ==> LengthKept())
      && (!corrupted && !computed ==> Fed(msg) && index < 64)
      && (!corrupted && computed ==> digest == Digest(f, msg))
    }

    constructor ()
      ensures Valid() && !computed && !corrupted && msg == [] && fresh(messageBlock) && f == Sha1Compression()
    {
      messageBlock := new Octet[64];
      lengthLow, lengthHigh, index := 0, 0, 0;
      digest := INITIAL;
      computed, corrupted := false, false;
      msg, processed := [], [];
      Sha1Compresses();
      f := Sha1Compression();
    }

    static method FirstWord(b0: Octet, b1: Octet, b2: Octet, b3: Octet) returns (w: Word)
      ensures w == BigEndian(b0, b1, b2, b3)
    {
      var v := Shl(b0, 24);
      OrOctet(b0, b1, 16);
      v := Or(v, Shl(b1, 16));
      OrOctet(256 * b0 + b1, b2, 8);
      v := Or(v, Shl(b2, 8));
      OrOctet(0x1_0000 * b0 + 0x100 * b1 + b2, b3, 0);
      v := Or(v, b3);
      w := v;
    }

    /** The message schedule, in place. */
    static method FillSchedule(block: seq<Octet>) returns (w: array<Word>)
      requires |block| == 64
      ensures fresh(w) && w[..] == Schedule(block, 80)
    {
      w := new Word[80];
      for t := 0 to 16
        invariant w[..t] == Schedule(block, t)
      {
        w[t] := FirstWord(block[t * 4], block[t * 4 + 1], block[t * 4 + 2], block[t * 4 + 3]);
        assert w[..t + 1] == w[..t] + [w[t]];
      }
      for t := 16 to 80
        invariant w[..t] == Schedule(block, t)
      {
        var mixed := XorW(XorW(XorW(w[t - 3], w[t - 8]), w[t - 14]), w[t - 16]);
        w[t] := CircularShift(1, mixed);
        assert w[..t + 1] == w[..t] + [w[t]];
      }
      assert w[..] == w[..80];
    }

    /** The body of the four loops of rounds. */
    static method Turn(h: Hash, f: Word, k: Word, w: Word) returns (h': Hash)
      ensures h' == Mix(h, f, k, w)
    {
      var shifted := CircularShift(5, h.a);
      var turned := CircularShift(30, h.b);
      h' := Rotated(h, shifted, turned, f, k, w);
    }

    static method AllRounds(start: Hash, w: seq<Word>) returns (h: Hash)
      requires |w| == 80
      ensures h == Rounds(start, w, 80)
    {
      h := start;
      for t := 0 to 20
        invariant h == Rounds(start, w, t)
      {
        h := Turn(h, Choose(h.b, h.c, h.d), 0x5A827999, w[t]);
      }
      for t := 20 to 40
        invariant h == Rounds(start, w, t)
      {
        h := Turn(h, Parity(h.b, h.c, h.d), 0x6ED9EBA1, w[t]);
      }
      for t := 40 to 60
        invariant h == Rounds(start, w, t)
      {
        h := Turn(h, Majority(h.b, h.c, h.d), 0x8F1BBCDC, w[t]);
      }
      for t := 60 to 80
        invariant h == Rounds(start, w, t)
      {
        h := Turn(h, Parity(h.b, h.c, h.d), 0xCA62C1D6, w[t]);
      }
    }

    method ProcessMessageBlock()
      requires messageBlock.Length == 64 && Compresses(f)
      modifies this`digest, this`index
      ensures digest == f(old(digest), messageBlock[..]) && index == 0
    {
      assert CompressesAt(f, digest, messageBlock[..]);
      var w := FillSchedule(messageBlock[..]);
      var h := AllRounds(digest, w[..]);
      digest := Hash(Sum(digest.a, h.a), Sum(digest.b, h.b), Sum(digest.c, h.c), Sum(digest.d, h.d),
                     Sum(digest.e, h.e));
      index := 0;
    }

    /** Message_Block[Message_Block_Index++] = o */
    method Put(o: Octet, ghost data: seq<Octet>)
      requires Fed(data) && index < 64
      modifies this`index, messageBlock
      ensures Fed(data + [o]) && index == old(index) + 1
    {
      messageBlock[index] := o;
      index := index + 1;
      assert messageBlock[..index] == old(messageBlock[..index]) + [o];
    }

    /** A full block joins the digest. */
    method Process(ghost data: seq<Octet>)
      requires Fed(data) && index == 64 && Compresses(f)
      modifies this`digest, this`index, this`processed
      ensures Fed(data) && index == 0
    {
      ghost var block := messageBlock[..];
      assert block == messageBlock[..64] && data == processed + block;
      BlocksNext(f, processed, block);
      ProcessMessageBlock();
      processed := data;
      assert data == data + messageBlock[..0];
    }

    method PutZeros(limit: nat, ghost data: seq<Octet>)
      requires Fed(data) && index <= limit <= 64
      modifies this`index, messageBlock
      ensures Fed(data + ZeroBytes(limit - old(index))) && index == limit
    {
      assert data + ZeroBytes(0) == data;
      while index < limit
        invariant old(index) <= index <= limit && Fed(data + ZeroBytes(index - old(index)))
      {
        ZerosNext(data, index - old(index));
        Put(0, data + ZeroBytes(index - old(index)));
      }
    }

    /** The length in bits, kept in two words; it wraps around exactly at 2^64 bits. */
    method CountOctet()
      requires !corrupted && LengthKept()
      modifies this`lengthLow, this`lengthHigh, this`corrupted
      ensures corrupted <==> |msg| + 1 == MAX_OCTETS
      ensures !corrupted ==>
        && lengthLow < 0x1_0000_0000 && lengthHigh < 0x1_0000_0000
        && 0x1_0000_0000 * lengthHigh + lengthLow == 8 * (|msg| + 1)
    {
      lengthLow := (lengthLow + 8) % 0x1_0000_0000;
      if lengthLow == 0 {
        lengthHigh := (lengthHigh + 1) % 0x1_0000_0000;
        if lengthHigh == 0 {
          corrupted := true;
        }
      }
    }

    /** One turn of the loop of SHA1Input. */
    method InputOctet(o: Octet)
      requires Valid() && !computed && !corrupted
      modifies this, messageBlock
      ensures Valid() && !computed && msg == old(msg) + [o]
      ensures corrupted <==> |msg| >= MAX_OCTETS
    {
      Put(o, msg);
      CountOctet();
      msg := msg + [o];
      if index == 64 {
        Process(msg);
      }
    }

    /** The loop of SHA1Input. */
    method InputLoop(data: seq<Octet>)
      requires Valid() && !computed && !corrupted
      modifies this, messageBlock
      ensures Valid() && !computed
      ensures corrupted <==> |old(msg)| + |data| >= MAX_OCTETS
      ensures !corrupted ==> msg == old(msg) + data
    {
      ghost var was := msg;
      var i := 0;
      assert was + data[..0] == was;
      while i < |data| && !corrupted
        invariant i <= |data| && Valid() && !computed
        invariant msg == was + data[..i]
        invariant corrupted <==> |msg| >= MAX_OCTETS
      {
        InputOctet(data[i]);
        PieceNext(was, data, i);
        i := i + 1;
      }
      assert data[..|data|] == data;
    }

    /** SHA1Input: the data joins the message, unless the digest was given already or there are too many octets. */
    method Input(data: seq<Octet>)
      requires Valid()
      modifies this, messageBlock
      ensures Valid() && computed == old(computed)
      ensures corrupted <==> old(corrupted) || (data != [] && (old(computed) || |old(msg)| + |data| >= MAX_OCTETS))
      ensures !corrupted ==> msg == old(msg) + data
    {
      if |data| == 0 {
        assert msg + data == msg;
        return;
      }
      if computed || corrupted {
        corrupted := true;
        return;
      }
      InputLoop(data);
    }

    method StoreWord(at: nat, v: nat)
      requires at + 4 <= messageBlock.Length && v < 0x1_0000_0000
      modifies messageBlock
      ensures messageBlock[..at] == old(messageBlock[..at]) && messageBlock[at + 4..] == old(messageBlock[at + 4..])
      ensures messageBlock[at..at + 4] == WordOctets(v)
    {
      messageBlock[at] := (v / 0x100_0000 % 0x100);
      messageBlock[at + 1] := (v / 0x1_0000 % 0x100);
      messageBlock[at + 2] := (v / 0x100 % 0x100);
      messageBlock[at + 3] := (v % 0x100);
    }

    /** The length goes into the last eight octets. */
    method StoreLength()
      requires messageBlock.Length == 64 && lengthLow < 0x1_0000_0000 && lengthHigh < 0x1_0000_0000
      modifies messageBlock
      ensures messageBlock[..] == old(messageBlock[..56]) + (WordOctets(lengthHigh) + WordOctets(lengthLow))
    {
      StoreWord(56, lengthHigh);
      ghost var front := messageBlock[..60];
      assert front == messageBlock[..56] + messageBlock[56..60];
      StoreWord(60, lengthLow);
      assert messageBlock[..] == messageBlock[..60] + messageBlock[60..64];
    }

    /** No room for the length: zeros fill this block and most of another one. */
    method FillTwo(ghost data: seq<Octet>)
      requires Fed(data) && index <= 64 && Compresses(f)
      modifies this`digest, this`index, this`processed, messageBlock
      ensures Fed(data + ZeroBytes(64 - old(index) + 56)) && index == 56
    {
      ghost var m := 64 - index;
      PutZeros(64, data);
      Process(data + ZeroBytes(m));
      PutZeros(56, data + ZeroBytes(m));
      ZerosJoin(data, m, 56);
    }

    /** The one bit and the zeros, up to the place of the length. */
    method PadZeros()
      requires Fed(msg) && index < 64 && Compresses(f)
      modifies this`digest, this`index, this`processed, messageBlock
      ensures Fed(msg + [0x80] + ZeroBytes(ZerosNeeded(|msg|))) && index == 56
    {
      IndexIs(|processed|, index, |msg|);
      var late := index > 55;
      Put(0x80, msg);
      if late {
        FillTwo(msg + [0x80]);
      } else {
        PutZeros(56, msg + [0x80]);
      }
    }

    method PadMessage()
      requires Valid() && !computed && !corrupted
      modifies this`digest, this`index, this`processed, messageBlock
      ensures digest == Digest(f, msg) && index == 0
    {
      PadZeros();
      ghost var front := messageBlock[..56];
      StoreLength();
      LengthWords(lengthHigh, lengthLow, 8 * |msg|);
      PaddingJoins(msg, processed, front);
      BlocksNext(f, processed, messageBlock[..]);
      ProcessMessageBlock();
    }

    /** SHA1Result: pads the message the first time; later calls change nothing. */
    method Result() returns (ok: bool)
      requires Valid()
      modifies this, messageBlock
      ensures Valid() && corrupted == old(corrupted) && msg == old(msg) && ok == !corrupted
      ensures ok ==> computed && digest == Digest(f, msg)
      ensures old(computed) ==> digest == old(digest)
    {
      if corrupted {
        return false;
      }
      if !computed {
        PadMessage();
        computed := true;
      }
      return true;
    }
  }

  lemma BlocksNext(f: Compression, data: seq<Octet>, block: seq<Octet>)
    requires |data| % 64 == 0 && |block| == 64
    ensures Blocks(f, data + block) == f(Blocks(f, data), block)
  {
    var all := data + block;
    assert all[..|all| - 64] == data && all[|all| - 64..] == block;
  }

  lemma IndexIs(whole: nat, index: nat, n: nat)
    requires whole % 64 == 0 && index < 64 && n == whole + index
    ensures ZerosNeeded(n) == if index > 55 then 119 - index else 55 - index
  {
  }

  lemma LengthWords(high: Word, low: Word, bits: nat)
    requires WORD * high + low == bits
    ensures bits < MAX_BITS && LengthOctets(bits) == WordOctets(high) + WordOctets(low)
  {
    SplitWords(high, low, bits);
  }

  lemma SplitWords(high: Word, low: Word, bits: nat)
    requires WORD * high + low == bits
    ensures HighWord(bits) == high && bits % WORD == low
  {
  }

  lemma PaddingJoins(msg: seq<Octet>, processed: seq<Octet>, front: seq<Octet>)
    requires |msg| < MAX_OCTETS && processed + front == msg + [0x80] + ZeroBytes(ZerosNeeded(|msg|))
    ensures processed + (front + LengthOctets(8 * |msg|)) == msg + Padding(|msg|)
  {
    Associate(processed, front, LengthOctets(8 * |msg|));
    Associate(msg, [0x80] + ZeroBytes(ZerosNeeded(|msg|)), LengthOctets(8 * |msg|));
    Associate(msg, [0x80], ZeroBytes(ZerosNeeded(|msg|)));
  }

  lemma Associate(a: seq<Octet>, b: seq<Octet>, c: seq<Octet>)
    ensures a + (b + c) == a + b + c
  {
  }

  lemma PieceNext(was: seq<Octet>, data: seq<Octet>, i: nat)
    requires i < |data|
    ensures was + data[..i] + [data[i]] == was + data[..i + 1]
  {
  }

  lemma ZerosNext(data: seq<Octet>, n: nat)
    ensures data + ZeroBytes(n) + [0] == data + ZeroBytes(n + 1)
  {
  }

  lemma ZerosJoin(data: seq<Octet>, m: nat, n: nat)
    ensures data + ZeroBytes(m) + ZeroBytes(n) == data + ZeroBytes(m + n)
  {
  }

  function Joined(parts: seq<seq<Octet>>): seq<Octet>
  {
    if parts == [] then [] else Joined(parts[..|parts| - 1]) + parts[|parts| - 1]
  }

  /** However a message is split into pieces, the digest is the one-shot digest, and asking again gives it again;
      the pieces are refused exactly when they make 2^64 bits or more. */
  method HashPieces(parts: seq<seq<Octet>>) returns (ok: bool, digest: Hash, again: Hash)
    ensures ok <==> |Joined(parts)| < MAX_OCTETS
    ensures ok ==> digest == again == Digest(Sha1Compression(), Joined(parts))
  {
    var context := new Context();
    for i := 0 to |parts|
      invariant context.Valid() && !context.computed && fresh(context) && fresh(context.messageBlock)
      invariant context.corrupted <==> |Joined(parts[..i])| >= MAX_OCTETS
      invariant !context.corrupted ==> context.msg == Joined(parts[..i])
    {
      assert parts[..i + 1][..i] == parts[..i];
      context.Input(parts[i]);
    }
    assert parts[..|parts|] == parts;
    ok := context.Result();
    digest := context.digest;
    var ok' := context.Result();
    again := context.digest;
  }
}
