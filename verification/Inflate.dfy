/** The inflater: what one Huffman-coded block means, and the table-driven reader that computes it. */
module Inflate {
  import opened Arith
  import opened CanonicalCode
  import opened Deflate
  import opened ZHuffman

  // ---------------------------------------------------------------------------------------------
  // Meaning: the unread input is one number, low bits first, with zeros beyond its end
  // ---------------------------------------------------------------------------------------------

  datatype Outcome =
    | Done(buf: seq<byte>, zout: nat, rest: nat)
    | BadCode
    | BadDistance
    | NoRoom
    | BadHeader
    | BadType
    | OtherBlock // a stored block or one with its own codes, which this model stops at

  datatype Fields =
    | Fields(len: nat, dist: nat, rest: nat)
    | NoCode

  /** Reading zeros forever stops: they do not spell a length symbol without length. */
  predicate ZeroTailStops(lsz: seq<nat>)
  {
    Lookup(lsz, 0) < 286
  }

  /** A distance: its symbol, then its extra bits. */
  function ReadDistance(dsz: seq<nat>, r: nat, len: nat): Fields
    requires |dsz| <= 32
  {
    var d := Lookup(dsz, r);
    if d < 0 then NoCode else
      var r1 := Shr(r, dsz[d]);
      Fields(len, DIST_BASE[d] + Low(r1, DIST_EXTRA[d]), Shr(r1, DIST_EXTRA[d]))
  }

  /** The rest of a match after its length symbol z: extra length bits, then the distance. */
  function ReadFields(dsz: seq<nat>, r: nat, z: nat): Fields
    requires |dsz| <= 32 && 257 <= z < 288
  {
    var base, extra := LENGTH_BASE[z - 257], LENGTH_EXTRA[z - 257];
    ReadDistance(dsz, Shr(r, extra), base + Low(r, extra))
  }

  lemma ReadFieldsProgress(dsz: seq<nat>, r: nat, z: nat)
    requires |dsz| <= 32 && 257 <= z < 288
    ensures var f := ReadFields(dsz, r, z);
            f.Fields? ==> f.rest <= r && (z < 286 ==> f.len >= 3)
  {
    var r1 := Shr(r, LENGTH_EXTRA[z - 257]);
    ShrShrinks(r, LENGTH_EXTRA[z - 257]);
    var d := Lookup(dsz, r1);
    if d >= 0 {
      ShrShrinks(r1, dsz[d]);
      ShrShrinks(Shr(r1, dsz[d]), DIST_EXTRA[d]);
    }
    if z < 286 { LengthBaseLarge(z - 257); }
  }

  lemma LengthBaseLarge(j: nat)
    requires j < 29
    ensures LENGTH_BASE[j] >= 3
  {
  }

  /** Copies within the output buffer, byte by byte; distance 0 leaves it as it is. */
  function CopyOut(buf: seq<byte>, zout: nat, dist: nat, len: nat): (r: seq<byte>)
    requires dist <= zout && zout + len <= |buf|
    ensures |r| == |buf|
    decreases len
  {
    if len == 0 then buf else CopyOut(buf[zout := buf[zout - dist]], zout + 1, dist, len - 1)
  }

  datatype Step =
    | More(r: nat, buf: seq<byte>, zout: nat)
    | Stop(o: Outcome)

  /** One symbol, with the match that it may start. */
  function ReadSymbol(lsz: seq<nat>, dsz: seq<nat>, r: nat, buf: seq<byte>, zout: nat): (s: Step)
    requires |lsz| <= 288 && |dsz| <= 32 && zout <= |buf|
    ensures s.More? ==> s.zout <= |s.buf| == |buf|
  {
    var z := Lookup(lsz, r);
    if z < 0 then Stop(BadCode) else
      var r1 := Shr(r, lsz[z]);
      if z < 256 then
        if zout >= |buf| then Stop(NoRoom) else More(r1, buf[zout := z], zout + 1)
      else if z == END_OF_BLOCK then
        Stop(Done(buf, zout, r1))
      else
        CopyFields(ReadFields(dsz, r1, z), buf, zout)
  }

  function CopyFields(f: Fields, buf: seq<byte>, zout: nat): (s: Step)
    requires zout <= |buf|
    ensures s.More? ==> s.zout <= |s.buf| == |buf|
  {
    match f
    case NoCode => Stop(BadCode)
    case Fields(len, dist, rest) =>
      if zout < dist then Stop(BadDistance)
      else if zout + len > |buf| then Stop(NoRoom)
      else More(rest, CopyOut(buf, zout, dist, len), zout + len)
  }

  lemma ReadSymbolProgress(lsz: seq<nat>, dsz: seq<nat>, r: nat, buf: seq<byte>, zout: nat)
    requires |lsz| <= 288 && |dsz| <= 32 && zout <= |buf| && ZeroTailStops(lsz)
    ensures var s := ReadSymbol(lsz, dsz, r, buf, zout);
            s.More? ==> s.r < r || (s.r == r && s.zout > zout)
  {
    var z := Lookup(lsz, r);
    if z >= 0 {
      ShrShrinks(r, lsz[z]);
      if z > 256 {
        ReadFieldsProgress(dsz, Shr(r, lsz[z]), z);
      }
    }
  }

  /** One block with code lengths lsz and dsz, read from r into buf from position zout on. */
  function ReadBlock(lsz: seq<nat>, dsz: seq<nat>, r: nat, buf: seq<byte>, zout: nat): Outcome
    requires |lsz| <= 288 && |dsz| <= 32 && zout <= |buf| && ZeroTailStops(lsz)
    decreases r, |buf| - zout
  {
    ReadSymbolProgress(lsz, dsz, r, buf, zout);
    match ReadSymbol(lsz, dsz, r, buf, zout)
    case Stop(o) => o
    case More(r', buf', zout') => ReadBlock(lsz, dsz, r', buf', zout')
  }

  lemma {:induction false} ReadBlockRest(lsz: seq<nat>, dsz: seq<nat>, r: nat, buf: seq<byte>, zout: nat)
    requires |lsz| <= 288 && |dsz| <= 32 && zout <= |buf| && ZeroTailStops(lsz)
    ensures var o := ReadBlock(lsz, dsz, r, buf, zout);
            o.Done? ==> o.rest <= r && o.zout <= |o.buf| == |buf|
    decreases r, |buf| - zout
  {
    ReadSymbolProgress(lsz, dsz, r, buf, zout);
    var s := ReadSymbol(lsz, dsz, r, buf, zout);
    match s
    case More(r', buf', zout') => ReadBlockRest(lsz, dsz, r', buf', zout');
    case Stop(_) =>
      var z := Lookup(lsz, r);
      if z >= 0 { ShrShrinks(r, lsz[z]); }
  }

  /** In the fixed code, zeros spell the end of the block. */
  lemma FixedStops()
    ensures ZeroTailStops(FixedLengths())
  {
    FixedFits();
    EndBitsAreWord();
    ShlIsMul(0, 7);
    DecodeWord(FixedLengths(), END_OF_BLOCK, 0);
  }

  /** A block of the stream: the final bit, the kind, the contents. */
  function ReadOneBlock(r: nat, buf: seq<byte>, zout: nat): Outcome
    requires zout <= |buf|
  {
    var kind, r' := Low(Shr(r, 1), 2), Shr(Shr(r, 1), 2);
    if kind == 3 then BadType
    else if kind != 1 then OtherBlock
    else
      FixedStops();
      ReadBlock(FixedLengths(), FixedDistances(), r', buf, zout)
  }

  /** The blocks up to and including the final one. */
  function ReadStream(r: nat, buf: seq<byte>, zout: nat): Outcome
    requires zout <= |buf|
    decreases r
  {
    var o := ReadOneBlock(r, buf, zout);
    ReadOneBlockShrinks(r, buf, zout);
    if o.Done? && Low(r, 1) != 1 then ReadStream(o.rest, o.buf, o.zout) else o
  }

  lemma ReadOneBlockShrinks(r: nat, buf: seq<byte>, zout: nat)
    requires zout <= |buf|
    ensures var o := ReadOneBlock(r, buf, zout);
            o.Done? ==> o.rest < r && o.zout <= |o.buf| == |buf|
  {
    BlockHeaderShrinks(r);
    if Low(Shr(r, 1), 2) == 1 {
      FixedStops();
      ReadBlockRest(FixedLengths(), FixedDistances(), Shr(Shr(r, 1), 2), buf, zout);
    }
  }

  /** ReadStream, unfolded once. */
  lemma ReadStreamStep(r: nat, buf: seq<byte>, zout: nat)
    requires zout <= |buf|
    ensures var o := ReadOneBlock(r, buf, zout);
      && (o.Done? ==> o.rest < r && o.zout <= |o.buf|)
      && ReadStream(r, buf, zout) == if o.Done? && Low(r, 1) != 1 then ReadStream(o.rest, o.buf, o.zout) else o
  {
    ReadOneBlockShrinks(r, buf, zout);
  }

  lemma BlockHeaderShrinks(r: nat)
    ensures Shr(Shr(r, 1), 2) <= r
    ensures Low(Shr(r, 1), 2) == 1 ==> Shr(Shr(r, 1), 2) < r
  {
    ShrShrinks(r, 1);
    ShrShrinks(Shr(r, 1), 2);
  }

  /** Section 2.2 of RFC 1950: check bits, no preset dictionary, method 8. */
  predicate HeaderOK(cmf: nat, flg: nat)
  {
    (cmf * 256 + flg) % 31 == 0 && (flg / 32) % 2 == 0 && cmf % 16 == 8
  }

  function ByteAt(input: seq<byte>, i: nat): byte
  {
    if i < |input| then input[i] else 0
  }

  /** What decoding a whole zlib stream into a fixed buffer means. */
  function Decode(input: seq<byte>, buf: seq<byte>): Outcome
  {
    if !HeaderOK(ByteAt(input, 0), ByteAt(input, 1)) then BadHeader
    else ReadStream(LEVal(if |input| <= 2 then [] else input[2..]), buf, 0)
  }

  // ---------------------------------------------------------------------------------------------
  // The reader
  // ---------------------------------------------------------------------------------------------

  datatype Status = Good | ErrCode | ErrDistance | ErrRoom | ErrHeader | ErrType | ErrOther

  function BlockStatus(o: Outcome): Status
  {
    match o
    case Done(_, _, _) => Good
    case BadCode => ErrCode
    case BadDistance => ErrDistance
    case NoRoom => ErrRoom
    case BadHeader => ErrHeader
    case BadType => ErrType
    case OtherBlock => ErrOther
  }

  class ZBuf {
    const zbuffer: seq<byte>
    var zpos: nat
    var numBits: nat
    var codeBuffer: nat
    const outbuf: array<byte>
    var zout: nat
    const zLength: Table
    const zDistance: Table

    ghost predicate Valid()
      reads this
    {
      && zpos <= |zbuffer| && zout <= outbuf.Length
      && numBits <= 32 && codeBuffer < Pow2(numBits)
      && zLength.Valid() && zDistance.Valid()
      && zLength.Repr() !! zDistance.Repr()
      && (outbuf as object) !in zLength.Repr() && (outbuf as object) !in zDistance.Repr()
    }

    /** The unread input as a number. */
    ghost function Remaining(): nat
      requires zpos <= |zbuffer|
      reads this
    {
      codeBuffer + Shl(LEVal(zbuffer[zpos..]), numBits)
    }

    constructor (input: seq<byte>, output: array<byte>)
      ensures Valid() && zbuffer == input && outbuf == output
      ensures zpos == 0 && zout == 0
      ensures fresh(zLength.Repr()) && fresh(zDistance.Repr())
    {
      zbuffer := input;
      zpos, numBits, codeBuffer := 0, 0, 0;
      outbuf := output;
      zout := 0;
      var l := new Table();
      var d := new Table();
      zLength := l;
      zDistance := d;
    }

    method Get8() returns (b: byte)
      requires zpos <= |zbuffer|
      modifies this`zpos
      ensures b == ByteAt(zbuffer, old(zpos))
      ensures zpos == if old(zpos) < |zbuffer| then old(zpos) + 1 else old(zpos)
      ensures LEVal(zbuffer[old(zpos)..]) == b + 256 * LEVal(zbuffer[zpos..])
    {
      if zpos >= |zbuffer| {
        return 0;
      }
      b := zbuffer[zpos];
      assert zbuffer[zpos..][1..] == zbuffer[zpos + 1..];
      zpos := zpos + 1;
    }

    /** Tops the bit buffer up; the 32-bit buffer never overflows. */
    method FillBits()
      requires Valid() && numBits <= 24
      modifies this`zpos, this`numBits, this`codeBuffer
      ensures Valid() && numBits > 24
      ensures Remaining() == old(Remaining())
    {
      FillByte();
      while numBits <= 24
        invariant Valid()
        invariant Remaining() == old(Remaining())
        decreases 32 - numBits
      {
        FillByte();
      }
    }

    method FillByte()
      requires Valid() && numBits <= 24
      modifies this`zpos, this`numBits, this`codeBuffer
      ensures Valid() && numBits == old(numBits) + 8
      ensures Remaining() == old(Remaining())
    {
      var b := Get8();
      OrDisjoint(codeBuffer, numBits, b);
      FillValue(codeBuffer, b, LEVal(zbuffer[zpos..]), numBits);
      codeBuffer := Or(codeBuffer, Shl(b, numBits));
      numBits := numBits + 8;
    }

    method Receive(n: nat) returns (k: nat)
      requires Valid() && n <= 24
      modifies this`zpos, this`numBits, this`codeBuffer
      ensures Valid()
      ensures k == Low(old(Remaining()), n) && Remaining() == Shr(old(Remaining()), n)
    {
      if numBits < n {
        FillBits();
      }
      k := Low(codeBuffer, n);
      Consume(n);
    }

    /** Drops n bits that are in the buffer. */
    method Consume(n: nat)
      requires Valid() && n <= numBits
      modifies this`numBits, this`codeBuffer
      ensures Valid() && numBits == old(numBits) - n
      ensures Low(old(codeBuffer), n) == Low(old(Remaining()), n)
      ensures Remaining() == Shr(old(Remaining()), n)
    {
      SplitFront(codeBuffer, LEVal(zbuffer[zpos..]), numBits, n);
      codeBuffer := Shr(codeBuffer, n);
      numBits := numBits - n;
    }

    /** Decodes one symbol, short codes by the fast table, longer ones by the per-length limits. */
    method HuffmanDecode(t: Table, ghost sz: seq<nat>) returns (sym: int)
      requires Valid() && t.Valid() && t.Represents(sz)
      modifies this`zpos, this`numBits, this`codeBuffer
      ensures Valid()
      ensures sym == Lookup(sz, old(Remaining()))
      ensures Remaining() == if sym < 0 then old(Remaining()) else Shr(old(Remaining()), sz[sym])
    {
      if numBits < 16 {
        FillBits();
      }
      var b := FastLookup(t);
      assert FastEntry(t.fast[..][Low(Remaining(), FAST_BITS)], sz, |sz|, Low(Remaining(), FAST_BITS));
      if b != 0 {
        FastHit(b, sz, Remaining());
        Consume(b / 512);
        return b % 512;
      }
      FastMiss(sz, Remaining());
      sym := HuffmanDecodeSlowpath(t, sz);
    }

    method FastLookup(t: Table) returns (b: nat)
      requires Valid() && numBits >= 16 && t.Valid()
      ensures Low(Remaining(), FAST_BITS) < 512 && b == t.fast[Low(Remaining(), FAST_BITS)]
    {
      SplitFront(codeBuffer, LEVal(zbuffer[zpos..]), numBits, FAST_BITS);
      assert Pow2(9) == 512;
      b := t.fast[Low(codeBuffer, FAST_BITS)];
    }

    method HuffmanDecodeSlowpath(t: Table, ghost sz: seq<nat>) returns (sym: int)
      requires Valid() && numBits >= 16 && t.Valid() && t.Represents(sz)
      requires Rev(16, Remaining()) >= Limit(sz, FAST_BITS)
      modifies this`zpos, this`numBits, this`codeBuffer
      ensures Valid()
      ensures sym == Lookup(sz, old(Remaining()))
      ensures Remaining() == if sym < 0 then old(Remaining()) else Shr(old(Remaining()), sz[sym])
    {
      ghost var r := Remaining();
      var k := Rev(16, codeBuffer);
      SameReversal(codeBuffer, LEVal(zbuffer[zpos..]), numBits);
      var s := LongLength(t, sz, k);
      if s == 16 {
        NoMatch(sz, r);
        return -1;
      }
      var b: nat := SlowRow(t, sz, s, k, r);
      Consume(s);
      return t.value[b];
    }

    /** The row of the symbol, from where the codes of its length start. */
    method SlowRow(t: Table, ghost sz: seq<nat>, s: nat, k: nat, ghost r: nat) returns (b: nat)
      requires t.Valid() && t.Represents(sz) && 1 <= s <= 15
      requires k == Rev(16, r) && Limit(sz, s - 1) <= k < Limit(sz, s)
      ensures b < t.size.Length && b < t.value.Length && t.size[b] == s
      ensures 0 <= Lookup(sz, r) < |sz| && t.value[b] == Lookup(sz, r) && sz[Lookup(sz, r)] == s
    {
      ghost var i := SlowHit(sz, s, r);
      RankBound(sz, i);
      b := Shr(k, 16 - s) - t.firstcode[s] + t.firstsymbol[s];
    }

    /** The shortest length above nine bits whose limit lies above k. */
    method LongLength(t: Table, ghost sz: seq<nat>, k: nat) returns (s: nat)
      requires t.Valid() && t.Represents(sz)
      requires Limit(sz, FAST_BITS) <= k < 65536
      ensures FAST_BITS < s <= 16
      ensures Limit(sz, s - 1) <= k && (s < 16 ==> k < Limit(sz, s))
    {
      s := FAST_BITS + 1;
      while k >= t.maxcode[s]
        invariant FAST_BITS < s <= 16
        invariant k >= Limit(sz, s - 1)
        decreases 16 - s
      {
        s := s + 1;
      }
    }

    method CopyMatch(zo: nat, dist: nat, len: nat)
      requires dist <= zo && zo + len <= outbuf.Length
      modifies outbuf
      ensures outbuf[..] == CopyOut(old(outbuf[..]), zo, dist, len)
    {
      ghost var was := outbuf[..];
      if dist == 1 {
        var v := outbuf[zo - 1];
        for i := 0 to len
          invariant outbuf[zo - 1 + i] == v
          invariant CopyOut(outbuf[..], zo + i, dist, len - i) == CopyOut(was, zo, dist, len)
        {
          outbuf[zo + i] := v;
        }
      } else {
        for i := 0 to len
          invariant CopyOut(outbuf[..], zo + i, dist, len - i) == CopyOut(was, zo, dist, len)
        {
          outbuf[zo + i] := outbuf[zo - dist + i];
        }
      }
    }

    /** Reads the fields of a match after its length symbol z. */
    method ReadMatch(z: nat, ghost dsz: seq<nat>) returns (code: bool, len: nat, dist: nat)
      requires Valid() && 257 <= z < 288 && |dsz| <= 32 && zDistance.Represents(dsz)
      modifies this`zpos, this`numBits, this`codeBuffer
      ensures Valid()
      ensures ReadFields(dsz, old(Remaining()), z) ==
        if code then Fields(len, dist, Remaining()) else NoCode
    {
      len := ReadExtra(LENGTH_BASE[z - 257], LENGTH_EXTRA[z - 257]);
      code, dist := ReadDistanceCode(dsz, len);
    }

    method ReadDistanceCode(ghost dsz: seq<nat>, ghost len: nat) returns (code: bool, dist: nat)
      requires Valid() && |dsz| <= 32 && zDistance.Represents(dsz)
      modifies this`zpos, this`numBits, this`codeBuffer
      ensures Valid()
      ensures ReadDistance(dsz, old(Remaining()), len) ==
        if code then Fields(len, dist, Remaining()) else NoCode
    {
      var d := HuffmanDecode(zDistance, dsz);
      if d < 0 {
        return false, 0;
      }
      DistExtraSmall(d);
      dist := ReadExtra(DIST_BASE[d], DIST_EXTRA[d]);
      code := true;
    }

    /** One Huffman-coded block. The write position is stored back only at its end. */
    method ParseHuffmanBlock(ghost lsz: seq<nat>, ghost dsz: seq<nat>) returns (st: Status)
      requires Valid() && zLength.Represents(lsz) && zDistance.Represents(dsz)
      requires |dsz| <= 32 && ZeroTailStops(lsz)
      modifies this`zpos, this`numBits, this`codeBuffer, this`zout, outbuf
      ensures Valid()
      ensures var o := ReadBlock(lsz, dsz, old(Remaining()), old(outbuf[..]), old(zout));
              st == BlockStatus(o) && (o.Done? ==> o == Done(outbuf[..], zout, Remaining()))
    {
      ghost var goal := ReadBlock(lsz, dsz, Remaining(), outbuf[..], zout);
      var zo: nat := zout;
      var more := true;
      st := Good;
      while more
        invariant Valid() && zo <= outbuf.Length
        invariant zLength.Represents(lsz) && zDistance.Represents(dsz)
        invariant more ==> ReadBlock(lsz, dsz, Remaining(), outbuf[..], zo) == goal
        invariant !more ==> st == BlockStatus(goal)
        invariant !more && goal.Done? ==> goal == Done(outbuf[..], zo, Remaining())
        decreases more, Remaining(), outbuf.Length - zo
      {
        ReadSymbolProgress(lsz, dsz, Remaining(), outbuf[..], zo);
        more, st, zo := ParseSymbol(zo, lsz, dsz);
      }
      if st == Good {
        zout := zo;
      }
    }

    /** One turn of the loop of ParseHuffmanBlock. */
    method ParseSymbol(zo: nat, ghost lsz: seq<nat>, ghost dsz: seq<nat>) returns (more: bool, st: Status, zo': nat)
      requires Valid() && zLength.Represents(lsz) && zDistance.Represents(dsz)
      requires |dsz| <= 32 && zo <= outbuf.Length
      modifies this`zpos, this`numBits, this`codeBuffer, outbuf
      ensures Valid() && zo' <= outbuf.Length
      ensures var s := ReadSymbol(lsz, dsz, old(Remaining()), old(outbuf[..]), zo);
              if more then s == More(Remaining(), outbuf[..], zo')
              else s.Stop? && st == BlockStatus(s.o) && (s.o.Done? ==> s.o == Done(outbuf[..], zo', Remaining()))
    {
      var z := HuffmanDecode(zLength, lsz);
      if z < 0 {
        return false, ErrCode, zo;
      }
      if z < 256 {
        if zo >= outbuf.Length {
          return false, ErrRoom, zo;
        }
        outbuf[zo] := z;
        return true, Good, zo + 1;
      }
      if z == END_OF_BLOCK {
        return false, Good, zo;
      }
      more, st, zo' := ParseMatch(z, zo, dsz);
    }

    method ParseMatch(z: nat, zo: nat, ghost dsz: seq<nat>) returns (more: bool, st: Status, zo': nat)
      requires Valid() && 257 <= z < 288 && |dsz| <= 32 && zDistance.Represents(dsz) && zo <= outbuf.Length
      modifies this`zpos, this`numBits, this`codeBuffer, outbuf
      ensures Valid() && zo' <= outbuf.Length
      ensures var s := CopyFields(ReadFields(dsz, old(Remaining()), z), old(outbuf[..]), zo);
              if more then s == More(Remaining(), outbuf[..], zo')
              else s.Stop? && st == BlockStatus(s.o) && !s.o.Done?
    {
      var code, len, dist := ReadMatch(z, dsz);
      if !code {
        return false, ErrCode, zo;
      }
      if zo < dist {
        return false, ErrDistance, zo;
      }
      if zo + len > outbuf.Length {
        return false, ErrRoom, zo;
      }
      CopyMatch(zo, dist, len);
      return true, Good, zo + len;
    }

    method ParseZlibHeader() returns (ok: bool)
      requires Valid() && zpos == 0
      modifies this`zpos
      ensures Valid()
      ensures zbuffer[zpos..] == if |zbuffer| <= 2 then [] else zbuffer[2..]
      ensures ok == HeaderOK(ByteAt(zbuffer, 0), ByteAt(zbuffer, 1))
    {
      var cmf: nat := Get8();
      var flg: nat := Get8();
      return HeaderOK(cmf, flg);
    }

    method StartBits()
      requires Valid()
      modifies this`numBits, this`codeBuffer
      ensures Valid() && Remaining() == LEVal(zbuffer[zpos..])
    {
      numBits := 0;
      codeBuffer := 0;
    }

    /** The blocks, one after the other. */
    method ParseBlocks() returns (st: Status)
      requires Valid()
      modifies this`zpos, this`numBits, this`codeBuffer, this`zout, outbuf, zLength.Repr(), zDistance.Repr()
      ensures Valid()
      ensures var o := ReadStream(old(Remaining()), old(outbuf[..]), old(zout));
              st == BlockStatus(o) && (o.Done? ==> o == Done(outbuf[..], zout, Remaining()))
    {
      ghost var goal := ReadStream(Remaining(), outbuf[..], zout);
      var more := true;
      st := Good;
      while more
        invariant Valid()
        invariant more ==> ReadStream(Remaining(), outbuf[..], zout) == goal
        invariant !more ==> st == BlockStatus(goal)
        invariant !more && goal.Done? ==> goal == Done(outbuf[..], zout, Remaining())
        decreases more, Remaining()
      {
        more, st := NextBlock(goal);
      }
    }

    /** The next block, on the way to the end of the stream. */
    method NextBlock(ghost goal: Outcome) returns (more: bool, st: Status)
      requires Valid() && ReadStream(Remaining(), outbuf[..], zout) == goal
      modifies this`zpos, this`numBits, this`codeBuffer, this`zout, outbuf, zLength.Repr(), zDistance.Repr()
      ensures Valid()
      ensures more ==> ReadStream(Remaining(), outbuf[..], zout) == goal && Remaining() < old(Remaining())
      ensures !more ==> st == BlockStatus(goal) && (goal.Done? ==> goal == Done(outbuf[..], zout, Remaining()))
    {
      ReadStreamStep(Remaining(), outbuf[..], zout);
      more, st := ParseBlock();
    }

    /** One turn of the loop of ParseBlocks: the three header bits, then the block. */
    method ParseBlock() returns (more: bool, st: Status)
      requires Valid()
      modifies this`zpos, this`numBits, this`codeBuffer, this`zout, outbuf, zLength.Repr(), zDistance.Repr()
      ensures Valid()
      ensures var o := ReadOneBlock(old(Remaining()), old(outbuf[..]), old(zout));
              st == BlockStatus(o) && (o.Done? ==> o == Done(outbuf[..], zout, Remaining()))
      ensures more <==> st == Good && Low(old(Remaining()), 1) != 1
    {
      var final := Receive(1);
      var kind := Receive(2);
      if kind == 3 {
        return false, ErrType;
      }
      if kind != 1 {
        return false, ErrOther;
      }
      FixedFits();
      FixedStops();
      st := ParseBlockWith(FixedLengths(), FixedDistances());
      more := st == Good && final != 1;
    }

    /** Builds both tables and reads the block they are for. */
    method ParseBlockWith(lsz: seq<nat>, dsz: seq<nat>) returns (st: Status)
      requires Valid() && SizeList(lsz) && SizeList(dsz) && Fits(lsz) && Fits(dsz)
      requires |dsz| <= 32 && ZeroTailStops(lsz)
      modifies this`zpos, this`numBits, this`codeBuffer, this`zout, outbuf, zLength.Repr(), zDistance.Repr()
      ensures Valid()
      ensures var o := ReadBlock(lsz, dsz, old(Remaining()), old(outbuf[..]), old(zout));
              st == BlockStatus(o) && (o.Done? ==> o == Done(outbuf[..], zout, Remaining()))
    {
      var ok := zLength.Build(lsz);
      ok := zDistance.Build(dsz);
      st := ParseHuffmanBlock(lsz, dsz);
    }

    method ReadExtra(base: nat, extra: nat) returns (v: nat)
      requires Valid() && extra <= 24
      modifies this`zpos, this`numBits, this`codeBuffer
      ensures Valid()
      ensures v == base + Low(old(Remaining()), extra) && Remaining() == Shr(old(Remaining()), extra)
    {
      v := base;
      if extra != 0 {
        var x := Receive(extra);
        v := v + x;
      } else {
        ShrZero(Remaining());
      }
    }
  }

  lemma DistExtraSmall(d: nat)
    requires d < 32
    ensures DIST_EXTRA[d] <= 13
  {
  }

  lemma ShrZero(r: nat)
    ensures Shr(r, 0) == r && Low(r, 0) == 0
  {
  }

  lemma LowOfLow(r: nat, m: nat, n: nat)
    requires m <= n
    ensures Low(Low(r, n), m) == Low(r, m)
  {
    Pow2Add(m, n - m);
    ModOfMod(r, Pow2(m), Pow2(n - m));
  }

  /** An entry of the fast table is the symbol that the whole input starts with. */
  lemma FastHit(e: nat, sz: seq<nat>, r: nat)
    requires SizeList(sz) && Fits(sz) && e != 0 && FastEntry(e, sz, |sz|, Low(r, FAST_BITS))
    ensures e % 512 == Lookup(sz, r) && e / 512 == sz[e % 512] <= FAST_BITS
  {
    LowOfLow(r, e / 512, FAST_BITS);
    LookupIs(sz, e % 512, r);
  }

  /** Without an entry, the input lies above all short codes. */
  lemma FastMiss(sz: seq<nat>, r: nat)
    requires SizeList(sz) && Fits(sz) && FastEntry(0, sz, |sz|, Low(r, FAST_BITS))
    ensures Rev(16, r) >= Limit(sz, FAST_BITS)
  {
    if Rev(16, r) < Limit(sz, FAST_BITS) {
      var i := Covered(sz, FAST_BITS, r);
      LowOfLow(r, sz[i], FAST_BITS);
      assert Matches(sz, i, Low(r, FAST_BITS));
    }
  }

  /** Between two limits lies exactly the symbol at the computed rank. */
  lemma SlowHit(sz: seq<nat>, s: nat, r: nat) returns (i: nat)
    requires SizeList(sz) && Fits(sz) && 1 <= s <= 15
    requires Limit(sz, s - 1) <= Rev(16, r) < Limit(sz, s)
    ensures i < |sz| && sz[i] == s && i == Lookup(sz, r)
    ensures Shr(Rev(16, r), 16 - s) - FirstCode(sz, s) + FirstSymbol(sz, s) == Rank(sz, i)
  {
    i := OwnerExists(sz, s, Rev(16, r));
    OwnerMatches(sz, i, r);
    LookupIs(sz, i, r);
  }

  lemma SameReversal(c: nat, v: nat, m: nat)
    requires m >= 16 && c < Pow2(m)
    ensures Rev(16, c) == Rev(16, c + Shl(v, m)) < 65536
  {
    Pow2Values();
    SplitFront(c, v, m, 16);
    RevLow(16, c);
    RevLow(16, c + Shl(v, m));
  }

  lemma FillValue(c: nat, b: nat, v: nat, n: nat)
    requires c < Pow2(n) && b < 256
    ensures c + Shl(b, n) < Pow2(n + 8)
    ensures c + Shl(b + 256 * v, n) == c + Shl(b, n) + Shl(v, n + 8)
  {
    Pow2Values();
    ShlBound(c, b, 8, n);
    ShlAdd(b, 256 * v, n);
    ShlIsMul(v, 8);
    ShlShl(v, 8, n);
  }

  /** Taking n bits off the buffer takes them off the whole number. */
  lemma SplitFront(c: nat, v: nat, m: nat, n: nat)
    requires n <= m && c < Pow2(m)
    ensures Low(c + Shl(v, m), n) == Low(c, n)
    ensures Shr(c + Shl(v, m), n) == Shr(c, n) + Shl(v, m - n)
    ensures Shr(c, n) < Pow2(m - n)
  {
    SplitSum(c, v, m - n, n, m);
    ShrBound(c, n, m - n);
  }

  lemma SplitSum(c: nat, v: nat, d: nat, n: nat, m: nat)
    requires m == d + n
    ensures Low(c + Shl(v, m), n) == Low(c, n)
    ensures Shr(c + Shl(v, m), n) == Shr(c, n) + Shl(v, d)
  {
    ShlShl(v, d, n);
    ShrLow(c, n);
    FrontOf(Low(c, n), Shr(c, n), Shl(v, d), n);
  }

  lemma FrontOf(low: nat, high: nat, w: nat, n: nat)
    requires low < Pow2(n)
    ensures Low(low + Shl(high, n) + Shl(w, n), n) == low
    ensures Shr(low + Shl(high, n) + Shl(w, n), n) == high + w
  {
    ShlAdd(high, w, n);
    ShrLowUnique(low, high + w, n);
  }

  lemma DecodeIs(input: seq<byte>, buf: seq<byte>, r: nat)
    requires HeaderOK(ByteAt(input, 0), ByteAt(input, 1))
    requires r == LEVal(if |input| <= 2 then [] else input[2..])
    ensures Decode(input, buf) == ReadStream(r, buf, 0)
  {
  }

  /** stbi_zlib_decode_buffer: the number of bytes written, or -1. */
  method DecodeBuffer(obuffer: array<byte>, ibuffer: seq<byte>) returns (n: int)
    modifies obuffer
    ensures var o := Decode(ibuffer, old(obuffer[..]));
            if o.Done? then n == o.zout && obuffer[..] == o.buf else n == -1
  {
    var a := new ZBuf(ibuffer, obuffer);
    var ok := a.ParseZlibHeader();
    if !ok {
      return -1;
    }
    a.StartBits();
    DecodeIs(ibuffer, obuffer[..], a.Remaining());
    var st := a.ParseBlocks();
    n := if st == Good then a.zout else -1;
  }
}
