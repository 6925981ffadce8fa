/** A scanline known in advance pins the format of the HDR rows: the marks, the count bytes of runs and dumps, and the
    order of the planes. */
module HdrAnswer {
  import opened Arith
  import opened Wrappers
  import opened Hdr

  lemma OnePieceOf(p: Piece, ps: seq<Piece>)
    requires ValidPiece(p) && ps == [p]
    ensures ValidPieces(ps) && Data(ps) == PieceData(p) && Bytes(ps) == PieceBytes(p)
  {
    assert ps[1..] == [];
  }

  lemma TwoPieces(p: Piece, q: Piece, ps: seq<Piece>)
    requires ValidPiece(p) && ValidPiece(q) && ps == [p, q]
    ensures ValidPieces(ps) && Data(ps) == PieceData(p) + PieceData(q) && Bytes(ps) == PieceBytes(p) + PieceBytes(q)
  {
    assert ps[1..] == [q];
    OnePieceOf(q, ps[1..]);
  }

  /** One run, of eight. */
  lemma RunPlane(input: seq<byte>, pos: nat, n: nat, v: byte, plane: seq<byte>)
    requires n == 8 && LiesAt(input, pos, [136, v]) && plane == [v, v, v, v, v, v, v, v]
    ensures ReadPlane(input, pos, [], n) == Some((plane, pos + 2))
  {
    OnePieceOf(Run(n, v), [Run(n, v)]);
    assert PieceBytes(Run(n, v)) == [136, v] && Repeat(n, v) == plane;
    PiecesRead(input, pos, [Run(n, v)], [], n, plane, pos + 2);
  }

  /** One dump, of eight. */
  lemma DumpPlane(input: seq<byte>, pos: nat, n: nat, d: seq<byte>)
    requires n == 8 == |d| && LiesAt(input, pos, [8] + d)
    ensures ReadPlane(input, pos, [], n) == Some((d, pos + 9))
  {
    OnePieceOf(Dump(d), [Dump(d)]);
    assert [] + d == d;
    PiecesRead(input, pos, [Dump(d)], [], n, d, pos + 9);
  }

  /** A run of three and a dump of five. */
  lemma MixedPlane(input: seq<byte>, pos: nat, n: nat, v: byte, d: seq<byte>)
    requires n == 8 && |d| == 5 && LiesAt(input, pos, [131, v] + ([5] + d))
    ensures ReadPlane(input, pos, [], n) == Some(([v, v, v] + d, pos + 8))
  {
    var k := n - 5;
    TwoPieces(Run(k, v), Dump(d), [Run(k, v), Dump(d)]);
    assert PieceBytes(Run(k, v)) == [131, v] && Repeat(k, v) == [v, v, v];
    assert [] + ([v, v, v] + d) == [v, v, v] + d;
    PiecesRead(input, pos, [Run(k, v), Dump(d)], [], n, [v, v, v] + d, pos + 8);
  }

  lemma RowLies(input: seq<byte>, width: nat)
    requires width == 8 && input ==
      [2, 2, 0, 8] + [136, 5] + [8, 10, 11, 12, 13, 14, 15, 16, 17] + [131, 7, 5, 20, 21, 22, 23, 24] + [136, 130]
    ensures !Flat(width) && HeaderAt(input, 0, width) && |input| == 25
    ensures LiesAt(input, 4, [136, 5]) && LiesAt(input, 6, [8] + [10, 11, 12, 13, 14, 15, 16, 17])
    ensures LiesAt(input, 15, [131, 7] + ([5] + [20, 21, 22, 23, 24])) && LiesAt(input, 23, [136, 130])
  {
  }

  lemma PlanesOfRow(input: seq<byte>, width: nat, c0: seq<byte>, c1: seq<byte>, c2: seq<byte>, c3: seq<byte>)
    requires !Flat(width) && HeaderAt(input, 0, width) && |input| == 25
    requires |c0| == |c1| == |c2| == |c3| == width
    requires ReadPlane(input, 4, [], width) == Some((c0, 6)) && ReadPlane(input, 6, [], width) == Some((c1, 15))
    requires ReadPlane(input, 15, [], width) == Some((c2, 23)) && ReadPlane(input, 23, [], width) == Some((c3, 25))
    ensures ReadRow(input, 0, width) == Some((Interleaved(c0, c1, c2, c3), 25))
  {
  }

  /** Eight pixels: the first component everywhere 5, the second counting from 10, the third 7 three times and then
      counting from 20, the exponents everywhere 130. */
  lemma KnownRow(input: seq<byte>, row: seq<byte>, width: nat)
    requires width == 8 && input ==
      [2, 2, 0, 8] + [136, 5] + [8, 10, 11, 12, 13, 14, 15, 16, 17] + [131, 7, 5, 20, 21, 22, 23, 24] + [136, 130]
    requires row == [
      5, 10, 7, 130, 5, 11, 7, 130, 5, 12, 7, 130, 5, 13, 20, 130,
      5, 14, 21, 130, 5, 15, 22, 130, 5, 16, 23, 130, 5, 17, 24, 130]
    ensures ReadRow(input, 0, width) == Some((row, 25))
  {
    var fives: seq<byte> := [5, 5, 5, 5, 5, 5, 5, 5];
    var tens: seq<byte> := [10, 11, 12, 13, 14, 15, 16, 17];
    var twenties: seq<byte> := [20, 21, 22, 23, 24];
    var ends: seq<byte> := [130, 130, 130, 130, 130, 130, 130, 130];
    RowLies(input, width);
    RunPlane(input, 4, width, 5, fives);
    DumpPlane(input, 6, width, tens);
    MixedPlane(input, 15, width, 7, twenties);
    RunPlane(input, 23, width, 130, ends);
    PlanesOfRow(input, width, fives, tens, [7, 7, 7] + twenties, ends);
    Rows(row, fives, tens, [7, 7, 7] + twenties, ends);
  }

  lemma Rows(row: seq<byte>, c0: seq<byte>, c1: seq<byte>, c2: seq<byte>, c3: seq<byte>)
    requires c0 == [5, 5, 5, 5, 5, 5, 5, 5] && c1 == [10, 11, 12, 13, 14, 15, 16, 17]
    requires c2 == [7, 7, 7] + [20, 21, 22, 23, 24] && c3 == [130, 130, 130, 130, 130, 130, 130, 130]
    requires row == [
      5, 10, 7, 130, 5, 11, 7, 130, 5, 12, 7, 130, 5, 13, 20, 130,
      5, 14, 21, 130, 5, 15, 22, 130, 5, 16, 23, 130, 5, 17, 24, 130]
    ensures Interleaved(c0, c1, c2, c3) == row
  {
  }
}
