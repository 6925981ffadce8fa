/** The scanlines of the HDR writer and reader: four planes, each as runs and dumps. A pixel is four bytes. */
module Hdr {
  import opened Arith
  import opened Wrappers

  // ---------------------------------------------------------------------------------------------
  // Runs and dumps
  // ---------------------------------------------------------------------------------------------

  datatype Piece =
    | Run(len: nat, value: byte)
    | Dump(data: seq<byte>)

  /** The lengths that the count byte can say: 129 to 255 for runs, 1 to 128 for dumps. */
  predicate ValidPiece(p: Piece)
  {
    match p
    case Run(len, _) => 1 <= len <= 127
    case Dump(data) => 1 <= |data| <= 128
  }

  function Repeat(n: nat, v: byte): (s: seq<byte>)
    ensures |s| == n && forall z :: 0 <= z < n ==> s[z] == v
  {
    if n == 0 then [] else Repeat(n - 1, v) + [v]
  }

  function PieceData(p: Piece): seq<byte>
  {
    match p
    case Run(len, value) => Repeat(len, value)
    case Dump(data) => data
  }

  function PieceBytes(p: Piece): (s: seq<byte>)
    requires ValidPiece(p)
    ensures |s| > 0
  {
    match p
    case Run(len, value) => [len + 128, value]
    case Dump(data) => [|data|] + data
  }

  predicate ValidPieces(ps: seq<Piece>)
  {
    forall i :: 0 <= i < |ps| ==> ValidPiece(ps[i])
  }

  function Data(ps: seq<Piece>): seq<byte>
  {
    if ps == [] then [] else PieceData(ps[0]) + Data(ps[1..])
  }

  function Bytes(ps: seq<Piece>): seq<byte>
    requires ValidPieces(ps)
  {
    if ps == [] then [] else PieceBytes(ps[0]) + Bytes(ps[1..])
  }

  lemma {:induction false} PiecesSnoc(ps: seq<Piece>, p: Piece)
    requires ValidPieces(ps) && ValidPiece(p)
    ensures ValidPieces(ps + [p])
    ensures Data(ps + [p]) == Data(ps) + PieceData(p) && Bytes(ps + [p]) == Bytes(ps) + PieceBytes(p)
  {
    if ps == [] {
      assert [p][1..] == [] && ps + [p] == [p];
    } else {
      assert (ps + [p])[1..] == ps[1..] + [p];
      PiecesSnoc(ps[1..], p);
      SumsAssociate(PieceData(ps[0]), Data(ps[1..]), PieceData(p));
      SumsAssociate(PieceBytes(ps[0]), Bytes(ps[1..]), PieceBytes(p));
    }
  }

  lemma SumsAssociate(a: seq<byte>, b: seq<byte>, c: seq<byte>)
    ensures a + (b + c) == a + b + c
  {
  }

  // ---------------------------------------------------------------------------------------------
  // What reading means
  // ---------------------------------------------------------------------------------------------

  /** The next byte; zero at the end. */
  function ByteAt(input: seq<byte>, pos: nat): byte
  {
    if pos < |input| then input[pos] else 0
  }

  function Advance(input: seq<byte>, pos: nat, n: nat): nat
  {
    if pos + n <= |input| then pos + n else |input|
  }

  function NextBytes(input: seq<byte>, pos: nat, n: nat): (s: seq<byte>)
    ensures |s| == n && forall z :: 0 <= z < n ==> s[z] == ByteAt(input, pos + z)
  {
    if n == 0 then [] else NextBytes(input, pos, n - 1) + [ByteAt(input, pos + n - 1)]
  }

  function ReadPiece(input: seq<byte>, pos: nat): (r: (seq<byte>, nat))
    requires pos < |input|
    ensures pos < r.1 <= |input|
  {
    var count := input[pos];
    if count > 128 then (Repeat(count - 128, ByteAt(input, pos + 1)), Advance(input, pos, 2))
    else (NextBytes(input, pos + 1, count), Advance(input, pos, count + 1))
  }

  /** The plane, and where the input goes on. None stands for a piece that does not fit into the row, and for an
      input that ends before the row does. */
  function ReadPlane(input: seq<byte>, pos: nat, plane: seq<byte>, width: nat): (r: Option<(seq<byte>, nat)>)
    requires pos <= |input| && |plane| <= width
    ensures r.Some? ==> |r.value.0| == width && r.value.1 <= |input|
    decreases |input| - pos
  {
    if |plane| == width then Some((plane, pos))
    else if pos == |input| then None
    else
      var (d, next) := ReadPiece(input, pos);
      if |plane| + |d| > width then None else ReadPlane(input, next, plane + d, width)
  }

  /** The bytes lie in the input at pos. */
  predicate LiesAt(input: seq<byte>, pos: nat, bytes: seq<byte>)
  {
    pos + |bytes| <= |input| && forall i :: 0 <= i < |bytes| ==> input[pos + i] == bytes[i]
  }

  lemma LiesSplit(input: seq<byte>, pos: nat, a: seq<byte>, b: seq<byte>)
    requires LiesAt(input, pos, a + b)
    ensures LiesAt(input, pos, a) && LiesAt(input, pos + |a|, b)
  {
    forall i | 0 <= i < |a|
      ensures input[pos + i] == a[i]
    {
      assert (a + b)[i] == a[i];
    }
    forall i | 0 <= i < |b|
      ensures input[pos + |a| + i] == b[i]
    {
      assert (a + b)[|a| + i] == b[i];
    }
  }

  lemma LiesByte(input: seq<byte>, pos: nat, bytes: seq<byte>, i: nat)
    requires LiesAt(input, pos, bytes) && i < |bytes|
    ensures input[pos + i] == bytes[i]
  {
  }

  /** A piece comes back. */
  lemma PieceReads(input: seq<byte>, pos: nat, p: Piece)
    requires ValidPiece(p) && LiesAt(input, pos, PieceBytes(p))
    ensures ReadPiece(input, pos) == (PieceData(p), pos + |PieceBytes(p)|)
  {
    var bytes := PieceBytes(p);
    LiesByte(input, pos, bytes, 0);
    match p
    case Run(len, value) => LiesByte(input, pos, bytes, 1);
    case Dump(data) =>
      forall z: nat | z < |data|
        ensures ByteAt(input, pos + 1 + z) == data[z]
      {
        LiesByte(input, pos, bytes, 1 + z);
      }
      assert ReadPiece(input, pos).0 == data;
  }

  /** A piece that fits is appended to the plane. */
  lemma StepReads(input: seq<byte>, pos: nat, p: Piece, plane: seq<byte>, width: nat)
    requires ValidPiece(p) && LiesAt(input, pos, PieceBytes(p)) && |plane| + |PieceData(p)| <= width
    ensures ReadPlane(input, pos, plane, width) == ReadPlane(input, pos + |PieceBytes(p)|, plane + PieceData(p), width)
  {
    PieceReads(input, pos, p);
    DataPositive(p);
  }

  lemma FirstPiece(ps: seq<Piece>) returns (p: Piece, rest: seq<Piece>, data: seq<byte>, bytes: seq<byte>)
    requires ValidPieces(ps) && ps != []
    ensures ValidPiece(p) && ValidPieces(rest) && |rest| < |ps| && data == Data(rest) && bytes == Bytes(rest)
    ensures Data(ps) == PieceData(p) + data && Bytes(ps) == PieceBytes(p) + bytes
  {
    p, rest := ps[0], ps[1..];
    data, bytes := Data(rest), Bytes(rest);
  }

  /** After the first piece the rest of the row is still to be read. */
  lemma FirstReads(input: seq<byte>, pos: nat, ps: seq<Piece>, plane: seq<byte>, width: nat)
    returns (next: nat, plane': seq<byte>, rest: seq<Piece>, data: seq<byte>, bytes: seq<byte>)
    requires ValidPieces(ps) && ps != [] && LiesAt(input, pos, Bytes(ps)) && |plane| + |Data(ps)| == width
    ensures ValidPieces(rest) && |rest| < |ps| && data == Data(rest) && bytes == Bytes(rest)
    ensures LiesAt(input, next, bytes) && |plane'| + |data| == width
    ensures plane + Data(ps) == plane' + data && pos + |Bytes(ps)| == next + |bytes|
    ensures ReadPlane(input, pos, plane, width) == ReadPlane(input, next, plane', width)
  {
    var p;
    p, rest, data, bytes := FirstPiece(ps);
    next, plane' := OnePiece(input, pos, p, plane, width, data, bytes);
  }

  lemma OnePiece(input: seq<byte>, pos: nat, p: Piece, plane: seq<byte>, width: nat, data: seq<byte>, bytes: seq<byte>)
    returns (next: nat, plane': seq<byte>)
    requires ValidPiece(p) && LiesAt(input, pos, PieceBytes(p) + bytes) && |plane| + |PieceData(p) + data| == width
    ensures LiesAt(input, next, bytes) && |plane'| + |data| == width
    ensures plane + (PieceData(p) + data) == plane' + data && pos + |PieceBytes(p) + bytes| == next + |bytes|
    ensures ReadPlane(input, pos, plane, width) == ReadPlane(input, next, plane', width)
  {
    next, plane' := pos + |PieceBytes(p)|, plane + PieceData(p);
    LiesSplit(input, pos, PieceBytes(p), bytes);
    StepReads(input, pos, p, plane, width);
    SumsAssociate(plane, PieceData(p), data);
  }

  lemma NoPieces(input: seq<byte>, pos: nat, plane: seq<byte>)
    requires pos <= |input|
    ensures ReadPlane(input, pos, plane, |plane|) == Some((plane + [], pos))
  {
    assert plane + [] == plane;
  }

  /** Pieces that make up the rest of a row are read as that rest, and nothing after them is. */
  lemma {:induction false} PiecesRead(input: seq<byte>, pos: nat, ps: seq<Piece>, plane: seq<byte>, width: nat,
                                      out: seq<byte>, end: nat)
    requires ValidPieces(ps) && LiesAt(input, pos, Bytes(ps)) && |plane| + |Data(ps)| == width
    requires out == plane + Data(ps) && end == pos + |Bytes(ps)|
    ensures ReadPlane(input, pos, plane, width) == Some((out, end))
    decreases |ps|
  {
    if ps == [] {
      NoPieces(input, pos, plane);
    } else {
      var next, plane', rest, d, b := FirstReads(input, pos, ps, plane, width);
      PiecesRead(input, next, rest, plane', width, out, end);
    }
  }

  lemma DataPositive(p: Piece)
    requires ValidPiece(p)
    ensures |PieceData(p)| > 0
  {
  }

  // ---------------------------------------------------------------------------------------------
  // Rows of pixels and their planes
  // ---------------------------------------------------------------------------------------------

  /** Component k of the first n pixels. */
  function Column(row: seq<byte>, k: nat, n: nat): (c: seq<byte>)
    requires k < 4 && 4 * n <= |row|
    ensures |c| == n
  {
    seq(n, x requires 0 <= x < n => row[4 * x + k])
  }

  lemma ColumnUpdate(row: seq<byte>, i: nat, k: nat, v: byte, m: nat, n: nat)
    requires k < 4 && m < 4 && i < n && 4 * n <= |row|
    ensures k == m ==> Column(row[4 * i + k := v], m, i + 1) == Column(row, m, i) + [v]
    ensures k != m ==> Column(row[4 * i + k := v], m, n) == Column(row, m, n)
  {
  }

  function Interleaved(c0: seq<byte>, c1: seq<byte>, c2: seq<byte>, c3: seq<byte>): (row: seq<byte>)
    requires |c0| == |c1| == |c2| == |c3|
    ensures |row| == 4 * |c0|
  {
    seq(4 * |c0|, y requires 0 <= y < 4 * |c0| =>
      if y % 4 == 0 then c0[y / 4] else if y % 4 == 1 then c1[y / 4] else if y % 4 == 2 then c2[y / 4] else c3[y / 4])
  }

  lemma ColumnsInterleave(row: seq<byte>, n: nat)
    requires |row| == 4 * n
    ensures Interleaved(Column(row, 0, n), Column(row, 1, n), Column(row, 2, n), Column(row, 3, n)) == row
  {
  }

  lemma InterleavedColumns(row: seq<byte>, n: nat, c0: seq<byte>, c1: seq<byte>, c2: seq<byte>, c3: seq<byte>)
    requires |c0| == |c1| == |c2| == |c3| == n && |row| == 4 * n
    requires Column(row, 0, n) == c0 && Column(row, 1, n) == c1 && Column(row, 2, n) == c2 && Column(row, 3, n) == c3
    ensures row == Interleaved(c0, c1, c2, c3)
  {
    ColumnsInterleave(row, n);
  }

  predicate Flat(width: nat)
  {
    width < 8 || width >= 32768
  }

  function Header(width: nat): seq<byte>
    requires width < 65536
  {
    [2, 2, width / 256, width % 256]
  }

  /** One row of the file. */
  function ReadRow(input: seq<byte>, pos: nat, width: nat): (r: Option<(seq<byte>, nat)>)
    requires pos <= |input|
    ensures r.Some? ==> |r.value.0| == 4 * width && r.value.1 <= |input|
  {
    if Flat(width) then
      if pos + 4 * width <= |input| then Some((input[pos..pos + 4 * width], pos + 4 * width)) else None
    else if !HeaderAt(input, pos, width) then None
    else ReadPlanes(input, Advance(input, pos, 4), width)
  }

  /** The two marks and the width, whose high byte is below 128. */
  predicate HeaderAt(input: seq<byte>, pos: nat, width: nat)
  {
    && ByteAt(input, pos) == 2 && ByteAt(input, pos + 1) == 2 && ByteAt(input, pos + 2) < 128
    && HeaderWidth(input, pos) == width
  }

  function HeaderWidth(input: seq<byte>, pos: nat): nat
  {
    var high: nat, low: nat := ByteAt(input, pos + 2), ByteAt(input, pos + 3);
    256 * high + low
  }

  function ReadPlanes(input: seq<byte>, pos: nat, width: nat): (r: Option<(seq<byte>, nat)>)
    requires pos <= |input|
    ensures r.Some? ==> |r.value.0| == 4 * width && r.value.1 <= |input|
  {
    var r0 := ReadPlane(input, pos, [], width);
    if r0.None? then None else
    var r1 := ReadPlane(input, r0.value.1, [], width);
    if r1.None? then None else
    var r2 := ReadPlane(input, r1.value.1, [], width);
    if r2.None? then None else
    var r3 := ReadPlane(input, r2.value.1, [], width);
    if r3.None? then None else
    Some((Interleaved(r0.value.0, r1.value.0, r2.value.0, r3.value.0), r3.value.1))
  }

  /** All rows. */
  function ReadRows(input: seq<byte>, pos: nat, width: nat, height: nat): (r: Option<seq<seq<byte>>>)
    requires pos <= |input|
    ensures r.Some? ==> |r.value| == height
    decreases height
  {
    if height == 0 then Some([]) else
    var row := ReadRow(input, pos, width);
    if row.None? then None else
    var rest := ReadRows(input, row.value.1, width, height - 1);
    if rest.None? then None else Some([row.value.0] + rest.value)
  }

  // ---------------------------------------------------------------------------------------------
  // What is written is read back
  // ---------------------------------------------------------------------------------------------

  /** A dump that holds three equal bytes in a row nowhere. */
  predicate Tight(p: Piece)
  {
    p.Dump? ==> forall q :: 0 <= q < |p.data| ==> !RunAt(p.data, q)
  }

  /** The pieces stand for the plane, none of its runs being dumped, and are written as these bytes. */
  predicate MadeOf(plane: seq<byte>, bytes: seq<byte>, ps: seq<Piece>)
  {
    && ValidPieces(ps) && Data(ps) == plane && Bytes(ps) == bytes
    && forall i :: 0 <= i < |ps| ==> Tight(ps[i])
  }

  /** The bytes stand for the plane, and are not much longer. */
  ghost predicate PlaneOf(plane: seq<byte>, bytes: seq<byte>)
  {
    && 128 * |bytes| <= 129 * |plane| + 127
    && exists ps :: MadeOf(plane, bytes, ps)
  }

  ghost predicate RowOf(row: seq<byte>, width: nat, bytes: seq<byte>)
    requires |row| == 4 * width
  {
    if Flat(width) then bytes == row
    else
      exists b0, b1, b2, b3 ::
        PlanesOf(row, width, b0, b1, b2, b3) && bytes == Header(width) + (b0 + (b1 + (b2 + b3)))
  }

  ghost predicate PlanesOf(row: seq<byte>, width: nat, b0: seq<byte>, b1: seq<byte>, b2: seq<byte>, b3: seq<byte>)
    requires |row| == 4 * width
  {
    && PlaneOf(Column(row, 0, width), b0) && PlaneOf(Column(row, 1, width), b1)
    && PlaneOf(Column(row, 2, width), b2) && PlaneOf(Column(row, 3, width), b3)
  }

  lemma PlaneReads(input: seq<byte>, pos: nat, plane: seq<byte>, bytes: seq<byte>, width: nat)
    requires PlaneOf(plane, bytes) && LiesAt(input, pos, bytes) && |plane| == width
    ensures ReadPlane(input, pos, [], width) == Some((plane, pos + |bytes|))
  {
    var ps :| MadeOf(plane, bytes, ps);
    assert plane == [] + plane;
    PiecesRead(input, pos, ps, [], width, plane, pos + |bytes|);
  }

  lemma FourLie(input: seq<byte>, pos: nat, b0: seq<byte>, b1: seq<byte>, b2: seq<byte>, b3: seq<byte>)
    requires LiesAt(input, pos, b0 + (b1 + (b2 + b3)))
    ensures LiesAt(input, pos, b0) && LiesAt(input, pos + |b0|, b1)
    ensures LiesAt(input, pos + |b0| + |b1|, b2) && LiesAt(input, pos + |b0| + |b1| + |b2|, b3)
  {
    LiesSplit(input, pos, b0, b1 + (b2 + b3));
    LiesSplit(input, pos + |b0|, b1, b2 + b3);
    LiesSplit(input, pos + |b0| + |b1|, b2, b3);
  }

  /** If the bytes lie here, they are read as the plane. */
  predicate PlaneHere(input: seq<byte>, pos: nat, plane: seq<byte>, bytes: seq<byte>, width: nat)
  {
    LiesAt(input, pos, bytes) ==> ReadPlane(input, pos, [], width) == Some((plane, pos + |bytes|))
  }

  /** Wherever the bytes lie, they are read as the plane. */
  ghost predicate PlaneBack(plane: seq<byte>, bytes: seq<byte>, width: nat)
  {
    |plane| == width && forall input, pos: nat :: PlaneHere(input, pos, plane, bytes, width)
  }

  lemma PlaneComesBack(plane: seq<byte>, bytes: seq<byte>, width: nat)
    requires PlaneOf(plane, bytes) && |plane| == width
    ensures PlaneBack(plane, bytes, width)
  {
    forall input, pos: nat
      ensures PlaneHere(input, pos, plane, bytes, width)
    {
      if LiesAt(input, pos, bytes) { PlaneReads(input, pos, plane, bytes, width); }
    }
  }

  lemma PlaneBackAt(input: seq<byte>, pos: nat, plane: seq<byte>, bytes: seq<byte>, width: nat)
    requires PlaneBack(plane, bytes, width) && LiesAt(input, pos, bytes)
    ensures ReadsTo(input, pos, width, plane, pos + |bytes|)
  {
    assert PlaneHere(input, pos, plane, bytes, width);
  }

  /** The plane is read here, up to the next one. */
  predicate ReadsTo(input: seq<byte>, pos: nat, width: nat, plane: seq<byte>, next: nat)
  {
    pos <= |input| && |plane| == width && ReadPlane(input, pos, [], width) == Some((plane, next))
  }

  lemma PlanesRead(input: seq<byte>, width: nat, c0: seq<byte>, c1: seq<byte>, c2: seq<byte>, c3: seq<byte>,
                   p0: nat, p1: nat, p2: nat, p3: nat, p4: nat)
    requires ReadsTo(input, p0, width, c0, p1) && ReadsTo(input, p1, width, c1, p2)
    requires ReadsTo(input, p2, width, c2, p3) && ReadsTo(input, p3, width, c3, p4)
    ensures ReadPlanes(input, p0, width) == Some((Interleaved(c0, c1, c2, c3), p4))
  {
  }

  lemma AllPlanesRead(input: seq<byte>, pos: nat, width: nat,
                      c0: seq<byte>, c1: seq<byte>, c2: seq<byte>, c3: seq<byte>,
                      b0: seq<byte>, b1: seq<byte>, b2: seq<byte>, b3: seq<byte>)
    requires PlaneBack(c0, b0, width) && PlaneBack(c1, b1, width)
    requires PlaneBack(c2, b2, width) && PlaneBack(c3, b3, width)
    requires LiesAt(input, pos, b0 + (b1 + (b2 + b3)))
    ensures ReadPlanes(input, pos, width) == Some((Interleaved(c0, c1, c2, c3), pos + |b0 + (b1 + (b2 + b3))|))
  {
    var p1 := pos + |b0|;
    var p2 := p1 + |b1|;
    var p3 := p2 + |b2|;
    FourLie(input, pos, b0, b1, b2, b3);
    PlaneBackAt(input, pos, c0, b0, width);
    PlaneBackAt(input, p1, c1, b1, width);
    PlaneBackAt(input, p2, c2, b2, width);
    PlaneBackAt(input, p3, c3, b3, width);
    PlanesRead(input, width, c0, c1, c2, c3, pos, p1, p2, p3, p3 + |b3|);
  }

  lemma HeaderReads(input: seq<byte>, pos: nat, width: nat)
    requires 8 <= width < 32768 && LiesAt(input, pos, Header(width))
    ensures HeaderAt(input, pos, width) && Advance(input, pos, 4) == pos + 4
  {
    LiesByte(input, pos, Header(width), 0);
    LiesByte(input, pos, Header(width), 1);
    LiesByte(input, pos, Header(width), 2);
    LiesByte(input, pos, Header(width), 3);
  }

  /** If the bytes lie here, they are read as the row, and nothing after them is. */
  predicate RowHere(input: seq<byte>, pos: nat, row: seq<byte>, width: nat, bytes: seq<byte>)
  {
    LiesAt(input, pos, bytes) ==> ReadRow(input, pos, width) == Some((row, pos + |bytes|))
  }

  /** Wherever the bytes lie, they are read as the row. */
  ghost predicate RowBack(row: seq<byte>, width: nat, bytes: seq<byte>)
  {
    forall input, pos: nat :: RowHere(input, pos, row, width, bytes)
  }

  lemma FlatRowComesBack(row: seq<byte>, width: nat)
    requires Flat(width) && |row| == 4 * width
    ensures RowBack(row, width, row)
  {
    forall input, pos: nat
      ensures RowHere(input, pos, row, width, row)
    {
      assert LiesAt(input, pos, row) ==> input[pos..pos + |row|] == row;
    }
  }

  lemma CodedRowReads(input: seq<byte>, pos: nat, width: nat, row: seq<byte>, rest: seq<byte>)
    requires !Flat(width) && LiesAt(input, pos, Header(width) + rest)
    requires ReadPlanes(input, pos + 4, width) == Some((row, pos + 4 + |rest|))
    ensures ReadRow(input, pos, width) == Some((row, pos + |Header(width) + rest|))
  {
    LiesSplit(input, pos, Header(width), rest);
    HeaderReads(input, pos, width);
  }

  lemma CodedRowComesBack(width: nat, c0: seq<byte>, c1: seq<byte>, c2: seq<byte>, c3: seq<byte>,
                          b0: seq<byte>, b1: seq<byte>, b2: seq<byte>, b3: seq<byte>)
    requires !Flat(width)
    requires PlaneBack(c0, b0, width) && PlaneBack(c1, b1, width)
    requires PlaneBack(c2, b2, width) && PlaneBack(c3, b3, width)
    ensures RowBack(Interleaved(c0, c1, c2, c3), width, Header(width) + (b0 + (b1 + (b2 + b3))))
  {
    var row, rest := Interleaved(c0, c1, c2, c3), b0 + (b1 + (b2 + b3));
    forall input, pos: nat
      ensures RowHere(input, pos, row, width, Header(width) + rest)
    {
      if LiesAt(input, pos, Header(width) + rest) {
        LiesSplit(input, pos, Header(width), rest);
        AllPlanesRead(input, pos + 4, width, c0, c1, c2, c3, b0, b1, b2, b3);
        CodedRowReads(input, pos, width, row, rest);
      }
    }
  }

  lemma RowComesBack(row: seq<byte>, width: nat, bytes: seq<byte>)
    requires |row| == 4 * width && RowOf(row, width, bytes)
    ensures RowBack(row, width, bytes)
  {
    if Flat(width) {
      FlatRowComesBack(row, width);
    } else {
      var b0, b1, b2, b3 :|
        PlanesOf(row, width, b0, b1, b2, b3) && bytes == Header(width) + (b0 + (b1 + (b2 + b3)));
      var c0, c1 := Column(row, 0, width), Column(row, 1, width);
      var c2, c3 := Column(row, 2, width), Column(row, 3, width);
      PlaneComesBack(c0, b0, width);
      PlaneComesBack(c1, b1, width);
      PlaneComesBack(c2, b2, width);
      PlaneComesBack(c3, b3, width);
      CodedRowComesBack(width, c0, c1, c2, c3, b0, b1, b2, b3);
      ColumnsInterleave(row, width);
    }
  }

  function Joined(bs: seq<seq<byte>>): seq<byte>
  {
    if bs == [] then [] else bs[0] + Joined(bs[1..])
  }

  lemma {:induction false} JoinedSnoc(bs: seq<seq<byte>>, b: seq<byte>)
    ensures Joined(bs + [b]) == Joined(bs) + b
  {
    if bs == [] {
      assert [b][1..] == [] && bs + [b] == [b];
    } else {
      assert (bs + [b])[1..] == bs[1..] + [b];
      JoinedSnoc(bs[1..], b);
      SumsAssociate(bs[0], Joined(bs[1..]), b);
    }
  }

  ghost predicate RowAt(row: seq<byte>, width: nat, b: seq<byte>)
  {
    |row| == 4 * width && RowOf(row, width, b)
  }

  ghost predicate RowsAre(rows: seq<seq<byte>>, width: nat, bs: seq<seq<byte>>)
  {
    |rows| == |bs| && forall i :: 0 <= i < |rows| ==> RowAt(rows[i], width, bs[i])
  }

  /** The bytes stand for the rows, one after the other. */
  ghost predicate RowsOf(rows: seq<seq<byte>>, width: nat, bytes: seq<byte>)
  {
    exists bs :: RowsAre(rows, width, bs) && Joined(bs) == bytes
  }

  ghost predicate RowsBack(rows: seq<seq<byte>>, width: nat, bs: seq<seq<byte>>)
  {
    |rows| == |bs| && forall i :: 0 <= i < |rows| ==> RowBack(rows[i], width, bs[i])
  }

  lemma RowBackAt(input: seq<byte>, pos: nat, rows: seq<seq<byte>>, width: nat, bs: seq<seq<byte>>)
    requires rows != [] && RowsBack(rows, width, bs) && LiesAt(input, pos, bs[0])
    ensures ReadRow(input, pos, width) == Some((rows[0], pos + |bs[0]|))
    ensures RowsBack(rows[1..], width, bs[1..])
  {
    assert RowBack(rows[0], width, bs[0]);
    assert RowHere(input, pos, rows[0], width, bs[0]);
  }

  lemma {:induction false} RowsRead(input: seq<byte>, pos: nat, rows: seq<seq<byte>>, width: nat, bs: seq<seq<byte>>)
    requires RowsBack(rows, width, bs) && LiesAt(input, pos, Joined(bs))
    ensures ReadRows(input, pos, width, |rows|) == Some(rows)
    decreases |rows|
  {
    if rows != [] {
      var b, rest := bs[0], Joined(bs[1..]);
      LiesSplit(input, pos, b, rest);
      RowBackAt(input, pos, rows, width, bs);
      RowsRead(input, pos + |b|, rows[1..], width, bs[1..]);
      RowThenRows(input, pos, width, |rows| - 1, rows[0], pos + |b|, rows[1..]);
      assert rows == [rows[0]] + rows[1..];
    }
  }

  lemma RowThenRows(input: seq<byte>, pos: nat, width: nat, height: nat, row: seq<byte>, next: nat,
                    rest: seq<seq<byte>>)
    requires pos <= |input| && next <= |input| && ReadRow(input, pos, width) == Some((row, next))
    requires ReadRows(input, next, width, height) == Some(rest)
    ensures ReadRows(input, pos, width, height + 1) == Some([row] + rest)
  {
  }

  /** A whole image comes back. */
  lemma ImageReads(rows: seq<seq<byte>>, width: nat, bytes: seq<byte>)
    requires RowsOf(rows, width, bytes)
    ensures ReadRows(bytes, 0, width, |rows|) == Some(rows)
  {
    var bs :| RowsAre(rows, width, bs) && Joined(bs) == bytes;
    forall i | 0 <= i < |rows|
      ensures RowBack(rows[i], width, bs[i])
    {
      assert RowAt(rows[i], width, bs[i]);
      RowComesBack(rows[i], width, bs[i]);
    }
    RowsRead(bytes, 0, rows, width, bs);
  }

  // ---------------------------------------------------------------------------------------------
  // The writer
  // ---------------------------------------------------------------------------------------------

  /** Three equal bytes start at r. */
  predicate RunAt(comp: seq<byte>, r: nat)
  {
    r + 2 < |comp| && comp[r] == comp[r + 1] == comp[r + 2]
  }

  ghost predicate Same(comp: seq<byte>, x: nat, r: nat, v: byte)
  {
    x <= r <= |comp| && forall q :: x <= q < r ==> comp[q] == v
  }

  /** The first place from x on where three equal bytes start, or the end. */
  method FindRun(comp: seq<byte>, x: nat) returns (r: nat)
    requires x <= |comp|
    ensures x <= r <= |comp| && (RunAt(comp, r) || r == |comp|)
    ensures forall q :: x <= q < r ==> !RunAt(comp, q)
  {
    r := x;
    while r + 2 < |comp|
      invariant x <= r <= |comp| && forall q :: x <= q < r ==> !RunAt(comp, q)
    {
      if comp[r] == comp[r + 1] && comp[r] == comp[r + 2] {
        return;
      }
      r := r + 1;
    }
    r := |comp|;
  }

  /** The bytes stand for the first x bytes of a plane. */
  ghost predicate SoFar(comp: seq<byte>, x: nat, bytes: seq<byte>)
  {
    x <= |comp| && exists ps :: MadeOf(comp[..x], bytes, ps)
  }

  /** SoFar as a function value. */
  type Progress = (nat, seq<byte>) -> bool

  ghost predicate TellsAt(so: Progress, comp: seq<byte>, x: nat, bytes: seq<byte>)
  {
    so(x, bytes) <==> SoFar(comp, x, bytes)
  }

  ghost predicate Tells(so: Progress, comp: seq<byte>)
  {
    forall x: nat, bytes {:trigger TellsAt(so, comp, x, bytes)} :: TellsAt(so, comp, x, bytes)
  }

  lemma ProgressOf(comp: seq<byte>, x: nat, bytes: seq<byte>) returns (so: Progress)
    requires SoFar(comp, x, bytes)
    ensures Tells(so, comp) && so(x, bytes)
  {
    so := (n: nat, b: seq<byte>) => SoFar(comp, n, b);
    forall n: nat, b
      ensures TellsAt(so, comp, n, b)
    {
    }
  }

  lemma Told(so: Progress, comp: seq<byte>, x: nat, bytes: seq<byte>)
    requires Tells(so, comp) && so(x, bytes)
    ensures SoFar(comp, x, bytes)
  {
    assert TellsAt(so, comp, x, bytes);
  }

  lemma RunTold(so: Progress, comp: seq<byte>, x: nat, r: nat, len: nat, v: byte, bytes: seq<byte>)
    requires 1 <= len <= 127 && x + len <= r && Same(comp, x, r, v) && Tells(so, comp) && so(x, bytes)
    ensures so(x + len, bytes + PieceBytes(Run(len, comp[x])))
  {
    Told(so, comp, x, bytes);
    assert Repeat(len, comp[x]) == comp[x..x + len];
    SoFarMore(comp, x, bytes, Run(len, comp[x]));
    assert TellsAt(so, comp, x + len, bytes + PieceBytes(Run(len, comp[x])));
  }

  lemma SoFarNone(comp: seq<byte>)
    ensures SoFar(comp, 0, [])
  {
    assert MadeOf(comp[..0], [], []);
  }

  lemma SoFarMore(comp: seq<byte>, x: nat, bytes: seq<byte>, p: Piece)
    requires SoFar(comp, x, bytes) && ValidPiece(p) && x + |PieceData(p)| <= |comp|
    requires PieceData(p) == comp[x..x + |PieceData(p)|] && Tight(p)
    ensures SoFar(comp, x + |PieceData(p)|, bytes + PieceBytes(p))
  {
    var ps :| MadeOf(comp[..x], bytes, ps);
    PiecesSnoc(ps, p);
    PrefixMore(comp, x, |PieceData(p)|);
    assert MadeOf(comp[..x + |PieceData(p)|], bytes + PieceBytes(p), ps + [p]);
  }

  /** No run starts from here up to there. */
  predicate NoRun(comp: seq<byte>, x: nat, r: nat)
  {
    forall q :: x <= q < r ==> !RunAt(comp, q)
  }

  lemma DumpIsTight(comp: seq<byte>, x: nat, len: nat)
    requires x + len <= |comp| && NoRun(comp, x, x + len)
    ensures Tight(Dump(comp[x..x + len]))
  {
    var piece := comp[x..x + len];
    forall q | 0 <= q < |piece|
      ensures !RunAt(piece, q)
    {
      assert !RunAt(comp, x + q);
    }
  }

  lemma PrefixMore(comp: seq<byte>, x: nat, n: nat)
    requires x + n <= |comp|
    ensures comp[..x] + comp[x..x + n] == comp[..x + n]
  {
  }

  predicate ScratchAt(scratch: seq<byte>, row: seq<byte>, width: nat, z: nat)
    requires |row| == |scratch| == 4 * width && z < width
  {
    && scratch[z] == row[4 * z] && scratch[z + width] == row[4 * z + 1]
    && scratch[z + width * 2] == row[4 * z + 2] && scratch[z + width * 3] == row[4 * z + 3]
  }

  lemma ScratchColumns(scratch: seq<byte>, row: seq<byte>, width: nat)
    requires |row| == |scratch| == 4 * width && forall z: nat :: z < width ==> ScratchAt(scratch, row, width, z)
    ensures scratch[..width] == Column(row, 0, width) && scratch[width..2 * width] == Column(row, 1, width)
    ensures scratch[2 * width..3 * width] == Column(row, 2, width) && scratch[3 * width..] == Column(row, 3, width)
  {
    forall z: nat | z < width
      ensures scratch[..width][z] == row[4 * z] && scratch[width..2 * width][z] == row[4 * z + 1]
      ensures scratch[2 * width..3 * width][z] == row[4 * z + 2] && scratch[3 * width..][z] == row[4 * z + 3]
    {
      assert ScratchAt(scratch, row, width, z);
    }
  }

  class HdrFile {
    var data: seq<byte>

    constructor ()
      ensures data == []
    {
      data := [];
    }

    method WriteRunData(length: nat, value: byte)
      requires 1 <= length <= 127
      modifies this
      ensures data == old(data) + PieceBytes(Run(length, value))
    {
      data := data + [length + 128];
      data := data + [value];
      assert [length + 128] + [value] == PieceBytes(Run(length, value));
    }

    method WriteDumpData(piece: seq<byte>)
      requires 1 <= |piece| <= 128
      modifies this
      ensures data == old(data) + PieceBytes(Dump(piece))
    {
      data := data + [|piece|];
      data := data + piece;
    }

    /** Dumps up to the first run; bytes is what was written for the plane before. */
    method DumpUpTo(comp: seq<byte>, x0: nat, r: nat, ghost bytes: seq<byte>, ghost so: Progress)
      returns (x: nat, ghost added: seq<byte>)
      requires x0 <= r <= |comp| && NoRun(comp, x0, r) && Tells(so, comp) && so(x0, bytes)
      modifies this
      ensures x == r && data == old(data) + added && so(x, bytes + added)
      ensures if x0 < r then 128 * |added| <= 129 * (r - x0) + 127 else added == []
    {
      x, added := x0, [];
      assert bytes + added == bytes;
      while x < r
        invariant x0 <= x <= r && data == old(data) + added && so(x, bytes + added)
        invariant if x == x0 then added == [] else 128 * |added| <= 129 * (x - x0) + (if x < r then 0 else 127)
      {
        var len := r - x;
        if len > 128 { len := 128; }
        added := DumpPiece(comp, x, len, bytes, added, old(data), so);
        x := x + len;
      }
    }

    /** One more dump; added is what was written since the file was as it was. */
    method DumpPiece(comp: seq<byte>, x: nat, len: nat, ghost bytes: seq<byte>, ghost added: seq<byte>,
                     ghost was: seq<byte>, ghost so: Progress)
      returns (ghost now: seq<byte>)
      requires 1 <= len <= 128 && x + len <= |comp| && NoRun(comp, x, x + len)
      requires data == was + added && Tells(so, comp) && so(x, bytes + added)
      modifies this
      ensures |now| == |added| + len + 1 && data == was + now && so(x + len, bytes + now)
    {
      Told(so, comp, x, bytes + added);
      var piece := comp[x..x + len];
      WriteDumpData(piece);
      DumpIsTight(comp, x, len);
      SoFarMore(comp, x, bytes + added, Dump(piece));
      now := added + PieceBytes(Dump(piece));
      SumsAssociate(was, added, PieceBytes(Dump(piece)));
      SumsAssociate(bytes, added, PieceBytes(Dump(piece)));
      assert TellsAt(so, comp, x + len, bytes + now);
    }

    /** The run at x, as long as it goes on. */
    method RunFrom(comp: seq<byte>, x0: nat, ghost bytes: seq<byte>, ghost so: Progress)
      returns (x: nat, ghost added: seq<byte>)
      requires RunAt(comp, x0) && Tells(so, comp) && so(x0, bytes)
      modifies this
      ensures x0 + 3 <= x <= |comp| && data == old(data) + added && so(x, bytes + added)
      ensures |added| < x - x0
      ensures x == |comp| || comp[x] != comp[x0]
    {
      x := RunEnd(comp, x0);
      added := RunUpTo(comp, x0, x, comp[x0], bytes, so);
    }

    method RunUpTo(comp: seq<byte>, x0: nat, r: nat, ghost v: byte, ghost bytes: seq<byte>, ghost so: Progress)
      returns (ghost added: seq<byte>)
      requires x0 + 3 <= r && Same(comp, x0, r, v) && Tells(so, comp) && so(x0, bytes)
      modifies this
      ensures data == old(data) + added && so(r, bytes + added) && |added| < r - x0
    {
      var x := x0;
      added := [];
      assert bytes + added == bytes;
      while x < r
        invariant x0 <= x <= r && Same(comp, x, r, v) && data == old(data) + added && so(x, bytes + added)
        invariant if x == x0 then added == [] else |added| + (if x < r then 1 else 0) < x - x0
      {
        var len := r - x;
        if len > 127 { len := 127; }
        added := RunPiece(comp, x, r, len, v, bytes, added, old(data), so);
        x := x + len;
      }
    }

    method RunPiece(comp: seq<byte>, x: nat, ghost r: nat, len: nat, ghost v: byte, ghost bytes: seq<byte>,
                    ghost added: seq<byte>, ghost was: seq<byte>, ghost so: Progress)
      returns (ghost now: seq<byte>)
      requires 1 <= len <= 127 && x + len <= r && Same(comp, x, r, v)
      requires data == was + added && Tells(so, comp) && so(x, bytes + added)
      modifies this
      ensures |now| == |added| + 2 && data == was + now && so(x + len, bytes + now)
    {
      RunTold(so, comp, x, r, len, v, bytes + added);
      WriteRunData(len, comp[x]);
      now := added + PieceBytes(Run(len, comp[x]));
      SumsAssociate(was, added, PieceBytes(Run(len, comp[x])));
      SumsAssociate(bytes, added, PieceBytes(Run(len, comp[x])));
    }

    static method RunEnd(comp: seq<byte>, x: nat) returns (r: nat)
      requires RunAt(comp, x)
      ensures x + 3 <= r <= |comp| && Same(comp, x, r, comp[x]) && (r == |comp| || comp[r] != comp[x])
    {
      r := x;
      while r < |comp| && comp[r] == comp[x]
        invariant x <= r <= |comp| && Same(comp, x, r, comp[x])
      {
        r := r + 1;
      }
    }

    /** One component of a row. */
    method WritePlane(comp: seq<byte>) returns (ghost bytes: seq<byte>)
      modifies this
      ensures data == old(data) + bytes && PlaneOf(comp, bytes)
    {
      var x := 0;
      bytes := [];
      SoFarNone(comp);
      while x < |comp|
        invariant x <= |comp| && data == old(data) + bytes && SoFar(comp, x, bytes)
        invariant 128 * |bytes| <= 129 * x + (if x < |comp| then 0 else 127)
        decreases |comp| - x
      {
        ghost var more;
        x, more := WritePieces(comp, x, bytes);
        SumsAssociate(old(data), bytes, more);
        bytes := bytes + more;
      }
      assert comp[..|comp|] == comp;
    }

    /** The dumps before the next run, and the run if there is one. */
    method WritePieces(comp: seq<byte>, x0: nat, ghost bytes: seq<byte>) returns (x: nat, ghost more: seq<byte>)
      requires x0 < |comp| && SoFar(comp, x0, bytes)
      modifies this
      ensures x0 < x <= |comp| && data == old(data) + more && SoFar(comp, x, bytes + more)
      ensures 128 * |more| <= 129 * (x - x0) + (if x < |comp| then 0 else 127)
    {
      var r := FindRun(comp, x0);
      ghost var so := ProgressOf(comp, x0, bytes);
      x, more := DumpUpTo(comp, x0, r, bytes, so);
      if r + 2 < |comp| {
        ghost var run;
        x, run := RunFrom(comp, x, bytes + more, so);
        SumsAssociate(old(data), more, run);
        SumsAssociate(bytes, more, run);
        more := more + run;
      }
      Told(so, comp, x, bytes + more);
    }

    /** The components of the pixels, one after the other. */
    static method FillScratch(scratch: array<byte>, row: seq<byte>, width: nat)
      requires |row| == scratch.Length == 4 * width
      modifies scratch
      ensures scratch[..width] == Column(row, 0, width) && scratch[width..2 * width] == Column(row, 1, width)
      ensures scratch[2 * width..3 * width] == Column(row, 2, width) && scratch[3 * width..] == Column(row, 3, width)
    {
      for x := 0 to width
        invariant forall z: nat :: z < x ==> ScratchAt(scratch[..], row, width, z)
      {
        ghost var was := scratch[..];
        scratch[x] := row[4 * x];
        scratch[x + width] := row[4 * x + 1];
        scratch[x + width * 2] := row[4 * x + 2];
        scratch[x + width * 3] := row[4 * x + 3];
        forall z: nat | z < x
          ensures ScratchAt(scratch[..], row, width, z)
        {
          assert ScratchAt(was, row, width, z);
        }
      }
      ScratchColumns(scratch[..], row, width);
    }

    method WritePlanes(row: seq<byte>, width: nat, scratch: array<byte>)
      returns (ghost b0: seq<byte>, ghost b1: seq<byte>, ghost b2: seq<byte>, ghost b3: seq<byte>)
      requires |row| == scratch.Length == 4 * width
      modifies this, scratch
      ensures data == old(data) + (b0 + (b1 + (b2 + b3))) && PlanesOf(row, width, b0, b1, b2, b3)
    {
      FillScratch(scratch, row, width);
      b0 := WritePlane(scratch[..width]);
      b1 := WritePlane(scratch[width..2 * width]);
      b2 := WritePlane(scratch[2 * width..3 * width]);
      b3 := WritePlane(scratch[3 * width..]);
      SumsAssociate4(old(data), b0, b1, b2, b3);
    }

    /** stbiw__write_hdr_scanline, for pixels already in their four bytes. */
    method WriteScanline(row: seq<byte>, width: nat, scratch: array<byte>) returns (ghost bytes: seq<byte>)
      requires |row| == scratch.Length == 4 * width
      modifies this, scratch
      ensures data == old(data) + bytes && RowOf(row, width, bytes)
    {
      if width < 8 || width >= 32768 {
        data := data + row;
        bytes := row;
      } else {
        data := data + [2, 2, width / 256, width % 256];
        ghost var b0, b1, b2, b3 := WritePlanes(row, width, scratch);
        bytes := Header(width) + (b0 + (b1 + (b2 + b3)));
        SumsAssociate(old(data), Header(width), b0 + (b1 + (b2 + b3)));
      }
    }
  }

  lemma SumsAssociate4(a: seq<byte>, b0: seq<byte>, b1: seq<byte>, b2: seq<byte>, b3: seq<byte>)
    ensures a + b0 + b1 + b2 + b3 == a + (b0 + (b1 + (b2 + b3)))
  {
    SumsAssociate(a, b0, b1 + (b2 + b3));
    SumsAssociate(a + b0, b1, b2 + b3);
    SumsAssociate(a + b0 + b1, b2, b3);
  }

  lemma RowsGrow(rows: seq<seq<byte>>, i: nat, width: nat, bs: seq<seq<byte>>, b: seq<byte>)
    requires i < |rows| && RowsAre(rows[..i], width, bs) && RowAt(rows[i], width, b)
    ensures RowsAre(rows[..i + 1], width, bs + [b]) && Joined(bs + [b]) == Joined(bs) + b
  {
    JoinedSnoc(bs, b);
    forall k | 0 <= k < i + 1
      ensures RowAt(rows[..i + 1][k], width, (bs + [b])[k])
    {
      if k < i { assert RowAt(rows[..i][k], width, bs[k]); }
    }
  }

  method WriteRow(f: HdrFile, rows: seq<seq<byte>>, i: nat, width: nat, scratch: array<byte>, ghost bs0: seq<seq<byte>>)
    returns (ghost bs: seq<seq<byte>>)
    requires i < |rows| && RowsAre(rows[..i], width, bs0) && f.data == Joined(bs0)
    requires |rows[i]| == scratch.Length == 4 * width
    modifies f, scratch
    ensures RowsAre(rows[..i + 1], width, bs) && f.data == Joined(bs)
  {
    ghost var b := f.WriteScanline(rows[i], width, scratch);
    RowsGrow(rows, i, width, bs0, b);
    bs := bs0 + [b];
  }

  method WriteRows(rows: seq<seq<byte>>, width: nat) returns (bytes: seq<byte>)
    requires forall i :: 0 <= i < |rows| ==> |rows[i]| == 4 * width
    ensures RowsOf(rows, width, bytes)
  {
    var f := new HdrFile();
    var scratch := new byte[4 * width];
    ghost var bs: seq<seq<byte>> := [];
    for i := 0 to |rows|
      invariant RowsAre(rows[..i], width, bs) && f.data == Joined(bs)
    {
      bs := WriteRow(f, rows, i, width, scratch, bs);
    }
    assert rows[..|rows|] == rows;
    bytes := f.data;
  }

  // ---------------------------------------------------------------------------------------------
  // The reader
  // ---------------------------------------------------------------------------------------------

  class HdrReader {
    const input: seq<byte>
    var pos: nat

    constructor (input: seq<byte>)
      ensures this.input == input && pos == 0
    {
      this.input := input;
      pos := 0;
    }

    method Get8() returns (b: byte)
      requires pos <= |input|
      modifies this
      ensures b == ByteAt(input, old(pos)) && pos == Advance(input, old(pos), 1)
    {
      if pos < |input| {
        b := input[pos];
        pos := pos + 1;
      } else {
        b := 0;
      }
    }

    static method Put(scanline: array<byte>, i: nat, k: nat, v: byte, ghost width: nat)
      requires k < 4 && i < width && scanline.Length == 4 * width
      modifies scanline
      ensures Column(scanline[..], k, i + 1) == old(Column(scanline[..], k, i)) + [v]
      ensures forall m: nat :: m < 4 && m != k ==> Column(scanline[..], m, width) == old(Column(scanline[..], m, width))
    {
      ghost var was := scanline[..];
      scanline[i * 4 + k] := v;
      assert scanline[..] == was[4 * i + k := v];
      forall m: nat | m < 4
        ensures m == k ==> Column(scanline[..], m, i + 1) == Column(was, m, i) + [v]
        ensures m != k ==> Column(scanline[..], m, width) == Column(was, m, width)
      {
        ColumnUpdate(was, i, k, v, m, width);
      }
    }

    method ReadRun(scanline: array<byte>, i0: nat, k: nat, count: nat, ghost width: nat) returns (i: nat)
      requires pos <= |input| && k < 4 && i0 + count <= width && scanline.Length == 4 * width
      modifies this, scanline
      ensures pos == Advance(input, old(pos), 1) && i == i0 + count
      ensures Column(scanline[..], k, i) == old(Column(scanline[..], k, i0)) + Repeat(count, ByteAt(input, old(pos)))
      ensures forall m: nat :: m < 4 && m != k ==> Column(scanline[..], m, width) == old(Column(scanline[..], m, width))
    {
      var value := Get8();
      i := i0;
      for z := 0 to count
        invariant i == i0 + z && pos == Advance(input, old(pos), 1)
        invariant Column(scanline[..], k, i) == old(Column(scanline[..], k, i0)) + Repeat(z, value)
        invariant forall m: nat ::
                    m < 4 && m != k ==> Column(scanline[..], m, width) == old(Column(scanline[..], m, width))
      {
        Put(scanline, i, k, value, width);
        i := i + 1;
      }
    }

    method ReadDump(scanline: array<byte>, i0: nat, k: nat, count: nat, ghost width: nat) returns (i: nat)
      requires pos <= |input| && k < 4 && i0 + count <= width && scanline.Length == 4 * width
      modifies this, scanline
      ensures pos == Advance(input, old(pos), count) && i == i0 + count
      ensures Column(scanline[..], k, i) == old(Column(scanline[..], k, i0)) + NextBytes(input, old(pos), count)
      ensures forall m: nat :: m < 4 && m != k ==> Column(scanline[..], m, width) == old(Column(scanline[..], m, width))
    {
      i := i0;
      for z := 0 to count
        invariant i == i0 + z && pos == Advance(input, old(pos), z)
        invariant Column(scanline[..], k, i) == old(Column(scanline[..], k, i0)) + NextBytes(input, old(pos), z)
        invariant forall m: nat ::
                    m < 4 && m != k ==> Column(scanline[..], m, width) == old(Column(scanline[..], m, width))
      {
        var v := Get8();
        Put(scanline, i, k, v, width);
        assert NextBytes(input, old(pos), z + 1) == NextBytes(input, old(pos), z) + [v];
        i := i + 1;
      }
    }

    /** One component of a row, into every fourth byte of the scanline. */
    method ReadComponent(scanline: array<byte>, k: nat, width: nat)
      requires pos <= |input| && k < 4 && scanline.Length == 4 * width && ReadPlane(input, pos, [], width).Some?
      modifies this, scanline
      ensures pos <= |input|
      ensures Some((Column(scanline[..], k, width), pos)) == old(ReadPlane(input, pos, [], width))
      ensures forall m: nat :: m < 4 && m != k ==> Column(scanline[..], m, width) == old(Column(scanline[..], m, width))
    {
      var i: nat := 0;
      while i < width
        invariant i <= width && pos <= |input|
        invariant ReadPlane(input, pos, Column(scanline[..], k, i), width) == old(ReadPlane(input, pos, [], width))
        invariant forall m: nat ::
                    m < 4 && m != k ==> Column(scanline[..], m, width) == old(Column(scanline[..], m, width))
        decreases |input| - pos
      {
        ghost var piece := ReadPiece(input, pos);
        var count: nat := Get8();
        if count > 128 {
          count := count - 128;
          i := ReadRun(scanline, i, k, count, width);
        } else {
          i := ReadDump(scanline, i, k, count, width);
        }
      }
    }

    method ReadComponents(scanline: array<byte>, width: nat)
      requires pos <= |input| && scanline.Length == 4 * width && ReadPlanes(input, pos, width).Some?
      modifies this, scanline
      ensures pos <= |input| && Some((scanline[..], pos)) == old(ReadPlanes(input, pos, width))
    {
      ReadComponent(scanline, 0, width);
      ghost var c0 := Column(scanline[..], 0, width);
      ReadComponent(scanline, 1, width);
      ghost var c1 := Column(scanline[..], 1, width);
      ReadComponent(scanline, 2, width);
      ghost var c2 := Column(scanline[..], 2, width);
      ReadComponent(scanline, 3, width);
      InterleavedColumns(scanline[..], width, c0, c1, c2, Column(scanline[..], 3, width));
    }

    /** One row, for inputs that hold one. */
    method ReadScanline(width: nat) returns (row: seq<byte>)
      requires pos <= |input| && ReadRow(input, pos, width).Some?
      modifies this
      ensures pos <= |input| && Some((row, pos)) == old(ReadRow(input, pos, width))
    {
      if width < 8 || width >= 32768 {
        row := input[pos..pos + 4 * width];
        pos := pos + 4 * width;
      } else {
        var c1 := Get8();
        var c2 := Get8();
        var high := Get8();
        var low := Get8();
        var scanline := new byte[4 * width];
        ReadComponents(scanline, width);
        row := scanline[..];
      }
    }
  }

  method ReadImage(input: seq<byte>, width: nat, height: nat) returns (rows: seq<seq<byte>>)
    requires ReadRows(input, 0, width, height).Some?
    ensures Some(rows) == ReadRows(input, 0, width, height)
  {
    var s := new HdrReader(input);
    rows := [];
    for j := 0 to height
      invariant s.input == input && s.pos <= |input| && ReadRows(input, s.pos, width, height - j).Some?
      invariant ReadRows(input, 0, width, height).value == rows + ReadRows(input, s.pos, width, height - j).value
    {
      ghost var was := s.pos;
      var row := s.ReadScanline(width);
      RowsStep(input, was, width, height - j, row, s.pos, rows);
      rows := rows + [row];
    }
    assert rows + [] == rows;
  }

  lemma RowsStep(input: seq<byte>, pos: nat, width: nat, height: nat, row: seq<byte>, next: nat, before: seq<seq<byte>>)
    requires pos <= |input| && height > 0 && ReadRows(input, pos, width, height).Some?
    requires ReadRow(input, pos, width).Some? ==> ReadRow(input, pos, width) == Some((row, next))
    ensures next <= |input| && ReadRows(input, next, width, height - 1).Some?
    ensures before + ReadRows(input, pos, width, height).value ==
            before + [row] + ReadRows(input, next, width, height - 1).value
  {
    var rest := ReadRows(input, next, width, height - 1).value;
    assert before + ([row] + rest) == before + [row] + rest;
  }

  /** An image written and read again. */
  method WriteThenRead(rows: seq<seq<byte>>, width: nat) returns (image: seq<seq<byte>>)
    requires forall i :: 0 <= i < |rows| ==> |rows[i]| == 4 * width
    ensures image == rows
  {
    var bytes := WriteRows(rows, width);
    ImageReads(rows, width, bytes);
    image := ReadImage(bytes, width, |rows|);
  }
}
