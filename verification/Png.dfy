/** The scanline filters of the PNG writer, undone by the reader (section 6 of RFC 2083), around the compressor. */
module Png {
  import opened Arith
  import opened Wrappers
  import ZlibRoundTrip

  // ---------------------------------------------------------------------------------------------
  // The filters as the standard has them
  // ---------------------------------------------------------------------------------------------

  function Abs(v: int): nat
  {
    if v < 0 then -v else v
  }

  /** The neighbour nearest to left + up - corner; on a tie, left comes before up and up before the corner. */
  function Paeth(a: byte, b: byte, c: byte): byte
  {
    var p := a + b - c;
    var pa, pb, pc := Abs(p - a), Abs(p - b), Abs(p - c);
    if pa <= pb && pa <= pc then a else if pb <= pc then b else c
  }

  /** What filter t expects from the bytes to the left, above and above left. */
  function Predict(t: nat, a: byte, b: byte, c: byte): byte
  {
    if t == 1 then a else if t == 2 then b else if t == 3 then (a + b) / 2 else if t == 4 then Paeth(a, b, c) else 0
  }

  /** A guess at a byte from the bytes to the left, above and above left. */
  type Predictor = (byte, byte, byte) -> byte

  function Filter(t: nat): Predictor
  {
    (a: byte, b: byte, c: byte) => Predict(t, a, b, c)
  }

  /** x is at least as near to p as y is. */
  predicate AtLeastAsNear(p: int, x: int, y: int)
  {
    (p - x) * (p - x) <= (p - y) * (p - y)
  }

  /** No neighbour is nearer to p than x. */
  predicate Nearest(p: int, x: int, a: int, b: int, c: int)
  {
    AtLeastAsNear(p, x, a) && AtLeastAsNear(p, x, b) && AtLeastAsNear(p, x, c)
  }

  lemma NearIsAbs(p: int, x: int, y: int)
    ensures AtLeastAsNear(p, x, y) <==> Abs(p - x) <= Abs(p - y)
  {
    var u, v := Abs(p - x), Abs(p - y);
    assert (p - x) * (p - x) == u * u && (p - y) * (p - y) == v * v;
    if u <= v {
      MulMono(u, v, u);
      MulMono(u, v, v);
    } else {
      MulMono(v + 1, u, u);
      MulMono(v, u, v);
    }
  }

  lemma NearestIsAbs(p: int, x: int, a: int, b: int, c: int)
    ensures Nearest(p, x, a, b, c) <==>
      Abs(p - x) <= Abs(p - a) && Abs(p - x) <= Abs(p - b) && Abs(p - x) <= Abs(p - c)
  {
    NearIsAbs(p, x, a);
    NearIsAbs(p, x, b);
    NearIsAbs(p, x, c);
  }

  /** Section 6.6 of RFC 2083: one of the three, none of which is nearer to left + up - corner; on a tie left comes
      before up, and up before the corner. */
  lemma PaethNearest(a: byte, b: byte, c: byte)
    ensures var p, r := a + b - c, Paeth(a, b, c);
      && r in [a, b, c] && Nearest(p, r, a, b, c)
      && (Nearest(p, a, a, b, c) ==> r == a)
      && (Nearest(p, b, a, b, c) && !Nearest(p, a, a, b, c) ==> r == b)
  {
    NearestIsAbs(a + b - c, a, a, b, c);
    NearestIsAbs(a + b - c, b, a, b, c);
    NearestIsAbs(a + b - c, c, a, b, c);
  }

  /** The other filters expect nothing, the byte to the left, the byte above, and the whole half of their sum. */
  lemma Expectations(a: byte, b: byte, c: byte)
    ensures Filter(0)(a, b, c) == 0 && Filter(1)(a, b, c) == a && Filter(2)(a, b, c) == b
    ensures 2 * Filter(3)(a, b, c) <= a + b < 2 * Filter(3)(a, b, c) + 2
    ensures Filter(4)(a, b, c) == Paeth(a, b, c)
  {
  }

  /** The byte n places back, zero before the start of the row. */
  function Back(row: seq<byte>, i: nat, n: nat): byte
  {
    if i < n || i - n >= |row| then 0 else row[i - n]
  }

  function Subtract(v: byte, p: byte): byte
  {
    (v - p) % 256
  }

  function AddUp(v: byte, p: byte): byte
  {
    (v + p) % 256
  }

  lemma AddUpSubtract(v: byte, p: byte)
    ensures AddUp(Subtract(v, p), p) == v
  {
  }

  function FilterByte(p: Predictor, row: seq<byte>, prior: seq<byte>, n: nat, i: nat): byte
    requires i < |row| == |prior|
  {
    Subtract(row[i], p(Back(row, i, n), prior[i], Back(prior, i, n)))
  }

  function Filtered(p: Predictor, row: seq<byte>, prior: seq<byte>, n: nat): (r: seq<byte>)
    requires |row| == |prior|
    ensures |r| == |row|
  {
    seq(|row|, i requires 0 <= i < |row| => FilterByte(p, row, prior, n, i))
  }

  /** The first k bytes of a row, from its filtered bytes and the row above. */
  function Unfiltered(p: Predictor, raw: seq<byte>, prior: seq<byte>, n: nat, k: nat): (r: seq<byte>)
    requires k <= |raw| == |prior| && n > 0
    ensures |r| == k
  {
    if k == 0 then []
    else
      var r := Unfiltered(p, raw, prior, n, k - 1);
      r + [AddUp(raw[k - 1], p(Back(r, k - 1, n), prior[k - 1], Back(prior, k - 1, n)))]
  }

  /** Whatever the filter, unfiltering restores the row. */
  lemma {:induction false} UnfilteredFiltered(p: Predictor, row: seq<byte>, prior: seq<byte>, n: nat, k: nat)
    requires k <= |row| == |prior| && n > 0
    ensures Unfiltered(p, Filtered(p, row, prior, n), prior, n, k) == row[..k]
  {
    if k > 0 {
      UnfilteredFiltered(p, row, prior, n, k - 1);
      assert Back(row[..k - 1], k - 1, n) == Back(row, k - 1, n);
      AddUpSubtract(row[k - 1], p(Back(row, k - 1, n), prior[k - 1], Back(prior, k - 1, n)));
    }
  }

  // ---------------------------------------------------------------------------------------------
  // Whole images
  // ---------------------------------------------------------------------------------------------

  /** The pixel bytes of an image whose rows start stride bytes apart. */
  datatype Image = Image(pixels: seq<byte>, stride: nat, w: nat, y: nat, n: nat)
  {
    ghost predicate Valid()
    {
      n > 0 && n <= w <= stride && (y > 0 ==> stride * (y - 1) + w <= |pixels|)
    }

    ghost function Row(j: nat): (r: seq<byte>)
      requires Valid() && j < y
      ensures |r| == w
    {
      MulMono(j, y - 1, stride);
      MulComm(j, stride);
      MulComm(y - 1, stride);
      pixels[stride * j..stride * j + w]
    }

    /** The row above, zeros above the first one. */
    ghost function Prior(j: nat): (r: seq<byte>)
      requires Valid() && j < y
      ensures |r| == w
    {
      if j == 0 then ZeroBytes(w) else Row(j - 1)
    }

    /** The first j rows, without what lies between them. */
    ghost function Rows(j: nat): seq<byte>
      requires Valid() && j <= y
    {
      if j == 0 then [] else Rows(j - 1) + Row(j - 1)
    }

    /** One row as it is stored: the filter, then the filtered bytes. */
    ghost function Line(j: nat, t: byte): (r: seq<byte>)
      requires Valid() && j < y
      ensures |r| == w + 1
    {
      [t] + Filtered(Filter(t), Row(j), Prior(j), n)
    }

    /** The first rows, filtered as ts says. */
    ghost function Lines(ts: seq<byte>): seq<byte>
      requires Valid() && |ts| <= y
    {
      if ts == [] then [] else Lines(ts[..|ts| - 1]) + Line(|ts| - 1, ts[|ts| - 1])
    }

    lemma {:induction false} LinesLength(ts: seq<byte>)
      requires Valid() && |ts| <= y
      ensures |Lines(ts)| == |ts| * (w + 1)
    {
      if ts != [] {
        LinesLength(ts[..|ts| - 1]);
        MulAdd(|ts| - 1, 1, w + 1);
      }
    }
  }

  function LastRow(rows: seq<byte>, w: nat): (r: seq<byte>)
    ensures |r| == w
  {
    if |rows| < w then ZeroBytes(w) else rows[|rows| - w..]
  }

  /** One more line onto the rows so far; nothing when its filter does not exist. */
  function Restore(rows: seq<byte>, line: seq<byte>, n: nat): Option<seq<byte>>
    requires |line| > 0 && n > 0
  {
    var w := |line| - 1;
    if line[0] > 4 then None
    else Some(rows + Unfiltered(Filter(line[0]), line[1..], LastRow(rows, w), n, w))
  }

  /** What a line does to the rows so far. */
  type LineReader = (seq<byte>, seq<byte>) -> Option<seq<byte>>

  function PngReader(n: nat): LineReader
    requires n > 0
  {
    (rows: seq<byte>, line: seq<byte>) => if |line| > 0 then Restore(rows, line, n) else None
  }

  ghost predicate ReadsLine(f: LineReader, n: nat, rows: seq<byte>, line: seq<byte>)
    requires n > 0 && |line| > 0
  {
    f(rows, line) == Restore(rows, line, n)
  }

  ghost predicate ReadsLines(f: LineReader, n: nat)
    requires n > 0
  {
    forall rows, line: seq<byte> {:trigger ReadsLine(f, n, rows, line)} | |line| > 0 :: ReadsLine(f, n, rows, line)
  }

  lemma PngReads(n: nat) returns (f: LineReader)
    requires n > 0
    ensures f == PngReader(n) && ReadsLines(f, n)
  {
    f := PngReader(n);
    forall rows, line: seq<byte> | |line| > 0
      ensures ReadsLine(f, n, rows, line)
    {
    }
  }

  function Restored(f: LineReader, raw: seq<byte>, w: nat): Option<seq<byte>>
  {
    if |raw| < w + 1 then Some([])
    else
      match Restored(f, raw[..|raw| - (w + 1)], w)
      case None => None
      case Some(rows) => f(rows, raw[|raw| - (w + 1)..])
  }

  lemma RestoreOne(rows: seq<byte>, t: byte, p: Predictor, row: seq<byte>, prior: seq<byte>, n: nat)
    requires t <= 4 && p == Filter(t) && |row| == |prior| && LastRow(rows, |row|) == prior && n > 0
    ensures Restore(rows, [t] + Filtered(p, row, prior, n), n) == Some(rows + row)
  {
    var line := [t] + Filtered(p, row, prior, n);
    assert line[1..] == Filtered(p, row, prior, n);
    UnfilteredFiltered(p, row, prior, n, |row|);
    assert row[..|row|] == row;
  }

  lemma PriorIsLast(img: Image, j: nat)
    requires img.Valid() && j < img.y
    ensures LastRow(img.Rows(j), img.w) == img.Prior(j)
  {
    if j > 0 {
      var before, row := img.Rows(j - 1), img.Row(j - 1);
      assert img.Rows(j) == before + row;
      assert (before + row)[|before|..] == row;
    }
  }

  lemma RestoreLine(f: LineReader, img: Image, j: nat, t: byte, line: seq<byte>)
    requires img.Valid() && ReadsLines(f, img.n) && j < img.y && t <= 4 && line == img.Line(j, t)
    ensures f(img.Rows(j), line) == Some(img.Rows(j + 1))
  {
    assert ReadsLine(f, img.n, img.Rows(j), line);
    PriorIsLast(img, j);
    RestoreOne(img.Rows(j), t, Filter(t), img.Row(j), img.Prior(j), img.n);
  }

  /** Restoring filtered lines gives the rows, whatever filters were chosen. */
  lemma {:induction false} RestoredLines(f: LineReader, img: Image, ts: seq<byte>)
    requires img.Valid() && ReadsLines(f, img.n) && |ts| <= img.y && forall j :: 0 <= j < |ts| ==> ts[j] <= 4
    ensures Restored(f, img.Lines(ts), img.w) == Some(img.Rows(|ts|))
  {
    if ts != [] {
      var j := |ts| - 1;
      RestoredLines(f, img, ts[..j]);
      RestoreLine(f, img, j, ts[j], img.Line(j, ts[j]));
      RestoredSnoc(f, img.Lines(ts[..j]), img.Line(j, ts[j]), img.w);
    }
  }

  lemma RestoredSnoc(f: LineReader, raw: seq<byte>, line: seq<byte>, w: nat)
    requires |line| == w + 1
    ensures Restored(f, raw + line, w) == match Restored(f, raw, w) case None => None case Some(rows) => f(rows, line)
  {
    var all := raw + line;
    assert all[..|all| - (w + 1)] == raw && all[|all| - (w + 1)..] == line;
  }

  lemma ShortRow(f: LineReader, raw: seq<byte>, w: nat)
    requires |raw| < w + 1
    ensures Restored(f, raw, w) == Some([])
  {
  }

  /** A line without a filter, and one whose second byte is told by its left neighbour, which is as near as the
      corner. */
  lemma RestoredExample(f: LineReader)
    requires ReadsLines(f, 1)
    ensures Restored(f, [0, 5, 6, 4, 254, 7], 2) == Some([5, 6, 3, 10])
  {
    ShortRow(f, [], 2);
    FirstExampleLine(f);
    SecondExampleLine(f);
    RestoredSnoc(f, [], [0, 5, 6], 2);
    RestoredSnoc(f, [0, 5, 6], [4, 254, 7], 2);
    assert [] + [0, 5, 6] == [0, 5, 6] && [0, 5, 6] + [4, 254, 7] == [0, 5, 6, 4, 254, 7];
  }

  lemma FirstExampleLine(f: LineReader)
    requires ReadsLines(f, 1)
    ensures f([], [0, 5, 6]) == Some([5, 6])
  {
    assert ReadsLine(f, 1, [], [0, 5, 6]);
    assert ZeroBytes(2) == [0, 0] && [] + [5, 6] == [5, 6];
    TwoBytes(Filter(0), 5, 6, [0, 0], [0, 5, 6]);
  }

  lemma SecondExampleLine(f: LineReader)
    requires ReadsLines(f, 1)
    ensures f([5, 6], [4, 254, 7]) == Some([5, 6, 3, 10])
  {
    assert ReadsLine(f, 1, [5, 6], [4, 254, 7]);
    assert Paeth(0, 5, 0) == 5 && Paeth(3, 6, 5) == 3;
    TwoBytes(Filter(4), 254, 7, [5, 6], [4, 254, 7]);
    assert [5, 6] + [3, 10] == [5, 6, 3, 10];
  }

  /** A row of two bytes. */
  lemma TwoBytes(p: Predictor, v0: byte, v1: byte, prior: seq<byte>, line: seq<byte>)
    requires |prior| == 2 && |line| == 3 && line[1] == v0 && line[2] == v1
    ensures var r0 := AddUp(v0, p(0, prior[0], 0));
      Unfiltered(p, line[1..], prior, 1, 2) == [r0, AddUp(v1, p(r0, prior[1], prior[0]))]
  {
    var raw := line[1..];
    assert Unfiltered(p, raw, prior, 1, 0) == [];
    assert Unfiltered(p, raw, prior, 1, 1) == [AddUp(v0, p(0, prior[0], 0))];
  }

  // ---------------------------------------------------------------------------------------------
  // The writer
  // ---------------------------------------------------------------------------------------------

  /** The variant of filter k that the writer uses; on the first row it does not look up. */
  function FilterType(k: nat, j: nat): nat
  {
    if j > 0 then k else if k == 2 then 0 else if k == 3 then 5 else if k == 4 then 6 else k
  }

  /** The variants that read the row above. */
  predicate LooksUp(kind: nat)
  {
    2 <= kind <= 4
  }

  function FirstPixel(kind: nat, v: byte, up: byte): byte
  {
    if kind == 2 then Subtract(v, up) else if kind == 3 then Subtract(v, up / 2)
    else if kind == 4 then Subtract(v, Paeth(0, up, 0)) else v
  }

  function LaterPixel(kind: nat, v: byte, left: byte, up: byte, corner: byte): byte
  {
    if kind == 1 then Subtract(v, left) else if kind == 2 then Subtract(v, up)
    else if kind == 3 then Subtract(v, (left + up) / 2) else if kind == 4 then Subtract(v, Paeth(left, up, corner))
    else if kind == 5 then Subtract(v, left / 2) else if kind == 6 then Subtract(v, Paeth(left, 0, 0))
    else v
  }

  /** With zeros outside the image, the special cases of the first pixel and the first row are the standard filter;
      up1 and corner1 are only looked at where they are up and corner. */
  lemma PixelIs(k: nat, j: nat, v: byte, left: byte, up: byte, corner: byte, up1: byte, corner1: byte)
    requires k < 5 && (j == 0 ==> up == corner == 0)
    requires LooksUp(FilterType(k, j)) ==> up1 == up && corner1 == corner
    ensures LaterPixel(FilterType(k, j), v, left, up1, corner1) == Subtract(v, Filter(k)(left, up, corner))
    ensures FirstPixel(FilterType(k, j), v, up1) == Subtract(v, Filter(k)(0, up, 0))
  {
  }

  /** The byte above, for the variants that look there. */
  function UpByte(img: Image, kind: nat, z: nat, i: nat): byte
    requires img.Valid() && z + img.w <= |img.pixels| && i < img.w && (LooksUp(kind) ==> z >= img.stride)
  {
    if LooksUp(kind) then img.pixels[z + i - img.stride] else 0
  }

  /** Where row j starts, with room for it and for the row above. */
  function RowStart(img: Image, j: nat): (z: nat)
    requires img.Valid() && j < img.y
    ensures z == img.stride * j && z + img.w <= |img.pixels| && (j > 0 ==> z >= img.stride)
    ensures img.Row(j) == img.pixels[z..z + img.w]
    ensures j > 0 ==> img.Prior(j) == img.pixels[z - img.stride..z - img.stride + img.w]
  {
    MulMono(j, img.y - 1, img.stride);
    MulComm(j, img.stride);
    MulComm(img.y - 1, img.stride);
    if j > 0 then MulAdd(j - 1, 1, img.stride); MulComm(j - 1, img.stride); img.stride * j else 0
  }

  /** What the two loops read. */
  lemma BytesAround(img: Image, j: nat, kind: nat, i: nat)
    requires img.Valid() && j < img.y && i < img.w && (j == 0 ==> !LooksUp(kind))
    ensures img.Row(j)[i] == img.pixels[RowStart(img, j) + i]
    ensures j == 0 ==> img.Prior(j)[i] == 0
    ensures LooksUp(kind) ==> UpByte(img, kind, RowStart(img, j), i) == img.Prior(j)[i]
  {
  }

  lemma FirstPixelAt(img: Image, j: nat, k: nat, i: nat)
    requires img.Valid() && j < img.y && k < 5 && i < img.n
    ensures var kind, z := FilterType(k, j), RowStart(img, j);
      FirstPixel(kind, img.pixels[z + i], UpByte(img, kind, z, i)) ==
        Filtered(Filter(k), img.Row(j), img.Prior(j), img.n)[i]
  {
    var kind, z := FilterType(k, j), RowStart(img, j);
    BytesAround(img, j, kind, i);
    PixelIs(k, j, img.Row(j)[i], 0, img.Prior(j)[i], 0, UpByte(img, kind, z, i), 0);
  }

  lemma LaterPixelAt(img: Image, j: nat, k: nat, i: nat)
    requires img.Valid() && j < img.y && k < 5 && img.n <= i < img.w
    ensures var kind, z, n := FilterType(k, j), RowStart(img, j), img.n;
      LaterPixel(kind, img.pixels[z + i], img.pixels[z + i - n], UpByte(img, kind, z, i),
                 UpByte(img, kind, z, i - n)) ==
        Filtered(Filter(k), img.Row(j), img.Prior(j), img.n)[i]
  {
    var kind, z, n, row, prior := FilterType(k, j), RowStart(img, j), img.n, img.Row(j), img.Prior(j);
    BytesAround(img, j, kind, i);
    BytesAround(img, j, kind, i - n);
    PixelIs(k, j, row[i], row[i - n], prior[i], prior[i - n], UpByte(img, kind, z, i), UpByte(img, kind, z, i - n));
    FilteredAt(Filter(k), row, prior, n, i);
  }

  lemma FilteredAt(p: Predictor, row: seq<byte>, prior: seq<byte>, n: nat, i: nat)
    requires n <= i < |row| == |prior|
    ensures Filtered(p, row, prior, n)[i] == Subtract(row[i], p(row[i - n], prior[i], prior[i - n]))
  {
  }

  /** The loop body for the first pixel. */
  method FirstByte(img: Image, j: nat, k: nat, i: nat) returns (v: byte)
    requires img.Valid() && j < img.y && k < 5 && i < img.n
    ensures v == FilteredRow(img, j, k)[i]
  {
    var kind, z := FilterType(k, j), RowStart(img, j);
    FirstPixelAt(img, j, k, i);
    v := FirstPixel(kind, img.pixels[z + i], UpByte(img, kind, z, i));
  }

  /** The loop body for the others. */
  method LaterByte(img: Image, j: nat, k: nat, i: nat) returns (v: byte)
    requires img.Valid() && j < img.y && k < 5 && img.n <= i < img.w
    ensures v == FilteredRow(img, j, k)[i]
  {
    var kind, z, n := FilterType(k, j), RowStart(img, j), img.n;
    LaterPixelAt(img, j, k, i);
    v := LaterPixel(kind, img.pixels[z + i], img.pixels[z + i - n], UpByte(img, kind, z, i),
                    UpByte(img, kind, z, i - n));
  }

  /** Row j under filter k. */
  ghost function FilteredRow(img: Image, j: nat, k: nat): (r: seq<byte>)
    requires img.Valid() && j < img.y
    ensures |r| == img.w
  {
    Filtered(Filter(k), img.Row(j), img.Prior(j), img.n)
  }

  /** All the bytes of a line. */
  method FilterLine(img: Image, j: nat, k: nat, line: array<byte>)
    requires img.Valid() && j < img.y && k < 5 && line.Length == img.w
    modifies line
    ensures line[..] == FilteredRow(img, j, k)
  {
    ghost var want := FilteredRow(img, j, k);
    for i := 0 to img.n
      invariant forall u :: 0 <= u < i ==> line[u] == want[u]
    {
      line[i] := FirstByte(img, j, k, i);
    }
    for i := img.n to img.w
      invariant forall u :: 0 <= u < i ==> line[u] == want[u]
    {
      line[i] := LaterByte(img, j, k, i);
    }
  }

  // the heuristic: the first filter with the smallest sum of absolute values

  /** The absolute value of a byte read as a signed one. */
  function SignedAbs(b: byte): nat
  {
    if b < 128 then b else 256 - b
  }

  function Estimate(line: seq<byte>): nat
  {
    if line == [] then 0 else Estimate(line[..|line| - 1]) + SignedAbs(line[|line| - 1])
  }

  method EstimateLine(line: array<byte>) returns (est: nat)
    ensures est == Estimate(line[..])
  {
    est := 0;
    for i := 0 to line.Length
      invariant est == Estimate(line[..i])
    {
      assert line[..i + 1][..i] == line[..i];
      est := est + SignedAbs(line[i]);
    }
    assert line[..line.Length] == line[..];
  }

  const WORST: nat := 0x7fff_ffff

  /** The estimates of the five filters for row j. */
  ghost function Estimates(img: Image, j: nat): (es: seq<nat>)
    requires img.Valid() && j < img.y
    ensures |es| == 5
  {
    seq(5, k requires 0 <= k < 5 => Estimate(FilteredRow(img, j, k)))
  }

  /** Of the first m estimates, number k is the first of the smallest, v, if that is below the worst. */
  ghost predicate BestOf(es: seq<nat>, m: nat, k: nat, v: nat)
    requires m <= |es| == 5
  {
    && k < 5 && v <= WORST && (v < WORST ==> k < m && v == es[k]) && (v == WORST ==> k == 0)
    && forall u: nat :: u < m ==> es[u] >= v && (v < WORST && u < k ==> es[u] > v)
  }

  /** The heuristic's choice for row j. */
  ghost predicate Chosen(img: Image, j: nat, k: nat)
    requires img.Valid() && j < img.y
  {
    exists v: nat :: BestOf(Estimates(img, j), 5, k, v)
  }

  method TryFilter(img: Image, j: nat, k: nat, line: array<byte>) returns (est: nat)
    requires img.Valid() && j < img.y && k < 5 && line.Length == img.w
    modifies line
    ensures est == Estimates(img, j)[k]
  {
    FilterLine(img, j, k, line);
    est := EstimateLine(line);
  }

  /** Tries all filters, then filters again with the best. */
  method ChooseFilter(img: Image, j: nat, line: array<byte>) returns (best: byte)
    requires img.Valid() && j < img.y && line.Length == img.w
    modifies line
    ensures best <= 4 && Chosen(img, j, best)
    ensures line[..] == FilteredRow(img, j, best)
  {
    best := 0;
    var bestval := WORST;
    ghost var es := Estimates(img, j);
    for k := 0 to 5
      invariant BestOf(es, k, best, bestval)
    {
      var est := TryFilter(img, j, k, line);
      if est < bestval {
        bestval := est;
        best := k;
      }
    }
    FilterLine(img, j, best, line);
  }

  ghost predicate AllChosen(img: Image, ts: seq<byte>)
    requires img.Valid()
  {
    |ts| <= img.y && forall j: nat :: j < |ts| ==> ts[j] <= 4 && Chosen(img, j, ts[j])
  }

  lemma LinesSnoc(img: Image, ts: seq<byte>, t: byte)
    requires img.Valid() && |ts| < img.y
    ensures img.Lines(ts + [t]) == img.Lines(ts) + ([t] + FilteredRow(img, |ts|, t))
  {
    assert (ts + [t])[..|ts|] == ts;
  }

  method FilterRow(img: Image, j: nat, line: array<byte>, filt: array<byte>, at: nat) returns (best: byte)
    requires img.Valid() && j < img.y && line.Length == img.w && at + 1 + img.w <= filt.Length && filt != line
    modifies line, filt
    ensures best <= 4 && Chosen(img, j, best)
    ensures filt[..at + 1 + img.w] == old(filt[..at]) + ([best] + FilteredRow(img, j, best))
  {
    best := ChooseFilter(img, j, line);
    StoreLine(filt, at, best, line);
  }

  /** Where the filtered line of row j starts. */
  function LineStart(j: nat, w: nat): nat
  {
    j * (w + 1)
  }

  lemma LineStartNext(j: nat, w: nat, y: nat)
    requires j < y
    ensures LineStart(j + 1, w) == LineStart(j, w) + w + 1 <= LineStart(y, w)
  {
    MulAdd(j, 1, w + 1);
    MulMono(j + 1, y, w + 1);
  }

  /** The filtered lines of the whole image. */
  method FilterImage(img: Image) returns (filt: array<byte>, ghost ts: seq<byte>)
    requires img.Valid()
    ensures fresh(filt) && |ts| == img.y && AllChosen(img, ts)
    ensures filt[..] == img.Lines(ts)
  {
    var line := new byte[img.w];
    filt := new byte[LineStart(img.y, img.w)];
    ts := FilterRows(img, line, filt);
    assert filt[..filt.Length] == filt[..];
  }

  /** The loop of the writer over the rows. */
  method FilterRows(img: Image, line: array<byte>, filt: array<byte>) returns (ghost ts: seq<byte>)
    requires img.Valid() && line.Length == img.w && filt.Length == LineStart(img.y, img.w) && filt != line
    modifies line, filt
    ensures |ts| == img.y && AllChosen(img, ts) && filt[..filt.Length] == img.Lines(ts)
  {
    ts := [];
    var at: nat := 0;
    for j := 0 to img.y
      invariant |ts| == j && AllChosen(img, ts)
      invariant at == LineStart(j, img.w) <= filt.Length && filt[..at] == img.Lines(ts)
    {
      LineStartNext(j, img.w, img.y);
      ts := FilterNext(img, j, line, filt, at, ts);
      at := at + 1 + img.w;
    }
  }

  method FilterNext(img: Image, j: nat, line: array<byte>, filt: array<byte>, at: nat, ghost ts: seq<byte>)
    returns (ghost ts': seq<byte>)
    requires img.Valid() && line.Length == img.w && filt != line && at + 1 + img.w <= filt.Length
    requires |ts| == j < img.y && AllChosen(img, ts) && filt[..at] == img.Lines(ts)
    modifies line, filt
    ensures |ts'| == |ts| + 1 && AllChosen(img, ts') && filt[..at + 1 + img.w] == img.Lines(ts')
  {
    var best := FilterRow(img, j, line, filt, at);
    LinesSnoc(img, ts, best);
    ts' := ts + [best];
  }

  method StoreLine(filt: array<byte>, at: nat, best: byte, line: array<byte>)
    requires at + 1 + line.Length <= filt.Length && filt != line
    modifies filt
    ensures filt[..at + 1 + line.Length] == old(filt[..at]) + ([best] + line[..])
  {
    filt[at] := best;
    for i := 0 to line.Length
      invariant filt[..at + 1 + i] == old(filt[..at]) + ([best] + line[..i])
    {
      filt[at + 1 + i] := line[i];
    }
  }

  // ---------------------------------------------------------------------------------------------
  // The reader
  // ---------------------------------------------------------------------------------------------

  /** The reader's variants undo the writer's. */
  function FirstRestored(kind: nat, v: byte, up: byte): byte
  {
    if kind == 2 then AddUp(v, up) else if kind == 3 then AddUp(v, up / 2)
    else if kind == 4 then AddUp(v, Paeth(0, up, 0)) else v
  }

  function LaterRestored(kind: nat, v: byte, left: byte, up: byte, corner: byte): byte
  {
    if kind == 1 then AddUp(v, left) else if kind == 2 then AddUp(v, up)
    else if kind == 3 then AddUp(v, (left + up) / 2) else if kind == 4 then AddUp(v, Paeth(left, up, corner))
    else if kind == 5 then AddUp(v, left / 2) else if kind == 6 then AddUp(v, Paeth(left, 0, 0))
    else v
  }

  ghost predicate PredictsAt(p: Predictor, t: nat, a: byte, b: byte, c: byte)
  {
    p(a, b, c) == Predict(t, a, b, c)
  }

  /** p is filter t. */
  ghost predicate Predicts(p: Predictor, t: nat)
  {
    forall a: byte, b: byte, c: byte {:trigger PredictsAt(p, t, a, b, c)} :: PredictsAt(p, t, a, b, c)
  }

  lemma FilterPredicts(t: nat) returns (p: Predictor)
    ensures p == Filter(t) && Predicts(p, t)
  {
    p := Filter(t);
    forall a: byte, b: byte, c: byte
      ensures PredictsAt(p, t, a, b, c)
    {
    }
  }

  method RestoreFirst(t: nat, j: nat, v: byte, up1: byte, ghost p: Predictor, ghost up: byte) returns (r: byte)
    requires t < 5 && Predicts(p, t) && (j == 0 ==> up == 0) && (LooksUp(FilterType(t, j)) ==> up1 == up)
    ensures r == AddUp(v, p(0, up, 0))
  {
    r := FirstRestored(FilterType(t, j), v, up1);
    assert PredictsAt(p, t, 0, up, 0);
  }

  method RestoreLater(t: nat, j: nat, v: byte, left: byte, up1: byte, corner1: byte, ghost p: Predictor,
                      ghost up: byte, ghost corner: byte)
      returns (r: byte)
    requires t < 5 && Predicts(p, t) && (j == 0 ==> up == corner == 0)
    requires LooksUp(FilterType(t, j)) ==> up1 == up && corner1 == corner
    ensures r == AddUp(v, p(left, up, corner))
  {
    r := LaterRestored(FilterType(t, j), v, left, up1, corner1);
    assert PredictsAt(p, t, left, up, corner);
  }

  /** The next byte of the row at cur: it may depend on bytes of this row and of the row before. */
  method NextByte(raw: byte, out: array<byte>, cur: nat, w: nat, n: nat, j: nat, t: nat, k: nat,
                  ghost prior: seq<byte>, ghost p: Predictor)
      returns (v: byte)
    requires t < 5 && 0 < n <= w && k < w && cur + w <= out.Length && (j == 0 <==> cur < w)
    requires prior == LastRow(out[..cur], w) && Predicts(p, t)
    ensures v == AddUp(raw, p(Back(out[cur..cur + k], k, n), prior[k], Back(prior, k, n)))
  {
    var kind := FilterType(t, j);
    var up := if LooksUp(kind) then out[cur - w + k] else 0;
    if k < n {
      v := RestoreFirst(t, j, raw, up, p, prior[k]);
    } else {
      var corner := if LooksUp(kind) then out[cur - w + k - n] else 0;
      v := RestoreLater(t, j, raw, out[cur + k - n], up, corner, p, prior[k], prior[k - n]);
    }
  }

  lemma UnfilteredNext(p: Predictor, row: seq<byte>, prior: seq<byte>, n: nat, k: nat, done: seq<byte>, v: byte)
    requires k < |row| == |prior| && n > 0 && done == Unfiltered(p, row, prior, n, k)
    requires v == AddUp(row[k], p(Back(done, k, n), prior[k], Back(prior, k, n)))
    ensures Unfiltered(p, row, prior, n, k + 1) == done + [v]
  {
  }

  /** Byte k of the row at cur, in place. */
  method RestoreByte(raw: seq<byte>, at: nat, out: array<byte>, cur: nat, w: nat, n: nat, j: nat, t: nat, k: nat,
                     ghost rows: seq<byte>, ghost row: seq<byte>, ghost p: Predictor)
    requires t < 5 && 0 < n <= w && k < w && at + w <= |raw| && cur + w <= out.Length && (j == 0 <==> cur < w)
    requires rows == out[..cur] && row == raw[at..at + w] && Predicts(p, t)
    requires out[cur..cur + k] == Unfiltered(p, row, LastRow(rows, w), n, k)
    modifies out
    ensures out[..cur] == rows
    ensures out[cur..cur + k + 1] == Unfiltered(p, row, LastRow(rows, w), n, k + 1)
  {
    ghost var done, prior := out[cur..cur + k], LastRow(rows, w);
    var v := NextByte(raw[at + k], out, cur, w, n, j, t, k, prior, p);
    UnfilteredNext(p, row, prior, n, k, done, v);
    PutAt(out, cur, k, v, rows, done);
  }

  method PutAt(out: array<byte>, cur: nat, k: nat, v: byte, ghost rows: seq<byte>, ghost done: seq<byte>)
    requires cur + k < out.Length && out[..cur] == rows && out[cur..cur + k] == done
    modifies out
    ensures out[..cur] == rows && out[cur..cur + k + 1] == done + [v]
  {
    out[cur + k] := v;
  }

  /** One row; false when its filter does not exist. */
  method RestoreRow(raw: seq<byte>, at: nat, out: array<byte>, cur: nat, w: nat, n: nat, j: nat) returns (ok: bool)
    requires 0 < n <= w && at + 1 + w <= |raw| && cur + w <= out.Length && (j == 0 <==> cur < w)
    modifies out
    ensures ok <==> Restore(old(out[..cur]), raw[at..at + 1 + w], n).Some?
    ensures ok ==> Restore(old(out[..cur]), raw[at..at + 1 + w], n) == Some(out[..cur + w])
  {
    var t := raw[at];
    ghost var rows, line, row := out[..cur], raw[at..at + 1 + w], raw[at + 1..at + 1 + w];
    assert line[1..] == row;
    if t > 4 {
      return false;
    }
    ghost var p := FilterPredicts(t);
    for k := 0 to w
      invariant out[..cur] == rows
      invariant out[cur..cur + k] == Unfiltered(p, row, LastRow(rows, w), n, k)
    {
      RestoreByte(raw, at + 1, out, cur, w, n, j, t, k, rows, row, p);
    }
    RestoreIs(rows, line, row, n, out[cur..cur + w]);
    assert out[..cur + w] == rows + out[cur..cur + w];
    ok := true;
  }

  lemma RestoreIs(rows: seq<byte>, line: seq<byte>, row: seq<byte>, n: nat, done: seq<byte>)
    requires |line| > 0 && line[0] <= 4 && n > 0 && row == line[1..]
    requires done == Unfiltered(Filter(line[0]), row, LastRow(rows, |row|), n, |row|)
    ensures Restore(rows, line, n) == Some(rows + done)
  {
  }

  /** One more line of the raw bytes. */
  lemma RestoredNext(f: LineReader, raw: seq<byte>, at: nat, w: nat)
    requires at + w + 1 <= |raw|
    ensures Restored(f, raw[..at + w + 1], w) ==
      match Restored(f, raw[..at], w)
      case None => None
      case Some(rows) => f(rows, raw[at..at + 1 + w])
  {
    assert raw[..at + w + 1] == raw[..at] + raw[at..at + 1 + w];
    RestoredSnoc(f, raw[..at], raw[at..at + 1 + w], w);
  }

  /** The loop body of the reader: the line at at gives the row at cur. */
  method RestoreNext(raw: seq<byte>, at: nat, out: array<byte>, cur: nat, w: nat, n: nat, j: nat, ghost f: LineReader)
    returns (ok: bool)
    requires 0 < n <= w && at + w + 1 <= |raw| && cur + w <= out.Length && (j == 0 <==> cur < w) && ReadsLines(f, n)
    requires Restored(f, raw[..at], w) == Some(out[..cur])
    modifies out
    ensures ok <==> Restored(f, raw[..at + w + 1], w).Some?
    ensures ok ==> Restored(f, raw[..at + w + 1], w) == Some(out[..cur + w])
  {
    RestoredNext(f, raw, at, w);
    assert ReadsLine(f, n, out[..cur], raw[at..at + 1 + w]);
    ok := RestoreRow(raw, at, out, cur, w, n, j);
  }

  /** The loop of the reader over the lines. */
  method RestoreLines(raw: seq<byte>, out: array<byte>, w: nat, n: nat, y: nat, ghost f: LineReader) returns (ok: bool)
    requires 0 < n <= w && |raw| == LineStart(y, w) && out.Length == RowsLength(y, w) && ReadsLines(f, n)
    modifies out
    ensures ok <==> Restored(f, raw, w).Some?
    ensures ok ==> Restored(f, raw, w) == Some(out[..])
  {
    var at: nat, cur: nat := 0, 0;
    for j := 0 to y
      invariant at == LineStart(j, w) <= |raw| && cur == RowsLength(j, w) <= out.Length
      invariant Restored(f, raw[..at], w) == Some(out[..cur])
    {
      RowsLengthNext(j, w, y);
      LineStartNext(j, w, y);
      ok := RestoreNext(raw, at, out, cur, w, n, j, f);
      if !ok {
        RestoredFails(f, raw, j + 1, y, w);
        return;
      }
      at, cur := at + w + 1, cur + w;
    }
    assert raw[..|raw|] == raw && out[..out.Length] == out[..];
    ok := true;
  }

  /** stbi__create_png_image_raw for eight-bit samples and as many channels out as in. */
  method CreatePngImageRaw(raw: seq<byte>, x: nat, y: nat, n: nat) returns (ok: bool, out: array<byte>)
    requires x > 0 && n > 0
    ensures fresh(out)
    ensures ok <==> |raw| == LineStart(y, x * n) && Restored(PngReader(n), raw, x * n).Some?
    ensures ok ==> Restored(PngReader(n), raw, x * n) == Some(out[..])
  {
    var w := RowWidth(x, n);
    out := new byte[RowsLength(y, w)];
    if |raw| != LineStart(y, w) {
      return false, out;
    }
    ghost var f := PngReads(n);
    ok := RestoreLines(raw, out, w, n, y, f);
  }

  function RowWidth(x: nat, n: nat): (w: nat)
    ensures w == x * n && (x > 0 ==> w >= n)
  {
    if x > 0 then MulMono(1, x, n); x * n else 0
  }

  function RowsLength(j: nat, w: nat): nat
  {
    j * w
  }

  lemma RowsLengthNext(j: nat, w: nat, y: nat)
    requires j < y
    ensures RowsLength(j + 1, w) == RowsLength(j, w) + w <= RowsLength(y, w)
    ensures w > 0 ==> (j == 0 <==> RowsLength(j, w) < w)
  {
    MulAdd(j, 1, w);
    MulMono(j + 1, y, w);
    if j > 0 { MulMono(1, j, w); }
  }

  /** A line that cannot be restored spoils the whole image. */
  lemma {:induction false} RestoredFails(f: LineReader, raw: seq<byte>, j: nat, y: nat, w: nat)
    requires j <= y && |raw| == LineStart(y, w) && LineStart(j, w) <= |raw|
    requires Restored(f, raw[..LineStart(j, w)], w).None?
    ensures Restored(f, raw, w).None?
    decreases y - j
  {
    if j == y {
      assert raw[..|raw|] == raw;
    } else {
      LineStartNext(j, w, y);
      RestoredNext(f, raw, LineStart(j, w), w);
      RestoredFails(f, raw, j + 1, y, w);
    }
  }

  // ---------------------------------------------------------------------------------------------
  // Through the compressor and back
  // ---------------------------------------------------------------------------------------------

  /** What the caller hands to the writer; no stride means that the rows lie side by side. */
  function ImageOf(pixels: seq<byte>, strideBytes: nat, x: nat, y: nat, n: nat): Image
  {
    Image(pixels, if strideBytes == 0 then x * n else strideBytes, x * n, y, n)
  }

  /** An image written and read again: filters, compressor, inflater and unfilters give every byte of every row back. */
  method WriteThenRead(pixels: seq<byte>, strideBytes: nat, x: nat, y: nat, n: nat) returns (ok: bool, image: seq<byte>)
    requires x > 0 && ImageOf(pixels, strideBytes, x, y, n).Valid()
    ensures ok && image == ImageOf(pixels, strideBytes, x, y, n).Rows(y)
  {
    var img := ImageOf(pixels, strideBytes, x, y, n);
    var filt, ts := FilterImage(img);
    var len, raw := ZlibRoundTrip.CompressThenDecode(filt[..], 8, filt.Length);
    ghost var f := PngReads(n);
    assert raw[..filt.Length] == raw;
    ReadsBack(f, img, ts);
    var out;
    ok, out := CreatePngImageRaw(raw, x, y, n);
    image := out[..];
  }

  lemma ReadsBack(f: LineReader, img: Image, ts: seq<byte>)
    requires img.Valid() && ReadsLines(f, img.n) && |ts| == img.y && forall j :: 0 <= j < |ts| ==> ts[j] <= 4
    ensures |img.Lines(ts)| == LineStart(img.y, img.w)
    ensures Restored(f, img.Lines(ts), img.w) == Some(img.Rows(img.y))
  {
    img.LinesLength(ts);
    RestoredLines(f, img, ts);
  }
}
