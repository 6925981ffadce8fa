/** Dilated convolution: the reshape-and-transpose form equals the direct one. */
module DilatedConv {
  import opened Arith

  type Vec = seq<real>

  /** A weight matrix; entries outside its rows and columns count as zero. */
  datatype Mat = Mat(cols: nat, rows: seq<Vec>)

  function Entry(m: Mat, c: nat, o: nat): real
  {
    if c < |m.rows| && o < |m.rows[c]| then m.rows[c][o] else 0.0
  }

  function Dot(x: Vec, m: Mat, o: nat, n: nat): real
    requires n <= |x|
  {
    if n == 0 then 0.0 else Dot(x, m, o, n - 1) + x[n - 1] * Entry(m, n - 1, o)
  }

  function MatMul(x: Vec, m: Mat): Vec
  {
    seq(m.cols, o requires 0 <= o => Dot(x, m, o, |x|))
  }

  function Add(a: Vec, b: Vec): Vec
  {
    seq(|a|, i requires 0 <= i < |a| => a[i] + if i < |b| then b[i] else 0.0)
  }

  /** The taps of a filter applied to as many consecutive inputs. */
  function Taps(xs: seq<Vec>, filter: seq<Mat>): Vec
    requires |xs| == |filter| > 0
  {
    if |xs| == 1 then MatMul(xs[0], filter[0])
    else Add(Taps(xs[..|xs| - 1], filter[..|xs| - 1]), MatMul(xs[|xs| - 1], filter[|xs| - 1]))
  }

  // ---------------------------------------------------------------------------------------------
  // Tensors with two indices over vectors, stored row by row
  // ---------------------------------------------------------------------------------------------

  datatype Tensor = Tensor(n0: nat, n1: nat, flat: seq<Vec>)
  {
    ghost predicate Valid() { |flat| == n0 * n1 }

    function At(i: nat, j: nat): Vec
      requires Valid() && i < n0 && j < n1
    {
      FlatBound(i, j, n0, n1);
      flat[i * n1 + j]
    }
  }

  lemma FlatBound(i: nat, j: nat, n0: nat, n1: nat)
    requires i < n0 && j < n1
    ensures 0 <= i * n1 + j < n0 * n1
    ensures (i * n1 + j) / n1 == i && (i * n1 + j) % n1 == j
  {
    MulMono(i + 1, n0, n1);
    MulAdd(i, 1, n1);
    DivModUnique(i, n1, j);
  }

  lemma FlatSplit(k: nat, n0: nat, n1: nat)
    requires k < n0 * n1
    ensures n1 > 0 && k / n1 < n0 && k % n1 < n1 && k == (k / n1) * n1 + k % n1
  {
    assert n1 > 0;
    if k / n1 >= n0 {
      MulMono(n0, k / n1, n1);
    }
  }

  function Reshape(t: Tensor, m0: nat, m1: nat): (r: Tensor)
    requires t.Valid() && m0 * m1 == t.n0 * t.n1
    ensures r.Valid() && r.n0 == m0 && r.n1 == m1
  {
    Tensor(m0, m1, t.flat)
  }

  /** The tensor with the given entries. */
  function Build(n0: nat, n1: nat, f: (nat, nat) --> Vec): (r: Tensor)
    requires forall i: nat, j: nat | i < n0 && j < n1 :: f.requires(i, j)
    ensures r.Valid() && r.n0 == n0 && r.n1 == n1
  {
    Tensor(n0, n1, seq(n0 * n1, k requires 0 <= k < n0 * n1 =>
      FlatSplit(k, n0, n1);
      f(k / n1, k % n1)))
  }

  lemma BuildAt(n0: nat, n1: nat, f: (nat, nat) --> Vec, i: nat, j: nat)
    requires forall i: nat, j: nat | i < n0 && j < n1 :: f.requires(i, j)
    requires i < n0 && j < n1
    ensures Build(n0, n1, f).At(i, j) == f(i, j)
  {
    FlatBound(i, j, n0, n1);
  }

  function Transpose(t: Tensor): (r: Tensor)
    requires t.Valid()
    ensures r.Valid() && r.n0 == t.n1 && r.n1 == t.n0
  {
    Build(t.n1, t.n0, (j: nat, i: nat) requires j < t.n1 && i < t.n0 => t.At(i, j))
  }

  lemma TransposeAt(t: Tensor, j: nat, i: nat)
    requires t.Valid() && j < t.n1 && i < t.n0
    ensures Transpose(t).At(j, i) == t.At(i, j)
  {
    BuildAt(t.n1, t.n0, (j: nat, i: nat) requires j < t.n1 && i < t.n0 => t.At(i, j), j, i);
  }

  /** Zeros after the end of each row. */
  function PadTime(t: Tensor, pad: nat, zero: Vec): (r: Tensor)
    requires t.Valid()
    ensures r.Valid() && r.n0 == t.n0 && r.n1 == t.n1 + pad
  {
    Build(t.n0, t.n1 + pad,
          (i: nat, j: nat) requires i < t.n0 && j < t.n1 + pad => if j < t.n1 then t.At(i, j) else zero)
  }

  lemma PadTimeAt(t: Tensor, pad: nat, zero: Vec, i: nat, j: nat)
    requires t.Valid() && i < t.n0 && j < t.n1
    ensures PadTime(t, pad, zero).At(i, j) == t.At(i, j)
  {
    BuildAt(t.n0, t.n1 + pad,
            (i: nat, j: nat) requires i < t.n0 && j < t.n1 + pad => if j < t.n1 then t.At(i, j) else zero, i, j);
  }

  /** The first width entries of each row. */
  function SliceTime(t: Tensor, width: nat): (r: Tensor)
    requires t.Valid() && width <= t.n1
    ensures r.Valid() && r.n0 == t.n0 && r.n1 == width
  {
    Build(t.n0, width, (i: nat, j: nat) requires i < t.n0 && j < width => t.At(i, j))
  }

  lemma SliceTimeAt(t: Tensor, width: nat, i: nat, j: nat)
    requires t.Valid() && width <= t.n1 && i < t.n0 && j < width
    ensures SliceTime(t, width).At(i, j) == t.At(i, j)
  {
    BuildAt(t.n0, width, (i: nat, j: nat) requires i < t.n0 && j < width => t.At(i, j), i, j);
  }

  /** The inputs that the taps of a filter of width k see from position t on, dilation apart. */
  function Window(x: Tensor, b: nat, t: nat, dilation: nat, k: nat): (w: seq<Vec>)
    requires x.Valid() && b < x.n0 && k > 0 && t + (k - 1) * dilation < x.n1
    ensures |w| == k
  {
    seq(k, w requires 0 <= w < k => MulMono(w, k - 1, dilation); x.At(b, t + w * dilation))
  }

  /** A plain convolution without padding. */
  function Conv1d(x: Tensor, filter: seq<Mat>): (r: Tensor)
    requires x.Valid() && 0 < |filter| <= x.n1
    ensures r.Valid() && r.n0 == x.n0 && r.n1 == x.n1 - |filter| + 1
  {
    Build(x.n0, x.n1 - |filter| + 1, (b: nat, t: nat) requires b < x.n0 && t < x.n1 - |filter| + 1 =>
      Taps(Window(x, b, t, 1, |filter|), filter))
  }

  lemma Conv1dAt(x: Tensor, filter: seq<Mat>, b: nat, t: nat)
    requires x.Valid() && 0 < |filter| <= x.n1 && b < x.n0 && t < x.n1 - |filter| + 1
    ensures Conv1d(x, filter).At(b, t) == Taps(Window(x, b, t, 1, |filter|), filter)
  {
    BuildAt(x.n0, x.n1 - |filter| + 1, (b: nat, t: nat) requires b < x.n0 && t < x.n1 - |filter| + 1 =>
      Taps(Window(x, b, t, 1, |filter|), filter), b, t);
  }

  // ---------------------------------------------------------------------------------------------
  // Time to batch and back
  // ---------------------------------------------------------------------------------------------

  function PadElements(length: nat, dilation: nat): (p: nat)
    requires dilation > 0
    ensures p < dilation
  {
    dilation - 1 - (length + dilation - 1) % dilation
  }

  /** Padding completes the last group of dilation elements. */
  lemma PaddedLength(length: nat, dilation: nat) returns (n: nat)
    requires dilation > 0
    ensures length + PadElements(length, dilation) == n * dilation
  {
    n := (length + dilation - 1) / dilation;
  }

  function Steps(length: nat, dilation: nat): nat
    requires dilation > 0
  {
    (length + dilation - 1) / dilation
  }

  lemma StepsIs(length: nat, dilation: nat)
    requires dilation > 0
    ensures length + PadElements(length, dilation) == Steps(length, dilation) * dilation
  {
    var n := PaddedLength(length, dilation);
    DivModUnique(n, dilation, 0);
    DivModUnique(Steps(length, dilation), dilation, (length + dilation - 1) % dilation);
  }

  lemma SameSize(a: nat, b: nat, c: nat)
    ensures (a * b) * c == a * (b * c) && (c * a) * b == c * (a * b)
  {
    MulAssoc(a, b, c);
    MulAssoc(c, a, b);
  }

  function TimeToBatch(x: Tensor, dilation: nat, zero: Vec): (r: Tensor)
    requires x.Valid() && dilation > 0
    ensures r.Valid() && r.n0 == x.n0 * dilation && r.n1 == Steps(x.n1, dilation)
  {
    var n := Steps(x.n1, dilation);
    StepsIs(x.n1, dilation);
    var padded := PadTime(x, PadElements(x.n1, dilation), zero);
    SameSize(x.n0, n, dilation);
    var reshaped := Reshape(padded, x.n0 * n, dilation);
    SameSize(x.n0, dilation, n);
    MulComm(x.n0, dilation);
    SameSize(dilation, x.n0, n);
    Reshape(Transpose(reshaped), x.n0 * dilation, n)
  }

  function BatchToTime(v: Tensor, dilation: nat): (r: Tensor)
    requires v.Valid() && dilation > 0 && v.n0 % dilation == 0
    ensures r.Valid() && r.n0 == v.n0 / dilation && r.n1 == v.n1 * dilation
  {
    var b := v.n0 / dilation;
    assert v.n0 == dilation * b;
    SameSize(dilation, b, v.n1);
    var prepared := Reshape(v, dilation, b * v.n1);
    SameSize(b, v.n1, dilation);
    Reshape(Transpose(prepared), b, v.n1 * dilation)
  }

  /** causal_conv */
  function CausalConv(x: Tensor, filter: seq<Mat>, dilation: nat, zero: Vec): (r: Tensor)
    requires x.Valid() && |filter| > 0 && dilation > 0 && (|filter| - 1) * dilation < x.n1
    ensures r.Valid() && r.n0 == x.n0 && r.n1 == x.n1 - (|filter| - 1) * dilation
  {
    var width := x.n1 - (|filter| - 1) * dilation;
    StepsEnough(x.n1, |filter|, dilation, Steps(x.n1, dilation));
    if dilation > 1 then
      var conv := Conv1d(TimeToBatch(x, dilation, zero), filter);
      DivModUnique(x.n0, dilation, 0);
      SliceTime(BatchToTime(conv, dilation), width)
    else
      SliceTime(Conv1d(x, filter), width)
  }

  /** There are enough steps for the filter, and enough of them to cover the outputs. */
  lemma StepsEnough(length: nat, k: nat, dilation: nat, n: nat)
    requires k > 0 && dilation > 0 && (k - 1) * dilation < length && n == Steps(length, dilation)
    ensures k <= n && length - (k - 1) * dilation <= (n - k + 1) * dilation
  {
    StepsIs(length, dilation);
    if n < k {
      MulMono(n, k - 1, dilation);
    } else {
      MulAdd(n - k + 1, k - 1, dilation);
    }
  }

  // ---------------------------------------------------------------------------------------------
  // The detour by way of batches is the direct convolution
  // ---------------------------------------------------------------------------------------------

  /** Reading a reshaped tensor at another split of the same flat position. */
  lemma ReshapeAt(t: Tensor, m0: nat, m1: nat, i: nat, j: nat, p: nat, q: nat)
    requires t.Valid() && m0 * m1 == t.n0 * t.n1 && i < m0 && j < m1 && p < t.n0 && q < t.n1
    requires i * m1 + j == p * t.n1 + q
    ensures Reshape(t, m0, m1).At(i, j) == t.At(p, q)
  {
  }

  /** Row i * batch + b of the batch form holds every dilation-th element of row b, from element i on. */
  lemma TimeToBatchAt(x: Tensor, dilation: nat, zero: Vec, i: nat, b: nat, j: nat, row: nat, t: nat)
    requires x.Valid() && i < dilation && b < x.n0 && t < x.n1
    requires row == i * x.n0 + b && t == j * dilation + i
    ensures row < x.n0 * dilation && j < Steps(x.n1, dilation)
    ensures TimeToBatch(x, dilation, zero).At(row, j) == x.At(b, t)
  {
    var n := Steps(x.n1, dilation);
    StepsIs(x.n1, dilation);
    if j >= n { MulMono(n, j, dilation); }
    FlatBound(i, b, dilation, x.n0);
    MulComm(dilation, x.n0);
    var padded := PadTime(x, PadElements(x.n1, dilation), zero);
    SameSize(x.n0, n, dilation);
    var reshaped := Reshape(padded, x.n0 * n, dilation);
    FlatBound(b, j, x.n0, n);
    // the flat position in the batch form
    SameSize(dilation, x.n0, n);
    MulAdd(i * x.n0, b, n);
    MulAssoc(i, x.n0, n);
    assert (i * x.n0 + b) * n + j == i * (x.n0 * n) + (b * n + j);
    ReshapeAt(Transpose(reshaped), x.n0 * dilation, n, i * x.n0 + b, j, i, b * n + j);
    TransposeAt(reshaped, i, b * n + j);
    // the flat position in the padded input
    MulAdd(b * n, j, dilation);
    MulAssoc(b, n, dilation);
    assert (b * n + j) * dilation + i == b * (n * dilation) + (j * dilation + i);
    ReshapeAt(padded, x.n0 * n, dilation, b * n + j, i, b, j * dilation + i);
    PadTimeAt(x, PadElements(x.n1, dilation), zero, b, j * dilation + i);
  }

  lemma BatchToTimeAt(v: Tensor, dilation: nat, batch: nat, i: nat, b: nat, j: nat)
    requires v.Valid() && v.n0 == batch * dilation && i < dilation && b < batch && j < v.n1
    ensures v.n0 % dilation == 0 && v.n0 / dilation == batch
    ensures i * batch + b < v.n0 && j * dilation + i < v.n1 * dilation
    ensures BatchToTime(v, dilation).At(b, j * dilation + i) == v.At(i * batch + b, j)
  {
    DivModUnique(batch, dilation, 0);
    FlatBound(i, b, dilation, batch);
    MulComm(dilation, batch);
    FlatBound(j, i, v.n1, dilation);
    SameSize(dilation, batch, v.n1);
    var prepared := Reshape(v, dilation, batch * v.n1);
    SameSize(batch, v.n1, dilation);
    FlatBound(b, j, batch, v.n1);
    MulAdd(b * v.n1, j, dilation);
    MulAssoc(b, v.n1, dilation);
    assert b * (v.n1 * dilation) + (j * dilation + i) == (b * v.n1 + j) * dilation + i;
    ReshapeAt(Transpose(prepared), batch, v.n1 * dilation, b, j * dilation + i, b * v.n1 + j, i);
    TransposeAt(prepared, b * v.n1 + j, i);
    MulAdd(i * batch, b, v.n1);
    MulAssoc(i, batch, v.n1);
    assert i * (batch * v.n1) + (b * v.n1 + j) == (i * batch + b) * v.n1 + j;
    ReshapeAt(v, dilation, batch * v.n1, i, b * v.n1 + j, i * batch + b, j);
  }

  /** In the batch form, neighbours are elements dilation apart. */
  lemma WindowsAgree(x: Tensor, v: Tensor, dilation: nat, zero: Vec, i: nat, b: nat, j: nat, t: nat, row: nat, k: nat)
    requires x.Valid() && i < dilation && b < x.n0 && k > 0 && t == j * dilation + i && t + (k - 1) * dilation < x.n1
    requires v == TimeToBatch(x, dilation, zero) && row == i * x.n0 + b
    ensures row < v.n0 && j + (k - 1) < v.n1
    ensures Window(v, row, j, 1, k) == Window(x, b, t, dilation, k)
  {
    forall w | 0 <= w < k
      ensures row < v.n0 && j + w < v.n1 && t + w * dilation < x.n1
      ensures v.At(row, j + w) == x.At(b, t + w * dilation)
    {
      MulMono(w, k - 1, dilation);
      MulAdd(j, w, dilation);
      TimeToBatchAt(x, dilation, zero, i, b, j + w, row, t + w * dilation);
    }
    assert j + (k - 1) < v.n1;
  }

  lemma ConvolvedAt(v: Tensor, filter: seq<Mat>, row: nat, j: nat, ws: seq<Vec>)
    requires v.Valid() && 0 < |filter| && j + (|filter| - 1) < v.n1 && row < v.n0
    requires Window(v, row, j, 1, |filter|) == ws
    ensures Conv1d(v, filter).At(row, j) == Taps(ws, filter)
  {
    Conv1dAt(v, filter, row, j);
  }

  lemma BackInTimeAt(conv: Tensor, n1: nat, dilation: nat, batch: nat, b: nat, t: nat, i: nat, j: nat,
                     row: nat, width: nat, y: Vec)
    requires conv.Valid() && conv.n0 == batch * dilation && i < dilation && b < batch && j < n1 == conv.n1
    requires t == j * dilation + i && t < width <= n1 * dilation
    requires row == i * batch + b && row < conv.n0 && conv.At(row, j) == y
    ensures conv.n0 % dilation == 0 && conv.n0 / dilation == batch
    ensures SliceTime(BatchToTime(conv, dilation), width).At(b, t) == y
  {
    BatchToTimeAt(conv, dilation, batch, i, b, j);
    SliceTimeAt(BatchToTime(conv, dilation), width, b, t);
  }

  /** Convolving any tensor v in which the windows of x stand, and going back to time. */
  lemma DetourAt(v: Tensor, filter: seq<Mat>, conv: Tensor, dilation: nat, batch: nat,
                 b: nat, t: nat, i: nat, j: nat, row: nat, width: nat, ws: seq<Vec>)
    requires v.Valid() && v.n0 == batch * dilation && 0 < |filter| && j + (|filter| - 1) < v.n1
    requires conv == Conv1d(v, filter) && width <= (v.n1 - |filter| + 1) * dilation
    requires b < batch && i < dilation && row == i * batch + b && row < v.n0
    requires t == j * dilation + i && t < width && Window(v, row, j, 1, |filter|) == ws
    ensures v.n0 % dilation == 0 && v.n0 / dilation == batch
    ensures SliceTime(BatchToTime(conv, dilation), width).At(b, t) == Taps(ws, filter)
  {
    ConvolvedAt(v, filter, row, j, ws);
    BackInTimeAt(conv, conv.n1, dilation, batch, b, t, i, j, row, width, Taps(ws, filter));
  }

  /** For every batch, length, dilation and filter that leave an output, causal_conv is the dilated convolution. */
  lemma CausalConvIsDirect(x: Tensor, filter: seq<Mat>, dilation: nat, zero: Vec, b: nat, t: nat)
    requires x.Valid() && |filter| > 0 && dilation > 0 && b < x.n0 && t + (|filter| - 1) * dilation < x.n1
    ensures CausalConv(x, filter, dilation, zero).At(b, t) == Taps(Window(x, b, t, dilation, |filter|), filter)
  {
    if dilation > 1 {
      LongDilation(x, filter, dilation, zero, b, t);
    } else {
      TimesOne(|filter| - 1, dilation);
      NoDilation(x, filter, dilation, zero, b, t, Window(x, b, t, dilation, |filter|), x.n1 - |filter| + 1);
    }
  }

  lemma NoDilation(x: Tensor, filter: seq<Mat>, dilation: nat, zero: Vec, b: nat, t: nat, ws: seq<Vec>, width: nat)
    requires x.Valid() && |filter| > 0 && dilation == 1 && b < x.n0 && t < width == x.n1 - |filter| + 1
    requires (|filter| - 1) * dilation == |filter| - 1 && ws == Window(x, b, t, dilation, |filter|)
    ensures CausalConv(x, filter, dilation, zero).At(b, t) == Taps(ws, filter)
  {
    ConvolvedAt(x, filter, b, t, ws);
    SliceTimeAt(Conv1d(x, filter), width, b, t);
    CausalConvShort(x, filter, dilation, zero, width);
  }

  lemma CausalConvShort(x: Tensor, filter: seq<Mat>, dilation: nat, zero: Vec, width: nat)
    requires x.Valid() && |filter| > 0 && dilation == 1 && 0 < width == x.n1 - |filter| + 1
    requires (|filter| - 1) * dilation == |filter| - 1
    ensures CausalConv(x, filter, dilation, zero) == SliceTime(Conv1d(x, filter), width)
  {
  }

  /** The window in the batch form is the dilated window, so the way through the batch form gives its taps. */
  lemma ThroughBatch(x: Tensor, v: Tensor, filter: seq<Mat>, dilation: nat, zero: Vec, b: nat, t: nat,
                     i: nat, j: nat, row: nat, width: nat)
    requires x.Valid() && |filter| > 0 && i < dilation && b < x.n0 && row == i * x.n0 + b
    requires v == TimeToBatch(x, dilation, zero)
    requires t == j * dilation + i && t + (|filter| - 1) * dilation < x.n1
    requires |filter| <= v.n1 && t < width <= (v.n1 - |filter| + 1) * dilation
    ensures v.n0 % dilation == 0 && v.n0 / dilation == x.n0
    ensures SliceTime(BatchToTime(Conv1d(v, filter), dilation), width).At(b, t) ==
            Taps(Window(x, b, t, dilation, |filter|), filter)
  {
    WindowsAgree(x, v, dilation, zero, i, b, j, t, row, |filter|);
    DetourAt(v, filter, Conv1d(v, filter), dilation, x.n0, b, t, i, j, row, width,
             Window(x, b, t, dilation, |filter|));
  }

  lemma CausalConvLong(x: Tensor, v: Tensor, filter: seq<Mat>, dilation: nat, zero: Vec, width: nat)
    requires x.Valid() && |filter| > 0 && dilation > 1 && v == TimeToBatch(x, dilation, zero)
    requires width == x.n1 - (|filter| - 1) * dilation && width > 0
    ensures |filter| <= v.n1 && width <= (v.n1 - |filter| + 1) * dilation && v.n0 % dilation == 0
    ensures CausalConv(x, filter, dilation, zero) == SliceTime(BatchToTime(Conv1d(v, filter), dilation), width)
  {
    StepsEnough(x.n1, |filter|, dilation, v.n1);
    DivModUnique(x.n0, dilation, 0);
  }

  lemma LongDilation(x: Tensor, filter: seq<Mat>, dilation: nat, zero: Vec, b: nat, t: nat)
    requires x.Valid() && |filter| > 0 && dilation > 1 && b < x.n0 && t + (|filter| - 1) * dilation < x.n1
    ensures CausalConv(x, filter, dilation, zero).At(b, t) == Taps(Window(x, b, t, dilation, |filter|), filter)
  {
    var width := x.n1 - (|filter| - 1) * dilation;
    var v := TimeToBatch(x, dilation, zero);
    CausalConvLong(x, v, filter, dilation, zero, width);
    ThroughBatchAt(x, v, filter, dilation, zero, b, t, width);
  }

  lemma ThroughBatchAt(x: Tensor, v: Tensor, filter: seq<Mat>, dilation: nat, zero: Vec, b: nat, t: nat, width: nat)
    requires x.Valid() && |filter| > 0 && dilation > 1 && b < x.n0 && v == TimeToBatch(x, dilation, zero)
    requires t + (|filter| - 1) * dilation < x.n1
    requires |filter| <= v.n1 && t < width <= (v.n1 - |filter| + 1) * dilation
    ensures v.n0 % dilation == 0 && v.n0 / dilation == x.n0
    ensures SliceTime(BatchToTime(Conv1d(v, filter), dilation), width).At(b, t) ==
            Taps(Window(x, b, t, dilation, |filter|), filter)
  {
    var i, j := Quotient(t, dilation);
    ThroughBatch(x, v, filter, dilation, zero, b, t, i, j, i * x.n0 + b, width);
  }

  lemma TimesOne(a: nat, b: nat)
    requires b == 1
    ensures a * b == a
  {
  }

  lemma Quotient(t: nat, m: nat) returns (i: nat, j: nat)
    requires m > 0
    ensures i < m && t == j * m + i
  {
    i, j := t % m, t / m;
  }
}
