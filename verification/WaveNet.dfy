/** The causal convolution network: the batch form over a whole signal, and the generator that sees one
    sample at a time and keeps the past in queues. One signal of a batch, filters of width two. */
module WaveNet {
  import opened Arith
  import opened DilatedConv
  import opened DilatedStack
  import opened Wrappers

  /** A filter of width two: the weights for the past and for the current sample. */
  datatype Filter = Filter(past: Mat, curr: Mat)
  {
    function Weights(): (w: seq<Mat>)
      ensures |w| == 2
    {
      [past, curr]
    }
  }

  datatype Layer = Layer(
    filter: Filter, gate: Filter,
    dense: Mat, skip: Mat,
    filterBias: Vec, gateBias: Vec, denseBias: Vec, skipBias: Vec,
    gcFilter: Mat, gcGate: Mat)

  /** The two layers for one dilation: the samples' and the condition's. */
  datatype Block = Block(dilation: nat, main: Layer, gc: Layer)

  /** The weights, with the two activation functions left open. */
  datatype Net = Net(
    quantizationChannels: nat, conditionChannels: nat, residualChannels: nat, outputWidth: nat,
    causal: Filter, causalGc: Filter, blocks: seq<Block>,
    w1: Mat, w2: Mat, b1: Vec, b2: Vec,
    tanh: real -> real, sigmoid: real -> real)

  predicate ValidNet(net: Net)
  {
    0 < |net.blocks| && forall i :: 0 <= i < |net.blocks| ==> net.blocks[i].dilation > 0
  }

  function Zeros(n: nat): Vec
  {
    seq(n, _ => 0.0)
  }

  function Each(f: real -> real, v: Vec): Vec
  {
    seq(|v|, i requires 0 <= i < |v| => f(v[i]))
  }

  function Times(a: Vec, b: Vec): Vec
  {
    seq(|a|, i requires 0 <= i < |a| => a[i] * if i < |b| then b[i] else 0.0)
  }

  function Relu(v: Vec): Vec
  {
    Each(x => if x > 0.0 then x else 0.0, v)
  }

  function Sum(vs: seq<Vec>): Vec
    requires |vs| > 0
  {
    if |vs| == 1 then vs[0] else Add(Sum(vs[..|vs| - 1]), vs[|vs| - 1])
  }

  /** Both output layers do this, one for every time step at once, one for a single step. */
  function OutputLayer(net: Net, outs: seq<Vec>): Vec
    requires |outs| > 0
  {
    var conv1 := Add(MatMul(Relu(Sum(outs)), net.w1), net.b1);
    Add(MatMul(Relu(conv1), net.w2), net.b2)
  }

  // ---------------------------------------------------------------------------------------------
  // One layer: the batch form over a signal, the generator's form at one time
  // ---------------------------------------------------------------------------------------------

  /** causal_conv on a batch of one signal. */
  function CausalConvOp(xs: seq<Vec>, filter: Filter, dilation: nat): seq<Vec>
    requires 0 < dilation < |xs|
  {
    TimesOne(dilation, 1);
    CausalConv(Tensor(1, |xs|, xs), filter.Weights(), dilation, []).flat
  }

  function GeneratorCausalConv(x: Vec, state: Vec, weights: Filter): Vec
  {
    Add(MatMul(state, weights.past), MatMul(x, weights.curr))
  }

  /** Each output is the generator's convolution of two inputs dilation apart. */
  predicate PairsUp(conv: seq<Vec>, xs: seq<Vec>, filter: Filter, dilation: nat)
    requires dilation < |xs|
  {
    && |conv| == |xs| - dilation
    && forall t :: 0 <= t < |xs| - dilation ==> conv[t] == GeneratorCausalConv(xs[t + dilation], xs[t], filter)
  }

  /** causal_conv, with its detour by way of batches, pairs inputs up. */
  lemma CausalConvPairsUp(xs: seq<Vec>, filter: Filter, dilation: nat)
    requires 0 < dilation < |xs|
    ensures PairsUp(CausalConvOp(xs, filter, dilation), xs, filter, dilation)
  {
    TimesOne(dilation, 1);
    var x := Tensor(1, |xs|, xs);
    forall t: nat | t < |xs| - dilation
      ensures CausalConv(x, filter.Weights(), dilation, []).flat[t] ==
              GeneratorCausalConv(xs[t + dilation], xs[t], filter)
    {
      CausalConvIsDirect(x, filter.Weights(), dilation, [], 0, t);
      TwoTaps(x, xs, filter, dilation, t);
    }
  }

  lemma TwoTaps(x: Tensor, xs: seq<Vec>, filter: Filter, dilation: nat, t: nat)
    requires x == Tensor(1, |xs|, xs) && t + (2 - 1) * dilation < |xs|
    ensures Taps(Window(x, 0, t, dilation, 2), filter.Weights()) == GeneratorCausalConv(xs[t + dilation], xs[t], filter)
  {
    var w := Window(x, 0, t, dilation, 2);
    assert w == [xs[t], xs[t + dilation]];
    assert w[..1] == [xs[t]] && filter.Weights()[..1] == [filter.past];
  }

  /** _create_dilation_layer after its two convolutions: the output of the layer and the next signal. */
  function DilationLayerFrom(net: Net, l: Layer, xs: seq<Vec>, convFilter: seq<Vec>, convGate: seq<Vec>,
                             cond: Option<seq<Vec>>):
      (r: (seq<Vec>, seq<Vec>))
    requires |convFilter| == |convGate| <= |xs| && net.outputWidth <= |convFilter|
    requires cond.Some? ==> |cond.value| >= |convFilter|
    ensures |r.0| == net.outputWidth && |r.1| == |convFilter|
  {
    var n := |convFilter|;
    var gc: seq<Vec> := if cond.Some? then cond.value[|cond.value| - n..] else [];
    var f :=
      if cond.Some? then seq(n, t requires 0 <= t < n => Add(convFilter[t], MatMul(gc[t], l.gcFilter)))
      else convFilter;
    var g :=
      if cond.Some? then seq(n, t requires 0 <= t < n => Add(convGate[t], MatMul(gc[t], l.gcGate)))
      else convGate;
    var out := seq(n, t requires 0 <= t < n =>
      Times(Each(net.tanh, Add(f[t], l.filterBias)), Each(net.sigmoid, Add(g[t], l.gateBias))));
    var transformed := seq(n, t requires 0 <= t < n => Add(MatMul(out[t], l.dense), l.denseBias));
    var outSkip := out[n - net.outputWidth..];
    var skip := seq(net.outputWidth, t requires 0 <= t < net.outputWidth =>
      Add(MatMul(outSkip[t], l.skip), l.skipBias));
    var cut := xs[|xs| - n..];
    (skip, seq(n, t requires 0 <= t < n => Add(cut[t], transformed[t])))
  }

  /** dilation_layer */
  function DilationLayer(net: Net, l: Layer, dilation: nat, xs: seq<Vec>,
                         cond: Option<seq<Vec>>): (r: (seq<Vec>, seq<Vec>))
    requires 0 < dilation < |xs| && net.outputWidth <= |xs| - dilation
    requires cond.Some? ==> |cond.value| >= |xs| - dilation
    ensures |r.0| == net.outputWidth && |r.1| == |xs| - dilation
  {
    CausalConvPairsUp(xs, l.filter, dilation);
    CausalConvPairsUp(xs, l.gate, dilation);
    DilationLayerFrom(net, l, xs, CausalConvOp(xs, l.filter, dilation), CausalConvOp(xs, l.gate, dilation), cond)
  }

  /** generator_dilation_layer: the output of the layer and the next sample. */
  function GeneratorDilationLayer(net: Net, l: Layer, x: Vec, state: Vec, cond: Option<Vec>): (Vec, Vec)
  {
    var f0 := GeneratorCausalConv(x, state, l.filter);
    var g0 := GeneratorCausalConv(x, state, l.gate);
    var f := if cond.Some? then Add(f0, MatMul(cond.value, l.gcFilter)) else f0;
    var g := if cond.Some? then Add(g0, MatMul(cond.value, l.gcGate)) else g0;
    var out := Times(Each(net.tanh, Add(f, l.filterBias)), Each(net.sigmoid, Add(g, l.gateBias)));
    (Add(MatMul(out, l.skip), l.skipBias), Add(x, Add(MatMul(out, l.dense), l.denseBias)))
  }

  function CondAt(cond: Option<seq<Vec>>, t: nat): Option<Vec>
    requires cond.Some? ==> t < |cond.value|
  {
    if cond.Some? then Some(cond.value[t]) else None
  }

  /** Entry t of a batch layer is the generator's layer on the two inputs dilation apart; the outputs are kept for the
      last times alone. */
  predicate EntryAgrees(net: Net, l: Layer, dilation: nat, xs: seq<Vec>, cond: Option<seq<Vec>>, skips: seq<Vec>,
                        nexts: seq<Vec>, t: nat)
    requires dilation < |xs| && |nexts| == |xs| - dilation && |skips| <= |nexts| && t < |nexts|
    requires cond.Some? ==> |cond.value| == |nexts|
  {
    var r := GeneratorDilationLayer(net, l, xs[t + dilation], xs[t], CondAt(cond, t));
    && nexts[t] == r.1
    && (t + |skips| >= |nexts| ==> skips[t + |skips| - |nexts|] == r.0)
  }

  lemma LayerFromAgrees(net: Net, l: Layer, dilation: nat, xs: seq<Vec>, convFilter: seq<Vec>, convGate: seq<Vec>,
                        cond: Option<seq<Vec>>, t: nat)
    requires 0 < dilation < |xs| && net.outputWidth <= |xs| - dilation && t < |xs| - dilation
    requires PairsUp(convFilter, xs, l.filter, dilation) && PairsUp(convGate, xs, l.gate, dilation)
    requires cond.Some? ==> |cond.value| == |xs| - dilation
    ensures var r := DilationLayerFrom(net, l, xs, convFilter, convGate, cond);
      EntryAgrees(net, l, dilation, xs, cond, r.0, r.1, t)
  {
  }

  /** The batch layer agrees with the generator's layer at every time. */
  lemma DilationLayerAgrees(net: Net, l: Layer, dilation: nat, xs: seq<Vec>, cond: Option<seq<Vec>>, t: nat)
    requires 0 < dilation < |xs| && net.outputWidth <= |xs| - dilation && t < |xs| - dilation
    requires cond.Some? ==> |cond.value| == |xs| - dilation
    ensures var r := DilationLayer(net, l, dilation, xs, cond);
      EntryAgrees(net, l, dilation, xs, cond, r.0, r.1, t)
  {
    CausalConvPairsUp(xs, l.filter, dilation);
    CausalConvPairsUp(xs, l.gate, dilation);
    LayerFromAgrees(net, l, dilation, xs, CausalConvOp(xs, l.filter, dilation), CausalConvOp(xs, l.gate, dilation),
                    cond, t);
  }

  // ---------------------------------------------------------------------------------------------
  // The network as a stack of dilated stages
  // ---------------------------------------------------------------------------------------------

  /** A sample on its way through the layers, with the condition's own signal beside it. */
  datatype Pair = Pair(x: Vec, gc: Vec)

  /** The first layers, of dilation one. */
  function CausalCell(net: Net, now: Pair, past: Pair): Pair
  {
    Pair(GeneratorCausalConv(now.x, past.x, net.causal), GeneratorCausalConv(now.gc, past.gc, net.causalGc))
  }

  /** The two layers of a block: the condition's comes first and its result joins the condition of the samples'. */
  function BlockCell(net: Net, b: Block, now: Pair, past: Pair, cond: Vec): (Vec, Pair)
  {
    var gc := GeneratorDilationLayer(net, b.gc, now.gc, past.gc, None).1;
    var r := GeneratorDilationLayer(net, b.main, now.x, past.x, Some(Add(cond, gc)));
    (r.0, Pair(r.1, gc))
  }

  ghost function CausalStage(net: Net): Stage<Pair, Vec>
  {
    Stage(1, Pair(Zeros(net.quantizationChannels), Zeros(net.conditionChannels)),
          (now, past, input) => ([], CausalCell(net, now, past)))
  }

  ghost function BlockStage(net: Net, b: Block): Stage<Pair, Vec>
  {
    Stage(b.dilation, Pair(Zeros(net.residualChannels), Zeros(net.conditionChannels)),
          (now, past, input: Pair) => BlockCell(net, b, now, past, input.gc))
  }

  ghost function Stages(net: Net): (r: seq<Stage<Pair, Vec>>)
    ensures |r| == |net.blocks| + 1
    ensures r[0] == CausalStage(net)
    ensures forall i :: 0 <= i < |net.blocks| ==> r[i + 1] == BlockStage(net, net.blocks[i])
  {
    [CausalStage(net)] + seq(|net.blocks|, i requires 0 <= i < |net.blocks| => BlockStage(net, net.blocks[i]))
  }

  /** Stage i + 1 is block i's. */
  ghost predicate BlockStageAt(net: Net, st: seq<Stage<Pair, Vec>>, i: nat)
    requires i < |net.blocks| && |st| == |net.blocks| + 1
  {
    st[i + 1] == BlockStage(net, net.blocks[i])
  }

  /** The stages are the network's. */
  ghost predicate StagesOf(net: Net, st: seq<Stage<Pair, Vec>>)
  {
    && |st| == |net.blocks| + 1
    && st[0] == CausalStage(net)
    && forall i: nat {:trigger BlockStageAt(net, st, i)} :: i < |net.blocks| ==> BlockStageAt(net, st, i)
  }

  lemma StagesAre(net: Net) returns (st: seq<Stage<Pair, Vec>>)
    ensures st == Stages(net) && StagesOf(net, st)
  {
    st := Stages(net);
    forall i: nat | i < |net.blocks|
      ensures BlockStageAt(net, st, i)
    {
    }
  }

  /** What the blocks output at time s. */
  ghost function Outs(st: seq<Stage<Pair, Vec>>, ins: seq<Pair>, n: nat, s: nat): (r: seq<Vec>)
    requires s < |ins| && n < |st|
    ensures |r| == n
  {
    seq(n, i requires 0 <= i < n => Out(st, ins, i + 1, s))
  }

  /** The network's output at time s, with silence before the start. */
  ghost function Output(net: Net, st: seq<Stage<Pair, Vec>>, ins: seq<Pair>, s: nat): Vec
    requires s < |ins| && |st| > 1
  {
    OutputLayer(net, Outs(st, ins, |st| - 1, s))
  }

  /** The network's outputs at the first n times. */
  ghost function Outputs(net: Net, st: seq<Stage<Pair, Vec>>, ins: seq<Pair>, n: nat): (r: seq<Vec>)
    requires n <= |ins| && |st| > 1
    ensures |r| == n
  {
    if n == 0 then [] else Outputs(net, st, ins, n - 1) + [Output(net, st, ins, n - 1)]
  }

  lemma {:induction false} OutputsAt(net: Net, st: seq<Stage<Pair, Vec>>, ins: seq<Pair>, n: nat, t: nat, y: Vec)
    requires t < n <= |ins| && |st| > 1 && y == Output(net, st, ins, t)
    ensures Outputs(net, st, ins, n)[t] == y
  {
    if t < n - 1 { OutputsAt(net, st, ins, n - 1, t, y); }
  }

  /** The outputs at the last times of a run. */
  ghost function LastOutputs(net: Net, st: seq<Stage<Pair, Vec>>, ins: seq<Pair>): (r: seq<Vec>)
    requires |st| > 1 && net.outputWidth <= |ins|
    ensures |r| == net.outputWidth
  {
    Outputs(net, st, ins, |ins|)[|ins| - net.outputWidth..]
  }

  function SumDilations(net: Net, n: nat): nat
    requires n <= |net.blocks|
  {
    if n == 0 then 0 else SumDilations(net, n - 1) + net.blocks[n - 1].dilation
  }

  /** receptive_field for filters of width two. */
  function ReceptiveField(net: Net): nat
  {
    SumDilations(net, |net.blocks|) + 2
  }

  lemma {:induction false} ReachIs(net: Net, st: seq<Stage<Pair, Vec>>, n: nat)
    requires StagesOf(net, st) && n <= |net.blocks|
    ensures Reach(st, n + 1) == SumDilations(net, n) + 1
  {
    if n > 0 {
      ReachIs(net, st, n - 1);
      assert BlockStageAt(net, st, n - 1);
    }
  }

  lemma {:induction false} SumMono(net: Net, l: nat, m: nat)
    requires l <= m <= |net.blocks|
    ensures SumDilations(net, l) <= SumDilations(net, m)
  {
    if l < m { SumMono(net, l, m - 1); }
  }

  lemma BlockOutAlike(net: Net, st: seq<Stage<Pair, Vec>>, ins: seq<Pair>, s: nat, ins': seq<Pair>, s': nat, i: nat)
    requires StagesOf(net, st) && s < |ins| && s' < |ins'| && i < |net.blocks|
    requires Alike(ins, s, ins', s', ReceptiveField(net))
    ensures Out(st, ins, i + 1, s) == Out(st, ins', i + 1, s')
  {
    ReachIs(net, st, i + 1);
    SumMono(net, i + 1, |net.blocks|);
    var count := SumDilations(net, i + 1) + 2;
    AlikeBefore(ins, s, ins', s', count, ReceptiveField(net) - count);
    OutAlike(st, ins, s, ins', s', i + 1);
  }

  /** The output depends on the last receptive_field inputs alone: not on anything later, not on anything earlier,
      not on the time itself. */
  lemma ReceptiveFieldSuffices(net: Net, st: seq<Stage<Pair, Vec>>, ins: seq<Pair>, s: nat, ins': seq<Pair>, s': nat)
    requires ValidNet(net) && StagesOf(net, st) && s < |ins| && s' < |ins'|
    requires Alike(ins, s, ins', s', ReceptiveField(net))
    ensures Output(net, st, ins, s) == Output(net, st, ins', s')
  {
    var n := |net.blocks|;
    forall l: nat | 0 < l <= n
      ensures Out(st, ins, l, s) == Out(st, ins', l, s')
    {
      BlockOutAlike(net, st, ins, s, ins', s', l - 1);
    }
    assert Outs(st, ins, n, s) == Outs(st, ins', n, s');
  }

  // ---------------------------------------------------------------------------------------------
  // The batch form
  // ---------------------------------------------------------------------------------------------

  function Zip(xs: seq<Vec>, gs: seq<Vec>): (r: seq<Pair>)
    requires |xs| == |gs|
    ensures |r| == |xs| && forall t :: 0 <= t < |xs| ==> r[t] == Pair(xs[t], gs[t])
  {
    seq(|xs|, t requires 0 <= t < |xs| => Pair(xs[t], gs[t]))
  }

  /** The samples one step later, with silence first. */
  function Shifted(net: Net, inputs: seq<Vec>): (xs: seq<Vec>)
    requires |inputs| > 0
    ensures |xs| == |inputs|
  {
    [Zeros(net.quantizationChannels)] + inputs[..|inputs| - 1]
  }

  /** The end of the condition plus its own layer's output. */
  function Conditioned(cond: seq<Vec>, gc: seq<Vec>): (c: seq<Vec>)
    requires |gc| <= |cond|
    ensures |c| == |gc|
  {
    var cut := cond[|cond| - |gc|..];
    seq(|gc|, t requires 0 <= t < |gc| => Add(cut[t], gc[t]))
  }

  /** The signal is long enough for the whole stack and its output. */
  predicate LongEnough(net: Net, n: nat)
  {
    net.outputWidth > 0 && ReceptiveField(net) - 1 + net.outputWidth <= n
  }

  /** The outputs are those of block i at the last times of the run. */
  ghost predicate OutsFollow(net: Net, st: seq<Stage<Pair, Vec>>, ins: seq<Pair>, i: nat, outs: seq<Vec>)
    requires i + 1 < |st|
  {
    && |outs| == net.outputWidth <= |ins|
    && forall t: nat :: t < |outs| ==> outs[t] == Out(st, ins, i + 1, |ins| - |outs| + t)
  }

  lemma CausalMakes(net: Net, st: seq<Stage<Pair, Vec>>, xs: seq<Vec>, gs: seq<Vec>, layer: seq<Vec>,
                    layerGc: seq<Vec>, t: nat,
                    now: Pair, past: Pair, input: Pair) returns (r: (Vec, Pair))
    requires |st| > 0 && st[0] == CausalStage(net)
    requires |xs| == |gs| > 1 && PairsUp(layer, xs, net.causal, 1) && PairsUp(layerGc, gs, net.causalGc, 1)
      && t < |layer|
    requires now == Pair(xs[t + 1], gs[t + 1]) && past == Pair(xs[t], gs[t])
    ensures r == st[0].cell(now, past, input) && r.1 == Pair(layer[t], layerGc[t])
  {
    r := ([], CausalCell(net, now, past));
  }

  lemma CausalFollows(net: Net, st: seq<Stage<Pair, Vec>>, xs: seq<Vec>, gs: seq<Vec>, layer: seq<Vec>,
                      layerGc: seq<Vec>)
    requires StagesOf(net, st)
    requires |xs| == |gs| > 1 && PairsUp(layer, xs, net.causal, 1) && PairsUp(layerGc, gs, net.causalGc, 1)
    ensures Follows(st, Zip(xs, gs), 1, Zip(layer, layerGc))
  {
    var ins, next, l := Zip(xs, gs), Zip(layer, layerGc), 0;
    forall t: nat | t < |next|
      ensures MadeAt(st, ins, l, ins, next, [], t)
    {
      var r := CausalMakes(net, st, xs, gs, layer, layerGc, t, ins[t + 1], ins[t], ins[|ins| - |next| + t]);
    }
    FollowsOn(st, ins, l, ins, next, []);
  }

  /** One entry of what a block makes of its two signals. */
  lemma BlockAgrees(net: Net, b: Block, layer: seq<Vec>, layerGc: seq<Vec>, cond: seq<Vec>, t: nat,
                    skips: seq<Vec>, nexts: seq<Vec>, skipsGc: seq<Vec>, gc: seq<Vec>)
    requires |layer| == |layerGc| <= |cond| && b.dilation < |layer| && |nexts| == |gc| == |layer| - b.dilation
      && t < |nexts|
    requires |skips| <= |nexts| && |skipsGc| <= |nexts|
    requires EntryAgrees(net, b.gc, b.dilation, layerGc, None, skipsGc, gc, t)
    requires EntryAgrees(net, b.main, b.dilation, layer, Some(Conditioned(cond, gc)), skips, nexts, t)
    ensures var r := BlockCell(net, b, Pair(layer[t + b.dilation], layerGc[t + b.dilation]),
                               Pair(layer[t], layerGc[t]), cond[|cond| - |gc| + t]);
      && r.1 == Pair(nexts[t], gc[t])
      && (t + |skips| >= |nexts| ==> skips[t + |skips| - |nexts|] == r.0)
  {
    assert Conditioned(cond, gc)[t] == Add(cond[|cond| - |gc| + t], gc[t]);
  }

  /** A batch layer agrees with the generator's layer at every time. */
  predicate LayerAgrees(net: Net, l: Layer, dilation: nat, xs: seq<Vec>, cond: Option<seq<Vec>>, skips: seq<Vec>,
                        nexts: seq<Vec>)
  {
    && dilation < |xs| && |nexts| == |xs| - dilation && |skips| == net.outputWidth <= |nexts|
    && (cond.Some? ==> |cond.value| == |nexts|)
    && forall t: nat :: t < |nexts| ==> EntryAgrees(net, l, dilation, xs, cond, skips, nexts, t)
  }

  /** The condition of a run. */
  ghost predicate ConditionOf(ins: seq<Pair>, cond: seq<Vec>)
  {
    |cond| == |ins| && forall t :: 0 <= t < |ins| ==> ins[t].gc == cond[t]
  }

  lemma BlockStageMakes(net: Net, b: Block, now: Pair, past: Pair, input: Pair, r: (Vec, Pair))
    requires r == BlockCell(net, b, now, past, input.gc)
    ensures BlockStage(net, b).cell(now, past, input) == r
  {
  }

  lemma EntryAt(net: Net, l: Layer, dilation: nat, xs: seq<Vec>, cond: Option<seq<Vec>>,
                skips: seq<Vec>, nexts: seq<Vec>, t: nat)
    requires LayerAgrees(net, l, dilation, xs, cond, skips, nexts) && t < |nexts|
    ensures EntryAgrees(net, l, dilation, xs, cond, skips, nexts, t)
  {
  }

  lemma StageMakes(net: Net, st: seq<Stage<Pair, Vec>>, i: nat, now: Pair, past: Pair, input: Pair, r: (Vec, Pair))
    requires StagesOf(net, st) && i < |net.blocks| && r == BlockCell(net, net.blocks[i], now, past, input.gc)
    ensures r == st[i + 1].cell(now, past, input)
  {
    assert BlockStageAt(net, st, i);
    BlockStageMakes(net, net.blocks[i], now, past, input, r);
  }

  lemma BlockMade(net: Net, b: Block, layer: seq<Vec>, layerGc: seq<Vec>, cond: seq<Vec>,
                  skips: seq<Vec>, nexts: seq<Vec>, skipsGc: seq<Vec>, gc: seq<Vec>, t: nat,
                  now: Pair, past: Pair, input: Pair)
      returns (r: (Vec, Pair))
    requires |layer| == |layerGc| <= |cond| && LayerAgrees(net, b.gc, b.dilation, layerGc, None, skipsGc, gc)
    requires LayerAgrees(net, b.main, b.dilation, layer, Some(Conditioned(cond, gc)), skips, nexts) && t < |nexts|
    requires now == Pair(layer[t + b.dilation], layerGc[t + b.dilation])
    requires past == Pair(layer[t], layerGc[t]) && input.gc == cond[|cond| - |gc| + t]
    ensures r == BlockCell(net, b, now, past, input.gc) && r.1 == Pair(nexts[t], gc[t])
    ensures t + |skips| >= |nexts| ==> skips[t + |skips| - |nexts|] == r.0
  {
    EntryAt(net, b.gc, b.dilation, layerGc, None, skipsGc, gc, t);
    EntryAt(net, b.main, b.dilation, layer, Some(Conditioned(cond, gc)), skips, nexts, t);
    BlockAgrees(net, b, layer, layerGc, cond, t, skips, nexts, skipsGc, gc);
    r := BlockCell(net, b, now, past, input.gc);
  }

  /** What stage i + 1 makes at t, with the block's two layers. */
  lemma BlockMakes(net: Net, st: seq<Stage<Pair, Vec>>, i: nat, layer: seq<Vec>, layerGc: seq<Vec>, cond: seq<Vec>,
                   skips: seq<Vec>, nexts: seq<Vec>, skipsGc: seq<Vec>, gc: seq<Vec>, t: nat,
                   now: Pair, past: Pair, input: Pair)
      returns (r: (Vec, Pair))
    requires StagesOf(net, st) && i < |net.blocks| && |layer| == |layerGc| <= |cond|
    requires var b := net.blocks[i];
      && LayerAgrees(net, b.gc, b.dilation, layerGc, None, skipsGc, gc)
      && LayerAgrees(net, b.main, b.dilation, layer, Some(Conditioned(cond, gc)), skips, nexts)
    requires t < |nexts|
    requires now == Pair(layer[t + net.blocks[i].dilation], layerGc[t + net.blocks[i].dilation])
    requires past == Pair(layer[t], layerGc[t]) && input.gc == cond[|cond| - |gc| + t]
    ensures r == st[i + 1].cell(now, past, input)
    ensures r.1 == Pair(nexts[t], gc[t])
    ensures t + |skips| >= |nexts| ==> skips[t + |skips| - |nexts|] == r.0
  {
    r := BlockMade(net, net.blocks[i], layer, layerGc, cond, skips, nexts, skipsGc, gc, t, now, past, input);
    StageMakes(net, st, i, now, past, input, r);
  }

  lemma StageDilation(net: Net, st: seq<Stage<Pair, Vec>>, i: nat)
    requires StagesOf(net, st) && i < |net.blocks|
    ensures st[i + 1].dilation == net.blocks[i].dilation
  {
    assert BlockStageAt(net, st, i);
  }

  lemma BlockFollows(net: Net, st: seq<Stage<Pair, Vec>>, ins: seq<Pair>, i: nat, layer: seq<Vec>, layerGc: seq<Vec>,
                     cond: seq<Vec>,
                     skips: seq<Vec>, nexts: seq<Vec>, skipsGc: seq<Vec>, gc: seq<Vec>)
    requires StagesOf(net, st) && i < |net.blocks| && |layer| == |layerGc| <= |cond| && ConditionOf(ins, cond)
    requires Follows(st, ins, i + 1, Zip(layer, layerGc))
    requires LayerAgrees(net, net.blocks[i].gc, net.blocks[i].dilation, layerGc, None, skipsGc, gc)
    requires LayerAgrees(net, net.blocks[i].main, net.blocks[i].dilation, layer, Some(Conditioned(cond, gc)), skips,
                         nexts)
    ensures Follows(st, ins, i + 2, Zip(nexts, gc))
    ensures OutsFollow(net, st, ins, i, skips)
  {
    var d, l, signal, next := net.blocks[i].dilation, i + 1, Zip(layer, layerGc), Zip(nexts, gc);
    StageDilation(net, st, i);
    forall t: nat | t < |nexts|
      ensures MadeAt(st, ins, l, signal, next, skips, t)
    {
      var r := BlockMakes(net, st, i, layer, layerGc, cond, skips, nexts, skipsGc, gc, t,
        signal[t + d], signal[t], ins[|ins| - |next| + t]);
    }
    FollowsOn(st, ins, l, signal, next, skips);
  }

  /** causal_layer */
  method CausalBatch(xs: seq<Vec>, filter: Filter) returns (layer: seq<Vec>)
    requires |xs| > 1
    ensures PairsUp(layer, xs, filter, 1)
  {
    CausalConvPairsUp(xs, filter, 1);
    layer := CausalConvOp(xs, filter, 1);
  }

  /** _create_dilation_layer */
  method DilationBatch(net: Net, l: Layer, dilation: nat, xs: seq<Vec>, cond: Option<seq<Vec>>)
    returns (skips: seq<Vec>, nexts: seq<Vec>)
    requires 0 < dilation < |xs| && net.outputWidth <= |xs| - dilation
    requires cond.Some? ==> |cond.value| == |xs| - dilation
    ensures LayerAgrees(net, l, dilation, xs, cond, skips, nexts)
  {
    var r := DilationLayer(net, l, dilation, xs, cond);
    forall t: nat | t < |xs| - dilation
      ensures EntryAgrees(net, l, dilation, xs, cond, r.0, r.1, t)
    {
      DilationLayerAgrees(net, l, dilation, xs, cond, t);
    }
    skips, nexts := r.0, r.1;
  }

  ghost predicate AllOutsFollow(net: Net, st: seq<Stage<Pair, Vec>>, ins: seq<Pair>, outs: seq<seq<Vec>>)
  {
    |outs| < |st| && forall i: nat :: i < |outs| ==> OutsFollow(net, st, ins, i, outs[i])
  }

  /** _create_output_layer at one time. */
  method OutputColumn(net: Net, outs: seq<seq<Vec>>, t: nat, ghost st: seq<Stage<Pair, Vec>>, ghost ins: seq<Pair>)
    returns (y: Vec)
    requires 0 < |outs| == |st| - 1 && AllOutsFollow(net, st, ins, outs) && t < net.outputWidth <= |ins|
    ensures y == LastOutputs(net, st, ins)[t]
  {
    var column := seq(|outs|, i requires 0 <= i < |outs| => assert OutsFollow(net, st, ins, i, outs[i]); outs[i][t]);
    ghost var s: nat := |ins| - net.outputWidth + t;
    assert column == Outs(st, ins, |outs|, s) by {
      forall i: nat | i < |outs|
        ensures column[i] == Out(st, ins, i + 1, s)
      {
        assert OutsFollow(net, st, ins, i, outs[i]);
      }
    }
    y := OutputLayer(net, column);
    OutputsAt(net, st, ins, |ins|, s, y);
  }

  /** _create_output_layer */
  method OutputBatch(net: Net, outs: seq<seq<Vec>>, ghost st: seq<Stage<Pair, Vec>>, ghost ins: seq<Pair>)
    returns (r: seq<Vec>)
    requires 0 < |outs| == |st| - 1 && AllOutsFollow(net, st, ins, outs) && net.outputWidth <= |ins|
    ensures r == LastOutputs(net, st, ins)
  {
    ghost var wanted := LastOutputs(net, st, ins);
    r := [];
    for t := 0 to net.outputWidth
      invariant r == wanted[..t]
    {
      var y := OutputColumn(net, outs, t, st, ins);
      r := r + [y];
    }
  }

  /** The loop of encode over the dilations. */
  method EncodeBlocks(net: Net, layer0: seq<Vec>, layerGc0: seq<Vec>, cond: seq<Vec>, ghost st: seq<Stage<Pair, Vec>>,
                      ghost ins: seq<Pair>)
      returns (outs: seq<seq<Vec>>)
    requires ValidNet(net) && StagesOf(net, st) && LongEnough(net, |cond|) && ConditionOf(ins, cond)
    requires |layer0| == |layerGc0| == |cond| - 1 && Follows(st, ins, 1, Zip(layer0, layerGc0))
    ensures |outs| == |net.blocks| && AllOutsFollow(net, st, ins, outs)
  {
    var layer, layerGc := layer0, layerGc0;
    outs := [];
    for i := 0 to |net.blocks|
      invariant |layer| == |layerGc| == |cond| - SumDilations(net, i) - 1
      invariant Follows(st, ins, i + 1, Zip(layer, layerGc))
      invariant |outs| == i && AllOutsFollow(net, st, ins, outs)
    {
      SumMono(net, i + 1, |net.blocks|);
      var b := net.blocks[i];
      var outGc, gc := DilationBatch(net, b.gc, b.dilation, layerGc, None);
      var out, next := DilationBatch(net, b.main, b.dilation, layer, Some(Conditioned(cond, gc)));
      BlockFollows(net, st, ins, i, layer, layerGc, cond, out, next, outGc, gc);
      outs, layer, layerGc := outs + [out], next, gc;
    }
  }

  /** encode: the outputs at the last times of the signal. */
  method Encode(net: Net, inputs: seq<Vec>, cond: seq<Vec>) returns (r: seq<Vec>)
    requires ValidNet(net) && |inputs| == |cond| && LongEnough(net, |inputs|)
    ensures net.outputWidth <= |inputs|
    ensures r == LastOutputs(net, Stages(net), Zip(Shifted(net, inputs), cond))
  {
    var xs := Shifted(net, inputs);
    ghost var ins := Zip(xs, cond);
    ghost var st := StagesAre(net);
    var layer := CausalBatch(xs, net.causal);
    var layerGc := CausalBatch(cond, net.causalGc);
    CausalFollows(net, st, xs, cond, layer, layerGc);
    var outs := EncodeBlocks(net, layer, layerGc, cond, st, ins);
    r := OutputBatch(net, outs, st, ins);
  }

  // ---------------------------------------------------------------------------------------------
  // The generator
  // ---------------------------------------------------------------------------------------------

  /** Pushing onto both queues of a stage. */
  lemma PushBoth(st: seq<Stage<Pair, Vec>>, ins: seq<Pair>, input: Pair, l: nat, q: seq<Vec>, qGc: seq<Vec>,
                 layer: Vec, layerGc: Vec)
    requires l < |st| && |q| == |qGc| > 0 && QueueHolds(st, ins, l, Zip(q, qGc))
    requires Pair(layer, layerGc) == Signal(st, ins + [input], l, |ins|)
    ensures QueueHolds(st, ins + [input], l, Zip(q[1..] + [layer], qGc[1..] + [layerGc]))
    ensures Pair(q[0], qGc[0]) == Past(st, ins + [input], l, |ins|)
  {
    var z := Zip(q, qGc);
    QueueAdvances(st, ins, input, l, z, Pair(layer, layerGc));
    var z' := Zip(q[1..] + [layer], qGc[1..] + [layerGc]);
    forall k | 0 <= k < |z|
      ensures z'[k] == (z[1..] + [Pair(layer, layerGc)])[k]
    {
    }
    assert z' == z[1..] + [Pair(layer, layerGc)];
  }

  /** _create_generator_dilation_layer, for both layers of block i. */
  method GeneratorBlock(net: Net, i: nat, layer: Vec, layerGc: Vec, state: Vec, stateGc: Vec, cond: Vec,
                        ghost st: seq<Stage<Pair, Vec>>, ghost ins: seq<Pair>, ghost s: nat)
      returns (out: Vec, next: Vec, nextGc: Vec)
    requires StagesOf(net, st) && i < |net.blocks| && s < |ins| && ins[s].gc == cond
    requires Pair(layer, layerGc) == Signal(st, ins, i + 1, s)
    requires Pair(state, stateGc) == Past(st, ins, i + 1, s)
    ensures out == Out(st, ins, i + 1, s)
    ensures Pair(next, nextGc) == Signal(st, ins, i + 2, s)
  {
    var b := net.blocks[i];
    assert BlockStageAt(net, st, i);
    nextGc := GeneratorDilationLayer(net, b.gc, layerGc, stateGc, None).1;
    var r := GeneratorDilationLayer(net, b.main, layer, state, Some(Add(cond, nextGc)));
    out, next := r.0, r.1;
    BlockStageMakes(net, b, Pair(layer, layerGc), Pair(state, stateGc), ins[s], (out, Pair(next, nextGc)));
  }

  /** Later inputs leave the outputs as they are. */
  lemma OutputKept(net: Net, st: seq<Stage<Pair, Vec>>, ins: seq<Pair>, s: nat)
    requires |st| > 1 && s < |ins|
    ensures Output(net, st, ins[..s + 1], s) == Output(net, st, ins, s)
  {
    forall l: nat | l < |st|
      ensures Out(st, ins[..s + 1], l, s) == Out(st, ins, l, s)
    {
      OutKept(st, ins, l, s);
    }
    assert Outs(st, ins[..s + 1], |st| - 1, s) == Outs(st, ins, |st| - 1, s);
  }

  lemma OutputsNext(net: Net, st: seq<Stage<Pair, Vec>>, ins: seq<Pair>, s: nat, out: Vec)
    requires |st| > 1 && s < |ins| && out == Output(net, st, ins[..s + 1], s)
    ensures Outputs(net, st, ins, s) + [out] == Outputs(net, st, ins, s + 1)
  {
    OutputKept(net, st, ins, s);
  }

  lemma OutsSnoc(st: seq<Stage<Pair, Vec>>, ins: seq<Pair>, n: nat, s: nat)
    requires n + 1 < |st| && s < |ins|
    ensures Outs(st, ins, n + 1, s) == Outs(st, ins, n, s) + [Out(st, ins, n + 1, s)]
  {
  }

  ghost predicate BlockHolds(st: seq<Stage<Pair, Vec>>, seen: seq<Pair>, i: nat, q: seq<Vec>, qGc: seq<Vec>)
    requires i + 1 < |st|
  {
    |q| == |qGc| == st[i + 1].dilation > 0 && QueueHolds(st, seen, i + 1, Zip(q, qGc))
  }

  /** The queues of these blocks hold what entered them last when these inputs had been seen. */
  ghost predicate BlocksHold(st: seq<Stage<Pair, Vec>>, seen: seq<Pair>, qs: seq<seq<Vec>>, qsGc: seq<seq<Vec>>,
                             lo: nat, hi: nat)
  {
    && hi < |st| == |qs| + 1 == |qsGc| + 1
    && forall i: nat :: lo <= i < hi ==> BlockHolds(st, seen, i, qs[i], qsGc[i])
  }

  lemma BlockAdvances(st: seq<Stage<Pair, Vec>>, ins: seq<Pair>, seen: seq<Pair>, qs: seq<seq<Vec>>,
                      qsGc: seq<seq<Vec>>, i: nat, q: seq<Vec>, qGc: seq<Vec>)
    requires i + 1 < |st| && BlocksHold(st, seen, qs, qsGc, 0, i) && BlocksHold(st, ins, qs, qsGc, i, |st| - 1)
    requires BlockHolds(st, seen, i, q, qGc)
    ensures BlocksHold(st, seen, qs[i := q], qsGc[i := qGc], 0, i + 1)
    ensures BlocksHold(st, ins, qs[i := q], qsGc[i := qGc], i + 1, |st| - 1)
  {
  }

  /** The graph that generate builds: a queue of length one before the causal layers, and one as long as the
      dilation before each block, each with its twin for the condition. */
  class Generator {
    const net: Net
    var q: seq<Vec>
    var qGc: seq<Vec>
    var qs: seq<seq<Vec>>
    var qsGc: seq<seq<Vec>>
    /** What has been fed in so far, and the stages of the network. */
    ghost var ins: seq<Pair>
    ghost const st: seq<Stage<Pair, Vec>>

    ghost predicate Valid()
      reads this
    {
      && ValidNet(net) && StagesOf(net, st)
      && |q| == |qGc| == 1 && QueueHolds(st, ins, 0, Zip(q, qGc))
      && BlocksHold(st, ins, qs, qsGc, 0, |st| - 1)
    }

    /** init_ops */
    constructor (net: Net)
      requires ValidNet(net)
      ensures Valid() && this.net == net && st == Stages(net) && ins == []
    {
      this.net := net;
      q, qGc := [Zeros(net.quantizationChannels)], [Zeros(net.conditionChannels)];
      qs := seq(|net.blocks|, i requires 0 <= i < |net.blocks| =>
        seq(net.blocks[i].dilation, _ => Zeros(net.residualChannels)));
      qsGc := seq(|net.blocks|, i requires 0 <= i < |net.blocks| =>
        seq(net.blocks[i].dilation, _ => Zeros(net.conditionChannels)));
      ins := [];
      ghost var stages := StagesAre(net);
      st := stages;
      assert forall i: nat :: i < |net.blocks| ==> BlockStageAt(net, stages, i);
    }

    /** The causal layers' queues, of length one. */
    method StepCausal(x: Vec, cond: Vec) returns (layer: Vec, layerGc: Vec)
      requires |st| > 0 && st[0] == CausalStage(net) && |q| == |qGc| == 1 && QueueHolds(st, ins, 0, Zip(q, qGc))
      modifies `q, `qGc
      ensures q == [x] && qGc == [cond]
      ensures QueueHolds(st, ins + [Pair(x, cond)], 0, Zip(q, qGc))
      ensures Pair(layer, layerGc) == Signal(st, ins + [Pair(x, cond)], 1, |ins|)
    {
      PushBoth(st, ins, Pair(x, cond), 0, q, qGc, x, cond);
      layer, layerGc := GeneratorCausalConv(x, q[0], net.causal), GeneratorCausalConv(cond, qGc[0], net.causalGc);
      q, qGc := q[1..] + [x], qGc[1..] + [cond];
    }

    /** One block: both queues give up their oldest entry and take in the newest. */
    method StepBlock(i: nat, layer: Vec, layerGc: Vec, cond: Vec, ghost input: Pair)
      returns (out: Vec, next: Vec, nextGc: Vec)
      requires StagesOf(net, st) && i < |net.blocks| == |qs| == |qsGc| && BlockHolds(st, ins, i, qs[i], qsGc[i])
        && input.gc == cond
      requires Pair(layer, layerGc) == Signal(st, ins + [input], i + 1, |ins|)
      modifies `qs, `qsGc
      ensures |qs| == |qsGc| == |net.blocks|
      ensures qs == old(qs)[i := qs[i]] && qs[i] == old(qs[i])[1..] + [layer]
      ensures qsGc == old(qsGc)[i := qsGc[i]] && qsGc[i] == old(qsGc[i])[1..] + [layerGc]
      ensures BlockHolds(st, ins + [input], i, qs[i], qsGc[i])
      ensures out == Out(st, ins + [input], i + 1, |ins|)
      ensures Pair(next, nextGc) == Signal(st, ins + [input], i + 2, |ins|)
    {
      PushBoth(st, ins, input, i + 1, qs[i], qsGc[i], layer, layerGc);
      out, next, nextGc := GeneratorBlock(net, i, layer, layerGc, qs[i][0], qsGc[i][0], cond, st, ins + [input], |ins|);
      qs, qsGc := qs[i := qs[i][1..] + [layer]], qsGc[i := qsGc[i][1..] + [layerGc]];
    }

    /** The loop over the blocks. */
    method StepBlocks(layer0: Vec, layerGc0: Vec, cond: Vec, ghost input: Pair) returns (outs: seq<Vec>)
      requires StagesOf(net, st) && BlocksHold(st, ins, qs, qsGc, 0, |st| - 1) && input.gc == cond
      requires Pair(layer0, layerGc0) == Signal(st, ins + [input], 1, |ins|)
      modifies `qs, `qsGc
      ensures BlocksHold(st, ins + [input], qs, qsGc, 0, |st| - 1)
      ensures outs == Outs(st, ins + [input], |st| - 1, |ins|)
    {
      ghost var seen := ins + [input];
      var layer, layerGc := layer0, layerGc0;
      outs := [];
      for i := 0 to |net.blocks|
        invariant BlocksHold(st, seen, qs, qsGc, 0, i) && BlocksHold(st, ins, qs, qsGc, i, |st| - 1)
        invariant Pair(layer, layerGc) == Signal(st, seen, i + 1, |ins|)
        invariant outs == Outs(st, seen, i, |ins|)
      {
        ghost var before, beforeGc := qs, qsGc;
        assert BlockHolds(st, ins, i, qs[i], qsGc[i]);
        var out, next, nextGc := StepBlock(i, layer, layerGc, cond, input);
        BlockAdvances(st, ins, seen, before, beforeGc, i, qs[i], qsGc[i]);
        OutsSnoc(st, seen, i, |ins|);
        outs, layer, layerGc := outs + [out], next, nextGc;
      }
    }

    /** One step of generation: exactly the network's output on everything fed in so far. */
    method Step(x: Vec, cond: Vec) returns (out: Vec)
      requires Valid()
      modifies this
      ensures Valid() && ins == old(ins) + [Pair(x, cond)]
      ensures out == Output(net, st, ins, |old(ins)|)
    {
      ghost var input := Pair(x, cond);
      var layer, layerGc := StepCausal(x, cond);
      var outs := StepBlocks(layer, layerGc, cond, input);
      out := OutputLayer(net, outs);
      ins := ins + [input];
    }

    /** A whole signal, fed in from the start. */
    method Run(xs: seq<Vec>, cond: seq<Vec>) returns (steps: seq<Vec>)
      requires Valid() && ins == [] && |xs| == |cond|
      modifies this
      ensures Valid() && ins == Zip(xs, cond)
      ensures steps == Outputs(net, st, Zip(xs, cond), |xs|)
    {
      ghost var all := Zip(xs, cond);
      steps := [];
      for s := 0 to |xs|
        invariant Valid() && ins == all[..s]
        invariant steps == Outputs(net, st, all, s)
      {
        var out := Step(xs[s], cond[s]);
        assert all[..s + 1] == all[..s] + [all[s]];
        OutputsNext(net, st, all, s, out);
        steps := steps + [out];
      }
    }
  }

  lemma LastOf(net: Net, st: seq<Stage<Pair, Vec>>, ins: seq<Pair>, batch: seq<Vec>, steps: seq<Vec>)
    requires |st| > 1 && net.outputWidth <= |ins|
    requires batch == LastOutputs(net, st, ins) && steps == Outputs(net, st, ins, |ins|)
    ensures batch == steps[|ins| - net.outputWidth..]
  {
  }

  /** From step receptive_field - 1 on, the generator's outputs are those of encode on the same input, aligned at the
      end. */
  method GenerateMatchesEncode(net: Net, inputs: seq<Vec>, cond: seq<Vec>) returns (batch: seq<Vec>, steps: seq<Vec>)
    requires ValidNet(net) && |inputs| == |cond| && LongEnough(net, |inputs|)
    ensures |steps| == |inputs| && |batch| == net.outputWidth
    ensures ReceptiveField(net) - 1 <= |inputs| - net.outputWidth
    ensures steps == Outputs(net, Stages(net), Zip(Shifted(net, inputs), cond), |inputs|)
    ensures batch == steps[|inputs| - net.outputWidth..]
  {
    var xs := Shifted(net, inputs);
    batch := Encode(net, inputs, cond);
    var generator := new Generator(net);
    steps := generator.Run(xs, cond);
    LastOf(net, generator.st, Zip(xs, cond), batch, steps);
  }
}
