/** What a layer of the network computes, said of whole runs: what an open gate, a closed gate and empty dense weights
    make of the network, and the network of one channel as a formula over real numbers. */
module WaveNetLaws {
  import opened DilatedConv
  import opened DilatedStack
  import opened WaveNet
  import opened Wrappers

  // ---------------------------------------------------------------------------------------------
  // Stacks that compute the same
  // ---------------------------------------------------------------------------------------------

  ghost predicate SameStage<S(!new), O(!new)>(a: Stage<S, O>, b: Stage<S, O>)
  {
    && a.dilation == b.dilation && a.silence == b.silence
    && forall now, past, input :: a.cell(now, past, input) == b.cell(now, past, input)
  }

  ghost predicate SameStages<S(!new), O(!new)>(st: seq<Stage<S, O>>, st': seq<Stage<S, O>>)
  {
    |st| == |st'| && forall i: nat :: i < |st| ==> SameStage(st[i], st'[i])
  }

  lemma {:induction false} SignalSame<S(!new), O(!new)>(st: seq<Stage<S, O>>, st': seq<Stage<S, O>>, ins: seq<S>,
                                                        l: nat, s: int)
    requires SameStages(st, st') && s < |ins| && l <= |st| && (l == |st| ==> 0 <= s)
    ensures Signal(st, ins, l, s) == Signal(st', ins, l, s)
    decreases l
  {
    if l < |st| { assert SameStage(st[l], st'[l]); }
    if s >= 0 && l > 0 {
      assert SameStage(st[l - 1], st'[l - 1]);
      SignalSame(st, st', ins, l - 1, s);
      SignalSame(st, st', ins, l - 1, s - st[l - 1].dilation);
    }
  }

  lemma OutSame<S(!new), O(!new)>(st: seq<Stage<S, O>>, st': seq<Stage<S, O>>, ins: seq<S>, l: nat, s: nat)
    requires SameStages(st, st') && s < |ins| && l < |st|
    ensures Out(st, ins, l, s) == Out(st', ins, l, s)
  {
    assert SameStage(st[l], st'[l]);
    SignalSame(st, st', ins, l, s);
    SignalSame(st, st', ins, l, s - st[l].dilation);
  }

  predicate SameOutputLayer(net: Net, net': Net)
  {
    net.w1 == net'.w1 && net.w2 == net'.w2 && net.b1 == net'.b1 && net.b2 == net'.b2
  }

  lemma OutputSame(net: Net, net': Net, st: seq<Stage<Pair, Vec>>, st': seq<Stage<Pair, Vec>>, ins: seq<Pair>, s: nat)
    requires SameOutputLayer(net, net') && SameStages(st, st') && s < |ins| && |st| > 1
    ensures Output(net, st, ins, s) == Output(net', st', ins, s)
  {
    var n := |st| - 1;
    forall l: nat | 0 < l <= n
      ensures Out(st, ins, l, s) == Out(st', ins, l, s)
    {
      OutSame(st, st', ins, l, s);
    }
    assert Outs(st, ins, n, s) == Outs(st', ins, n, s);
  }

  lemma {:induction false} OutputsSame(net: Net, net': Net, st: seq<Stage<Pair, Vec>>, st': seq<Stage<Pair, Vec>>,
                                       ins: seq<Pair>, n: nat)
    requires SameOutputLayer(net, net') && SameStages(st, st') && n <= |ins| && |st| > 1
    ensures Outputs(net, st, ins, n) == Outputs(net', st', ins, n)
  {
    if n > 0 {
      OutputsSame(net, net', st, st', ins, n - 1);
      OutputSame(net, net', st, st', ins, n - 1);
    }
  }

  // ---------------------------------------------------------------------------------------------
  // An open gate
  // ---------------------------------------------------------------------------------------------

  ghost predicate Constant(f: real -> real, c: real)
  {
    forall v :: f(v) == c
  }

  /** Filter and gate have the same number of channels. */
  predicate GateFits(l: Layer)
  {
    l.gate.past.cols == l.filter.past.cols
  }

  predicate SameButGate(l: Layer, l': Layer)
  {
    l' == l.(gate := l'.gate, gateBias := l'.gateBias, gcGate := l'.gcGate) && GateFits(l) && GateFits(l')
  }

  /** The two networks differ in the weights and biases of their gates alone. */
  ghost predicate SameButGates(net: Net, net': Net)
  {
    && net' == net.(blocks := net'.blocks) && |net.blocks| == |net'.blocks|
    && forall i :: 0 <= i < |net.blocks| ==> SameBlockButGates(net.blocks[i], net'.blocks[i])
  }

  predicate SameBlockButGates(b: Block, b': Block)
  {
    b'.dilation == b.dilation && SameButGate(b.main, b'.main) && SameButGate(b.gc, b'.gc)
  }

  lemma TimesOnes(a: Vec, b: Vec)
    requires |b| == |a| && forall i :: 0 <= i < |b| ==> b[i] == 1.0
    ensures Times(a, b) == a
  {
  }

  /** What a layer makes of its input when its gate lets everything through. */
  lemma OpenLayer(net: Net, l: Layer, x: Vec, state: Vec, cond: Option<Vec>, f: Vec)
    requires Constant(net.sigmoid, 1.0) && GateFits(l)
    requires f == (if cond.Some? then Add(GeneratorCausalConv(x, state, l.filter), MatMul(cond.value, l.gcFilter))
                   else GeneratorCausalConv(x, state, l.filter))
    ensures var out := Each(net.tanh, Add(f, l.filterBias));
      GeneratorDilationLayer(net, l, x, state, cond) ==
      (Add(MatMul(out, l.skip), l.skipBias), Add(x, Add(MatMul(out, l.dense), l.denseBias)))
  {
    var g0 := GeneratorCausalConv(x, state, l.gate);
    var g := if cond.Some? then Add(g0, MatMul(cond.value, l.gcGate)) else g0;
    TimesOnes(Each(net.tanh, Add(f, l.filterBias)), Each(net.sigmoid, Add(g, l.gateBias)));
  }

  lemma OpenLayerSame(net: Net, net': Net, l: Layer, l': Layer, x: Vec, state: Vec, cond: Option<Vec>)
    requires Constant(net.sigmoid, 1.0) && SameButGate(l, l') && net'.tanh == net.tanh && net'.sigmoid == net.sigmoid
    ensures GeneratorDilationLayer(net, l, x, state, cond) == GeneratorDilationLayer(net', l', x, state, cond)
  {
    var f0 := GeneratorCausalConv(x, state, l.filter);
    var f := if cond.Some? then Add(f0, MatMul(cond.value, l.gcFilter)) else f0;
    OpenLayer(net, l, x, state, cond, f);
    OpenLayer(net', l', x, state, cond, f);
  }

  lemma OpenBlockSame(net: Net, net': Net, b: Block, b': Block, now: Pair, past: Pair, cond: Vec)
    requires Constant(net.sigmoid, 1.0) && SameBlockButGates(b, b')
    requires net'.tanh == net.tanh && net'.sigmoid == net.sigmoid
    ensures BlockCell(net, b, now, past, cond) == BlockCell(net', b', now, past, cond)
  {
    OpenLayerSame(net, net', b.gc, b'.gc, now.gc, past.gc, None);
    var gc := GeneratorDilationLayer(net, b.gc, now.gc, past.gc, None).1;
    OpenLayerSame(net, net', b.main, b'.main, now.x, past.x, Some(Add(cond, gc)));
  }

  lemma OpenStageSame(net: Net, net': Net, b: Block, b': Block)
    requires Constant(net.sigmoid, 1.0) && SameBlockButGates(b, b') && net' == net.(blocks := net'.blocks)
    ensures SameStage(BlockStage(net, b), BlockStage(net', b'))
  {
    forall now: Pair, past: Pair, input: Pair
      ensures BlockStage(net, b).cell(now, past, input) == BlockStage(net', b').cell(now, past, input)
    {
      OpenBlockSame(net, net', b, b', now, past, input.gc);
    }
  }

  lemma OpenStageAt(net: Net, net': Net, st: seq<Stage<Pair, Vec>>, st': seq<Stage<Pair, Vec>>, i: nat)
    requires Constant(net.sigmoid, 1.0) && SameButGates(net, net') && StagesOf(net, st) && StagesOf(net', st')
    requires i < |st|
    ensures SameStage(st[i], st'[i])
  {
    if i > 0 {
      assert BlockStageAt(net, st, i - 1) && BlockStageAt(net', st', i - 1);
      OpenStageSame(net, net', net.blocks[i - 1], net'.blocks[i - 1]);
    }
  }

  lemma OpenStages(net: Net, net': Net, st: seq<Stage<Pair, Vec>>, st': seq<Stage<Pair, Vec>>)
    requires Constant(net.sigmoid, 1.0) && SameButGates(net, net') && StagesOf(net, st) && StagesOf(net', st')
    ensures SameStages(st, st')
  {
    forall i: nat | i < |st|
      ensures SameStage(st[i], st'[i])
    {
      OpenStageAt(net, net', st, st', i);
    }
  }

  /** Where the sigmoid lets everything through, the gates' weights and biases make no difference: neither to what the
      generator puts out at any step, nor to what encode puts out. */
  lemma OpenGates(net: Net, net': Net, ins: seq<Pair>)
    requires ValidNet(net) && Constant(net.sigmoid, 1.0) && SameButGates(net, net')
    ensures Outputs(net, Stages(net), ins, |ins|) == Outputs(net', Stages(net'), ins, |ins|)
    ensures net.outputWidth <= |ins| ==>
      LastOutputs(net, Stages(net), ins) == LastOutputs(net', Stages(net'), ins)
  {
    var st := StagesAre(net);
    var st' := StagesAre(net');
    OpenStages(net, net', st, st');
    OutputsSame(net, net', st, st', ins, |ins|);
  }

  // ---------------------------------------------------------------------------------------------
  // A closed gate
  // ---------------------------------------------------------------------------------------------

  /** The skip weights have as many channels as their bias. */
  predicate SkipFits(l: Layer)
  {
    l.skip.cols == |l.skipBias|
  }

  predicate SkipsFit(net: Net)
  {
    forall i :: 0 <= i < |net.blocks| ==> SkipFits(net.blocks[i].main)
  }

  predicate AllZero(v: Vec)
  {
    forall i :: 0 <= i < |v| ==> v[i] == 0.0
  }

  lemma {:induction false} DotZero(x: Vec, m: Mat, o: nat, n: nat)
    requires n <= |x| && AllZero(x)
    ensures Dot(x, m, o, n) == 0.0
  {
    if n > 0 { DotZero(x, m, o, n - 1); }
  }

  lemma MatMulZero(x: Vec, m: Mat)
    requires AllZero(x)
    ensures AllZero(MatMul(x, m))
  {
    forall o: nat | o < m.cols
      ensures MatMul(x, m)[o] == 0.0
    {
      DotZero(x, m, o, |x|);
    }
  }

  lemma AddToZero(a: Vec, b: Vec)
    requires |a| == |b| && AllZero(a)
    ensures Add(a, b) == b
  {
  }

  lemma ClosedLayer(net: Net, l: Layer, x: Vec, state: Vec, cond: Option<Vec>)
    requires Constant(net.sigmoid, 0.0) && SkipFits(l)
    ensures GeneratorDilationLayer(net, l, x, state, cond).0 == l.skipBias
  {
    var f0 := GeneratorCausalConv(x, state, l.filter);
    var g0 := GeneratorCausalConv(x, state, l.gate);
    var f := if cond.Some? then Add(f0, MatMul(cond.value, l.gcFilter)) else f0;
    var g := if cond.Some? then Add(g0, MatMul(cond.value, l.gcGate)) else g0;
    var out := Times(Each(net.tanh, Add(f, l.filterBias)), Each(net.sigmoid, Add(g, l.gateBias)));
    assert AllZero(out);
    MatMulZero(out, l.skip);
    AddToZero(MatMul(out, l.skip), l.skipBias);
  }

  function SkipBiases(net: Net): (r: seq<Vec>)
    ensures |r| == |net.blocks|
  {
    seq(|net.blocks|, i requires 0 <= i < |net.blocks| => net.blocks[i].main.skipBias)
  }

  lemma ClosedBlock(net: Net, b: Block, now: Pair, past: Pair, input: Pair)
    requires Constant(net.sigmoid, 0.0) && SkipFits(b.main)
    ensures BlockStage(net, b).cell(now, past, input).0 == b.main.skipBias
  {
    var gc := GeneratorDilationLayer(net, b.gc, now.gc, past.gc, None).1;
    ClosedLayer(net, b.main, now.x, past.x, Some(Add(input.gc, gc)));
  }

  lemma ClosedOut(net: Net, st: seq<Stage<Pair, Vec>>, ins: seq<Pair>, i: nat, s: nat)
    requires StagesOf(net, st) && i < |net.blocks| && s < |ins|
    requires Constant(net.sigmoid, 0.0) && SkipFits(net.blocks[i].main)
    ensures Out(st, ins, i + 1, s) == net.blocks[i].main.skipBias
  {
    assert BlockStageAt(net, st, i);
    ClosedBlock(net, net.blocks[i], Signal(st, ins, i + 1, s), Past(st, ins, i + 1, s), ins[s]);
  }

  lemma ClosedOuts(net: Net, st: seq<Stage<Pair, Vec>>, ins: seq<Pair>, s: nat)
    requires StagesOf(net, st) && Constant(net.sigmoid, 0.0) && SkipsFit(net) && s < |ins|
    ensures Outs(st, ins, |net.blocks|, s) == SkipBiases(net)
  {
    var outs, biases := Outs(st, ins, |net.blocks|, s), SkipBiases(net);
    forall i: nat | i < |net.blocks|
      ensures outs[i] == biases[i]
    {
      ClosedOut(net, st, ins, i, s);
    }
  }

  /** Where the sigmoid lets nothing through, every output is what the output layers make of the skip biases, whatever
      the input and all other weights. */
  lemma ClosedGates(net: Net, ins: seq<Pair>, s: nat)
    requires ValidNet(net) && Constant(net.sigmoid, 0.0) && SkipsFit(net) && s < |ins|
    ensures Output(net, Stages(net), ins, s) == OutputLayer(net, SkipBiases(net))
  {
    var st := StagesAre(net);
    ClosedOuts(net, st, ins, s);
  }

  // ---------------------------------------------------------------------------------------------
  // Empty dense weights
  // ---------------------------------------------------------------------------------------------

  /** Neither the dense weights nor their bias add anything. */
  ghost predicate NoDense(l: Layer)
  {
    (forall c: nat, o: nat :: Entry(l.dense, c, o) == 0.0) && AllZero(l.denseBias)
  }

  lemma {:induction false} DotNothing(x: Vec, m: Mat, o: nat, n: nat)
    requires n <= |x| && forall c: nat, o: nat :: Entry(m, c, o) == 0.0
    ensures Dot(x, m, o, n) == 0.0
  {
    if n > 0 { DotNothing(x, m, o, n - 1); }
  }

  lemma NoDenseAdds(x: Vec, out: Vec, l: Layer)
    requires NoDense(l)
    ensures Add(x, Add(MatMul(out, l.dense), l.denseBias)) == x
  {
    forall o: nat | o < l.dense.cols
      ensures MatMul(out, l.dense)[o] == 0.0
    {
      DotNothing(out, l.dense, o, |out|);
    }
  }

  lemma PassedOn(net: Net, l: Layer, x: Vec, state: Vec, cond: Option<Vec>)
    requires NoDense(l)
    ensures GeneratorDilationLayer(net, l, x, state, cond).1 == x
  {
    var f0 := GeneratorCausalConv(x, state, l.filter);
    var g0 := GeneratorCausalConv(x, state, l.gate);
    var f := if cond.Some? then Add(f0, MatMul(cond.value, l.gcFilter)) else f0;
    var g := if cond.Some? then Add(g0, MatMul(cond.value, l.gcGate)) else g0;
    NoDenseAdds(x, Times(Each(net.tanh, Add(f, l.filterBias)), Each(net.sigmoid, Add(g, l.gateBias))), l);
  }

  lemma BlockPassesOn(net: Net, b: Block, now: Pair, past: Pair, input: Pair)
    requires NoDense(b.main)
    ensures BlockStage(net, b).cell(now, past, input).1.x == now.x
  {
    var gc := GeneratorDilationLayer(net, b.gc, now.gc, past.gc, None).1;
    PassedOn(net, b.main, now.x, past.x, Some(Add(input.gc, gc)));
  }

  /** Where dense weights and biases are zero, every block sees the same signal: that of the causal layer. */
  lemma {:induction false} NothingAdded(net: Net, st: seq<Stage<Pair, Vec>>, ins: seq<Pair>, i: nat, s: nat)
    requires StagesOf(net, st) && i <= |net.blocks| && s < |ins|
    requires forall k :: 0 <= k < i ==> NoDense(net.blocks[k].main)
    ensures Signal(st, ins, i + 1, s).x == Signal(st, ins, 1, s).x
  {
    if i > 0 {
      NothingAdded(net, st, ins, i - 1, s);
      assert BlockStageAt(net, st, i - 1);
      BlockPassesOn(net, net.blocks[i - 1], Signal(st, ins, i, s), Past(st, ins, i, s), ins[s]);
    }
  }

  // ---------------------------------------------------------------------------------------------
  // One channel: the network as a formula
  // ---------------------------------------------------------------------------------------------

  predicate OneByOne(m: Mat)
  {
    m.cols == 1 && |m.rows| == 1 && |m.rows[0]| == 1
  }

  predicate OneTap(f: Filter)
  {
    OneByOne(f.past) && OneByOne(f.curr)
  }

  predicate OneChannelLayer(l: Layer)
  {
    && OneTap(l.filter) && OneTap(l.gate) && OneByOne(l.dense) && OneByOne(l.skip)
    && OneByOne(l.gcFilter) && OneByOne(l.gcGate)
    && |l.filterBias| == |l.gateBias| == |l.denseBias| == |l.skipBias| == 1
  }

  /** Samples, conditions, and everything between have one channel. */
  predicate OneChannel(net: Net)
  {
    && net.quantizationChannels == net.conditionChannels == net.residualChannels == 1
    && OneTap(net.causal) && OneTap(net.causalGc)
    && OneByOne(net.w1) && OneByOne(net.w2) && |net.b1| == |net.b2| == 1
    && forall i :: 0 <= i < |net.blocks| ==>
      OneChannelLayer(net.blocks[i].main) && OneChannelLayer(net.blocks[i].gc)
  }

  /** The one weight of a matrix. */
  function Weight(m: Mat): real
    requires OneByOne(m)
  {
    m.rows[0][0]
  }

  function Tap(f: Filter, now: real, past: real): real
    requires OneTap(f)
  {
    past * Weight(f.past) + now * Weight(f.curr)
  }

  /** A layer that sees one step alone. */
  function Project(m: Mat, bias: Vec, x: real): real
    requires OneByOne(m) && |bias| == 1
  {
    x * Weight(m) + bias[0]
  }

  /** What goes into an activation function: the two samples, the condition, and a bias. */
  function Affine(f: Filter, gc: Mat, bias: Vec, now: real, past: real, cond: real): real
    requires OneTap(f) && OneByOne(gc) && |bias| == 1
  {
    Tap(f, now, past) + cond * Weight(gc) + bias[0]
  }

  /** The gated activation unit. */
  function Gated(net: Net, l: Layer, now: real, past: real, cond: real): real
    requires OneChannelLayer(l)
  {
    net.tanh(Affine(l.filter, l.gcFilter, l.filterBias, now, past, cond)) *
    net.sigmoid(Affine(l.gate, l.gcGate, l.gateBias, now, past, cond))
  }

  /** What the activation unit adds to the sample on its way through the layer. */
  function Residual(l: Layer, now: real, z: real): real
    requires OneChannelLayer(l)
  {
    now + Project(l.dense, l.denseBias, z)
  }

  /** What the activation unit hands to the output layers. */
  function Skip(l: Layer, z: real): real
    requires OneChannelLayer(l)
  {
    Project(l.skip, l.skipBias, z)
  }

  function Silent(xs: seq<real>, t: int): real
    requires t < |xs|
  {
    if t < 0 then 0.0 else xs[t]
  }

  /** The condition that enters block i. */
  function Condition(net: Net, hs: seq<real>, i: nat, t: int): real
    requires OneChannel(net) && i <= |net.blocks| && t < |hs|
    decreases i, 0
  {
    if t < 0 then 0.0
    else if i == 0 then Tap(net.causalGc, hs[t], Silent(hs, t - 1))
    else Residual(net.blocks[i - 1].gc, Condition(net, hs, i - 1, t), ConditionUnit(net, hs, i - 1, t))
  }

  /** The activation unit of the condition's layer in block i. */
  function ConditionUnit(net: Net, hs: seq<real>, i: nat, t: nat): real
    requires OneChannel(net) && i < |net.blocks| && t < |hs|
    decreases i, 1
  {
    var b := net.blocks[i];
    Gated(net, b.gc, Condition(net, hs, i, t), Condition(net, hs, i, t - b.dilation), 0.0)
  }

  /** The sample that enters block i. */
  function Sample(net: Net, xs: seq<real>, hs: seq<real>, i: nat, t: int): real
    requires OneChannel(net) && i <= |net.blocks| && t < |xs| == |hs|
    decreases i, 0
  {
    if t < 0 then 0.0
    else if i == 0 then Tap(net.causal, xs[t], Silent(xs, t - 1))
    else Residual(net.blocks[i - 1].main, Sample(net, xs, hs, i - 1, t), SampleUnit(net, xs, hs, i - 1, t))
  }

  /** The activation unit of the samples' layer in block i, which sees the condition behind the block. */
  function SampleUnit(net: Net, xs: seq<real>, hs: seq<real>, i: nat, t: nat): real
    requires OneChannel(net) && i < |net.blocks| && t < |xs| == |hs|
    decreases i, 1
  {
    var b := net.blocks[i];
    Gated(net, b.main, Sample(net, xs, hs, i, t), Sample(net, xs, hs, i, t - b.dilation),
          hs[t] + Condition(net, hs, i + 1, t))
  }

  /** What the first n blocks hand to the output layers. */
  function Skips(net: Net, xs: seq<real>, hs: seq<real>, n: nat, t: nat): real
    requires OneChannel(net) && n <= |net.blocks| && t < |xs| == |hs|
    decreases n
  {
    if n == 0 then 0.0
    else Skips(net, xs, hs, n - 1, t) + Skip(net.blocks[n - 1].main, SampleUnit(net, xs, hs, n - 1, t))
  }

  function Ramp(v: real): real
  {
    if v > 0.0 then v else 0.0
  }

  /** A vector of one channel. */
  predicate Is(v: Vec, x: real)
  {
    |v| == 1 && v[0] == x
  }

  predicate PairIs(p: Pair, x: real, h: real)
  {
    Is(p.x, x) && Is(p.gc, h)
  }

  /** One sample and one condition a step. */
  predicate Mono(ins: seq<Pair>, xs: seq<real>, hs: seq<real>)
  {
    |ins| == |xs| == |hs| && forall t :: 0 <= t < |ins| ==> PairIs(ins[t], xs[t], hs[t])
  }

  lemma OneProduct(x: Vec, m: Mat)
    requires OneByOne(m) && |x| == 1
    ensures Is(MatMul(x, m), x[0] * Weight(m))
  {
    OneDot(x, m, 0);
  }

  lemma OneDot(x: Vec, m: Mat, o: nat)
    requires OneByOne(m) && |x| == 1 && o == 0
    ensures Dot(x, m, o, |x|) == x[0] * Weight(m)
  {
    assert Dot(x, m, o, 0) == 0.0;
  }

  lemma OneSum(a: Vec, b: Vec)
    requires |a| == |b| == 1
    ensures Is(Add(a, b), a[0] + b[0])
  {
  }

  lemma TapIs(f: Filter, now: Vec, past: Vec)
    requires OneTap(f) && |now| == |past| == 1
    ensures Is(GeneratorCausalConv(now, past, f), Tap(f, now[0], past[0]))
  {
    OneProduct(past, f.past);
    OneProduct(now, f.curr);
    OneSum(MatMul(past, f.past), MatMul(now, f.curr));
  }

  lemma ActivationIs(f: Filter, gc: Mat, bias: Vec, now: Vec, past: Vec, cond: Option<Vec>, v: Vec, c: real)
    requires OneTap(f) && OneByOne(gc) && |bias| == |now| == |past| == 1
    requires if cond.Some? then Is(cond.value, c) else c == 0.0
    requires v == (if cond.Some? then Add(GeneratorCausalConv(now, past, f), MatMul(cond.value, gc))
                   else GeneratorCausalConv(now, past, f))
    ensures Is(Add(v, bias), Affine(f, gc, bias, now[0], past[0], c))
  {
    TapIs(f, now, past);
    if cond.Some? {
      OneProduct(cond.value, gc);
      OneSum(GeneratorCausalConv(now, past, f), MatMul(cond.value, gc));
    }
    OneSum(v, bias);
  }

  lemma GateIs(net: Net, a: Vec, b: Vec)
    requires |a| == |b| == 1
    ensures Is(Times(Each(net.tanh, a), Each(net.sigmoid, b)), net.tanh(a[0]) * net.sigmoid(b[0]))
  {
  }

  lemma ProjectedIs(z: Vec, m: Mat, bias: Vec)
    requires OneByOne(m) && |z| == |bias| == 1
    ensures Is(Add(MatMul(z, m), bias), Project(m, bias, z[0]))
  {
    OneProduct(z, m);
    OneSum(MatMul(z, m), bias);
  }

  /** The gated unit of a layer. */
  lemma GatedIs(net: Net, l: Layer, now: Vec, past: Vec, cond: Option<Vec>, c: real, f: Vec, g: Vec)
    requires OneChannelLayer(l) && |now| == |past| == 1
    requires if cond.Some? then Is(cond.value, c) else c == 0.0
    requires f == (if cond.Some? then Add(GeneratorCausalConv(now, past, l.filter), MatMul(cond.value, l.gcFilter))
                   else GeneratorCausalConv(now, past, l.filter))
    requires g == (if cond.Some? then Add(GeneratorCausalConv(now, past, l.gate), MatMul(cond.value, l.gcGate))
                   else GeneratorCausalConv(now, past, l.gate))
    ensures Is(Times(Each(net.tanh, Add(f, l.filterBias)), Each(net.sigmoid, Add(g, l.gateBias))),
               Gated(net, l, now[0], past[0], c))
  {
    ActivationIs(l.filter, l.gcFilter, l.filterBias, now, past, cond, f, c);
    ActivationIs(l.gate, l.gcGate, l.gateBias, now, past, cond, g, c);
    GateIs(net, Add(f, l.filterBias), Add(g, l.gateBias));
  }

  lemma LayerIs(net: Net, l: Layer, now: Vec, past: Vec, cond: Option<Vec>, c: real, z: real)
    requires OneChannelLayer(l) && |now| == |past| == 1
    requires if cond.Some? then Is(cond.value, c) else c == 0.0
    requires z == Gated(net, l, now[0], past[0], c)
    ensures var r := GeneratorDilationLayer(net, l, now, past, cond);
      Is(r.0, Skip(l, z)) && Is(r.1, Residual(l, now[0], z))
  {
    var f0 := GeneratorCausalConv(now, past, l.filter);
    var g0 := GeneratorCausalConv(now, past, l.gate);
    var f := if cond.Some? then Add(f0, MatMul(cond.value, l.gcFilter)) else f0;
    var g := if cond.Some? then Add(g0, MatMul(cond.value, l.gcGate)) else g0;
    var out := Times(Each(net.tanh, Add(f, l.filterBias)), Each(net.sigmoid, Add(g, l.gateBias)));
    GatedIs(net, l, now, past, cond, c, f, g);
    ProjectedIs(out, l.skip, l.skipBias);
    ProjectedIs(out, l.dense, l.denseBias);
    OneSum(now, Add(MatMul(out, l.dense), l.denseBias));
  }

  lemma BlockIs(net: Net, b: Block, now: Pair, past: Pair, cond: Vec, c: real, k: real, zGc: real, z: real)
    requires OneChannelLayer(b.main) && OneChannelLayer(b.gc)
    requires |now.x| == |now.gc| == |past.x| == |past.gc| == |cond| == 1
    requires zGc == Gated(net, b.gc, now.gc[0], past.gc[0], 0.0) && c == Residual(b.gc, now.gc[0], zGc)
    requires k == cond[0] + c && z == Gated(net, b.main, now.x[0], past.x[0], k)
    ensures var r := BlockCell(net, b, now, past, cond);
      Is(r.0, Skip(b.main, z)) && PairIs(r.1, Residual(b.main, now.x[0], z), c)
  {
    var gc := GeneratorDilationLayer(net, b.gc, now.gc, past.gc, None).1;
    LayerIs(net, b.gc, now.gc, past.gc, None, 0.0, zGc);
    OneSum(cond, gc);
    LayerIs(net, b.main, now.x, past.x, Some(Add(cond, gc)), k, z);
  }

  /** What enters block i. */
  ghost predicate Enters(net: Net, st: seq<Stage<Pair, Vec>>, ins: seq<Pair>, xs: seq<real>, hs: seq<real>,
                         i: nat, t: int)
    requires OneChannel(net) && |st| == |net.blocks| + 1 && Mono(ins, xs, hs) && i <= |net.blocks| && t < |ins|
  {
    0 <= t || i < |net.blocks| ==>
      PairIs(Signal(st, ins, i + 1, t), Sample(net, xs, hs, i, t), Condition(net, hs, i, t))
  }

  lemma SilenceIs(net: Net, st: seq<Stage<Pair, Vec>>, l: nat)
    requires StagesOf(net, st) && OneChannel(net) && l < |st|
    ensures PairIs(st[l].silence, 0.0, 0.0)
  {
    if l > 0 { assert BlockStageAt(net, st, l - 1); }
  }

  lemma SilenceEnters(net: Net, st: seq<Stage<Pair, Vec>>, ins: seq<Pair>, xs: seq<real>, hs: seq<real>,
                      i: nat, t: int)
    requires StagesOf(net, st) && OneChannel(net) && Mono(ins, xs, hs) && i <= |net.blocks| && t < 0
    ensures Enters(net, st, ins, xs, hs, i, t)
  {
    if i < |net.blocks| { SilenceIs(net, st, i + 1); }
  }

  lemma CausalEnters(net: Net, st: seq<Stage<Pair, Vec>>, ins: seq<Pair>, xs: seq<real>, hs: seq<real>, t: nat)
    requires StagesOf(net, st) && OneChannel(net) && Mono(ins, xs, hs) && t < |ins|
    ensures Enters(net, st, ins, xs, hs, 0, t)
  {
    SilenceIs(net, st, 0);
    var past := Past(st, ins, 0, t);
    assert PairIs(ins[t], xs[t], hs[t]);
    assert PairIs(past, Silent(xs, t - 1), Silent(hs, t - 1));
    TapIs(net.causal, ins[t].x, past.x);
    TapIs(net.causalGc, ins[t].gc, past.gc);
  }

  lemma BlockOut(net: Net, st: seq<Stage<Pair, Vec>>, ins: seq<Pair>, i: nat, t: nat, now: Pair, past: Pair,
                 r: (Vec, Pair))
    requires StagesOf(net, st) && i < |net.blocks| && t < |ins|
    requires now == Signal(st, ins, i + 1, t) && past == Past(st, ins, i + 1, t)
    requires r == BlockCell(net, net.blocks[i], now, past, ins[t].gc)
    ensures Out(st, ins, i + 1, t) == r.0 && Signal(st, ins, i + 2, t) == r.1
  {
    assert BlockStageAt(net, st, i);
    BlockStageMakes(net, net.blocks[i], now, past, ins[t], r);
  }

  lemma PastIs(net: Net, st: seq<Stage<Pair, Vec>>, ins: seq<Pair>, xs: seq<real>, hs: seq<real>, i: nat, t: nat)
      returns (past: Pair, x: real, h: real)
    requires StagesOf(net, st) && OneChannel(net) && Mono(ins, xs, hs) && i < |net.blocks| && t < |ins|
    requires Enters(net, st, ins, xs, hs, i, t - net.blocks[i].dilation)
    ensures past == Past(st, ins, i + 1, t) && PairIs(past, x, h)
    ensures x == Sample(net, xs, hs, i, t - net.blocks[i].dilation)
    ensures h == Condition(net, hs, i, t - net.blocks[i].dilation)
  {
    assert BlockStageAt(net, st, i);
    past := Past(st, ins, i + 1, t);
    x, h := Sample(net, xs, hs, i, t - net.blocks[i].dilation), Condition(net, hs, i, t - net.blocks[i].dilation);
  }

  /** One block on, from what entered it now and before. */
  lemma BlockEnters(net: Net, st: seq<Stage<Pair, Vec>>, ins: seq<Pair>, xs: seq<real>, hs: seq<real>, i: nat, t: nat)
    requires StagesOf(net, st) && OneChannel(net) && Mono(ins, xs, hs) && i < |net.blocks| && t < |ins|
    requires Enters(net, st, ins, xs, hs, i, t) && Enters(net, st, ins, xs, hs, i, t - net.blocks[i].dilation)
    ensures Enters(net, st, ins, xs, hs, i + 1, t)
    ensures Is(Out(st, ins, i + 1, t), Skip(net.blocks[i].main, SampleUnit(net, xs, hs, i, t)))
  {
    var now := Signal(st, ins, i + 1, t);
    var past, x, h := PastIs(net, st, ins, xs, hs, i, t);
    assert PairIs(ins[t], xs[t], hs[t]);
    var c := Condition(net, hs, i + 1, t);
    BlockIs(net, net.blocks[i], now, past, ins[t].gc, c, hs[t] + c, ConditionUnit(net, hs, i, t),
            SampleUnit(net, xs, hs, i, t));
    BlockOut(net, st, ins, i, t, now, past, BlockCell(net, net.blocks[i], now, past, ins[t].gc));
  }

  lemma {:induction false} SignalIs(net: Net, st: seq<Stage<Pair, Vec>>, ins: seq<Pair>, xs: seq<real>, hs: seq<real>,
                                    i: nat, t: int)
    requires StagesOf(net, st) && OneChannel(net) && Mono(ins, xs, hs) && i <= |net.blocks| && t < |ins|
    ensures Enters(net, st, ins, xs, hs, i, t)
    decreases i
  {
    if t < 0 {
      SilenceEnters(net, st, ins, xs, hs, i, t);
    } else if i == 0 {
      CausalEnters(net, st, ins, xs, hs, t);
    } else {
      var k, d := i - 1, net.blocks[i - 1].dilation;
      SignalIs(net, st, ins, xs, hs, k, t);
      SignalIs(net, st, ins, xs, hs, k, t - d);
      BlockEnters(net, st, ins, xs, hs, k, t);
    }
  }

  lemma SumNext(vs: seq<Vec>, v: Vec, a: real)
    requires |vs| > 0 && Is(Sum(vs), a) && |v| == 1
    ensures Is(Sum(vs + [v]), a + v[0])
  {
    assert (vs + [v])[..|vs + [v]| - 1] == vs;
    OneSum(Sum(vs), v);
  }

  lemma SkipIs(net: Net, st: seq<Stage<Pair, Vec>>, ins: seq<Pair>, xs: seq<real>, hs: seq<real>, i: nat, t: nat)
    requires StagesOf(net, st) && OneChannel(net) && Mono(ins, xs, hs) && i < |net.blocks| && t < |ins|
    ensures Is(Out(st, ins, i + 1, t), Skip(net.blocks[i].main, SampleUnit(net, xs, hs, i, t)))
  {
    SignalIs(net, st, ins, xs, hs, i, t);
    SignalIs(net, st, ins, xs, hs, i, t - net.blocks[i].dilation);
    BlockEnters(net, st, ins, xs, hs, i, t);
  }

  lemma {:induction false} SkipsAre(net: Net, st: seq<Stage<Pair, Vec>>, ins: seq<Pair>, xs: seq<real>, hs: seq<real>,
                                    n: nat, t: nat)
    requires StagesOf(net, st) && OneChannel(net) && Mono(ins, xs, hs) && 0 < n <= |net.blocks| && t < |ins|
    ensures Is(Sum(Outs(st, ins, n, t)), Skips(net, xs, hs, n, t))
    decreases n
  {
    SkipIs(net, st, ins, xs, hs, n - 1, t);
    OutsSnoc(st, ins, n - 1, t);
    if n == 1 {
      assert Skips(net, xs, hs, 0, t) == 0.0;
    } else {
      SkipsAre(net, st, ins, xs, hs, n - 1, t);
      SumNext(Outs(st, ins, n - 1, t), Out(st, ins, n, t), Skips(net, xs, hs, n - 1, t));
    }
  }

  lemma RampIs(v: Vec)
    requires |v| == 1
    ensures Is(Relu(v), Ramp(v[0]))
  {
  }

  lemma OutputLayerIs(net: Net, outs: seq<Vec>, v: real, u: real)
    requires OneChannel(net) && |outs| > 0 && Is(Sum(outs), v) && u == Project(net.w1, net.b1, Ramp(v))
    ensures Is(OutputLayer(net, outs), Project(net.w2, net.b2, Ramp(u)))
  {
    var total := Sum(outs);
    RampIs(total);
    ProjectedIs(Relu(total), net.w1, net.b1);
    var conv1 := Add(MatMul(Relu(total), net.w1), net.b1);
    RampIs(conv1);
    ProjectedIs(Relu(conv1), net.w2, net.b2);
  }

  /** A network of one channel, of any number of blocks, is this formula of its inputs so far. */
  lemma OneChannelOutput(net: Net, ins: seq<Pair>, xs: seq<real>, hs: seq<real>, s: nat, v: real, u: real)
    requires ValidNet(net) && OneChannel(net) && Mono(ins, xs, hs) && s < |ins|
    requires v == Skips(net, xs, hs, |net.blocks|, s) && u == Project(net.w1, net.b1, Ramp(v))
    ensures Is(Output(net, Stages(net), ins, s), Project(net.w2, net.b2, Ramp(u)))
  {
    var st := StagesAre(net);
    SkipsAre(net, st, ins, xs, hs, |net.blocks|, s);
    OutputLayerIs(net, Outs(st, ins, |net.blocks|, s), v, u);
  }

  // ---------------------------------------------------------------------------------------------
  // What encode looks at
  // ---------------------------------------------------------------------------------------------

  /** encode predicts: what it puts out for a time depends on the samples before that time alone. */
  lemma EncodePredicts(net: Net, inputs: seq<Vec>, inputs': seq<Vec>, cond: seq<Vec>, s: nat)
    requires ValidNet(net) && |inputs| == |inputs'| == |cond| && s < |cond| && inputs[..s] == inputs'[..s]
    ensures Output(net, Stages(net), Zip(Shifted(net, inputs), cond), s) ==
      Output(net, Stages(net), Zip(Shifted(net, inputs'), cond), s)
  {
    var ins, ins' := Zip(Shifted(net, inputs), cond), Zip(Shifted(net, inputs'), cond);
    ShiftedAlike(net, inputs, inputs', s);
    assert ins[..s + 1] == ins'[..s + 1];
    OutputKept(net, Stages(net), ins, s);
    OutputKept(net, Stages(net), ins', s);
  }

  lemma ShiftedAlike(net: Net, inputs: seq<Vec>, inputs': seq<Vec>, s: nat)
    requires |inputs| == |inputs'| && s < |inputs| && inputs[..s] == inputs'[..s]
    ensures Shifted(net, inputs)[..s + 1] == Shifted(net, inputs')[..s + 1]
  {
    forall t: nat | t < s
      ensures inputs[t] == inputs'[t]
    {
      assert inputs[t] == inputs[..s][t] && inputs'[t] == inputs'[..s][t];
    }
  }

  predicate Carries(vs: seq<Vec>, xs: seq<real>)
  {
    |vs| == |xs| && forall t :: 0 <= t < |vs| ==> Is(vs[t], xs[t])
  }

  /** What encode puts out for the last times, for a network of one channel. */
  lemma EncodeFormula(net: Net, inputs: seq<Vec>, cond: seq<Vec>, xs: seq<real>, ys: seq<real>, hs: seq<real>,
                      k: nat, s: nat, v: real, u: real)
    requires ValidNet(net) && OneChannel(net) && 0 < |inputs| == |cond| && Carries(inputs, xs) && Carries(cond, hs)
    requires net.outputWidth <= |inputs| && k < net.outputWidth && s == |inputs| - net.outputWidth + k
    requires ys == [0.0] + xs[..|xs| - 1] && v == Skips(net, ys, hs, |net.blocks|, s)
    requires u == Project(net.w1, net.b1, Ramp(v))
    ensures Is(LastOutputs(net, Stages(net), Zip(Shifted(net, inputs), cond))[k], Project(net.w2, net.b2, Ramp(u)))
  {
    var ins := Zip(Shifted(net, inputs), cond);
    ShiftedCarries(net, inputs, xs);
    ZipCarries(Shifted(net, inputs), cond, ys, hs);
    OneChannelOutput(net, ins, ys, hs, s, v, u);
    LastIs(net, Stages(net), ins, k, s, Project(net.w2, net.b2, Ramp(u)));
  }

  lemma LastIs(net: Net, st: seq<Stage<Pair, Vec>>, ins: seq<Pair>, k: nat, s: nat, y: real)
    requires |st| > 1 && k < net.outputWidth <= |ins| && s == |ins| - net.outputWidth + k
    requires Is(Output(net, st, ins, s), y)
    ensures Is(LastOutputs(net, st, ins)[k], y)
  {
    OutputsAt(net, st, ins, |ins|, s, Output(net, st, ins, s));
  }

  lemma ZipCarries(vs: seq<Vec>, cond: seq<Vec>, xs: seq<real>, hs: seq<real>)
    requires |vs| == |cond| && Carries(vs, xs) && Carries(cond, hs)
    ensures Mono(Zip(vs, cond), xs, hs)
  {
  }

  lemma ShiftedCarries(net: Net, inputs: seq<Vec>, xs: seq<real>)
    requires net.quantizationChannels == 1 && |inputs| > 0 && Carries(inputs, xs)
    ensures Carries(Shifted(net, inputs), [0.0] + xs[..|xs| - 1])
  {
  }
}
