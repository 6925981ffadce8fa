/** A stack of layers, each of which sees its input now and some steps ago, whatever the layers compute. */
module DilatedStack {

  /** A layer: how far back it looks, what it sees before the start, and what it makes of its input now, its
      input dilation steps ago and the stack's own input now. It gives an output and passes a signal on. */
  datatype Stage<!S(!new), !O(!new)> = Stage(dilation: nat, silence: S, cell: (S, S, S) -> (O, S))

  /** What enters stage l at time s; what leaves the last stage counts as entering one more. */
  ghost function Signal<S(!new), O(!new)>(stages: seq<Stage<S, O>>, ins: seq<S>, l: nat, s: int): S
    requires s < |ins| && l <= |stages| && (l == |stages| ==> 0 <= s)
    decreases l, 0
  {
    if s < 0 then stages[l].silence
    else if l == 0 then ins[s]
    else stages[l - 1].cell(Signal(stages, ins, l - 1, s), Past(stages, ins, l - 1, s), ins[s]).1
  }

  /** What stage l sees of the past at time s. */
  ghost function Past<S(!new), O(!new)>(stages: seq<Stage<S, O>>, ins: seq<S>, l: nat, s: nat): S
    requires s < |ins| && l < |stages|
    decreases l, 1
  {
    Signal(stages, ins, l, s - stages[l].dilation)
  }

  /** What stage l outputs at time s. */
  ghost function Out<S(!new), O(!new)>(stages: seq<Stage<S, O>>, ins: seq<S>, l: nat, s: nat): O
    requires s < |ins| && l < |stages|
  {
    stages[l].cell(Signal(stages, ins, l, s), Past(stages, ins, l, s), ins[s]).0
  }

  /** How many earlier inputs reach what enters stage l. */
  function Reach<S(!new), O(!new)>(stages: seq<Stage<S, O>>, l: nat): nat
    requires l <= |stages|
  {
    if l == 0 then 0 else Reach(stages, l - 1) + stages[l - 1].dilation
  }

  // ---------------------------------------------------------------------------------------------
  // What reaches an output
  // ---------------------------------------------------------------------------------------------

  /** The count inputs up to time s of one run are those up to time s' of another. */
  ghost predicate Alike<S(!new)>(ins: seq<S>, s: nat, ins': seq<S>, s': nat, count: nat)
    requires s < |ins| && s' < |ins'|
  {
    && count <= s + 1 && count <= s' + 1
    && ins[s + 1 - count..s + 1] == ins'[s' + 1 - count..s' + 1]
  }

  lemma SubWindow<S>(ins: seq<S>, a: nat, b: nat, i: nat, j: nat)
    requires a <= b <= |ins| && i <= j <= b - a
    ensures ins[a..b][i..j] == ins[a + i..a + j]
  {
    var w, v := ins[a..b][i..j], ins[a + i..a + j];
    forall k | 0 <= k < j - i
      ensures w[k] == v[k]
    {
      assert w[k] == ins[a..b][i + k] == ins[a + (i + k)];
    }
  }

  lemma AlikeBefore<S(!new)>(ins: seq<S>, s: nat, ins': seq<S>, s': nat, count: nat, d: nat)
    requires s < |ins| && s' < |ins'| && count > 0
    requires Alike(ins, s, ins', s', count + d)
    ensures Alike(ins, s, ins', s', count) && Alike(ins, s - d, ins', s' - d, count)
    ensures ins[s] == ins'[s']
  {
    var m := count + d;
    var a, a' := s + 1 - m, s' + 1 - m;
    var w, w' := ins[a..s + 1], ins'[a'..s' + 1];
    SubWindow(ins, a, s + 1, d, m);
    SubWindow(ins', a', s' + 1, d, m);
    SubWindow(ins, a, s + 1, 0, count);
    SubWindow(ins', a', s' + 1, 0, count);
    assert ins[s] == w[m - 1] && ins'[s'] == w'[m - 1];
  }

  /** What leaves a stage depends on what enters it now, what entered it before, and the input. */
  lemma SignalNext<S(!new), O(!new)>(stages: seq<Stage<S, O>>, ins: seq<S>, s: nat, ins': seq<S>, s': nat, l: nat)
    requires s < |ins| && s' < |ins'| && l < |stages| && ins[s] == ins'[s']
    requires Signal(stages, ins, l, s) == Signal(stages, ins', l, s')
    requires Signal(stages, ins, l, s - stages[l].dilation) == Signal(stages, ins', l, s' - stages[l].dilation)
    ensures Signal(stages, ins, l + 1, s) == Signal(stages, ins', l + 1, s')
  {
  }

  /** Alike as far as stage l reaches, they are alike as far as the stage before it reaches, now and at its distance. */
  lemma AlikeStep<S(!new), O(!new)>(stages: seq<Stage<S, O>>, ins: seq<S>, s: nat,
                                     ins': seq<S>, s': nat, l: nat, d: nat)
    requires s < |ins| && s' < |ins'| && l < |stages| && d == stages[l].dilation
    requires Alike(ins, s, ins', s', Reach(stages, l + 1) + 1)
    ensures d <= s && d <= s' && ins[s] == ins'[s']
    ensures Alike(ins, s, ins', s', Reach(stages, l) + 1) && Alike(ins, s - d, ins', s' - d, Reach(stages, l) + 1)
  {
    AlikeBefore(ins, s, ins', s', Reach(stages, l) + 1, d);
  }

  lemma {:induction false} SignalAlike<S(!new), O(!new)>(stages: seq<Stage<S, O>>, ins: seq<S>, s: nat,
                                                          ins': seq<S>, s': nat, l: nat)
    requires s < |ins| && s' < |ins'| && l <= |stages|
    requires Alike(ins, s, ins', s', Reach(stages, l) + 1)
    ensures Signal(stages, ins, l, s) == Signal(stages, ins', l, s')
    decreases l
  {
    if l == 0 {
      AlikeBefore(ins, s, ins', s', 1, 0);
    } else {
      var d := stages[l - 1].dilation;
      AlikeStep(stages, ins, s, ins', s', l - 1, d);
      SignalAlike(stages, ins, s, ins', s', l - 1);
      SignalAlike(stages, ins, s - d, ins', s' - d, l - 1);
      SignalNext(stages, ins, s, ins', s', l - 1);
    }
  }

  /** An output depends on the inputs in its reach alone: not on anything later, not on anything earlier,
      not on the time itself. */
  lemma OutAlike<S(!new), O(!new)>(stages: seq<Stage<S, O>>, ins: seq<S>, s: nat, ins': seq<S>, s': nat, l: nat)
    requires s < |ins| && s' < |ins'| && l < |stages|
    requires Alike(ins, s, ins', s', Reach(stages, l + 1) + 1)
    ensures Out(stages, ins, l, s) == Out(stages, ins', l, s')
  {
    var d := stages[l].dilation;
    AlikeStep(stages, ins, s, ins', s', l, d);
    SignalAlike(stages, ins, s, ins', s', l);
    SignalAlike(stages, ins, s - d, ins', s' - d, l);
  }

  /** What entered a stage stays as it was when more inputs come. */
  lemma {:induction false} SignalKept<S(!new), O(!new)>(stages: seq<Stage<S, O>>, ins: seq<S>, x: S, l: nat, s: int)
    requires s < |ins| && l <= |stages| && (l == |stages| ==> 0 <= s)
    ensures Signal(stages, ins + [x], l, s) == Signal(stages, ins, l, s)
    decreases l
  {
    if s >= 0 && l > 0 {
      SignalKept(stages, ins, x, l - 1, s);
      SignalKept(stages, ins, x, l - 1, s - stages[l - 1].dilation);
    }
  }

  lemma {:induction false} SignalCut<S(!new), O(!new)>(stages: seq<Stage<S, O>>, ins: seq<S>, l: nat, m: nat, s: int)
    requires s < m <= |ins| && l <= |stages| && (l == |stages| ==> 0 <= s)
    ensures Signal(stages, ins[..m], l, s) == Signal(stages, ins, l, s)
    decreases l
  {
    if s >= 0 && l > 0 {
      SignalCut(stages, ins, l - 1, m, s);
      SignalCut(stages, ins, l - 1, m, s - stages[l - 1].dilation);
    }
  }

  /** An output does not wait for later inputs. */
  lemma OutKept<S(!new), O(!new)>(stages: seq<Stage<S, O>>, ins: seq<S>, l: nat, s: nat)
    requires s < |ins| && l < |stages|
    ensures Out(stages, ins[..s + 1], l, s) == Out(stages, ins, l, s)
  {
    SignalCut(stages, ins, l, s + 1, s);
    SignalCut(stages, ins, l, s + 1, s - stages[l].dilation);
  }

  // ---------------------------------------------------------------------------------------------
  // One queue a stage
  // ---------------------------------------------------------------------------------------------

  /** A queue as long as the stage's dilation, holding what entered the stage last, oldest first. */
  ghost predicate QueueHolds<S(!new), O(!new)>(stages: seq<Stage<S, O>>, ins: seq<S>, l: nat, q: seq<S>)
    requires l < |stages|
  {
    && |q| == stages[l].dilation
    && forall k :: 0 <= k < |q| ==> q[k] == Signal(stages, ins, l, |ins| - |q| + k)
  }

  /** The head of the queue is what the stage sees of the past, and pushing what enters now keeps the queue. */
  lemma QueueAdvances<S(!new), O(!new)>(stages: seq<Stage<S, O>>, ins: seq<S>, x: S, l: nat, q: seq<S>, layer: S)
    requires l < |stages| && |q| > 0 && QueueHolds(stages, ins, l, q)
    requires layer == Signal(stages, ins + [x], l, |ins|)
    ensures q[0] == Past(stages, ins + [x], l, |ins|)
    ensures QueueHolds(stages, ins + [x], l, q[1..] + [layer])
  {
    var d, q' := |q|, q[1..] + [layer];
    SignalKept(stages, ins, x, l, |ins| - d);
    forall k | 0 <= k < d
      ensures q'[k] == Signal(stages, ins + [x], l, |ins| + 1 - d + k)
    {
      if k + 1 < d {
        assert q'[k] == q[k + 1];
        SignalKept(stages, ins, x, l, |ins| - d + (k + 1));
      }
    }
  }

  // ---------------------------------------------------------------------------------------------
  // A whole signal at a time
  // ---------------------------------------------------------------------------------------------

  /** The signal is what enters stage l from time Reach(l) on. */
  ghost predicate Follows<S(!new), O(!new)>(stages: seq<Stage<S, O>>, ins: seq<S>, l: nat, signal: seq<S>)
    requires l <= |stages|
  {
    && |signal| + Reach(stages, l) == |ins|
    && forall t :: 0 <= t < |signal| ==> signal[t] == Signal(stages, ins, l, t + Reach(stages, l))
  }

  /** A signal made by the stage out of pairs dilation apart is the next stage's. */
  lemma FollowsNext<S(!new), O(!new)>(stages: seq<Stage<S, O>>, ins: seq<S>, l: nat, signal: seq<S>, t: nat)
    requires l < |stages| && Follows(stages, ins, l, signal) && t + stages[l].dilation < |signal|
    ensures t + Reach(stages, l + 1) < |ins|
    ensures stages[l].cell(signal[t + stages[l].dilation], signal[t], ins[t + Reach(stages, l + 1)]) ==
      (Out(stages, ins, l, t + Reach(stages, l + 1)), Signal(stages, ins, l + 1, t + Reach(stages, l + 1)))
  {
    var d := stages[l].dilation;
    assert signal[t + d] == Signal(stages, ins, l, t + d + Reach(stages, l));
    assert signal[t] == Signal(stages, ins, l, t + Reach(stages, l));
  }

  /** Entry t of the next signal is what stage l makes of the pair at t; outputs are kept for the last times alone. */
  ghost predicate MadeAt<S(!new), O(!new)>(stages: seq<Stage<S, O>>, ins: seq<S>, l: nat,
                                            signal: seq<S>, next: seq<S>, outs: seq<O>, t: nat)
    requires l < |stages| && |signal| == |next| + stages[l].dilation && |outs| <= |next| && t < |next|
    requires |next| <= |ins|
  {
    var r := stages[l].cell(signal[t + stages[l].dilation], signal[t], ins[|ins| - |next| + t]);
    && next[t] == r.1
    && (t + |outs| >= |next| ==> outs[t + |outs| - |next|] == r.0)
  }

  lemma FollowsOn<S(!new), O(!new)>(stages: seq<Stage<S, O>>, ins: seq<S>, l: nat,
                                     signal: seq<S>, next: seq<S>, outs: seq<O>)
    requires l < |stages| && Follows(stages, ins, l, signal)
    requires |signal| == |next| + stages[l].dilation && |outs| <= |next|
    requires forall t: nat :: t < |next| ==> MadeAt(stages, ins, l, signal, next, outs, t)
    ensures Follows(stages, ins, l + 1, next)
    ensures forall u: nat :: u < |outs| ==> outs[u] == Out(stages, ins, l, |ins| - |outs| + u)
  {
    forall t: nat | t < |next|
      ensures next[t] == Signal(stages, ins, l + 1, t + Reach(stages, l + 1))
    {
      FollowsNext(stages, ins, l, signal, t);
      assert MadeAt(stages, ins, l, signal, next, outs, t);
    }
    forall u: nat | u < |outs|
      ensures outs[u] == Out(stages, ins, l, |ins| - |outs| + u)
    {
      FollowsNext(stages, ins, l, signal, u + |next| - |outs|);
      assert MadeAt(stages, ins, l, signal, next, outs, u + |next| - |outs|);
    }
  }
}
