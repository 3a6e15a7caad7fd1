/** The FIR filter: a behavioural thread that computes each result in one clock cycle, and a four-state
    controller with a datapath that takes four. */
module Fir {
  import opened IntMath

  /** The coefficients. */
  function Coef(k: nat): int {
    match k
    case 0 => -6
    case 1 => -4
    case 2 => 13
    case 3 => 16
    case 4 => -18
    case 5 => -41
    case 6 => 23
    case 7 => 154
    case 8 => 222
    case 9 => 154
    case 10 => 23
    case 11 => -41
    case 12 => -18
    case 13 => 16
    case 14 => 13
    case 15 => -4
    case _ => 0
  }

  /** A cleared shift register. */
  const ZEROS: seq<int> := [0, 0, 0, 0, 0, 0, 0, 0, 0, 0, 0, 0, 0, 0, 0, 0]

  // ------------------------------------------------------------------ fixed widths

  /** Assignment to a signed integer of 8, 17 or 19 bits. */
  function Int8(x: int): int { (x + 0x80) % 0x100 - 0x80 }

  function Int17(x: int): int { (x + 0x1_0000) % 0x2_0000 - 0x1_0000 }

  function Int19(x: int): int { (x + 0x4_0000) % 0x8_0000 - 0x4_0000 }

  predicate IsInt8(x: int) {
    -128 <= x < 128
  }

  ghost predicate AllInt8(w: seq<int>) {
    forall i :: 0 <= i < |w| ==> IsInt8(w[i])
  }

  lemma Int17Fits(x: int)
    requires -0x1_0000 <= x < 0x1_0000
    ensures Int17(x) == x
  {
  }

  lemma Int19Fits(x: int)
    requires -0x4_0000 <= x < 0x4_0000
    ensures Int19(x) == x
  {
  }

  lemma Int8Fits(x: int)
    ensures IsInt8(Int8(x)) && (IsInt8(x) ==> Int8(x) == x)
  {
  }

  // ------------------------------------------------------------------ the reference

  /** The i-th accepted sample, zero before the first. */
  function Sample(xs: seq<int>, i: int): int {
    if 0 <= i < |xs| then xs[i] else 0
  }

  /** The first k terms of the convolution at position n. */
  function Convolution(xs: seq<int>, n: int, k: nat): int
    requires k <= 16
  {
    if k == 0 then 0 else Convolution(xs, n, k - 1) + Coef(k - 1) * Sample(xs, n - (k - 1))
  }

  // ------------------------------------------------------------------ sums over a window

  /** The terms from k on; w[0] is the newest sample. */
  function Taps(w: seq<int>, k: nat): int
    requires |w| == 16 && k <= 16
    decreases 16 - k
  {
    if k == 16 then 0 else w[k] * Coef(k) + Taps(w, k + 1)
  }

  function Weight(k: nat): nat
    requires k <= 16
    decreases 16 - k
  {
    if k == 16 then 0 else Abs(Coef(k)) + Weight(k + 1)
  }

  lemma WeightTotal()
    ensures Weight(0) == 766
  {
    assert Weight(14) == 17;
    assert Weight(12) == 51;
    assert Weight(10) == 115;
    assert Weight(8) == 491;
    assert Weight(6) == 668;
    assert Weight(4) == 727;
    assert Weight(2) == 756;
  }

  lemma {:induction false} TapsBound(w: seq<int>, k: nat)
    requires |w| == 16 && AllInt8(w) && k <= 16
    ensures -128 * Weight(k) <= Taps(w, k) <= 128 * Weight(k)
    ensures Weight(k) <= Weight(0)
    decreases 16 - k
  {
    hide Coef;
    WeightFalls(k);
    if k < 16 {
      TapsBound(w, k + 1);
      Product(w[k], Coef(k));
    }
  }

  lemma WeightStep(k: nat)
    requires k < 16
    ensures Weight(k) == Abs(Coef(k)) + Weight(k + 1)
  {
  }

  lemma {:induction false} WeightFalls(k: nat)
    requires k <= 16
    ensures Weight(k) <= Weight(0)
  {
    hide Coef, Abs, Weight;
    if k > 0 {
      WeightStep(k - 1);
      WeightFalls(k - 1);
    }
  }

  lemma Product(x: int, c: int)
    requires IsInt8(x)
    ensures -128 * Abs(c) <= x * c <= 128 * Abs(c)
  {
  }

  /** The accumulator after the newest term and the terms from k on. */
  function Partial(w: seq<int>, k: nat): int
    requires |w| == 16 && 1 <= k <= 16
  {
    w[0] * Coef(0) + Taps(w, k)
  }

  /** No intermediate of the accumulator or of a product overflows. */
  lemma NoOverflow(w: seq<int>, k: nat)
    requires |w| == 16 && AllInt8(w) && 1 <= k <= 16
    ensures -98048 <= Partial(w, k) <= 98048
    ensures Int19(Partial(w, k)) == Partial(w, k)
    ensures k < 16 ==> Int17(w[k] * Coef(k)) == w[k] * Coef(k)
  {
    hide Coef, Weight, Taps, Int17, Int19;
    TapsBound(w, k);
    WeightTotal();
    WeightFromOne(k);
    Product(w[0], Coef(0));
    Int19Fits(Partial(w, k));
    if k < 16 {
      Product(w[k], Coef(k));
      CoefBound(k);
      Int17Fits(w[k] * Coef(k));
    }
  }

  lemma CoefBound(k: nat)
    ensures Abs(Coef(k)) <= 222 && Abs(Coef(0)) == 6
  {
  }

  lemma {:induction false} WeightFromOne(k: nat)
    requires 1 <= k <= 16
    ensures Weight(k) + Abs(Coef(0)) <= Weight(0)
  {
    hide Coef, Abs, Weight;
    WeightStep(k - 1);
    if k == 1 {
    } else {
      WeightFromOne(k - 1);
    }
  }

  /** What the accumulator holds after one more addition. */
  function AddTap(acc: int, v: int, j: nat): int
    requires j < 16
  {
    Int19(acc + v * Coef(j))
  }

  /** What it holds after n more additions, for the coefficients from j downwards. */
  function AddTaps(acc: int, shift: seq<int>, j: nat, n: nat): int
    requires |shift| == 16 && n <= j < 16
    decreases n
  {
    if n == 0 then acc else AddTaps(AddTap(acc, shift[j - 1], j), shift, j - 1, n - 1)
  }

  lemma AddTapExact(w: seq<int>, j: nat)
    requires |w| == 16 && AllInt8(w) && 1 <= j < 16
    ensures AddTap(Partial(w, j + 1), w[j], j) == Partial(w, j)
  {
    hide Coef, Int19, Int17;
    NoOverflow(w, j);
  }

  lemma {:induction false} AddTapsExact(w: seq<int>, shift: seq<int>, j: nat, n: nat)
    requires |w| == 16 && AllInt8(w) && |shift| == 16 && n <= j < 16
    requires forall k :: 1 <= k < 16 ==> w[k] == shift[k - 1]
    ensures AddTaps(Partial(w, j + 1), shift, j, n) == Partial(w, j + 1 - n)
    decreases n
  {
    hide AddTap, Partial;
    if n > 0 {
      AddTapExact(w, j);
      AddTapsExact(w, shift, j - 1, n - 1);
    }
  }

  /** The window of a new sample in front of the shift register. */
  function Window(x: int, shift: seq<int>): (w: seq<int>)
    requires |shift| == 16
    ensures |w| == 16
  {
    [x] + shift[..15]
  }

  // ------------------------------------------------------------------ the behavioural thread

  /** The thread waits once after reset, for valid data, or after an output. accepted is history. */
  datatype BehaviourPc = Boot | Waiting | Pause

  datatype Behaviour = Behaviour(pc: BehaviourPc, shift: seq<int>, out: seq<int>, accepted: seq<int>)

  function BehaviourEdge(b: Behaviour, valid: bool, sample: int): Behaviour
    requires |b.shift| == 16
  {
    if b.pc != Waiting then b.(pc := Waiting)
    else if !valid then b
    else
      var w := Window(Int8(sample), b.shift);
      Behaviour(Pause, w, b.out + [Partial(w, 1)], b.accepted + [Int8(sample)])
  }

  // ------------------------------------------------------------------ controller and datapath

  datatype FsmState = ResetS | First | Second | Third | Output

  datatype Rtl = Rtl(fsm: FsmState, stateOut: nat, acc: int, shift: seq<int>, sample: int, valid: bool,
                     out: seq<int>)

  function FsmNext(state: FsmState, valid: bool): FsmState {
    match state
    case ResetS => First
    case First => if valid then Second else First
    case Second => Third
    case Third => Output
    case Output => First
  }

  function FsmOut(state: FsmState): nat {
    match state
    case ResetS => 0
    case First => 1
    case Second => 2
    case Third => 3
    case Output => 4
  }

  /** One run of the datapath's process outside reset. */
  function Data(r: Rtl): Rtl
    requires |r.shift| == 16
  {
    var s := r.shift;
    if r.stateOut == 1 then r.(acc := AddTaps(Int19(Int8(r.sample) * Coef(0)), s, 15, 4))
    else if r.stateOut == 2 then r.(acc := AddTaps(r.acc, s, 11, 4))
    else if r.stateOut == 3 then r.(acc := AddTaps(r.acc, s, 7, 4))
    else if r.stateOut == 4 then
      var a := AddTaps(r.acc, s, 3, 3);
      r.(acc := a, shift := Window(Int8(r.sample), s), out := r.out + [a])
    else r
  }

  /** The same process while reset is high: it clears the registers first. */
  function ResetData(r: Rtl): Rtl
    requires |r.shift| == 16
  {
    Data(r.(acc := 0, shift := ZEROS))
  }

  /** The process is sensitive to the state and to the sample; both change after the clock edge. */
  function RtlEdge(r: Rtl, valid: bool, sample: int): Rtl
    requires |r.shift| == 16
  {
    var n := r.(fsm := FsmNext(r.fsm, r.valid), stateOut := FsmOut(r.fsm), valid := valid, sample := sample);
    if n.stateOut != r.stateOut || sample != r.sample then Data(n) else n
  }

  /** The sample changes between two edges. */
  function RtlChange(r: Rtl, sample: int): Rtl
    requires |r.shift| == 16
  {
    if sample != r.sample then Data(r.(sample := sample)) else r
  }

  // ------------------------------------------------------------------ both together

  /** A clock edge after which the inputs have these values, or a change of the sample in between. */
  datatype Step = Edge(valid: bool, sample: int) | Change(sample: int)

  datatype Pair = Pair(rtl: Rtl, behaviour: Behaviour)

  function Apply(p: Pair, s: Step): Pair
    requires |p.rtl.shift| == 16 && |p.behaviour.shift| == 16
  {
    match s
    case Edge(valid, sample) =>
      Pair(RtlEdge(p.rtl, valid, sample), BehaviourEdge(p.behaviour, p.rtl.valid, p.rtl.sample))
    case Change(sample) => Pair(RtlChange(p.rtl, sample), p.behaviour)
  }

  /** A sample has been taken and its result is not out yet, or has just come out. */
  predicate Busy(r: Rtl) {
    r.fsm == Second || r.fsm == Third || r.fsm == Output || r.stateOut == 4
  }

  /** The sender holds a sample while the filter is busy with it, and announces the next one no earlier than
      the controller looks for it. */
  predicate Allowed(p: Pair, s: Step)
    requires |p.rtl.shift| == 16
  {
    match s
    case Edge(valid, sample) =>
      var n := RtlEdge(p.rtl, valid, sample);
      (Busy(n) ==> sample == p.rtl.sample) && (valid ==> n.fsm != Third && n.fsm != Output)
    case Change(_) => !Busy(p.rtl)
  }

  ghost predicate Run(p: Pair, steps: seq<Step>, q: Pair)
    decreases |steps|
  {
    if steps == [] then p == q
    else |p.rtl.shift| == 16 && |p.behaviour.shift| == 16 && Allowed(p, steps[0])
         && Run(Apply(p, steps[0]), steps[1..], q)
  }

  function Start(valid: bool, sample: int, acc: int): Pair {
    Pair(Rtl(ResetS, 0, acc, ZEROS, sample, valid, []), Behaviour(Boot, ZEROS, [], []))
  }

  // ------------------------------------------------------------------ refinement

  /** The datapath, step by step, for a sample that stays. */
  lemma DataExact(r: Rtl)
    requires |r.shift| == 16 && AllInt8(r.shift)
    ensures var d := Data(r); d.fsm == r.fsm && d.stateOut == r.stateOut && d.sample == r.sample && d.valid == r.valid
    ensures var w := Window(Int8(r.sample), r.shift);
            && AllInt8(w)
            && (r.stateOut == 1 ==> Data(r) == r.(acc := Partial(w, 12)))
            && (r.stateOut == 2 && r.acc == Partial(w, 12) ==> Data(r) == r.(acc := Partial(w, 8)))
            && (r.stateOut == 3 && r.acc == Partial(w, 8) ==> Data(r) == r.(acc := Partial(w, 4)))
            && (r.stateOut == 4 && r.acc == Partial(w, 4) ==>
                  Data(r) == r.(acc := Partial(w, 1), shift := w, out := r.out + [Partial(w, 1)]))
            && (r.stateOut != 1 && r.stateOut != 2 && r.stateOut != 3 && r.stateOut != 4 ==> Data(r) == r)
  {
    hide AddTaps, Partial, Int19;
    var w := Window(Int8(r.sample), r.shift);
    Int8Fits(r.sample);
    WindowInt8(Int8(r.sample), r.shift);
    FirstTerm(w);
    AddTapsExact(w, r.shift, 15, 4);
    AddTapsExact(w, r.shift, 11, 4);
    AddTapsExact(w, r.shift, 7, 4);
    AddTapsExact(w, r.shift, 3, 3);
  }

  lemma FirstTerm(w: seq<int>)
    requires |w| == 16 && AllInt8(w)
    ensures Int19(w[0] * Coef(0)) == Partial(w, 16)
  {
    NoOverflow(w, 16);
  }

  lemma WindowInt8(x: int, shift: seq<int>)
    requires |shift| == 16 && AllInt8(shift) && IsInt8(x)
    ensures AllInt8(Window(x, shift))
  {
  }

  /** Where controller, datapath and behavioural thread stand relative to each other. */
  ghost predicate InStep(r: Rtl, b: Behaviour) {
    && |r.shift| == 16 && |b.shift| == 16 && AllInt8(r.shift) && AllInt8(b.shift)
    && var w := Window(Int8(r.sample), r.shift);
    match r.fsm
    case ResetS => b.pc == Boot && r.stateOut <= 4 && r.shift == b.shift && r.out == b.out
    case First =>
      && b.pc == Waiting && r.shift == b.shift && r.out == b.out
      && (r.stateOut == 0 || r.stateOut == 1 || r.stateOut == 4)
      && (r.stateOut == 1 ==> r.acc == Partial(w, 12))
    case Second =>
      b.pc == Pause && r.stateOut == 1 && r.acc == Partial(w, 12) && b.shift == w && b.out == r.out + [Partial(w, 1)]
    case Third =>
      && b.pc == Waiting && !r.valid && r.stateOut == 2 && r.acc == Partial(w, 8) && b.shift == w
      && b.out == r.out + [Partial(w, 1)]
    case Output =>
      && b.pc == Waiting && !r.valid && r.stateOut == 3 && r.acc == Partial(w, 4) && b.shift == w
      && b.out == r.out + [Partial(w, 1)]
  }

  lemma StepKeeps(p: Pair, s: Step)
    requires InStep(p.rtl, p.behaviour) && Allowed(p, s)
    ensures InStep(Apply(p, s).rtl, Apply(p, s).behaviour)
  {
    hide Data, Partial, Int8, AllInt8;
    var r := p.rtl;
    WindowStays(r);
    match s
    case Edge(valid, sample) =>
      var n := r.(fsm := FsmNext(r.fsm, r.valid), stateOut := FsmOut(r.fsm), valid := valid, sample := sample);
      DataExact(n);
    case Change(sample) =>
      DataExact(r.(sample := sample));
      DataOnlyAdds(r.(sample := sample));
  }

  /** Outside its last state the datapath touches the accumulator only. */
  lemma DataOnlyAdds(r: Rtl)
    requires |r.shift| == 16 && r.stateOut != 4
    ensures Data(r) == r.(acc := Data(r).acc)
  {
    hide AddTaps, Int8, Int19, Coef;
  }

  lemma WindowStays(r: Rtl)
    requires |r.shift| == 16 && AllInt8(r.shift)
    ensures AllInt8(Window(Int8(r.sample), r.shift))
  {
    Int8Fits(r.sample);
  }

  // ------------------------------------------------------------------ the convolution

  /** The shift register holds the last sixteen accepted samples, the results are the convolution. */
  ghost predicate Convolves(b: Behaviour) {
    && |b.shift| == 16 && |b.out| == |b.accepted|
    && (forall j :: 0 <= j < 16 ==> b.shift[j] == Sample(b.accepted, |b.accepted| - 1 - j))
    && (forall i :: 0 <= i < |b.out| ==> b.out[i] == Convolution(b.accepted, i, 16))
  }

  /** A window of samples, summed from either end. */
  lemma {:induction false} TapsConvolve(w: seq<int>, xs: seq<int>, n: int, k: nat)
    requires |w| == 16 && k <= 16
    requires forall j :: 0 <= j < 16 ==> w[j] == Sample(xs, n - j)
    ensures Convolution(xs, n, k) + Taps(w, k) == Taps(w, 0)
  {
    hide Coef, Sample, Taps, Convolution;
    if k == 0 {
      NoTerms(xs, n);
    } else {
      TapsConvolve(w, xs, n, k - 1);
      NextTerm(w, xs, n, k - 1);
    }
  }

  lemma NoTerms(xs: seq<int>, n: int)
    ensures Convolution(xs, n, 0) == 0
  {
  }

  lemma NextTerm(w: seq<int>, xs: seq<int>, n: int, k: nat)
    requires |w| == 16 && k < 16 && w[k] == Sample(xs, n - k)
    ensures Convolution(xs, n, k + 1) == Convolution(xs, n, k) + w[k] * Coef(k)
    ensures Taps(w, k) == w[k] * Coef(k) + Taps(w, k + 1)
  {
    hide Coef, Sample;
  }

  /** Later samples do not matter. */
  lemma {:induction false} ConvolutionPrefix(xs: seq<int>, x: int, n: int, k: nat)
    requires n < |xs| && k <= 16
    ensures Convolution(xs + [x], n, k) == Convolution(xs, n, k)
  {
    hide Coef;
    if k > 0 {
      ConvolutionPrefix(xs, x, n, k - 1);
    }
  }

  lemma BehaviourConvolves(b: Behaviour, valid: bool, sample: int)
    requires Convolves(b)
    ensures Convolves(BehaviourEdge(b, valid, sample))
  {
    hide Int8, Convolution, Taps, Coef;
    if b.pc == Waiting && valid {
      var x, n := Int8(sample), |b.accepted|;
      var w := Window(x, b.shift);
      var xs := b.accepted + [x];
      forall j | 0 <= j < 16 ensures w[j] == Sample(xs, n - j) {
        assert j > 0 ==> w[j] == b.shift[j - 1];
      }
      TapsConvolve(w, xs, n, 16);
      SplitFirst(w);
      forall i | 0 <= i < n ensures Convolution(xs, i, 16) == Convolution(b.accepted, i, 16) {
        ConvolutionPrefix(b.accepted, x, i, 16);
      }
    }
  }

  lemma SplitFirst(w: seq<int>)
    requires |w| == 16
    ensures Partial(w, 1) == Taps(w, 0) && Taps(w, 16) == 0
  {
    hide Coef;
  }

  // ------------------------------------------------------------------ main results

  ghost predicate Good(p: Pair) {
    InStep(p.rtl, p.behaviour) && Convolves(p.behaviour)
  }

  lemma {:induction false} RunKeeps(p: Pair, steps: seq<Step>, q: Pair)
    requires Good(p) && Run(p, steps, q)
    ensures Good(q)
    decreases |steps|
  {
    hide InStep, Convolves, Allowed, RtlEdge, RtlChange, BehaviourEdge;
    if steps != [] {
      StepKeeps(p, steps[0]);
      BehaviourConvolves(p.behaviour, p.rtl.valid, p.rtl.sample);
      RunKeeps(Apply(p, steps[0]), steps[1..], q);
    }
  }

  lemma StartGood(valid: bool, sample: int, acc: int)
    ensures Good(Start(valid, sample, acc))
  {
    hide Int8, Convolution;
  }

  /** The refinement: for any stream of samples held while the filter is busy, controller and datapath have
      given the results of the behavioural filter, except for the one they are still working on. */
  lemma Refines(steps: seq<Step>, valid: bool, sample: int, acc: int, q: Pair)
    requires Run(Start(valid, sample, acc), steps, q)
    ensures Agree(q)
  {
    hide Run, Start, Agree;
    StartGood(valid, sample, acc);
    RefinesFrom(Start(valid, sample, acc), steps, q);
  }

  ghost predicate Agree(q: Pair) {
    if q.rtl.fsm == First || q.rtl.fsm == ResetS then q.rtl.out == q.behaviour.out
    else q.behaviour.out != [] && q.rtl.out == q.behaviour.out[..|q.behaviour.out| - 1]
  }

  lemma RefinesFrom(p: Pair, steps: seq<Step>, q: Pair)
    requires Good(p) && Run(p, steps, q)
    ensures Agree(q)
  {
    hide Run, Convolves, Partial, Int8;
    RunKeeps(p, steps, q);
  }

  /** The samples that a run offers with valid set at a clock edge, when the inputs begin like this; ready says
      whether the filter looks at this edge: not at the first one, nor at the one behind a sample taken. */
  function Offered(ready: bool, valid: bool, sample: int, steps: seq<Step>): seq<int>
    decreases |steps|
  {
    if steps == [] then []
    else
      match steps[0]
      case Change(x) => Offered(ready, valid, x, steps[1..])
      case Edge(v, x) =>
        if ready && valid then [Int8(sample)] + Offered(false, v, x, steps[1..])
        else Offered(true, v, x, steps[1..])
  }

  lemma InputsStep(p: Pair, s: Step)
    requires |p.rtl.shift| == 16 && |p.behaviour.shift| == 16
    ensures var q := Apply(p, s);
            && |q.rtl.shift| == 16 && |q.behaviour.shift| == 16
            && q.rtl.sample == s.sample && q.rtl.valid == (if s.Edge? then s.valid else p.rtl.valid)
            && (q.behaviour.pc == Waiting <==> if s.Change? then p.behaviour.pc == Waiting
                                               else !(p.behaviour.pc == Waiting && p.rtl.valid))
            && q.behaviour.accepted == p.behaviour.accepted
                 + if s.Edge? && p.behaviour.pc == Waiting && p.rtl.valid then [Int8(p.rtl.sample)] else []
  {
    hide AddTaps, Partial, Int8, Int19, Coef;
  }

  lemma {:induction false} AcceptedAreOffered(p: Pair, steps: seq<Step>, q: Pair)
    requires Run(p, steps, q) && |p.rtl.shift| == 16 && |p.behaviour.shift| == 16
    ensures q.behaviour.accepted
            == p.behaviour.accepted + Offered(p.behaviour.pc == Waiting, p.rtl.valid, p.rtl.sample, steps)
    decreases |steps|
  {
    hide Apply, Allowed, Int8;
    if steps == [] {
      assert p.behaviour.accepted + [] == p.behaviour.accepted;
    } else {
      var s := steps[0];
      InputsStep(p, s);
      AcceptedAreOffered(Apply(p, s), steps[1..], q);
      var taken := if s.Edge? && p.behaviour.pc == Waiting && p.rtl.valid then [Int8(p.rtl.sample)] else [];
      var later := Offered(Apply(p, s).behaviour.pc == Waiting, Apply(p, s).rtl.valid, Apply(p, s).rtl.sample, steps[1..]);
      assert (p.behaviour.accepted + taken) + later == p.behaviour.accepted + (taken + later);
      assert [] + later == later;
    }
  }

  /** Both give the sixteen-tap convolution of the samples offered, in order. */
  lemma ResultsAreConvolution(steps: seq<Step>, valid: bool, sample: int, acc: int, q: Pair, i: nat)
    requires Run(Start(valid, sample, acc), steps, q)
    ensures var xs := Offered(false, valid, sample, steps);
            && |q.behaviour.out| == |xs|
            && (i < |q.behaviour.out| ==> q.behaviour.out[i] == Convolution(xs, i, 16))
            && |q.rtl.out| == (if q.rtl.fsm == First || q.rtl.fsm == ResetS then |xs| else |xs| - 1)
            && (i < |q.rtl.out| ==> i < |xs| && q.rtl.out[i] == Convolution(xs, i, 16))
  {
    hide Run, Convolution, InStep, Offered;
    StartGood(valid, sample, acc);
    RunKeeps(Start(valid, sample, acc), steps, q);
    Refines(steps, valid, sample, acc, q);
    AcceptedAreOffered(Start(valid, sample, acc), steps, q);
    assert [] + Offered(false, valid, sample, steps) == Offered(false, valid, sample, steps);
  }

  // ------------------------------------------------------------------ reset in the middle of a run

  /** The process runs when reset rises and whenever the sample changes while it is high. */
  function InReset(r: Rtl, samples: seq<int>): (d: Rtl)
    requires |r.shift| == 16
    ensures |d.shift| == 16 && d.stateOut == r.stateOut
    decreases |samples|
  {
    if samples == [] then ResetData(r)
    else
      var d := InReset(r, samples[..|samples| - 1]);
      var x := samples[|samples| - 1];
      if x != d.sample then ResetData(d.(sample := x)) else d
  }

  /** A pulse of reset: clock edges send the controller back, which leaves its output as it is; when reset
      falls, with these inputs, the process runs once more. Results are counted from there. */
  function Pulse(r: Rtl, samples: seq<int>, sample: int, valid: bool): Rtl
    requires |r.shift| == 16
  {
    Data(InReset(r, samples).(fsm := ResetS, sample := sample, valid := valid)).(out := [])
  }

  lemma ResetDataShift(r: Rtl)
    requires |r.shift| == 16
    ensures ResetData(r).shift == if r.stateOut == 4 then Window(Int8(r.sample), ZEROS) else ZEROS
    ensures ResetData(r).sample == r.sample
  {
    hide AddTaps, Int8;
  }

  lemma {:induction false} InResetShift(r: Rtl, samples: seq<int>)
    requires |r.shift| == 16
    ensures var d := InReset(r, samples);
            && d.shift == (if r.stateOut == 4 then Window(Int8(d.sample), ZEROS) else ZEROS)
            && d.sample == if samples == [] then r.sample else samples[|samples| - 1]
    decreases |samples|
  {
    hide ResetData, Int8;
    if samples == [] {
      ResetDataShift(r);
    } else {
      InResetShift(r, samples[..|samples| - 1]);
      var d := InReset(r, samples[..|samples| - 1]);
      ResetDataShift(d.(sample := samples[|samples| - 1]));
    }
  }

  /** Two filters that start afresh are in step if and only if the shift register is clear. */
  lemma FreshPair(r: Rtl)
    requires |r.shift| == 16 && r.fsm == ResetS && r.stateOut <= 4 && r.out == []
    ensures Good(Pair(r, Behaviour(Boot, ZEROS, [], []))) <==> r.shift == ZEROS
  {
    hide Int8, Convolution, Window;
  }

  /** After a pulse of reset both filters start afresh, and refine each other again, if and only if the
      pulse did not come in the output state, or with nothing but zero to shift in: the clearing is followed
      by a shift, and when reset falls by another. */
  lemma ResetRestarts(r: Rtl, samples: seq<int>, sample: int, valid: bool)
    requires |r.shift| == 16 && r.stateOut <= 4
    ensures Good(Pair(Pulse(r, samples, sample, valid), Behaviour(Boot, ZEROS, [], []))) <==>
              r.stateOut != 4 || (Int8(InReset(r, samples).sample) == 0 && Int8(sample) == 0)
  {
    hide Int8, Good, AddTaps, InReset;
    InResetShift(r, samples);
    var d := InReset(r, samples);
    var n := d.(fsm := ResetS, sample := sample, valid := valid);
    if r.stateOut != 4 {
      DataOnlyAdds(n);
    } else {
      TwoShiftedIn(Int8(sample), Int8(d.sample));
    }
    FreshPair(Pulse(r, samples, sample, valid));
  }

  lemma TwoShiftedIn(x: int, y: int)
    ensures Window(x, Window(y, ZEROS)) == ZEROS <==> x == 0 && y == 0
  {
    var w := Window(x, Window(y, ZEROS));
    assert w[0] == x && w[1] == y;
    if x == 0 && y == 0 {
      assert w == ZEROS;
    }
  }

  /** From then on the refinement holds as from the start. */
  lemma RefinesAfterReset(r: Rtl, samples: seq<int>, sample: int, valid: bool, steps: seq<Step>, q: Pair)
    requires |r.shift| == 16 && r.stateOut < 4
    requires Run(Pair(Pulse(r, samples, sample, valid), Behaviour(Boot, ZEROS, [], [])), steps, q)
    ensures Agree(q)
  {
    hide Run, Good, Agree;
    ResetRestarts(r, samples, sample, valid);
    RefinesFrom(Pair(Pulse(r, samples, sample, valid), Behaviour(Boot, ZEROS, [], [])), steps, q);
  }

  /** The output state is reached with any sample that was announced. */
  lemma OutputIsReached(x: int, acc: int) returns (steps: seq<Step>, q: Pair)
    ensures Run(Start(true, x, acc), steps, q) && q.rtl.stateOut == 4 && q.rtl.sample == x
  {
    hide Data, Partial, Int8, AllInt8;
    q := Start(true, x, acc);
    steps := [];
    var plan := [true, false, false, false, false];
    var i := 0;
    ZerosFit();
    while i < 5
      invariant 0 <= i <= 5 && Run(Start(true, x, acc), steps, q)
      invariant |q.rtl.shift| == 16 && |q.behaviour.shift| == 16 && AllInt8(q.rtl.shift) && q.rtl.sample == x
      invariant q.rtl.stateOut == (if i == 0 then 0 else i - 1)
      invariant q.rtl.valid == (i <= 1)
      invariant q.rtl.fsm == if i == 0 then ResetS else if i == 1 then First else if i == 2 then Second
                             else if i == 3 then Third else if i == 4 then Output else First
    {
      var s := Edge(plan[i], x);
      DataExact(q.rtl.(fsm := FsmNext(q.rtl.fsm, q.rtl.valid), stateOut := FsmOut(q.rtl.fsm), valid := plan[i]));
      DataShape(q.rtl.(fsm := FsmNext(q.rtl.fsm, q.rtl.valid), stateOut := FsmOut(q.rtl.fsm), valid := plan[i]));
      RunAppend(Start(true, x, acc), steps, q, s);
      steps, q := steps + [s], Apply(q, s);
      i := i + 1;
    }
  }

  lemma ZerosFit()
    ensures AllInt8(ZEROS)
  {
  }

  lemma DataShape(r: Rtl)
    requires |r.shift| == 16 && AllInt8(r.shift)
    ensures |Data(r).shift| == 16 && AllInt8(Data(r).shift)
  {
    hide AddTaps;
    Int8Fits(r.sample);
    WindowInt8(Int8(r.sample), r.shift);
  }

  lemma RunAppend(p: Pair, steps: seq<Step>, q: Pair, s: Step)
    requires Run(p, steps, q) && |q.rtl.shift| == 16 && |q.behaviour.shift| == 16 && Allowed(q, s)
    ensures Run(p, steps + [s], Apply(q, s))
    decreases |steps|
  {
    hide Allowed, Apply;
    if steps == [] {
      assert ([] + [s])[1..] == [];
    } else {
      assert (steps + [s])[1..] == steps[1..] + [s];
      RunAppend(Apply(p, steps[0]), steps[1..], q, s);
    }
  }
}
