/** The modules of the FIR example as objects with shift registers that are updated in place. */
module FirClasses {
  import opened Fir

  /** The behavioural filter: what its thread does from one wait to the next. */
  class FirThread {
    const shift: array<int>
    var pc: BehaviourPc
    var results: seq<int>
    var accepted: seq<int>

    ghost predicate Valid()
      reads this, shift
    {
      shift.Length == 16 && AllInt8(shift[..])
    }

    ghost function View(): Behaviour
      reads this, shift
    {
      Behaviour(pc, shift[..], results, accepted)
    }

    constructor ()
      ensures Valid() && fresh(shift)
      ensures View() == Behaviour(Boot, ZEROS, [], [])
    {
      shift := new int[16](_ => 0);
      pc, results, accepted := Boot, [], [];
      new;
      assert shift[..] == ZEROS;
    }

    /** The sum of the products, from the oldest sample to the newest; products go through 17 bits, the
        accumulator through 19. */
    method Accumulate(sample: int) returns (acc: int)
      requires Valid() && IsInt8(sample)
      ensures acc == Partial(Window(sample, shift[..]), 1)
    {
      hide Partial, Coef, Int19, Int17;
      ghost var w := Window(sample, shift[..]);
      WindowInt8(sample, shift[..]);
      acc := Int19(sample * Coef(0));
      FirstTerm(w);
      var i := 14;
      while i >= 0
        invariant -1 <= i <= 14 && acc == Partial(w, i + 2)
      {
        var pro := Int17(shift[i] * Coef(i + 1));
        NoOverflow(w, i + 1);
        assert w[i + 1] == shift[i];
        AddTapExact(w, i + 1);
        acc := Int19(acc + pro);
        i := i - 1;
      }
    }

    /** Moves the register by one place. */
    method ShiftIn(sample: int)
      requires Valid() && IsInt8(sample)
      modifies shift
      ensures Valid() && shift[..] == Window(sample, old(shift[..]))
    {
      var i := 14;
      while i >= 0
        invariant -1 <= i <= 14
        invariant forall k :: 0 <= k <= i + 1 ==> shift[k] == old(shift[k])
        invariant forall k :: i + 1 < k < 16 ==> shift[k] == old(shift[k - 1])
      {
        shift[i + 1] := shift[i];
        i := i - 1;
      }
      shift[0] := sample;
      assert shift[..] == Window(sample, old(shift[..]));
    }

    /** A rising clock edge outside reset. */
    method ClockEdge(valid: bool, sample: int)
      requires Valid()
      modifies this, shift
      ensures Valid() && View() == BehaviourEdge(old(View()), valid, sample)
    {
      hide Partial, Int8;
      if pc != Waiting {
        pc := Waiting;
        return;
      }
      if !valid {
        return;
      }
      Int8Fits(sample);
      var sampleTmp := Int8(sample);
      var acc := Accumulate(sampleTmp);
      ShiftIn(sampleTmp);
      results := results + [acc];
      accepted := accepted + [sampleTmp];
      pc := Pause;
    }
  }

  /** The controller. */
  class FirFsm {
    var state: FsmState

    constructor ()
      ensures state == ResetS
    {
      state := ResetS;
    }

    /** A rising clock edge; in reset the output is not written. */
    method ClockEdge(reset: bool, valid: bool, stateOut: nat) returns (newOut: nat)
      modifies this
      ensures if reset then state == ResetS && newOut == stateOut
              else state == FsmNext(old(state), valid) && newOut == FsmOut(old(state))
    {
      newOut := stateOut;
      if reset {
        state := ResetS;
        return;
      }
      match state {
        case ResetS =>
          state, newOut := First, 0;
        case First =>
          if valid {
            state := Second;
          }
          newOut := 1;
        case Second =>
          state, newOut := Third, 2;
        case Third =>
          state, newOut := Output, 3;
        case Output =>
          state, newOut := First, 4;
      }
    }
  }

  /** The datapath: one run of its process for given signals. */
  class FirData {
    const shift: array<int>
    var acc: int
    var results: seq<int>

    ghost predicate Valid()
      reads this
    {
      shift.Length == 16
    }

    ghost function View(state: FsmState, stateOut: nat, sample: int, valid: bool): Rtl
      reads this, shift
    {
      Rtl(state, stateOut, acc, shift[..], sample, valid, results)
    }

    constructor ()
      ensures Valid() && fresh(shift) && acc == 0 && results == [] && shift[..] == ZEROS
    {
      shift := new int[16](_ => 0);
      acc, results := 0, [];
      new;
      assert shift[..] == ZEROS;
    }

    /** Clears the registers. */
    method Clear()
      requires Valid()
      modifies this, shift
      ensures acc == 0 && shift[..] == ZEROS && results == old(results)
    {
      acc := 0;
      var i := 0;
      while i <= 15
        invariant i <= 16 && acc == 0 && results == old(results)
        invariant forall k :: 0 <= k < i ==> shift[k] == 0
      {
        shift[i] := 0;
        i := i + 1;
      }
      assert shift[..] == ZEROS;
    }

    /** Three additions, for the coefficients from j downwards. */
    method AddThree(j: nat)
      requires Valid() && 3 <= j < 16
      modifies `acc
      ensures acc == AddTaps(old(acc), shift[..], j, 3)
    {
      hide Coef, Int19, AddTaps;
      Unfold(acc, shift[..], j, 3);
      acc := Int19(acc + shift[j - 1] * Coef(j));
      Unfold(acc, shift[..], j - 1, 2);
      acc := Int19(acc + shift[j - 2] * Coef(j - 1));
      Unfold(acc, shift[..], j - 2, 1);
      acc := Int19(acc + shift[j - 3] * Coef(j - 2));
      Unfold(acc, shift[..], j - 3, 0);
    }

    method AddFour(j: nat)
      requires Valid() && 4 <= j < 16
      modifies `acc
      ensures acc == AddTaps(old(acc), shift[..], j, 4)
    {
      hide Coef, Int19, AddTaps;
      Unfold(acc, shift[..], j, 4);
      acc := Int19(acc + shift[j - 1] * Coef(j));
      AddThree(j - 1);
    }

    lemma Unfold(a: int, s: seq<int>, j: nat, n: nat)
      requires |s| == 16 && n <= j < 16
      ensures n == 0 ==> AddTaps(a, s, j, n) == a
      ensures n > 0 ==> AddTaps(a, s, j, n) == AddTaps(AddTap(a, s[j - 1], j), s, j - 1, n - 1)
    {
      hide AddTap;
    }

    method ShiftIn(sample: int)
      requires Valid()
      modifies shift
      ensures shift[..] == Window(Int8(sample), old(shift[..]))
    {
      var i := 14;
      while i >= 0
        invariant -1 <= i <= 14
        invariant forall k :: 0 <= k <= i + 1 ==> shift[k] == old(shift[k])
        invariant forall k :: i + 1 < k < 16 ==> shift[k] == old(shift[k - 1])
      {
        shift[i + 1] := shift[i];
        i := i - 1;
      }
      shift[0] := Int8(sample);
      assert shift[..] == Window(Int8(sample), old(shift[..]));
    }

    method Entry(reset: bool, ghost state: FsmState, stateOut: nat, sample: int, ghost valid: bool)
      requires Valid()
      modifies this, shift
      ensures View(state, stateOut, sample, valid)
              == if reset then ResetData(old(View(state, stateOut, sample, valid)))
                 else Data(old(View(state, stateOut, sample, valid)))
    {
      hide AddTaps, Coef, Int19, Int8, Window;
      if reset {
        Clear();
      }
      match stateOut {
        case 1 =>
          acc := Int19(Int8(sample) * Coef(0));
          AddFour(15);
        case 2 =>
          AddFour(11);
        case 3 =>
          AddFour(7);
        case 4 =>
          AddThree(3);
          ShiftIn(sample);
          results := results + [acc];
        case _ =>
      }
    }
  }
}
