/** What every reachable state of simple_bus satisfies, for any interleaving of masters. */
module SimpleBusRuns {
  import opened SimpleBus
  import opened SimpleBusLocks
  import opened SimpleBusTiming
  import opened SimpleBusMemory
  import opened SimpleBusBursts
  import opened Wrappers

  ghost predicate Good(b: Bus) {
    && DistinctPriorities(b.requests) && LocksOk(b.requests, b.current, b.last)
    && TimingOk(b) && AllTimed(b.slaves, b.log)
    && MemoryOk(b.slaves, b.log) && RequestsOk(b.requests, b.slaves, b.log, b.subs)
  }

  lemma InitGood(b: Bus)
    requires Init(b)
    ensures Good(b)
  {
    hide GetSlave;
    forall a: nat | a % 4 == 0 && GetSlave(b.slaves, a) < |b.slaves| ensures Word(b.slaves, a) == LastWrite(b.log, a) {
      assert Fresh(b.slaves[GetSlave(b.slaves, a)]);
    }
  }

  lemma PendingHasNumber(b: Bus)
    requires Good(b)
    ensures b.current.Some? ==> b.current.value < |b.requests| && Pending(b.requests[b.current.value])
    ensures forall i :: 0 <= i < |b.requests| && Pending(b.requests[i]) ==> b.requests[i].sub > 0
    ensures b.current.Some? ==> b.current.value < |b.requests|
  {
    hide MemoryOk, AllTimed, DistinctPriorities, Progress, Moves, GetSlave;
    forall i | 0 <= i < |b.requests| && Pending(b.requests[i]) ensures b.requests[i].sub > 0 {
      assert RequestOk(b.requests[i], b.slaves, b.log, b.subs);
    }
  }

  /** Choosing and serving touch no priority. */
  lemma MainActionPriorities(b: Bus)
    requires DistinctPriorities(b.requests) && (b.current.Some? ==> b.current.value < |b.requests|)
    ensures var r := MainAction(b);
            |r.requests| == |b.requests|
            && forall i :: 0 <= i < |b.requests| ==> r.requests[i].priority == b.requests[i].priority
    ensures DistinctPriorities(MainAction(b).requests)
  {
    hide NextRequest, Handle, ClearLocks;
    var n := if b.current.None? then NextRequest(b) else b;
    if b.current.None? {
      NextChooses(b);
    }
    if n.current.Some? {
      HandleChanges(n);
    }
  }

  lemma FallKeeps(b: Bus)
    requires Good(b) && b.risen
    ensures (b.current.Some? ==> b.current.value < |b.requests|) && Good(MainAction(b))
    ensures SameLayout(b.slaves, MainAction(b).slaves)
  {
    hide DistinctPriorities, LocksOk, TimingOk, AllTimed, MemoryOk, RequestsOk, SameLayout, MainAction;
    PendingHasNumber(b);
    MainActionPriorities(b);
    MainActionLocks(b);
    MainActionTiming(b);
    MainActionRequests(b);
  }

  lemma RiseKeeps(b: Bus)
    requires Good(b) && !b.risen
    ensures Good(RisingEdge(b)) && SameLayout(b.slaves, RisingEdge(b).slaves)
  {
    hide DistinctPriorities, LocksOk, TimingOk, AllTimed, MemoryOk, RequestsOk, SameLayout, WaitLoops;
    var r := RisingEdge(b);
    RisingEdgeTiming(b);
    MemorySame(b.slaves, r.slaves, b.log);
    SameRequests(b.requests, b.requests, b.slaves, r.slaves, b.log, b.subs);
  }

  lemma DirectGood(b: Bus, w: bool, d: nat, a: nat)
    requires Good(b)
    ensures Good(Direct(b, w, d, a)) && SameLayout(b.slaves, Direct(b, w, d, a).slaves)
  {
    hide DistinctPriorities, LocksOk, TimingOk, AllTimed, MemoryOk, RequestsOk, SameLayout, Direct;
    DirectKeeps(b, w, d, a);
    DirectTiming(b, w, d, a);
    DirectRequests(b, w, d, a);
  }

  lemma SubmitKeeps(b: Bus, p: nat, w: bool, d: nat, a: nat, n: nat, l: bool)
    requires Good(b) && Enabled(b, SubmitStep(p, w, d, a, n, l))
    ensures Good(Submit(b, p, w, d, a, n, l)) && SameLayout(b.slaves, Submit(b, p, w, d, a, n, l).slaves)
  {
    hide DistinctPriorities, LocksOk, TimingOk, AllTimed, MemoryOk, RequestsOk, FindRequest;
    SubmitLocks(b, p, w, d, a, n, l);
    SubmitTiming(b, p, w, d, a, n, l);
    SubmitRequests(b, p, w, d, a, n, l);
  }

  lemma StepKeeps(b: Bus, s: Step)
    requires Good(b) && Enabled(b, s)
    ensures Good(Apply(b, s)) && SameLayout(b.slaves, Apply(b, s).slaves)
  {
    hide Submit, MainAction, RisingEdge, Direct, DistinctPriorities, LocksOk, AllTimed, MemoryOk, RequestsOk;
    match s
    case SubmitStep(p, w, d, a, n, l) => SubmitKeeps(b, p, w, d, a, n, l);
    case Fall => FallKeeps(b);
    case Rise => RiseKeeps(b);
    case DirectStep(w, d, a) => DirectGood(b, w, d, a);
    case Poke(_, _) =>
  }

  /** Every reachable state is good, and the address map has not moved. */
  lemma {:induction false} RunKeeps(b: Bus, steps: seq<Step>, c: Bus)
    requires Good(b) && Run(b, steps, c)
    ensures Good(c) && SameLayout(b.slaves, c.slaves)
    decreases |steps|
  {
    hide Apply, Enabled, Good;
    if steps != [] {
      StepKeeps(b, steps[0]);
      RunKeeps(Apply(b, steps[0]), steps[1..], c);
    }
  }

  /** The transfers a request has made, in any reachable state: a finished request has moved the words
      of its burst, each once, in ascending order, with address and data position in step. */
  lemma FinishedBurst(b: Bus, steps: seq<Step>, c: Bus, i: nat)
    requires Init(b) && Run(b, steps, c) && i < |c.requests|
    requires c.requests[i].sub > 0 && c.requests[i].status == Ok
    ensures var r := c.requests[i]; var m := Moves(c.log, r.sub);
            && r.start % 4 == 0 && Stops(r.endAddress) && |m| == Words(r.start, r.endAddress)
            && (r.start <= r.endAddress ==> |m| == (r.endAddress - r.start) / 4 + 1)
            && forall k :: 0 <= k < |m| ==>
                 && m[k].write == r.doWrite && m[k].data == r.base + k && m[k].address == Wrap(r.start + 4 * k)
                 && (r.start <= r.endAddress ==> m[k].address == r.start + 4 * k <= r.endAddress)
  {
    hide Init, Run, Good, Progress, Moved, Moves, Words, Stops, Wrap;
    InitGood(b);
    RunKeeps(b, steps, c);
    FinishedRequest(c, i);
    var r := c.requests[i];
    MovedFacts(r, Moves(c.log, r.sub));
    if r.start <= r.endAddress {
      BelowEnd(r.start, r.endAddress, 0);
      forall k | 0 <= k < Words(r.start, r.endAddress) ensures Wrap(r.start + 4 * k) == r.start + 4 * k <= r.endAddress {
        BelowEnd(r.start, r.endAddress, k);
      }
    }
  }

  lemma MovedFacts(r: Request, m: seq<Transfer>)
    requires Progress(r) && Moved(m, r) && r.status == Ok
    ensures r.start % 4 == 0 && Stops(r.endAddress) && |m| == Words(r.start, r.endAddress)
    ensures forall k :: 0 <= k < |m| ==>
              m[k].write == r.doWrite && m[k].data == r.base + k && m[k].address == Wrap(r.start + 4 * k)
  {
    hide Words, Stops, Wrap;
  }

  lemma BelowEnd(start: nat, end: nat, k: nat)
    requires start <= end < WORD_LIMIT
    ensures Words(start, end) == (end - start) / 4 + 1
    ensures k < Words(start, end) ==> Wrap(start + 4 * k) == start + 4 * k <= end
  {
  }

  lemma FinishedRequest(c: Bus, i: nat)
    requires Good(c) && i < |c.requests| && c.requests[i].sub > 0
    ensures Progress(c.requests[i]) && Moved(Moves(c.log, c.requests[i].sub), c.requests[i])
    ensures c.requests[i].endAddress < WORD_LIMIT
  {
    hide Moves, MemoryOk, TimingOk, AllTimed, LocksOk, DistinctPriorities;
    assert RequestOk(c.requests[i], c.slaves, c.log, c.subs);
  }

  /** A finished request has moved exactly the words asked for if and only if the burst stays below the
      end of the address space, or starts at its last word. */
  lemma LengthExactly(b: Bus, steps: seq<Step>, c: Bus, i: nat)
    requires Init(b) && Run(b, steps, c) && i < |c.requests|
    requires c.requests[i].sub > 0 && c.requests[i].status == Ok
    ensures var r := c.requests[i];
            |Moves(c.log, r.sub)| == r.length <==>
              1 <= r.length && (r.start + 4 * r.length < WORD_LIMIT
                                || (r.start + 4 == WORD_LIMIT && 2 <= r.length <= WORD_LIMIT / 4))
  {
    hide Moves, Words, Stops, Wrap, Run, Init;
    InitGood(b);
    RunKeeps(b, steps, c);
    FinishedRequest(c, i);
    WordsExactly(c.requests[i].start, c.requests[i].length);
  }

  /** One flat memory: every read, by whatever request and from whatever slave, returned the value last
      written to its address before it, or zero; and the slaves now hold the last values written. */
  lemma FlatMemory(b: Bus, steps: seq<Step>, c: Bus, k: nat, a: nat)
    requires Init(b) && Run(b, steps, c)
    ensures k < |c.log| && !c.log[k].write ==> c.log[k].value == LastWrite(c.log[..k], c.log[k].address)
    ensures a % 4 == 0 && GetSlave(c.slaves, a) < |c.slaves| ==> Word(c.slaves, a) == LastWrite(c.log, a)
  {
    InitGood(b);
    RunKeeps(b, steps, c);
  }

  /** A transfer takes exactly the wait states of the only slave at its address. */
  lemma WaitsExactly(b: Bus, steps: seq<Step>, c: Bus, k: nat, j: nat)
    requires Init(b) && Run(b, steps, c) && k < |c.log| && c.log[k].sub > 0
    requires j < |c.slaves| && Covers(c.slaves[j], c.log[k].address)
    ensures c.slaves[j].waitStates.None? ==> c.log[k].waited == 0
    ensures c.slaves[j].waitStates.Some? ==> 1 <= c.log[k].waited == c.slaves[j].waitStates.value
  {
    hide GetSlave, MemoryOk, RequestsOk, TimingOk, LocksOk, DistinctPriorities, Run;
    InitGood(b);
    RunKeeps(b, steps, c);
    assert NoOverlap(c.slaves);
    SlaveUnambiguous(c.slaves, c.log[k].address, j);
    assert Timed(c.slaves, c.log[k]);
  }

  // ------------------------------------------------------------------ locked bursts

  /** The bus is not free on any falling edge of these steps: nothing is chosen. */
  ghost predicate NoArbitration(b: Bus, steps: seq<Step>)
    decreases |steps|
  {
    steps == []
    || (Enabled(b, steps[0]) && !(steps[0].Fall? && b.current.None?) && NoArbitration(Apply(b, steps[0]), steps[1..]))
  }

  /** Request c holds the bus, or has ended; it may have been submitted again. */
  ghost predicate HoldsOrEnded(b: Bus, c: nat) {
    Holds(b, c) || (b.current.None? && c < |b.requests| && b.requests[c].status != Wait)
  }

  lemma HoldsStep(b: Bus, c: nat, s: Step)
    requires HoldsOrEnded(b, c) && Enabled(b, s) && !(s.Fall? && b.current.None?)
    ensures HoldsOrEnded(Apply(b, s), c)
  {
    hide FindRequest, MainAction, WaitLoops, Move;
    if s.Fall? {
      HoldsOn(b, c);
    } else if s.DirectStep? {
      DirectKeeps(b, s.write, s.data, s.address);
    }
  }

  lemma {:induction false} HoldsRun(b: Bus, c: nat, steps: seq<Step>, d: Bus)
    requires HoldsOrEnded(b, c) && Run(b, steps, d) && NoArbitration(b, steps)
    ensures HoldsOrEnded(d, c)
    decreases |steps|
  {
    hide HoldsOrEnded, Enabled, Apply;
    if steps != [] {
      HoldsStep(b, c, steps[0]);
      HoldsRun(Apply(b, steps[0]), c, steps[1..], d);
    }
  }

  /** A locked burst is not broken into: if rule 3 chooses a request with its lock set, it is served until its
      word has been moved, whatever is submitted and however long its slave makes it wait; and if it has words
      left then, it is chosen at the next arbitration. */
  lemma LockedBurstUnbroken(b: Bus, c: nat, steps: seq<Step>, d: Bus)
    requires Good(b) && Enabled(b, Fall) && b.current.None? && NextRequest(b).current == Some(c)
    requires c < |b.requests| && b.requests[c].status == Requested && b.requests[c].lock == Set
    requires Run(MainAction(b), steps, d) && NoArbitration(MainAction(b), steps)
    ensures d.current.Some? ==> d.current == Some(c)
    ensures d.current.None? && c < |d.requests| && d.requests[c].status == Wait ==> NextRequest(d).current == Some(c)
  {
    hide MainAction, NextRequest, Run, NoArbitration, TimingOk, AllTimed, MemoryOk, RequestsOk;
    RuleThreeLocks(b, c);
    FallKeeps(b);
    RunKeeps(MainAction(b), steps, d);
    HoldsRun(MainAction(b), c, steps, d);
    if d.current.None? && c < |d.requests| && d.requests[c].status == Wait {
      HolderServedNext(d, c);
    }
  }

  // -------------------------------------------------- a burst of another length

  /** A bus with one fast memory of two words. */
  function Small(requests: seq<Request>, risen: bool, log: seq<Transfer>, host: map<nat, int>, last: Option<nat>,
                 subs: nat): Bus
  {
    Bus(requests, None, [Slave(0, 7, [0, 0], None, -1)], host, risen, log, last, 0, subs)
  }

  /** The form of a read burst of length 0 at address 4, before and after it is served. */
  function EmptyBurst(served: bool): Request {
    Request(1, false, if served then 8 else 4, 0, if served then 1 else 0, Unlocked,
            if served then Ok else Requested, 4, 0, 0, 1, if served then 1 else 0)
  }

  lemma ServeEmptyBurst()
    ensures MainAction(Small([EmptyBurst(false)], true, [], map[], None, 1))
         == Small([EmptyBurst(true)], false, [Transfer(1, false, 4, 0, 0, 0)], map[0 := 0], Some(0), 1)
  {
    hide Wrap;
    var b := Small([EmptyBurst(false)], true, [], map[], None, 1);
    assert PendingFrom(b.requests, 0) == [0] by {
      assert PendingFrom(b.requests, 1) == [];
    }
    assert Choose(b.requests, [0]) == 0 && Promote(b.requests, [0]) == b.requests by {
      OnlyOne(b.requests);
    }
    var b1 := NextRequest(b);
    assert b1 == b.(current := Some(0), last := Some(0));
    assert GetSlave(b.slaves, 4) == 0;
    assert Wrap(8) == 8 by { Eight(); }
    var b2 := Handle(b1);
    assert b2.requests == [EmptyBurst(true)] && b2.slaves == b.slaves;
    assert ClearLocks(b2.requests) == b2.requests by { OneUnlocked(EmptyBurst(true)); }
  }

  lemma Eight()
    ensures Wrap(8) == 8 && Wrap(4 + (0 - 1) * 4) == 0
  {
  }

  lemma OnlyOne(requests: seq<Request>)
    requires |requests| == 1 && requests[0].status == Requested && requests[0].lock == Unlocked
    ensures Choose(requests, [0]) == 0 && Promote(requests, [0]) == requests
  {
    assert FirstLocked(requests, [0]) == 1 && FirstGranted(requests, [0]) == 1;
  }

  lemma OneUnlocked(r: Request)
    requires r.lock == Unlocked
    ensures ClearLocks([r]) == [r]
  {
    assert ClearLocks([r])[0] == r;
  }

  /** Such a run: a burst of length 0 finishes, after moving one word. */
  lemma OtherLengthIsReached() returns (b: Bus, steps: seq<Step>, c: Bus)
    ensures Init(b) && Run(b, steps, c) && |c.requests| == 1
    ensures var r := c.requests[0];
            r.sub > 0 && r.status == Ok && r.length == 0 && |Moves(c.log, r.sub)| == 1
  {
    hide MainAction, Moves;
    b := Small([], false, [], map[], None, 0);
    var b1 := Small([EmptyBurst(false)], false, [], map[], None, 1);
    var b2 := b1.(risen := true);
    c := Small([EmptyBurst(true)], false, [Transfer(1, false, 4, 0, 0, 0)], map[0 := 0], Some(0), 1);
    assert Submit(b, 1, false, 0, 4, 0, false) == b1 by {
      hide Wrap;
      Eight();
    }
    assert RisingEdge(b1) == b2 by {
      assert WaitLoops(b1.slaves)[0] == b1.slaves[0];
    }
    ServeEmptyBurst();
    steps := [SubmitStep(1, false, 0, 4, 0, false), Rise, Fall];
    assert Run(c, [], c);
    assert Run(b2, [Fall], c) by { assert [Fall][1..] == []; }
    assert Run(b1, [Rise, Fall], c) by { assert [Rise, Fall][1..] == [Fall]; }
    assert Run(b, steps, c) by { assert steps[1..] == [Rise, Fall]; }
    OneMove(c.log[0]);
  }

  lemma OneMove(t: Transfer)
    ensures |Moves([t], t.sub)| == 1
  {
    assert [t][..0] == [];
  }

  // ------------------------------------------------------------------ a better priority waits

  /** A burst of two words of priority 3, with done of them moved. */
  function TwoWords(lock: Lock, status: Status, done: nat): Request {
    Request(3, false, 4 * done, 4, done, lock, status, 0, 0, 2, 1, done)
  }

  /** A request of priority 1 for one word. */
  function OneWord(served: bool): Request {
    Request(1, false, if served then 8 else 4, 4, if served then 10 else 9, Unlocked, if served then Ok else Requested,
            4, 9, 1, 2, if served then 1 else 0)
  }

  /** The only slave answers at once. */
  lemma ReadsWord(b: Bus, c: nat, k: nat)
    requires b.slaves == [Slave(0, 7, [0, 0], None, -1)] && b.current == Some(c) && c < |b.requests|
    requires k < 2 && b.requests[c].address == 4 * k && !b.requests[c].doWrite
    ensures var r := b.requests[c];
            Handle(b) == b.(requests := b.requests[c := r.(address := 4 * k + 4, data := r.data + 1, done := r.done + 1,
                                                           status := if 4 * k + 4 > r.endAddress then Ok else Wait)],
                            current := None, host := b.host[r.data := 0],
                            log := b.log + [Transfer(r.sub, false, 4 * k, r.data, 0, 0)])
  {
    assert GetSlave(b.slaves, 4 * k) == 0;
    assert Wrap(4 * k + 4) == 4 * k + 4;
    assert b.slaves[0].mem[k] == 0;
  }

  lemma ClearedTwo(x: Request, y: Request)
    ensures ClearLocks([x]) == [x.(lock := Downgrade(x.lock))]
    ensures ClearLocks([x, y]) == [x.(lock := Downgrade(x.lock)), y.(lock := Downgrade(y.lock))]
  {
    hide ClearLocks;
    assert |ClearLocks([x])| == 1 && |ClearLocks([x, y])| == 2;
  }

  lemma FirstWord(lock: bool)
    ensures MainAction(Small([TwoWords(if lock then Set else Unlocked, Requested, 0)], true, [], map[], None, 1))
         == Small([TwoWords(if lock then Set else Unlocked, Wait, 1)], false, [Transfer(1, false, 0, 0, 0, 0)], map[0 := 0],
                  Some(0), 1)
  {
    hide Handle, ClearLocks;
    var r := TwoWords(if lock then Set else Unlocked, Requested, 0);
    var b := Small([r], true, [], map[], None, 1);
    assert PendingFrom(b.requests, 0) == [0] by {
      assert PendingFrom(b.requests, 1) == [];
    }
    assert FirstLocked(b.requests, [0]) == 1 && FirstGranted(b.requests, [0]) == 1;
    assert Choose(b.requests, [0]) == 0;
    var g := r.(lock := if lock then Granted else Unlocked);
    assert Promote(b.requests, [0]) == [g];
    var b1 := NextRequest(b);
    assert b1 == b.(requests := [g], current := Some(0), last := Some(0));
    ReadsWord(b1, 0, 0);
    var h := g.(address := 4, data := 1, done := 1, status := Wait);
    assert Handle(b1).requests == [h];
    ClearedTwo(h, h);
  }

  lemma SecondChosen(b: Bus, lock: bool)
    requires b.requests == [TwoWords(if lock then Set else Unlocked, Wait, 1), OneWord(false)]
    ensures NextRequest(b) == b.(current := Some(if lock then 0 else 1), last := Some(if lock then 0 else 1), since := 0)
  {
    hide Choose, Promote;
    assert PendingFrom(b.requests, 0) == [0, 1] by {
      assert PendingFrom(b.requests, 2) == [];
      assert PendingFrom(b.requests, 1) == [1];
    }
    ChosenOfTwo(b.requests, lock);
  }

  /** What is served second. */
  lemma SecondWord(lock: bool)
    ensures var c := MainAction(Small([TwoWords(if lock then Set else Unlocked, Wait, 1), OneWord(false)], true,
                                      [Transfer(1, false, 0, 0, 0, 0)], map[0 := 0], Some(0), 2));
            && |c.log| == 2 && c.log[0].sub == 1 && c.log[1].sub == (if lock then 1 else 2) && |c.requests| == 2
            && c.requests[if lock then 1 else 0].status == if lock then Requested else Wait
  {
    hide Handle, ClearLocks, NextRequest;
    var r := TwoWords(if lock then Set else Unlocked, Wait, 1);
    var b := Small([r, OneWord(false)], true, [Transfer(1, false, 0, 0, 0, 0)], map[0 := 0], Some(0), 2);
    SecondChosen(b, lock);
    var b1 := NextRequest(b);
    ReadsWord(b1, if lock then 0 else 1, 1);
    var h := Handle(b1);
    ClearedTwo(h.requests[0], h.requests[1]);
    assert h.requests == [h.requests[0], h.requests[1]];
  }

  lemma ChosenOfTwo(rs: seq<Request>, lock: bool)
    requires rs == [TwoWords(if lock then Set else Unlocked, Wait, 1), OneWord(false)]
    ensures Choose(rs, [0, 1]) == (if lock then 0 else 1) && Promote(rs, [0, 1]) == rs
  {
    var q := [0, 1];
    assert q[1..] == [1] && q[..1] == [0];
    if !lock {
      assert FirstLocked(rs, [1]) == 1 && FirstGranted(rs, [1]) == 1;
      assert FirstLocked(rs, q) == 2 && FirstGranted(rs, q) == 2;
      assert Best(rs, [0]) == 0;
      assert Best(rs, q) == 1;
    }
  }

  /** Such a run: a burst of two words of priority 3, and after its first word a request of priority 1. If the
      burst is locked its second word comes next, while the better priority waits; if not, it is broken
      into. */
  lemma LockIsReached(lock: bool) returns (b: Bus, steps: seq<Step>, c: Bus)
    ensures Init(b) && Run(b, steps, c)
    ensures steps == [SubmitStep(3, false, 0, 0, 2, lock), Rise, Fall, SubmitStep(1, false, 9, 4, 1, false), Rise, Fall]
    ensures |c.log| == 2 && c.log[0].sub == 1 && c.log[1].sub == (if lock then 1 else 2) && |c.requests| == 2
    ensures c.requests[if lock then 1 else 0].status == if lock then Requested else Wait
  {
    hide MainAction, Run;
    b := Small([], false, [], map[], None, 0);
    var l := if lock then Set else Unlocked;
    var log, host := [Transfer(1, false, 0, 0, 0, 0)], map[0 := 0];
    var b1 := Small([TwoWords(l, Requested, 0)], false, [], map[], None, 1);
    var b3 := Small([TwoWords(l, Wait, 1)], false, log, host, Some(0), 1);
    var b4 := Small([TwoWords(l, Wait, 1), OneWord(false)], false, log, host, Some(0), 2);
    steps := [SubmitStep(3, false, 0, 0, 2, lock), Rise, Fall, SubmitStep(1, false, 9, 4, 1, false), Rise, Fall];
    assert Submit(b, 3, false, 0, 0, 2, lock) == b1;
    RisesOnly(b1);
    FirstWord(lock);
    assert Submit(b3, 1, false, 9, 4, 1, false) == b4 by {
      assert FindRequest(b3.requests, 1) == 1;
      assert Wrap(4 + (1 - 1) * 4) == 4;
    }
    RisesOnly(b4);
    SecondWord(lock);
    c := MainAction(b4.(risen := true));
    SixSteps(steps, b, b1, b3, b4, c);
  }

  lemma RisesOnly(b: Bus)
    requires b.slaves == [Slave(0, 7, [0, 0], None, -1)]
    ensures RisingEdge(b) == b.(risen := true)
  {
    assert WaitLoops(b.slaves)[0] == b.slaves[0];
  }

  lemma SixSteps(steps: seq<Step>, b: Bus, b1: Bus, b3: Bus, b4: Bus, c: Bus)
    requires |steps| == 6 && steps[1].Rise? && steps[2].Fall? && steps[4].Rise? && steps[5].Fall?
    requires Enabled(b, steps[0]) && b1 == Apply(b, steps[0]) && !b1.risen && b1.current.None?
    requires RisingEdge(b1) == b1.(risen := true) && MainAction(b1.(risen := true)) == b3
    requires Enabled(b3, steps[3]) && b4 == Apply(b3, steps[3]) && !b4.risen && b4.current.None?
    requires RisingEdge(b4) == b4.(risen := true) && MainAction(b4.(risen := true)) == c
    ensures Run(b, steps, c)
  {
    hide MainAction, RisingEdge, Submit;
    assert Run(c, steps[6..], c);
    assert steps[5..][1..] == steps[6..] && Run(b4.(risen := true), steps[5..], c);
    assert steps[4..][1..] == steps[5..] && Run(b4, steps[4..], c);
    assert steps[3..][1..] == steps[4..] && Run(b3, steps[3..], c);
    assert steps[2..][1..] == steps[3..] && Run(b1.(risen := true), steps[2..], c);
    assert steps[1..][1..] == steps[2..] && Run(b1, steps[1..], c);
  }
}
