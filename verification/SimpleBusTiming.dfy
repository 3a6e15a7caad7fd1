/** Wait states of simple_bus: slave accesses are atomic and take exactly the configured time. */
module SimpleBusTiming {
  import opened SimpleBus
  import opened SimpleBusLocks
  import opened Wrappers

  // ------------------------------------------------------------------ layout

  /** The address map and the wait states never change. */
  ghost predicate SameLayout(s: seq<Slave>, t: seq<Slave>) {
    && |s| == |t|
    && forall i :: 0 <= i < |s| ==>
         && s[i].start == t[i].start && s[i].end == t[i].end
         && s[i].waitStates == t[i].waitStates && |s[i].mem| == |t[i].mem|
  }

  lemma {:induction false} GetSlaveSame(s: seq<Slave>, t: seq<Slave>, address: nat)
    requires SameLayout(s, t)
    ensures GetSlave(s, address) == GetSlave(t, address)
  {
    if s != [] && !Covers(s[0], address) {
      GetSlaveSame(s[1..], t[1..], address);
    }
  }

  // ------------------------------------------------------------------ counters

  /** The slave serving the access in progress, or the number of slaves. */
  function Busy(b: Bus): nat
    requires b.current.Some? ==> b.current.value < |b.requests|
  {
    if b.current.None? then |b.slaves| else GetSlave(b.slaves, b.requests[b.current.value].address)
  }

  /** A slave that is not serving anything has a negative counter on every falling edge. */
  ghost predicate Resting(slaves: seq<Slave>, risen: bool, except: nat) {
    forall i :: 0 <= i < |slaves| && i != except ==> slaves[i].count == -1 || (!risen && slaves[i].count == 0)
  }

  /** since falling edges after an access started, the counter has since + 1 rising edges behind it, or
      one less when the rising edge is still to come. */
  predicate InStep(s: Slave, risen: bool, since: nat) {
    && s.waitStates.Some?
    && (since == 0 || since < s.waitStates.value)
    && s.count == s.waitStates.value - since - (if risen then 1 else 0)
  }

  ghost predicate TimingOk(b: Bus) {
    && (b.current.Some? ==>
          && b.current.value < |b.requests| && b.requests[b.current.value].status == Wait
          && b.requests[b.current.value].address % 4 == 0
          && Busy(b) < |b.slaves| && InStep(b.slaves[Busy(b)], b.risen, b.since))
    && Resting(b.slaves, b.risen, Busy(b))
  }

  /** A slow slave takes exactly its wait states, a fast one answers at once; a direct access (sub 0)
      waits for nobody. */
  ghost predicate Timed(slaves: seq<Slave>, t: Transfer) {
    var i := GetSlave(slaves, t.address);
    && t.address % 4 == 0 && i < |slaves|
    && t.waited == (if t.sub > 0 && slaves[i].waitStates.Some? then slaves[i].waitStates.value else 0)
    && (t.sub > 0 ==> slaves[i].waitStates != Some(0))
  }

  ghost predicate AllTimed(slaves: seq<Slave>, log: seq<Transfer>) {
    forall k :: 0 <= k < |log| ==> Timed(slaves, log[k])
  }

  lemma AllTimedSame(s: seq<Slave>, t: seq<Slave>, log: seq<Transfer>)
    requires SameLayout(s, t) && AllTimed(s, log)
    ensures AllTimed(t, log)
  {
    hide GetSlave;
    forall k | 0 <= k < |log| ensures Timed(t, log[k]) {
      GetSlaveSame(s, t, log[k].address);
      assert Timed(s, log[k]);
    }
  }

  /** What serving the current request changes among the slaves and in the log. */
  lemma HandleMoves(b: Bus)
    requires b.current.Some? && b.current.value < |b.requests|
    ensures var h, c, i := Handle(b), b.current.value, GetSlave(b.slaves, b.requests[b.current.value].address);
            && SameLayout(b.slaves, h.slaves)
            && h.risen == b.risen && h.subs == b.subs
            && (forall j :: 0 <= j < |b.slaves| && j != i ==> h.slaves[j] == b.slaves[j])
            && (if b.requests[c].address % 4 != 0 || i == |b.slaves| then
                  h.slaves == b.slaves && h.log == b.log && h.current.None?
                else if !Ready(b.slaves[i]) then
                  && h.slaves[i] == Accept(b.slaves[i]) && h.log == b.log && h.current == b.current
                  && h.requests[c].address == b.requests[c].address
                  && h.since == if b.slaves[i].count < 0 then 0 else b.since + 1
                else
                  && h.slaves[i].(mem := b.slaves[i].mem) == b.slaves[i] && h.current.None?
                  && |b.log| <= |h.log| <= |b.log| + 1 && h.log[..|b.log|] == b.log
                  && (|h.log| > |b.log| ==>
                        && h.log[|b.log|].address == b.requests[c].address
                        && h.log[|b.log|].sub == b.requests[c].sub
                        && h.log[|b.log|].waited == if b.slaves[i].waitStates.None? then 0 else b.since + 1))
  {
    hide Wrap, FindRequest, GetSlave;
  }

  lemma HandleTiming(b: Bus)
    requires b.risen && b.current.Some? && b.current.value < |b.requests|
    requires AllTimed(b.slaves, b.log) && b.requests[b.current.value].sub > 0
    requires Resting(b.slaves, true, Busy(b))
    requires Busy(b) < |b.slaves| ==>
               || b.slaves[Busy(b)].count == -1
               || (InStep(b.slaves[Busy(b)], true, b.since) && b.requests[b.current.value].address % 4 == 0)
    ensures TimingOk(Settle(Handle(b))) && AllTimed(Handle(b).slaves, Handle(b).log)
    ensures SameLayout(b.slaves, Handle(b).slaves)
  {
    hide Handle, GetSlave, ClearLocks;
    var i, c, h := Busy(b), b.current.value, Handle(b);
    HandleMoves(b);
    HandleChanges(b);
    AllTimedSame(b.slaves, h.slaves, b.log);
    GetSlaveSame(b.slaves, h.slaves, b.requests[c].address);
    if |h.log| > |b.log| {
      assert Timed(h.slaves, h.log[|b.log|]);
    }
    assert AllTimed(h.slaves, h.log);
  }

  lemma MainActionTiming(b: Bus)
    requires b.risen && TimingOk(b) && AllTimed(b.slaves, b.log)
    requires forall i :: 0 <= i < |b.requests| && Pending(b.requests[i]) ==> b.requests[i].sub > 0
    ensures var r := MainAction(b);
            TimingOk(r) && AllTimed(r.slaves, r.log) && SameLayout(b.slaves, r.slaves)
  {
    hide NextRequest, Handle, Settle, AllTimed, GetSlave, SameLayout;
    SettleRests(b);
    if b.current.None? {
      NextChooses(b);
      var n := NextRequest(b);
      if n.current.Some? {
        HandleTiming(n);
        SettleSlaves(Handle(n));
      }
    } else {
      HandleTiming(b);
      SettleSlaves(Handle(b));
    }
  }

  lemma SettleSlaves(b: Bus)
    ensures Settle(b).slaves == b.slaves && Settle(b).log == b.log && SameLayout(b.slaves, b.slaves)
  {
  }

  lemma SettleRests(b: Bus)
    requires TimingOk(b)
    ensures b.current.None? ==> TimingOk(Settle(b))
    ensures Settle(b).slaves == b.slaves && Settle(b).log == b.log && SameLayout(b.slaves, b.slaves)
  {
  }

  lemma RisingEdgeTiming(b: Bus)
    requires !b.risen && TimingOk(b) && AllTimed(b.slaves, b.log)
    ensures var r := RisingEdge(b);
            TimingOk(r) && AllTimed(r.slaves, r.log) && SameLayout(b.slaves, r.slaves)
  {
    hide WaitLoops, GetSlave, AllTimed;
    var r := RisingEdge(b);
    AllTimedSame(b.slaves, r.slaves, b.log);
    if b.current.Some? {
      GetSlaveSame(b.slaves, r.slaves, b.requests[b.current.value].address);
    }
  }

  lemma DirectTiming(b: Bus, w: bool, d: nat, a: nat)
    requires TimingOk(b) && AllTimed(b.slaves, b.log)
    ensures var r := Direct(b, w, d, a);
            TimingOk(r) && AllTimed(r.slaves, r.log) && SameLayout(b.slaves, r.slaves)
  {
    hide GetSlave, AllTimed, Index;
    var r := Direct(b, w, d, a);
    AllTimedSame(b.slaves, r.slaves, b.log);
    GetSlaveSame(b.slaves, r.slaves, a);
    if b.current.Some? {
      GetSlaveSame(b.slaves, r.slaves, b.requests[b.current.value].address);
    }
    TimedAppend(b, r, w, d, a);
  }

  lemma TimedAppend(b: Bus, r: Bus, w: bool, d: nat, a: nat)
    requires r == Direct(b, w, d, a) && AllTimed(r.slaves, b.log) && SameLayout(b.slaves, r.slaves)
    ensures AllTimed(r.slaves, r.log)
  {
    hide GetSlave, Index;
    GetSlaveSame(b.slaves, r.slaves, a);
  }

  lemma SubmitTiming(b: Bus, p: nat, w: bool, d: nat, a: nat, n: nat, l: bool)
    requires TimingOk(b) && Enabled(b, SubmitStep(p, w, d, a, n, l))
    ensures TimingOk(Submit(b, p, w, d, a, n, l))
  {
    hide FindRequest, GetSlave;
  }

  /** While a slave makes the bus wait, only the request being served is touched. */
  lemma WaitingIsAtomic(b: Bus, r: Bus)
    requires TimingOk(b) && b.risen && b.current.Some? && r == MainAction(b)
    ensures |r.requests| == |b.requests|
    ensures forall i :: 0 <= i < |b.requests| && i != b.current.value ==> SameButLock(r.requests[i], b.requests[i])
    ensures r.current.None? || r.current == b.current
    ensures |r.log| <= |b.log| + 1 && b.log <= r.log
    ensures |r.log| > |b.log| ==> r.current.None? && r.log[|b.log|].sub == b.requests[b.current.value].sub
  {
    hide Handle, ClearLocks, TimingOk, GetSlave;
    assert b.current.value < |b.requests| by { CurrentInRange(b); }
    HandleMoves(b);
    HandleChanges(b);
    var h := Handle(b);
    assert r == Settle(h);
    assert b.log <= h.log;
  }

  lemma CurrentInRange(b: Bus)
    requires TimingOk(b) && b.current.Some?
    ensures b.current.value < |b.requests|
  {
  }
}
