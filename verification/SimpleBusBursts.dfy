/** Bursts of simple_bus: which words a request moves, in which order, and when it is finished. */
module SimpleBusBursts {
  import opened SimpleBus
  import opened SimpleBusLocks
  import opened SimpleBusTiming
  import opened SimpleBusMemory
  import opened Wrappers

  /** How many words a burst from start up to end moves before the address passes end. Only the very
      last word of the address space is followed by a smaller address. */
  function Words(start: nat, end: nat): nat {
    if start <= end then (end - start) / 4 + 1
    else if start + 4 < WORD_LIMIT then 1
    else end / 4 + 2
  }

  /** The loop stops only if some address lies beyond end. */
  predicate Stops(end: nat) {
    end + 4 < WORD_LIMIT
  }

  /** The words moved are the words asked for exactly when the burst stays below the end of the address
      space, or starts at its very last word. */
  lemma WordsExactly(start: nat, length: nat)
    requires start < WORD_LIMIT && start % 4 == 0 && length < WORD_LIMIT
    ensures var end := Wrap(start + (length - 1) * 4);
            Stops(end) ==>
              (Words(start, end) == length <==>
                 1 <= length && (start + 4 * length < WORD_LIMIT
                                 || (start + 4 == WORD_LIMIT && 2 <= length <= WORD_LIMIT / 4)))
  {
  }

  /** The words of a request that has moved done of them. */
  ghost predicate Moved(moves: seq<Transfer>, r: Request) {
    && |moves| == r.done
    && forall k :: 0 <= k < r.done ==>
         && moves[k].write == r.doWrite
         && moves[k].address == Wrap(r.start + 4 * k)
         && moves[k].data == r.base + k
  }

  /** The transfers of one request. */
  function Moves(log: seq<Transfer>, sub: nat): seq<Transfer> {
    if log == [] then []
    else
      var t := log[|log| - 1];
      Moves(log[..|log| - 1], sub) + if t.sub == sub then [t] else []
  }

  lemma MovesAppend(log: seq<Transfer>, t: Transfer, sub: nat)
    ensures Moves(log + [t], sub) == Moves(log, sub) + if t.sub == sub then [t] else []
  {
    assert (log + [t])[..|log|] == log;
  }

  /** Where a request form stands. */
  predicate Progress(r: Request) {
    && r.start < WORD_LIMIT && r.length < WORD_LIMIT
    && r.endAddress == Wrap(r.start + (r.length - 1) * 4)
    && r.address == Wrap(r.start + 4 * r.done) && r.data == r.base + r.done
    && (r.done > 0 ==> r.start % 4 == 0)
    && (r.status == Ok ==> r.start % 4 == 0 && Stops(r.endAddress) && r.done == Words(r.start, r.endAddress))
    && (r.status != Ok && Stops(r.endAddress) && r.start % 4 == 0 ==> r.done < Words(r.start, r.endAddress))
  }

  /** Serving one more word. */
  lemma NextWord(r: Request, r1: Request)
    requires Progress(r) && r.status == Wait && r.address % 4 == 0
    requires r1.(status := Wait) == r.(address := Wrap(r.address + 4), data := r.data + 1, done := r.done + 1)
    requires r1.status == if r1.address > r.endAddress then Ok else Wait
    ensures Progress(r1)
  {
    hide Wrap, Words, Stops;
    WrapStep(r.start + 4 * r.done);
    WrapAligned(r.start, r.done);
    WrapAligned(r.start, r.length - 1);
    assert r.start + 4 * (r.done + 1) == r.start + 4 * r.done + 4;
    Passing(r.start, r.endAddress, r.done, r1.address);
  }

  lemma WrapStep(x: nat)
    ensures Wrap(Wrap(x) + 4) == Wrap(x + 4)
  {
  }

  lemma WrapAligned(start: nat, n: int)
    ensures Wrap(start + 4 * n) % 4 == start % 4
    ensures Wrap(start + n * 4) % 4 == start % 4
    ensures Wrap(start + 4 * n) < WORD_LIMIT
  {
    var m := start + 4 * n;
    var q := m / WORD_LIMIT;
    assert Wrap(m) == m - q * WORD_LIMIT == start + 4 * (n - q * 0x4000_0000);
  }

  lemma Passing(start: nat, end: nat, done: nat, next: nat)
    requires start < WORD_LIMIT && end < WORD_LIMIT && start % 4 == 0 && end % 4 == 0
    requires next == Wrap(start + 4 * (done + 1))
    requires Stops(end) ==> done < Words(start, end)
    ensures next > end ==> Stops(end) && done + 1 == Words(start, end)
    ensures next <= end && Stops(end) ==> done + 1 < Words(start, end)
  {
    assert next % 4 == 0;
    if Stops(end) && start > end && start + 4 >= WORD_LIMIT {
      assert next == 4 * done;
    }
  }

  /** A request form agrees with the log; errors are misaligned or unmapped addresses. */
  ghost predicate RequestOk(r: Request, slaves: seq<Slave>, log: seq<Transfer>, subs: nat) {
    && r.sub <= subs
    && (r.sub == 0 ==> r.status == Ok)
    && (r.sub > 0 ==> Progress(r) && Moved(Moves(log, r.sub), r))
    && (r.status == Error ==> r.address % 4 != 0 || GetSlave(slaves, r.address) == |slaves|)
  }

  ghost predicate RequestsOk(rs: seq<Request>, slaves: seq<Slave>, log: seq<Transfer>, subs: nat) {
    && (forall i :: 0 <= i < |rs| ==> RequestOk(rs[i], slaves, log, subs))
    && (forall i, j :: 0 <= i < j < |rs| && rs[i].sub == rs[j].sub ==> rs[i].sub == 0)
    && (forall k :: 0 <= k < |log| ==> log[k].sub <= subs)
  }

  lemma NoMoves(log: seq<Transfer>, sub: nat)
    requires forall k :: 0 <= k < |log| ==> log[k].sub != sub
    ensures Moves(log, sub) == []
  {
  }

  lemma SubmitRequests(b: Bus, p: nat, w: bool, d: nat, a: nat, n: nat, l: bool)
    requires RequestsOk(b.requests, b.slaves, b.log, b.subs) && Enabled(b, SubmitStep(p, w, d, a, n, l))
    ensures var r := Submit(b, p, w, d, a, n, l); RequestsOk(r.requests, r.slaves, r.log, r.subs)
  {
    hide Moves, FindRequest, GetSlave;
    var r := Submit(b, p, w, d, a, n, l);
    var i := FindRequest(b.requests, p);
    NoMoves(b.log, b.subs + 1);
    assert RequestOk(r.requests[i], r.slaves, r.log, r.subs);
    forall j | 0 <= j < |r.requests| ensures RequestOk(r.requests[j], r.slaves, r.log, r.subs) {
      assert j != i ==> r.requests[j] == b.requests[j] && RequestOk(b.requests[j], b.slaves, b.log, b.subs);
    }
  }

  /** The invariant does not look at the locks, nor at the slaves beyond their layout. */
  lemma SameRequests(rs: seq<Request>, ts: seq<Request>, s: seq<Slave>, t: seq<Slave>, log: seq<Transfer>, subs: nat)
    requires RequestsOk(rs, s, log, subs) && SameLayout(s, t) && |rs| == |ts|
    requires forall i :: 0 <= i < |rs| ==> SameButLock(rs[i], ts[i])
    ensures RequestsOk(ts, t, log, subs)
  {
    hide GetSlave, Moves, Words, Wrap, Stops, SameLayout;
    forall i | 0 <= i < |ts| ensures RequestOk(ts[i], t, log, subs) {
      assert |s| == |t| by { LayoutLength(s, t); }
      GetSlaveSame(s, t, ts[i].address);
      assert SameButLock(rs[i], ts[i]);
      assert RequestOk(rs[i], s, log, subs);
      assert ts[i] == rs[i].(lock := ts[i].lock);
    }
    forall i, j | 0 <= i < j < |ts| && ts[i].sub == ts[j].sub ensures ts[i].sub == 0 {
      assert SameButLock(rs[i], ts[i]) && SameButLock(rs[j], ts[j]);
    }
  }

  lemma LayoutLength(s: seq<Slave>, t: seq<Slave>)
    requires SameLayout(s, t)
    ensures |s| == |t|
  {
  }

  /** A transfer that belongs to no request form, or to form c, which moves on by one word. */
  lemma RequestsAppend(rs: seq<Request>, ts: seq<Request>, c: nat, s: seq<Slave>, log: seq<Transfer>, t: Transfer,
                       subs: nat)
    requires RequestsOk(rs, s, log, subs) && |ts| == |rs| && t.sub <= subs && c <= |rs|
    requires forall i :: 0 <= i < |rs| && i != c ==> ts[i] == rs[i]
    requires if c == |rs| then t.sub == 0 else
               && ts[c].sub == rs[c].sub == t.sub > 0 && ts[c].status != Error
               && Progress(ts[c]) && ts[c].done == rs[c].done + 1
               && ts[c].start == rs[c].start && ts[c].base == rs[c].base && ts[c].doWrite == rs[c].doWrite
               && t.address == Wrap(rs[c].start + 4 * rs[c].done) && t.data == rs[c].base + rs[c].done
               && t.write == rs[c].doWrite
    ensures RequestsOk(ts, s, log + [t], subs)
  {
    hide GetSlave, Moves, Progress, Wrap;
    forall i | 0 <= i < |ts| ensures RequestOk(ts[i], s, log + [t], subs) {
      MovesAppend(log, t, ts[i].sub);
      assert RequestOk(rs[i], s, log, subs);
    }
  }

  /** A ready slave moves exactly the next word of the request. */
  lemma HandleWord(b: Bus)
    requires b.current.Some? && b.current.value < |b.requests| && MemoryOk(b.slaves, b.log)
    requires b.requests[b.current.value].address % 4 == 0
    requires var i := GetSlave(b.slaves, b.requests[b.current.value].address);
             i < |b.slaves| && Ready(b.slaves[i])
    ensures var h, r := Handle(b), b.requests[b.current.value];
            var r1 := h.requests[b.current.value];
            && MemoryOk(h.slaves, h.log) && SameLayout(b.slaves, h.slaves)
            && |h.log| == |b.log| + 1 && h.log == b.log + [h.log[|b.log|]]
            && h.log[|b.log|].sub == r.sub && h.log[|b.log|].write == r.doWrite
            && h.log[|b.log|].address == r.address && h.log[|b.log|].data == r.data
            && WordMoved(b, h, h.log[|b.log|])
            && r1.(status := Wait) == r.(address := Wrap(r.address + 4), data := r.data + 1, done := r.done + 1,
                                         status := Wait)
            && r1.status == if r1.address > r.endAddress then Ok else Wait
  {
    hide GetSlave, Move, MemoryOk, SameLayout, Wrap;
    var r := b.requests[b.current.value];
    var i := GetSlave(b.slaves, r.address);
    var waited := if b.slaves[i].waitStates.None? then 0 else b.since + 1;
    MoveMemory(b, i, r.sub, r.doWrite, r.address, r.data, waited);
    var m := Move(b, i, r.sub, r.doWrite, r.address, r.data, waited);
    assert Handle(b).log == m.log && Handle(b).slaves == m.slaves;
    assert m.log == m.log[..|b.log|] + [m.log[|b.log|]];
  }

  lemma HandleRequests(b: Bus)
    requires b.current.Some? && b.current.value < |b.requests| && Pending(b.requests[b.current.value])
    requires MemoryOk(b.slaves, b.log) && RequestsOk(b.requests, b.slaves, b.log, b.subs)
    ensures var h := Handle(b); MemoryOk(h.slaves, h.log) && RequestsOk(h.requests, h.slaves, h.log, h.subs)
  {
    hide GetSlave, Handle, MemoryOk, RequestsOk, Progress;
    var c := b.current.value;
    var r, h := b.requests[c], Handle(b);
    var i := GetSlave(b.slaves, r.address);
    HandleMoves(b);
    HandleChanges(b);
    RequestFacts(b.requests, b.slaves, b.log, b.subs, c);
    if r.address % 4 == 0 && i < |b.slaves| && Ready(b.slaves[i]) {
      HandleWord(b);
      NextWord(r.(status := Wait), h.requests[c]);
      RequestsAppend(b.requests, h.requests, c, b.slaves, b.log, h.log[|b.log|], b.subs);
      SameRequests(h.requests, h.requests, b.slaves, h.slaves, h.log, b.subs);
    } else {
      HandleStays(b);
      MemorySame(b.slaves, h.slaves, b.log);
      OneRequest(b.requests, c, h.requests[c], b.slaves, b.log, b.subs);
      SameRequests(h.requests, h.requests, b.slaves, h.slaves, h.log, b.subs);
    }
  }

  lemma HandleStays(b: Bus)
    requires b.current.Some? && b.current.value < |b.requests|
    requires var r := b.requests[b.current.value];
             var i := GetSlave(b.slaves, r.address);
             !(r.address % 4 == 0 && i < |b.slaves| && Ready(b.slaves[i]))
    ensures var h, r := Handle(b), b.requests[b.current.value];
            && h.requests[b.current.value] == r.(status := h.requests[b.current.value].status)
            && (if r.address % 4 != 0 || GetSlave(b.slaves, r.address) == |b.slaves|
                then h.requests[b.current.value].status == Error
                else h.requests[b.current.value].status == Wait)
            && |h.slaves| == |b.slaves|
            && (forall i :: 0 <= i < |b.slaves| ==> h.slaves[i].mem == b.slaves[i].mem)
  {
    hide GetSlave;
  }

  lemma RequestFacts(rs: seq<Request>, s: seq<Slave>, log: seq<Transfer>, subs: nat, c: nat)
    requires RequestsOk(rs, s, log, subs) && c < |rs| && rs[c].status != Ok
    ensures 0 < rs[c].sub <= subs && Progress(rs[c]) && Progress(rs[c].(status := Wait))
    ensures rs[c].address == Wrap(rs[c].start + 4 * rs[c].done) && rs[c].data == rs[c].base + rs[c].done
  {
    hide Wrap, Words, Stops, Moves;
    assert RequestOk(rs[c], s, log, subs);
  }

  /** Only the status of one unfinished request changes. */
  lemma OneRequest(rs: seq<Request>, c: nat, r: Request, s: seq<Slave>, log: seq<Transfer>, subs: nat)
    requires RequestsOk(rs, s, log, subs) && c < |rs| && rs[c].status != Ok && r.status != Ok
    requires r == rs[c].(status := r.status)
    requires r.status == Error ==> r.address % 4 != 0 || GetSlave(s, r.address) == |s|
    ensures RequestsOk(rs[c := r], s, log, subs)
  {
    hide GetSlave, Moves, Wrap, Words, Stops;
    assert RequestOk(rs[c], s, log, subs);
    assert RequestOk(r, s, log, subs);
  }

  lemma MainActionRequests(b: Bus)
    requires b.current.Some? ==> b.current.value < |b.requests| && Pending(b.requests[b.current.value])
    requires MemoryOk(b.slaves, b.log) && RequestsOk(b.requests, b.slaves, b.log, b.subs)
    ensures var r := MainAction(b); MemoryOk(r.slaves, r.log) && RequestsOk(r.requests, r.slaves, r.log, r.subs)
  {
    hide GetSlave, NextRequest, Handle, MemoryOk, RequestsOk, ClearLocks;
    var n := if b.current.None? then NextRequest(b) else b;
    if b.current.None? {
      NextChooses(b);
      SettleSlaves(b);
      SameRequests(b.requests, n.requests, b.slaves, b.slaves, b.log, b.subs);
    }
    var h := if n.current.Some? then Handle(n) else n;
    if n.current.Some? {
      HandleRequests(n);
    }
    SettleSlaves(h);
    SameRequests(h.requests, Settle(h).requests, h.slaves, h.slaves, h.log, h.subs);
  }

  lemma DirectRequests(b: Bus, w: bool, d: nat, a: nat)
    requires MemoryOk(b.slaves, b.log) && RequestsOk(b.requests, b.slaves, b.log, b.subs)
    ensures var r := Direct(b, w, d, a); MemoryOk(r.slaves, r.log) && RequestsOk(r.requests, r.slaves, r.log, r.subs)
  {
    hide GetSlave, Move, MemoryOk, RequestsOk;
    var i := GetSlave(b.slaves, a);
    var r := Direct(b, w, d, a);
    if a % 4 == 0 && i < |b.slaves| {
      MoveMemory(b, i, 0, w, a, d, 0);
      assert r.log == r.log[..|b.log|] + [r.log[|b.log|]];
      DirectKeeps(b, w, d, a);
      RequestsAppend(b.requests, b.requests, |b.requests|, b.slaves, b.log, r.log[|b.log|], b.subs);
      SameRequests(b.requests, b.requests, b.slaves, r.slaves, r.log, b.subs);
    }
  }

  lemma DirectKeeps(b: Bus, w: bool, d: nat, a: nat)
    ensures var r := Direct(b, w, d, a);
            && r.requests == b.requests && r.subs == b.subs && r.current == b.current && r.last == b.last
            && r.risen == b.risen
  {
  }
}
