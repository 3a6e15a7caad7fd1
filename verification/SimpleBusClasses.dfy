/** The simple_bus modules as objects whose methods update their fields, refining the state machine. */
module SimpleBusClasses {
  import opened SimpleBus
  import Mem = SimpleBusMemory
  import opened Wrappers

  // ------------------------------------------------------------------ slaves

  /** simple_bus_slow_mem, and simple_bus_fast_mem when there are no wait states to count. */
  class Memory {
    const start: nat
    const end: nat
    const waitStates: Option<nat>
    const mem: array<int>
    var waitCount: int

    ghost predicate Valid()
      reads this
    {
      start <= end && mem.Length * 4 == end - start + 1
    }

    ghost function View(): Slave
      reads this, mem
    {
      Slave(start, end, mem[..], waitStates, waitCount)
    }

    constructor (start: nat, end: nat, waitStates: Option<nat>)
      requires start <= end < WORD_LIMIT && (end - start + 1) % 4 == 0
      ensures Valid() && fresh(mem) && Fresh(View())
      ensures this.start == start && this.end == end && this.waitStates == waitStates
    {
      this.start, this.end, this.waitStates := start, end, waitStates;
      waitCount := -1;
      mem := new int[(end - start + 1) / 4](_ => 0);
    }

    /** The rising clock edge. */
    method Tick()
      modifies `waitCount
      ensures View() == WaitLoop(old(View()))
    {
      if waitCount >= 0 {
        waitCount := waitCount - 1;
      }
    }

    /** Reads the word at the address, or makes the caller wait. */
    method Read(address: nat) returns (status: Status, value: int)
      requires Valid() && Covers(View(), address)
      modifies `waitCount
      ensures status == if Ready(old(View())) then Ok else Wait
      ensures status == Ok ==> value == old(View()).mem[Index(old(View()), address)]
      ensures View() == if Ready(old(View())) then old(View()) else Accept(old(View()))
    {
      if waitStates.Some? {
        if waitCount < 0 {
          waitCount := waitStates.value;
          return Wait, 0;
        }
        if waitCount != 0 {
          return Wait, 0;
        }
      }
      return Ok, mem[(address - start) / 4];
    }

    /** Writes the word at the address, or makes the caller wait. */
    method Write(value: int, address: nat) returns (status: Status)
      requires Valid() && Covers(View(), address)
      modifies `waitCount, mem
      ensures status == if Ready(old(View())) then Ok else Wait
      ensures var s := old(View());
              View() == if Ready(s) then s.(mem := s.mem[Index(s, address) := value]) else Accept(s)
    {
      if waitStates.Some? {
        if waitCount < 0 {
          waitCount := waitStates.value;
          return Wait;
        }
        if waitCount != 0 {
          return Wait;
        }
      }
      mem[(address - start) / 4] := value;
      return Ok;
    }

    method DirectRead(address: nat) returns (value: int)
      requires Valid() && Covers(View(), address)
      ensures value == View().mem[Index(View(), address)]
    {
      value := mem[(address - start) / 4];
    }

    method DirectWrite(value: int, address: nat)
      requires Valid() && Covers(View(), address)
      modifies mem
      ensures View() == old(View()).(mem := old(View()).mem[Index(old(View()), address) := value])
    {
      mem[(address - start) / 4] := value;
    }
  }

  /** The arrays of several memories. */
  ghost function Arrays(ms: seq<Memory>): set<array<int>> {
    set m | m in ms :: m.mem
  }

  /** What several memories hold. */
  ghost function Views(ms: seq<Memory>): (r: seq<Slave>)
    reads ms, Arrays(ms)
    ensures |r| == |ms| && forall i :: 0 <= i < |r| ==> r[i] == ms[i].View()
  {
    if ms == [] then [] else [ms[0].View()] + Views(ms[1..])
  }

  /** The memories are well-formed, and no two of them are the same or share their words. */
  ghost predicate Apart(ms: seq<Memory>)
    reads ms
  {
    && (forall i :: 0 <= i < |ms| ==> ms[i].Valid())
    && forall i, j :: 0 <= i < j < |ms| ==> ms[i] != ms[j] && ms[i].mem != ms[j].mem
  }

  // ------------------------------------------------------------------ the bus

  /** simple_bus with its arbiter. The fields log, last, since and subs are history. */
  class BusModule {
    var requests: seq<Request>
    var currentRequest: Option<nat>
    const slavePort: seq<Memory>
    var host: map<nat, int>
    ghost var risen: bool
    ghost var log: seq<Transfer>
    ghost var last: Option<nat>
    ghost var since: nat
    var subs: nat

    ghost function View(): Bus
      reads this, slavePort, Arrays(slavePort)
    {
      Bus(requests, currentRequest, Views(slavePort), host, risen, log, last, since, subs)
    }

    ghost predicate Valid()
      reads this, slavePort
    {
      (currentRequest.Some? ==> currentRequest.value < |requests|) && Apart(slavePort)
    }

    constructor (slaves: seq<Memory>)
      requires Apart(slaves) && forall i :: 0 <= i < |slaves| ==> Fresh(slaves[i].View())
      ensures Valid() && slavePort == slaves
      ensures Init(View()) <==> NoOverlap(Views(slaves))
    {
      slavePort := slaves;
      requests, currentRequest, host, subs := [], None, map[], 0;
      risen, log, last, since := false, [], None, 0;
    }

    /** The static check for overlapping slaves. */
    method EndOfElaboration() returns (ok: bool)
      ensures ok <==> NoOverlap(Views(slavePort))
    {
      var i := 1;
      while i < |slavePort|
        invariant 1 <= i && (i <= |slavePort| || i == 1)
        invariant forall m, n :: 0 <= n < m < i && m < |slavePort| ==>
          slavePort[m].end < slavePort[n].start || slavePort[m].start > slavePort[n].end
      {
        var j := 0;
        while j < i
          invariant 0 <= j <= i
          invariant forall n :: 0 <= n < j ==>
            slavePort[i].end < slavePort[n].start || slavePort[i].start > slavePort[n].end
        {
          if !(slavePort[i].end < slavePort[j].start || slavePort[i].start > slavePort[j].end) {
            return false;
          }
          j := j + 1;
        }
        i := i + 1;
      }
      return true;
    }

    method FindSlave(address: nat) returns (i: nat)
      ensures i == GetSlave(Views(slavePort), address)
    {
      i := 0;
      while i < |slavePort|
        invariant i <= GetSlave(Views(slavePort), address)
      {
        if slavePort[i].start <= address && address <= slavePort[i].end {
          return;
        }
        i := i + 1;
      }
    }

    method GetRequest(priority: nat) returns (i: nat)
      modifies `requests
      ensures requests == WithRequest(old(requests), priority)
      ensures i == FindRequest(old(requests), priority)
    {
      i := 0;
      while i < |requests|
        invariant i <= FindRequest(requests, priority) && requests == old(requests)
      {
        if requests[i].priority == priority {
          return;
        }
        i := i + 1;
      }
      requests := requests + [NewRequest(priority)];
    }

    /** read, write, burst_read and burst_write, as far as the wait for the transfer: a single transfer
        is a burst of length 1. */
    method SubmitRequest(priority: nat, write: bool, data: nat, address: nat, length: nat, lock: bool)
      requires address < WORD_LIMIT
      modifies `requests, `subs
      ensures View() == Submit(old(View()), priority, write, data, address, length, lock)
    {
      var i := GetRequest(priority);
      var r := requests[i];
      if lock {
        r := r.(lock := if r.lock == Set then Granted else Set);
      }
      subs := subs + 1;
      requests := requests[i := r.(priority := priority, doWrite := write, address := address,
                                   endAddress := Wrap(address + (length - 1) * 4), data := data, status := Requested,
                                   start := address, base := data, length := length, sub := subs, done := 0)];
    }

    /** The arbiter: a locked burst, then a granted lock, then the least priority number. */
    method Arbitrate(q: seq<nat>) returns (best: nat)
      requires q != [] && forall k :: 0 <= k < |q| ==> q[k] < |requests|
      modifies `requests
      ensures best == Choose(old(requests), q) && requests == Promote(old(requests), q)
    {
      var i := 0;
      while i < |q|
        invariant i <= FirstLocked(requests, q) && requests == old(requests)
      {
        if requests[q[i]].status == Wait && requests[q[i]].lock == Set {
          return q[i];
        }
        i := i + 1;
      }
      i := 0;
      while i < |q|
        invariant i <= FirstGranted(requests, q) && requests == old(requests)
      {
        if requests[q[i]].lock == Granted {
          return q[i];
        }
        i := i + 1;
      }
      best := q[0];
      i := 1;
      while i < |q|
        invariant 1 <= i <= |q| && best == Best(requests, q[..i]) && requests == old(requests)
        invariant best in q
      {
        assert q[..i + 1][..i] == q[..i];
        if requests[q[i]].priority < requests[best].priority {
          best := q[i];
        }
        i := i + 1;
      }
      assert q[..|q|] == q;
      if requests[best].lock != Unlocked {
        requests := requests[best := requests[best].(lock := Granted)];
      }
    }

    /** Composes the set of likely requests. */
    method CollectPending() returns (q: seq<nat>)
      ensures q == PendingFrom(requests, 0)
    {
      q := [];
      var i: nat := 0;
      while i < |requests|
        invariant i <= |requests|
        invariant q + PendingFrom(requests, i) == PendingFrom(requests, 0)
      {
        PendingStep(requests, q, i);
        if requests[i].status == Requested || requests[i].status == Wait {
          q := q + [i];
        }
        i := i + 1;
      }
      PendingStep(requests, q, i);
    }

    lemma PendingStep(requests: seq<Request>, q: seq<nat>, i: nat)
      requires i <= |requests|
      ensures i == |requests| ==> q + PendingFrom(requests, i) == q
      ensures i < |requests| ==> q + PendingFrom(requests, i)
                                 == (if Pending(requests[i]) then q + [i] else q) + PendingFrom(requests, i + 1)
    {
      if i < |requests| {
        assert q + ([i] + PendingFrom(requests, i + 1)) == (q + [i]) + PendingFrom(requests, i + 1);
      }
    }

    method GetNextRequest()
      requires currentRequest.None?
      modifies this
      ensures View() == NextRequest(old(View()))
    {
      hide PendingFrom, Choose, Promote;
      var q := CollectPending();
      if |q| > 0 {
        GrantBest(q);
      }
    }

    method GrantBest(q: seq<nat>)
      requires currentRequest.None? && q == PendingFrom(requests, 0) && q != []
      modifies this
      ensures View() == NextRequest(old(View()))
    {
      hide PendingFrom, Choose, Promote;
      var best := Arbitrate(q);
      currentRequest := Some(best);
      last := Some(best);
      since := 0;
    }

    /** One memory has changed, and no other. */
    twostate lemma OneChanged(i: nat)
      requires i < |slavePort| && old(Apart(slavePort))
      requires forall j :: 0 <= j < |slavePort| && j != i ==> unchanged(slavePort[j]) && unchanged(slavePort[j].mem)
      ensures Views(slavePort) == old(Views(slavePort))[i := slavePort[i].View()]
      ensures Apart(slavePort)
    {
    }

    /** The read or write call to slave i. */
    method CallSlave(i: nat, write: bool, value: int, address: nat) returns (status: Status, v: int)
      requires i < |slavePort| && Covers(slavePort[i].View(), address) && Apart(slavePort)
      modifies slavePort[i], slavePort[i].mem
      ensures Apart(slavePort)
      ensures status == if Ready(old(slavePort[i].View())) then Ok else Wait
      ensures Views(slavePort) == old(Views(slavePort))[i := Called(old(slavePort[i].View()), write, value, address)]
      ensures status == Ok ==> v == if write then value else old(slavePort[i].View()).mem[Index(old(slavePort[i].View()), address)]
    {
      hide Views;
      if write {
        v := value;
        status := slavePort[i].Write(v, address);
      } else {
        status, v := slavePort[i].Read(address);
      }
      OneChanged(i);
    }

    /** What the call leaves behind in the slave. */
    function Called(s: Slave, write: bool, value: int, address: nat): Slave
      requires Covers(s, address) && Index(s, address) < |s.mem|
    {
      if !Ready(s) then Accept(s) else if write then s.(mem := s.mem[Index(s, address) := value]) else s
    }

    /** One access to slave i, which answers at once, waits, or is still waiting. */
    method AccessSlave(i: nat, r: Request) returns (status: Status)
      requires i < |slavePort| && Covers(slavePort[i].View(), r.address) && Valid()
      modifies `host, `log, `since, slavePort[i], slavePort[i].mem
      ensures Valid()
      ensures status == if Ready(old(Views(slavePort))[i]) then Ok else Wait
      ensures Ready(old(Views(slavePort))[i]) ==>
                View() == Move(old(View()), i, r.sub, r.doWrite, r.address, r.data,
                               if slavePort[i].waitStates.None? then 0 else old(since) + 1)
      ensures !Ready(old(Views(slavePort))[i]) ==>
                View() == old(View()).(slaves := old(Views(slavePort))[i := Accept(old(Views(slavePort))[i])],
                                       since := if old(Views(slavePort))[i].count < 0 then 0 else old(since) + 1)
    {
      hide Views, Apart, Accept;
      ghost var s := Views(slavePort)[i];
      ghost var waited := if s.waitStates.None? then 0 else since + 1;
      InBounds(i, r.address);
      var value := HostWord(host, r.data);
      var v;
      status, v := CallSlave(i, r.doWrite, value, r.address);
      if status == Ok {
        if !r.doWrite {
          host := host[r.data := v];
        }
        log := log + [Transfer(r.sub, r.doWrite, r.address, r.data, v, waited)];
      } else {
        since := if s.count < 0 then 0 else since + 1;
      }
    }

    lemma InBounds(i: nat, address: nat)
      requires i < |slavePort| && Covers(slavePort[i].View(), address) && Apart(slavePort)
      ensures Index(slavePort[i].View(), address) < |slavePort[i].View().mem|
    {
    }

    lemma MoveIgnoresRequests(b: Bus, requests: seq<Request>, i: nat, r: Request, waited: nat)
      requires i < |b.slaves| && Covers(b.slaves[i], r.address)
      ensures Move(b.(requests := requests), i, r.sub, r.doWrite, r.address, r.data, waited)
              == Move(b, i, r.sub, r.doWrite, r.address, r.data, waited).(requests := requests)
    {
    }

    /** The request form after a word has moved. */
    function Moved(r: Request): Request {
      var next := r.(address := Wrap(r.address + 4), data := r.data + 1, done := r.done + 1);
      if next.address > r.endAddress then next.(status := Ok) else next
    }

    lemma HandleReady(b: Bus, c: nat, r: Request, i: nat, waited: nat)
      requires b.current == Some(c) && c < |b.requests| && r == b.requests[c].(status := Wait)
      requires r.address % 4 == 0 && i == GetSlave(b.slaves, r.address) < |b.slaves| && Ready(b.slaves[i])
      requires waited == if b.slaves[i].waitStates.None? then 0 else b.since + 1
      ensures Handle(b) == Move(b.(requests := b.requests[c := r]), i, r.sub, r.doWrite, r.address, r.data, waited)
                           .(requests := b.requests[c := Moved(r)], current := None)
    {
      hide GetSlave, Wrap, Move, Index;
      MoveIgnoresRequests(b, b.requests[c := r], i, r, waited);
    }

    lemma HandleWaits(b: Bus, c: nat, r: Request, i: nat)
      requires b.current == Some(c) && c < |b.requests| && r == b.requests[c].(status := Wait)
      requires r.address % 4 == 0 && i == GetSlave(b.slaves, r.address) < |b.slaves| && !Ready(b.slaves[i])
      ensures Handle(b) == b.(requests := b.requests[c := r], slaves := b.slaves[i := Accept(b.slaves[i])],
                              since := if b.slaves[i].count < 0 then 0 else b.since + 1)
    {
      hide GetSlave, Wrap, Accept;
    }

    lemma HandleFails(b: Bus, c: nat, r: Request)
      requires b.current == Some(c) && c < |b.requests| && r == b.requests[c].(status := Wait)
      requires r.address % 4 != 0 || GetSlave(b.slaves, r.address) == |b.slaves|
      ensures Handle(b) == b.(requests := b.requests[c := r.(status := Error)], current := None)
    {
      hide GetSlave, Wrap;
    }

    method HandleRequest()
      requires Valid() && currentRequest.Some?
      modifies this, slavePort, Arrays(slavePort)
      ensures Valid() && View() == Handle(old(View()))
    {
      hide GetSlave, Wrap, Move, Accept, Index, Views, Apart, Handle, Moved;
      var c := currentRequest.value;
      ghost var b := View();
      requests := requests[c := requests[c].(status := Wait)];
      var r := requests[c];
      var i := FindSlave(r.address);
      if r.address % 4 != 0 || i == |slavePort| {
        HandleFails(b, c, r);
        RefuseRequest(c, r);
        return;
      }
      var status := AccessSlave(i, r);
      if status == Ok {
        HandleReady(b, c, r, i, if slavePort[i].waitStates.None? then 0 else b.since + 1);
        FinishWord(c, r);
      } else {
        HandleWaits(b, c, r, i);
      }
    }

    method RefuseRequest(c: nat, r: Request)
      requires c < |requests|
      modifies `requests, `currentRequest
      ensures View() == old(View()).(requests := old(requests)[c := r.(status := Error)], current := None)
    {
      hide Views;
      requests := requests[c := r.(status := Error)];
      currentRequest := None;
    }

    /** A word has moved: the form goes on to the next, and is done at the end. */
    method FinishWord(c: nat, r: Request)
      requires c < |requests| && requests[c] == r
      modifies `requests, `currentRequest
      ensures View() == old(View()).(requests := old(requests)[c := Moved(r)], current := None)
    {
      hide Views;
      var next := r.(address := Wrap(r.address + 4), data := r.data + 1, done := r.done + 1);
      if next.address > next.endAddress {
        next := next.(status := Ok);
      }
      requests := requests[c := next];
      currentRequest := None;
    }

    method ClearAllLocks()
      modifies `requests
      ensures requests == ClearLocks(old(requests))
    {
      hide ClearLocks;
      var i := 0;
      while i < |requests|
        invariant i <= |requests| == |old(requests)|
        invariant forall k :: 0 <= k < i ==> requests[k] == ClearLocks(old(requests))[k]
        invariant forall k :: i <= k < |requests| ==> requests[k] == old(requests[k])
      {
        if requests[i].lock == Granted {
          requests := requests[i := requests[i].(lock := Set)];
        } else {
          requests := requests[i := requests[i].(lock := Unlocked)];
        }
        i := i + 1;
      }
    }

    /** The process sensitive to the falling edge. */
    method Fall()
      requires Valid() && risen
      modifies this, slavePort, Arrays(slavePort)
      ensures View() == MainAction(old(View()))
    {
      hide NextRequest, Handle, ClearLocks;
      if currentRequest.None? {
        ghost var before := View();
        GetNextRequest();
        NextInRange(before);
      }
      if currentRequest.Some? {
        HandleRequest();
      }
      if currentRequest.None? {
        ClearAllLocks();
      }
      risen := false;
    }

    lemma NextInRange(b: Bus)
      requires b.current.None?
      ensures NextRequest(b).current.Some? ==> NextRequest(b).current.value < |NextRequest(b).requests|
      ensures NextRequest(b).slaves == b.slaves
    {
    }

    /** The direct interface: a read leaves the word of the slave in the masters' memory, a write the word of
        the masters' memory in the slave, and the other side stays as it is. */
    method DirectAccess(write: bool, data: nat, address: nat) returns (ok: bool)
      requires Valid()
      modifies this, slavePort, Arrays(slavePort)
      ensures Valid() && View() == Direct(old(View()), write, data, address)
      ensures ok <==> address % 4 == 0 && exists i :: 0 <= i < |slavePort| && slavePort[i].start <= address <= slavePort[i].end
      ensures !ok ==> View() == old(View())
      ensures ok && write ==> Word(Views(slavePort), address) == old(HostWord(host, data)) && host == old(host)
      ensures ok && !write ==>
                && HostWord(host, data) == old(Word(Views(slavePort), address))
                && (forall p :: p != data ==> HostWord(host, p) == old(HostWord(host, p)))
                && (forall a: nat :: Word(Views(slavePort), a) == old(Word(Views(slavePort), a)))
      ensures forall a: nat :: a != address && a % 4 == 0 ==> Word(Views(slavePort), a) == old(Word(Views(slavePort), a))
    {
      hide Views, Apart, GetSlave, Move, Word, HostWord;
      BoundsKnown();
      Mem.DirectExactly(View(), write, data, address);
      if address % 4 != 0 {
        return false;
      }
      var i := FindSlave(address);
      if i == |slavePort| {
        assert forall j :: 0 <= j < |slavePort| ==> !Covers(Views(slavePort)[j], address);
        return false;
      }
      MoveDirectly(i, write, data, address);
      assert slavePort[i].start <= address <= slavePort[i].end;
      return true;
    }

    lemma BoundsKnown()
      requires Apart(slavePort)
      ensures Mem.AllSlavesOk(View().slaves)
    {
    }

    method MoveDirectly(i: nat, write: bool, data: nat, address: nat)
      requires i < |slavePort| && Covers(slavePort[i].View(), address) && Valid()
      modifies `host, `log, slavePort[i], slavePort[i].mem
      ensures Valid() && View() == Move(old(View()), i, 0, write, address, data, 0)
    {
      hide Views, Apart;
      InBounds(i, address);
      var v := HostWord(host, data);
      v := CallDirectly(i, write, v, address);
      if !write {
        host := host[data := v];
      }
      log := log + [Transfer(0, write, address, data, v, 0)];
    }

    /** The direct_read or direct_write call to slave i. */
    method CallDirectly(i: nat, write: bool, value: int, address: nat) returns (v: int)
      requires i < |slavePort| && Covers(slavePort[i].View(), address) && Apart(slavePort)
      modifies slavePort[i].mem
      ensures Apart(slavePort)
      ensures var s := old(Views(slavePort))[i];
              && Index(s, address) < |s.mem|
              && v == (if write then value else s.mem[Index(s, address)])
              && Views(slavePort) == if write then old(Views(slavePort))[i := s.(mem := s.mem[Index(s, address) := v])]
                                     else old(Views(slavePort))
    {
      hide Views;
      InBounds(i, address);
      if write {
        v := value;
        slavePort[i].DirectWrite(v, address);
      } else {
        v := slavePort[i].DirectRead(address);
      }
      OneChanged(i);
    }

    /** The rising clock edge: every slave's wait_loop. */
    method Rise()
      requires Valid() && !risen
      modifies `risen, slavePort
      ensures Valid() && View() == RisingEdge(old(View()))
    {
      hide WaitLoops;
      var i := 0;
      while i < |slavePort|
        invariant 0 <= i <= |slavePort| && Apart(slavePort)
        invariant forall j :: 0 <= j < i ==> slavePort[j].View() == WaitLoop(old(slavePort[j].View()))
        invariant forall j :: i <= j < |slavePort| ==> slavePort[j].View() == old(slavePort[j].View())
      {
        slavePort[i].Tick();
        i := i + 1;
      }
      risen := true;
      assert Views(slavePort) == WaitLoops(old(Views(slavePort)));
    }
  }
}
