/** The simple_bus example as a state machine: masters submit requests, the bus arbitrates and serves
    one slave access per falling clock edge, slow slaves count wait states down on rising edges. */
module SimpleBus {
  import opened Wrappers

  const WORD_LIMIT: nat := 0x1_0000_0000

  /** Unsigned 32-bit arithmetic wraps around. */
  function Wrap(n: int): nat {
    n % WORD_LIMIT
  }

  datatype Status = Ok | Requested | Wait | Error

  datatype Lock = Unlocked | Set | Granted

  /** A request form. data is the position of the next word in the masters' memory. start, base, length,
      sub and done are history: the burst that was asked for, its number, and how many words it has moved. */
  datatype Request = Request(priority: nat, doWrite: bool, address: nat, endAddress: nat, data: nat,
                             lock: Lock, status: Status,
                             start: nat, base: nat, length: nat, sub: nat, done: nat)

  /** A memory slave; waitStates is None for the fast memory. */
  datatype Slave = Slave(start: nat, end: nat, mem: seq<int>, waitStates: Option<nat>, count: int)

  /** One word moved between a slave and the masters' memory. waited counts the falling edges after
      the one on which the access started; sub is 0 for a direct access. */
  datatype Transfer = Transfer(sub: nat, write: bool, address: nat, data: nat, value: int, waited: nat)

  datatype Bus = Bus(requests: seq<Request>, current: Option<nat>, slaves: seq<Slave>,
                     host: map<nat, int>, risen: bool,
                     log: seq<Transfer>, last: Option<nat>, since: nat, subs: nat)

  function HostWord(host: map<nat, int>, p: nat): int {
    if p in host then host[p] else 0
  }

  // --------------------------------------------------------------------- slaves

  predicate Covers(s: Slave, address: nat) {
    s.start <= address <= s.end
  }

  function Index(s: Slave, address: nat): nat
    requires Covers(s, address)
  {
    (address - s.start) / 4
  }

  /** The first slave that covers the address; their number when there is none. */
  function GetSlave(slaves: seq<Slave>, address: nat): (i: nat)
    ensures i <= |slaves|
    ensures i < |slaves| ==> Covers(slaves[i], address)
    ensures forall j :: 0 <= j < i ==> !Covers(slaves[j], address)
  {
    if slaves == [] || Covers(slaves[0], address) then 0 else 1 + GetSlave(slaves[1..], address)
  }

  ghost predicate NoOverlap(slaves: seq<Slave>) {
    forall i, j :: 0 <= j < i < |slaves| ==>
      slaves[i].end < slaves[j].start || slaves[i].start > slaves[j].end
  }

  /** After the overlap check, the slave found is the only one there is. */
  lemma SlaveUnambiguous(slaves: seq<Slave>, address: nat, j: nat)
    requires NoOverlap(slaves) && j < |slaves| && Covers(slaves[j], address)
    ensures GetSlave(slaves, address) == j
  {
    var i := GetSlave(slaves, address);
    assert i <= j;
  }

  /** The word the slaves together hold at an address. */
  function Word(slaves: seq<Slave>, address: nat): int {
    var i := GetSlave(slaves, address);
    if i < |slaves| && Index(slaves[i], address) < |slaves[i].mem| then slaves[i].mem[Index(slaves[i], address)]
    else 0
  }

  // -------------------------------------------------------------- requests

  function FindRequest(requests: seq<Request>, priority: nat): (i: nat)
    ensures i <= |requests|
    ensures i < |requests| ==> requests[i].priority == priority
    ensures forall j :: 0 <= j < i ==> requests[j].priority != priority
  {
    if requests == [] || requests[0].priority == priority then 0
    else 1 + FindRequest(requests[1..], priority)
  }

  function NewRequest(priority: nat): Request {
    Request(priority, false, 0, 0, 0, Unlocked, Ok, 0, 0, 0, 0, 0)
  }

  /** The request form of a priority, created on first use. */
  function WithRequest(requests: seq<Request>, priority: nat): (r: seq<Request>)
    ensures FindRequest(requests, priority) < |r|
  {
    if FindRequest(requests, priority) < |requests| then requests else requests + [NewRequest(priority)]
  }

  /** A master fills in its form; read and write are bursts of one word. */
  function Submit(b: Bus, priority: nat, write: bool, data: nat, address: nat, length: nat, lock: bool): Bus
    requires address < WORD_LIMIT
  {
    var rs := WithRequest(b.requests, priority);
    var i := FindRequest(b.requests, priority);
    var l := if !lock then rs[i].lock else if rs[i].lock == Set then Granted else Set;
    b.(requests := rs[i := Request(priority, write, address, Wrap(address + (length - 1) * 4), data, l, Requested,
                                   address, data, length, b.subs + 1, 0)],
       subs := b.subs + 1)
  }

  predicate Pending(r: Request) {
    r.status == Requested || r.status == Wait
  }

  /** The positions of the pending requests. */
  function PendingFrom(requests: seq<Request>, from: nat): (q: seq<nat>)
    requires from <= |requests|
    ensures forall k :: 0 <= k < |q| ==> from <= q[k] < |requests| && Pending(requests[q[k]])
    ensures forall i :: from <= i < |requests| && Pending(requests[i]) ==> i in q
    ensures forall k, m :: 0 <= k < m < |q| ==> q[k] < q[m]
    decreases |requests| - from
  {
    if from == |requests| then []
    else if Pending(requests[from]) then [from] + PendingFrom(requests, from + 1)
    else PendingFrom(requests, from + 1)
  }

  predicate LockedBurst(r: Request) {
    r.status == Wait && r.lock == Set
  }

  /** The first position in q whose request satisfies rule 1, or rule 2. */
  function FirstLocked(requests: seq<Request>, q: seq<nat>): (k: nat)
    requires forall k :: 0 <= k < |q| ==> q[k] < |requests|
    ensures k <= |q|
    ensures k < |q| ==> LockedBurst(requests[q[k]])
    ensures forall j :: 0 <= j < k ==> !LockedBurst(requests[q[j]])
  {
    if q == [] || LockedBurst(requests[q[0]]) then 0 else 1 + FirstLocked(requests, q[1..])
  }

  function FirstGranted(requests: seq<Request>, q: seq<nat>): (k: nat)
    requires forall k :: 0 <= k < |q| ==> q[k] < |requests|
    ensures k <= |q|
    ensures k < |q| ==> requests[q[k]].lock == Granted
    ensures forall j :: 0 <= j < k ==> requests[q[j]].lock != Granted
  {
    if q == [] || requests[q[0]].lock == Granted then 0 else 1 + FirstGranted(requests, q[1..])
  }

  /** The first position in q with the least priority number. */
  function Best(requests: seq<Request>, q: seq<nat>): (i: nat)
    requires q != [] && forall k :: 0 <= k < |q| ==> q[k] < |requests|
    ensures i in q
    ensures forall j :: j in q ==> requests[i].priority <= requests[j].priority
  {
    if |q| == 1 then q[0]
    else
      var i := Best(requests, q[..|q| - 1]);
      var j := q[|q| - 1];
      assert q == q[..|q| - 1] + [j];
      if requests[j].priority < requests[i].priority then j else i
  }

  /** The arbiter's choice. */
  function Choose(requests: seq<Request>, q: seq<nat>): (i: nat)
    requires q != [] && forall k :: 0 <= k < |q| ==> q[k] < |requests|
    ensures i in q
  {
    if FirstLocked(requests, q) < |q| then q[FirstLocked(requests, q)]
    else if FirstGranted(requests, q) < |q| then q[FirstGranted(requests, q)]
    else Best(requests, q)
  }

  /** Only rule 3 changes the chosen request: a lock that is set becomes granted. */
  function Promote(requests: seq<Request>, q: seq<nat>): (r: seq<Request>)
    requires q != [] && forall k :: 0 <= k < |q| ==> q[k] < |requests|
    ensures |r| == |requests|
  {
    var i := Choose(requests, q);
    if FirstLocked(requests, q) < |q| || FirstGranted(requests, q) < |q| || requests[i].lock == Unlocked
    then requests
    else requests[i := requests[i].(lock := Granted)]
  }

  /** get_next_request: nothing pending, or the arbiter's choice. */
  function NextRequest(b: Bus): Bus {
    var q := PendingFrom(b.requests, 0);
    if q == [] then b
    else b.(requests := Promote(b.requests, q), current := Some(Choose(b.requests, q)),
            last := Some(Choose(b.requests, q)), since := 0)
  }

  // --------------------------------------------------------------- slave access

  /** What a slave answers: it accepts the access and waits, still waits, or moves the word. */
  predicate Ready(s: Slave) {
    s.waitStates.None? || s.count == 0
  }

  function Accept(s: Slave): Slave {
    if s.waitStates.Some? && s.count < 0 then s.(count := s.waitStates.value) else s
  }

  /** Moves one word between slave i and the masters' memory. */
  function Move(b: Bus, i: nat, sub: nat, write: bool, address: nat, data: nat, waited: nat): Bus
    requires i < |b.slaves| && Covers(b.slaves[i], address)
  {
    var s := b.slaves[i];
    var k := Index(s, address);
    if k >= |s.mem| then b
    else if write then
      var v := HostWord(b.host, data);
      b.(slaves := b.slaves[i := s.(mem := s.mem[k := v])],
         log := b.log + [Transfer(sub, true, address, data, v, waited)])
    else
      b.(host := b.host[data := s.mem[k]],
         log := b.log + [Transfer(sub, false, address, data, s.mem[k], waited)])
  }

  /** handle_request: one access to the slave of the current request. */
  function Handle(b: Bus): Bus
    requires b.current.Some? && b.current.value < |b.requests|
  {
    var c := b.current.value;
    var r := b.requests[c].(status := Wait);
    var i := GetSlave(b.slaves, r.address);
    if r.address % 4 != 0 || i == |b.slaves| then
      b.(requests := b.requests[c := r.(status := Error)], current := None)
    else if !Ready(b.slaves[i]) then
      b.(requests := b.requests[c := r], slaves := b.slaves[i := Accept(b.slaves[i])],
         since := if b.slaves[i].count < 0 then 0 else b.since + 1)
    else
      var waited := if b.slaves[i].waitStates.None? then 0 else b.since + 1;
      var b1 := Move(b, i, r.sub, r.doWrite, r.address, r.data, waited);
      var r1 := r.(address := Wrap(r.address + 4), data := r.data + 1, done := r.done + 1);
      var r2 := if r1.address > r1.endAddress then r1.(status := Ok) else r1;
      b1.(requests := b.requests[c := r2], current := None)
  }

  function Downgrade(l: Lock): Lock {
    if l == Granted then Set else Unlocked
  }

  function ClearLocks(requests: seq<Request>): (r: seq<Request>)
    ensures |r| == |requests|
    ensures forall i :: 0 <= i < |r| ==> r[i] == requests[i].(lock := Downgrade(requests[i].lock))
  {
    if requests == [] then []
    else [requests[0].(lock := Downgrade(requests[0].lock))] + ClearLocks(requests[1..])
  }

  /** The locks are downgraded when no access is left in progress. */
  function Settle(b: Bus): Bus {
    b.(requests := if b.current.None? then ClearLocks(b.requests) else b.requests, risen := false)
  }

  /** The bus on a falling clock edge. */
  function MainAction(b: Bus): Bus
    requires b.current.Some? ==> b.current.value < |b.requests|
  {
    var b1 := if b.current.None? then NextRequest(b) else b;
    Settle(if b1.current.Some? then Handle(b1) else b1)
  }

  /** The slow slaves on a rising clock edge. */
  function WaitLoop(s: Slave): Slave {
    if s.count >= 0 then s.(count := s.count - 1) else s
  }

  function WaitLoops(slaves: seq<Slave>): (r: seq<Slave>)
    ensures |r| == |slaves|
    ensures forall i :: 0 <= i < |r| ==> r[i] == WaitLoop(slaves[i])
  {
    if slaves == [] then [] else [WaitLoop(slaves[0])] + WaitLoops(slaves[1..])
  }

  function RisingEdge(b: Bus): Bus {
    b.(slaves := WaitLoops(b.slaves), risen := true)
  }

  /** The direct interface bypasses arbitration and wait states. */
  function Direct(b: Bus, write: bool, data: nat, address: nat): Bus {
    var i := GetSlave(b.slaves, address);
    if address % 4 != 0 || i == |b.slaves| then b else Move(b, i, 0, write, address, data, 0)
  }

  // ----------------------------------------------------------------- steps

  datatype Step =
    | SubmitStep(priority: nat, write: bool, data: nat, address: nat, length: nat, lock: bool)
    | Fall
    | Rise
    | DirectStep(write: bool, data: nat, address: nat)
    | Poke(data: nat, value: int)

  /** Masters submit only when their previous request is finished; clock edges alternate. */
  predicate Enabled(b: Bus, s: Step) {
    match s
    case SubmitStep(p, _, _, a, n, _) =>
      && a < WORD_LIMIT && n < WORD_LIMIT
      && (FindRequest(b.requests, p) < |b.requests| ==> !Pending(b.requests[FindRequest(b.requests, p)]))
    case Fall => b.risen && (b.current.Some? ==> b.current.value < |b.requests|)
    case Rise => !b.risen
    case DirectStep(_, _, a) => a < WORD_LIMIT
    case Poke(_, _) => true
  }

  function Apply(b: Bus, s: Step): Bus
    requires Enabled(b, s)
  {
    match s
    case SubmitStep(p, w, d, a, n, l) => Submit(b, p, w, d, a, n, l)
    case Fall => MainAction(b)
    case Rise => RisingEdge(b)
    case DirectStep(w, d, a) => Direct(b, w, d, a)
    case Poke(d, v) => b.(host := b.host[d := v])
  }

  /** c is reached from b by these steps. */
  ghost predicate Run(b: Bus, steps: seq<Step>, c: Bus)
    decreases |steps|
  {
    if steps == [] then b == c
    else Enabled(b, steps[0]) && Run(Apply(b, steps[0]), steps[1..], c)
  }

  /** No requests yet, non-overlapping slaves with cleared memories. */
  ghost predicate Init(b: Bus) {
    && b.requests == [] && b.current.None? && b.last.None? && b.log == [] && b.subs == 0
    && NoOverlap(b.slaves)
    && forall i :: 0 <= i < |b.slaves| ==> Fresh(b.slaves[i])
  }

  ghost predicate Fresh(s: Slave) {
    && s.start <= s.end < WORD_LIMIT && |s.mem| * 4 == s.end - s.start + 1
    && s.count == -1
    && forall k :: 0 <= k < |s.mem| ==> s.mem[k] == 0
  }
}
