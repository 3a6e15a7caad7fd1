/** The simple target socket in front of a non-blocking target: b_transport puts its transaction into an
    event queue and blocks; one thread takes transactions out and runs the four-phase protocol. */
module BlockingToNonBlocking {
  import opened TimeOrderedList
  import opened PayloadQueue
  import opened Wrappers

  /** How far the target has come with a transaction: not sent yet, request open, request ended, response
      begun on the return path, or finished. */
  datatype Stage = Queued | Open | Accepted | Responded | Done

  /** A b_transport call. notified and begun count the notifications of its event and the BEGIN_REQ calls
      made for it; returned says that the initiator has the payload back. */
  datatype Caller = Caller(trans: nat, due: nat, stage: Stage, begun: nat, notified: nat, returned: bool)

  /** Where the thread stands: in the wait for the queue's event, at the head of its loop, waiting for the
      end of a request, woken from that, or in one of the two waits for an annotated delay. */
  datatype Pc = Idle | Running | WaitingEnd | Woken | DelayAccepted | DelayResponse(trans: nat)

  /** pending maps a payload to the number of the call blocked on it. */
  datatype Adapter = Adapter(callers: seq<Caller>, pending: map<nat, nat>, scheduled: seq<Entry>, event: Pending,
                             now: nat, pc: Pc, current: Option<nat>, endRequest: bool, broken: bool)

  /** What nb_transport_fw answers to BEGIN_REQ. */
  datatype Answer = Completed | StillRequest | RequestEnded | ResponseBegun

  /** What the target calls nb_transport_bw with, about the same transaction, before nb_transport_fw returns.
      What it calls there about other transactions might as well come just before. */
  datatype Inside = NoCall | EndsRequest | BeginsResponse | EndsAndResponds

  // ------------------------------------------------------------------ operations

  function EntryOf(trans: nat, t: nat): Entry {
    Entry(Payload(trans, 0), t)
  }

  /** b_transport up to its wait, t after now. */
  function Submit(a: Adapter, trans: nat, t: nat): Adapter {
    a.(scheduled := StableInsert(a.scheduled, EntryOf(trans, a.now + t)),
       event := if t == 0 then DeltaEvent else NotifyAt(a.event, a.now + t),
       pending := a.pending[trans := |a.callers|],
       callers := a.callers + [Caller(trans, a.now + t, Queued, 0, 0, false)])
  }

  /** Notifies the caller and erases the transaction; an assertion fails if it is not pending. */
  function Complete(a: Adapter, trans: nat): Adapter {
    if trans in a.pending && a.pending[trans] < |a.callers| then
      var n := a.pending[trans];
      a.(callers := a.callers[n := a.callers[n].(stage := Done, notified := a.callers[n].notified + 1)],
         pending := a.pending - {trans})
    else a.(broken := true)
  }

  function WithStage(a: Adapter, trans: nat, stage: Stage): Adapter {
    if trans in a.pending && a.pending[trans] < |a.callers| then
      a.(callers := a.callers[a.pending[trans] := a.callers[a.pending[trans]].(stage := stage)])
    else a
  }

  /** The BEGIN_REQ call for the first scheduled transaction. */
  function Send(a: Adapter): Adapter
    requires a.scheduled != []
  {
    var trans := a.scheduled[0].p.trans;
    var b := a.(scheduled := a.scheduled[1..]);
    if trans in a.pending && a.pending[trans] < |a.callers| then
      var n := a.pending[trans];
      b.(callers := a.callers[n := a.callers[n].(stage := Open, begun := a.callers[n].begun + 1)])
    else b
  }

  function Answered(a: Adapter, trans: nat, answer: Answer): Adapter {
    match answer
    case Completed => Complete(a, trans)
    case StillRequest => a.(current := Some(trans), pc := WaitingEnd)
    case RequestEnded => WithStage(a, trans, Accepted).(pc := DelayAccepted)
    case ResponseBegun => WithStage(a, trans, Responded).(pc := DelayResponse(trans))
  }

  /** nb_transport_bw with END_REQ. */
  function EndReq(a: Adapter, trans: nat): Adapter {
    if trans in a.pending then WithStage(a, trans, Accepted).(endRequest := true) else a
  }

  /** nb_transport_bw with BEGIN_RESP. */
  function BeginResp(a: Adapter, trans: nat): Adapter {
    if trans in a.pending then
      Complete(if a.current == Some(trans) then a.(endRequest := true) else a, trans)
    else a
  }

  /** What the target does before it answers. */
  function Nested(a: Adapter, trans: nat, inside: Inside): Adapter {
    match inside
    case NoCall => a
    case EndsRequest => EndReq(a, trans)
    case BeginsResponse => BeginResp(a, trans)
    case EndsAndResponds => BeginResp(EndReq(a, trans), trans)
  }

  /** The head of the thread's loop: nothing is due, and the thread waits with its event armed, or the
      first transaction is sent. */
  function Take(a: Adapter, answer: Answer, inside: Inside): Adapter {
    if a.scheduled == [] then a.(pc := Idle)
    else if a.scheduled[0].t > a.now then a.(event := NotifyAt(a.event, a.scheduled[0].t), pc := Idle)
    else
      var trans := a.scheduled[0].p.trans;
      Answered(Nested(Send(a), trans, inside), trans, answer)
  }

  function DelayOver(a: Adapter): Adapter {
    if a.pc.DelayResponse? then Complete(a, a.pc.trans).(pc := Running) else a.(pc := Running)
  }

  function FireEnd(a: Adapter): Adapter {
    a.(endRequest := false, pc := if a.pc == WaitingEnd then Woken else a.pc)
  }

  function FireQueue(a: Adapter): Adapter {
    a.(event := NoEvent, pc := if a.pc == Idle then Running else a.pc)
  }

  function Return(a: Adapter, n: nat): Adapter
    requires n < |a.callers|
  {
    a.(callers := a.callers[n := a.callers[n].(returned := true)])
  }

  // ------------------------------------------------------------------ runs

  datatype Step = SubmitStep(trans: nat, t: nat) | TakeStep(answer: Answer, inside: Inside) | EndReqStep(trans: nat)
                | BeginRespStep(trans: nat) | DelayOverStep | FireEndStep | WakeStep | FireQueueStep
                | AdvanceStep(to: nat) | ReturnStep(n: nat)

  /** No end of a request after its end, and nothing after the response. */
  predicate Conforms(answer: Answer, inside: Inside) {
    && (inside == EndsRequest ==> answer != RequestEnded)
    && (inside == BeginsResponse || inside == EndsAndResponds ==> answer == StillRequest)
  }

  predicate AtStage(a: Adapter, trans: nat, stage: Stage) {
    trans in a.pending && a.pending[trans] < |a.callers| && a.callers[a.pending[trans]].stage == stage
  }

  /** Initiators do not reuse a payload in flight; the target follows the protocol: it ends a request once,
      while it is open, and begins a response once, after the request and not when it has answered with
      one; so its answer goes on from what it has called before. Calls about other transactions are
      forwarded. */
  predicate Enabled(a: Adapter, s: Step) {
    match s
    case SubmitStep(trans, _) => forall n :: 0 <= n < |a.callers| && a.callers[n].trans == trans ==> a.callers[n].returned
    case TakeStep(answer, inside) => a.pc == Running && Conforms(answer, inside)
    case EndReqStep(trans) => trans in a.pending ==> AtStage(a, trans, Open)
    case BeginRespStep(trans) => trans in a.pending ==> AtStage(a, trans, Open) || AtStage(a, trans, Accepted)
    case DelayOverStep => a.pc == DelayAccepted || a.pc.DelayResponse?
    case FireEndStep => a.endRequest
    case WakeStep => a.pc == Woken
    case FireQueueStep => a.event == DeltaEvent || a.event == TimedEvent(a.now)
    case AdvanceStep(to) =>
      && a.now < to && a.pc != Running && a.pc != Woken && a.event != DeltaEvent
      && (a.event.TimedEvent? ==> to <= a.event.at)
    case ReturnStep(n) => n < |a.callers| && a.callers[n].notified > 0
  }

  function Apply(a: Adapter, s: Step): Adapter
    requires Enabled(a, s)
  {
    match s
    case SubmitStep(trans, t) => Submit(a, trans, t)
    case TakeStep(answer, inside) => Take(a, answer, inside)
    case EndReqStep(trans) => EndReq(a, trans)
    case BeginRespStep(trans) => BeginResp(a, trans)
    case DelayOverStep => DelayOver(a)
    case FireEndStep => FireEnd(a)
    case WakeStep => a.(pc := Running, current := None)
    case FireQueueStep => FireQueue(a)
    case AdvanceStep(to) => a.(now := to)
    case ReturnStep(n) => Return(a, n)
  }

  ghost predicate Run(a: Adapter, steps: seq<Step>, b: Adapter)
    decreases |steps|
  {
    if steps == [] then a == b else Enabled(a, steps[0]) && Run(Apply(a, steps[0]), steps[1..], b)
  }

  const START := Adapter([], map[], [], NoEvent, 0, Idle, None, false, false)

  // ------------------------------------------------------------------ invariants

  /** A call is notified at most once, exactly when the target is done with it, and returns after that. */
  predicate CallerOk(c: Caller) {
    && c.notified == (if c.stage == Done then 1 else 0)
    && c.begun == (if c.stage == Queued then 0 else 1)
    && (c.returned ==> c.stage == Done)
  }

  /** The map holds exactly the calls that are not done. */
  ghost predicate PendingExact(callers: seq<Caller>, pending: map<nat, nat>) {
    && (forall p :: p in pending ==>
          pending[p] < |callers| && callers[pending[p]].trans == p && callers[pending[p]].stage != Done)
    && (forall n :: 0 <= n < |callers| && callers[n].stage != Done ==>
          callers[n].trans in pending && pending[callers[n].trans] == n)
  }

  ghost predicate InQueue(scheduled: seq<Entry>, p: nat) {
    exists k :: 0 <= k < |scheduled| && scheduled[k].p.trans == p
  }

  /** A queue entry belongs to a call that is not sent yet, and has its due time. */
  ghost predicate EntryOk(callers: seq<Caller>, pending: map<nat, nat>, e: Entry) {
    && e.p.trans in pending && pending[e.p.trans] < |callers|
    && callers[pending[e.p.trans]].stage == Queued && callers[pending[e.p.trans]].due == e.t
  }

  ghost predicate DistinctEntries(scheduled: seq<Entry>) {
    forall j, k :: 0 <= j < k < |scheduled| ==> scheduled[j].p.trans != scheduled[k].p.trans
  }

  /** The event queue holds exactly the calls not sent yet, each once and at its due time. */
  ghost predicate ScheduledExact(callers: seq<Caller>, pending: map<nat, nat>, scheduled: seq<Entry>) {
    && Sorted(scheduled) && DistinctEntries(scheduled)
    && (forall k :: 0 <= k < |scheduled| ==> EntryOk(callers, pending, scheduled[k]))
    && (forall n :: 0 <= n < |callers| && callers[n].stage == Queued ==> InQueue(scheduled, callers[n].trans))
  }

  ghost predicate ResponseExact(callers: seq<Caller>, pending: map<nat, nat>, pc: Pc) {
    && (pc.DelayResponse? ==>
          pc.trans in pending && pending[pc.trans] < |callers| && callers[pending[pc.trans]].stage == Responded)
    && (forall n :: 0 <= n < |callers| && callers[n].stage == Responded ==> pc == DelayResponse(callers[n].trans))
  }

  /** A thread waiting for the queue's event is woken no later than the first transaction is due. */
  predicate Awake(pc: Pc, scheduled: seq<Entry>, event: Pending, now: nat) {
    && (event.TimedEvent? ==> now <= event.at)
    && (pc == Idle && scheduled != [] ==>
          event == DeltaEvent || (event.TimedEvent? && event.at <= scheduled[0].t))
  }

  ghost predicate Good(a: Adapter) {
    && (forall n :: 0 <= n < |a.callers| ==> CallerOk(a.callers[n]))
    && PendingExact(a.callers, a.pending) && ScheduledExact(a.callers, a.pending, a.scheduled)
    && ResponseExact(a.callers, a.pending, a.pc) && Awake(a.pc, a.scheduled, a.event, a.now)
    && !a.broken
  }

  // ------------------------------------------------------------------ preservation

  /** An insertion keeps what is in the queue and adds one entry. */
  lemma InsertFacts(s: seq<Entry>, e: Entry) returns (k: nat)
    requires Sorted(s)
    ensures k <= |s| && StableInsert(s, e) == Spliced(s, e, k) && Sorted(StableInsert(s, e))
    ensures StableInsert(s, e)[0] == if k == 0 then e else s[0]
    ensures k > 0 ==> s[0].t <= e.t
    ensures k == 0 && s != [] ==> e.t < s[0].t
  {
    hide StableInsert;
    k := Slot(s, e);
    StableInsertAt(s, e, k);
    SplicedSorted(s, e, k);
  }

  lemma SplicedDistinct(s: seq<Entry>, e: Entry, k: nat)
    requires k <= |s| && DistinctEntries(s) && forall j :: 0 <= j < |s| ==> s[j].p.trans != e.p.trans
    ensures DistinctEntries(Spliced(s, e, k))
  {
  }

  lemma SplicedInQueue(s: seq<Entry>, e: Entry, k: nat, p: nat)
    requires k <= |s|
    ensures InQueue(Spliced(s, e, k), p) <==> InQueue(s, p) || p == e.p.trans
  {
    var r := Spliced(s, e, k);
    assert r[k] == e;
    if InQueue(s, p) {
      var j :| 0 <= j < |s| && s[j].p.trans == p;
      assert r[if j < k then j else j + 1] == s[j];
    }
    if InQueue(r, p) {
      var j :| 0 <= j < |r| && r[j].p.trans == p;
      assert r[j] == if j < k then s[j] else if j == k then e else s[j - 1];
    }
  }

  lemma SubmitScheduled(callers: seq<Caller>, pending: map<nat, nat>, s: seq<Entry>, c: Caller)
    requires ScheduledExact(callers, pending, s) && c.trans !in pending && c.stage == Queued
    ensures ScheduledExact(callers + [c], pending[c.trans := |callers|], StableInsert(s, EntryOf(c.trans, c.due)))
  {
    hide StableInsert, InQueue, DistinctEntries, Sorted;
    var e := EntryOf(c.trans, c.due);
    var k := InsertFacts(s, e);
    var r := Spliced(s, e, k);
    assert forall j :: 0 <= j < |s| ==> EntryOk(callers, pending, s[j]);
    SplicedDistinct(s, e, k);
    forall j | 0 <= j < |r| ensures EntryOk(callers + [c], pending[c.trans := |callers|], r[j]) {
      assert r[j] == if j < k then s[j] else if j == k then e else s[j - 1];
    }
    forall n | 0 <= n < |callers| + 1 && (callers + [c])[n].stage == Queued ensures InQueue(r, (callers + [c])[n].trans) {
      SplicedInQueue(s, e, k, (callers + [c])[n].trans);
    }
  }

  lemma NotInFlight(a: Adapter, trans: nat)
    requires Good(a) && forall n :: 0 <= n < |a.callers| && a.callers[n].trans == trans ==> a.callers[n].returned
    ensures trans !in a.pending
  {
    hide ScheduledExact, ResponseExact, Awake;
    assert forall p :: p in a.pending ==> CallerOk(a.callers[a.pending[p]]);
  }

  lemma SubmitKeeps(a: Adapter, trans: nat, t: nat)
    requires Good(a) && Enabled(a, SubmitStep(trans, t))
    ensures Good(Submit(a, trans, t))
  {
    hide ScheduledExact, StableInsert;
    NotInFlight(a, trans);
    SubmitScheduled(a.callers, a.pending, a.scheduled, Caller(trans, a.now + t, Queued, 0, 0, false));
    assert Sorted(a.scheduled) by { QueueSorted(a.callers, a.pending, a.scheduled); }
    var k := InsertFacts(a.scheduled, EntryOf(trans, a.now + t));
  }

  lemma QueueSorted(callers: seq<Caller>, pending: map<nat, nat>, s: seq<Entry>)
    requires ScheduledExact(callers, pending, s)
    ensures Sorted(s)
  {
  }

  // One call moves on: its stage changes, and it leaves the map when it is done.

  predicate Leaves(pending: map<nat, nat>, trans: nat, stage: Stage, after: map<nat, nat>) {
    after == if stage == Done then pending - {trans} else pending
  }

  lemma MovesOn(callers: seq<Caller>, pending: map<nat, nat>, s: seq<Entry>, n: nat, c: Caller, after: map<nat, nat>)
    requires n < |callers| && PendingExact(callers, pending) && callers[n].stage != Done
    requires callers[n].stage != Queued && c.stage != Queued
    requires c.trans == callers[n].trans && Leaves(pending, c.trans, c.stage, after)
    requires ScheduledExact(callers, pending, s)
    ensures PendingExact(callers[n := c], after) && ScheduledExact(callers[n := c], after, s)
  {
    hide InQueue, Sorted, DistinctEntries;
    assert forall k :: 0 <= k < |s| ==> EntryOk(callers, pending, s[k]);
  }

  /** The BEGIN_REQ call takes the head out of the queue. */
  lemma SendScheduled(callers: seq<Caller>, pending: map<nat, nat>, s: seq<Entry>, c: Caller)
    requires PendingExact(callers, pending) && ScheduledExact(callers, pending, s) && s != []
    requires EntryOk(callers, pending, s[0]) ==>
               c.trans == callers[pending[s[0].p.trans]].trans && c.stage == Open
    ensures EntryOk(callers, pending, s[0])
    ensures PendingExact(callers[pending[s[0].p.trans] := c], pending)
    ensures ScheduledExact(callers[pending[s[0].p.trans] := c], pending, s[1..])
  {
    hide InQueue;
    var p := s[0].p.trans;
    assert EntryOk(callers, pending, s[0]);
    var r := callers[pending[p] := c];
    forall k | 0 <= k < |s[1..]| ensures EntryOk(r, pending, s[1..][k]) {
      assert s[1..][k] == s[k + 1] && EntryOk(callers, pending, s[k + 1]);
    }
    forall n | 0 <= n < |r| && r[n].stage == Queued ensures InQueue(s[1..], r[n].trans) {
      TailInQueue(s, callers[n].trans);
    }
  }

  lemma TailInQueue(s: seq<Entry>, p: nat)
    requires InQueue(s, p) && s[0].p.trans != p
    ensures InQueue(s[1..], p)
  {
    var k :| 0 <= k < |s| && s[k].p.trans == p;
    assert s[1..][k - 1] == s[k];
  }

  lemma SendKeeps(a: Adapter)
    requires Good(a) && a.pc == Running && a.scheduled != []
    ensures Good(Send(a)) && AtStage(Send(a), a.scheduled[0].p.trans, Open)
    ensures Send(a).pc == Running
  {
    hide ScheduledExact, PendingExact;
    HeadPending(a);
    var p := a.scheduled[0].p.trans;
    var n := a.pending[p];
    SendScheduled(a.callers, a.pending, a.scheduled, a.callers[n].(stage := Open, begun := a.callers[n].begun + 1));
  }

  lemma HeadPending(a: Adapter)
    requires Good(a) && a.scheduled != []
    ensures var p := a.scheduled[0].p.trans; AtStage(a, p, Queued)
  {
    hide InQueue, Sorted, DistinctEntries;
    assert EntryOk(a.callers, a.pending, a.scheduled[0]);
  }

  /** Everything but the thread's position, for a call that moves on. */
  lemma StageKeeps(a: Adapter, trans: nat, stage: Stage, pc: Pc)
    requires Good(a) && (AtStage(a, trans, Open) || AtStage(a, trans, Accepted) || AtStage(a, trans, Responded))
    requires stage == Accepted || stage == Responded || stage == Done
    requires (pc == Idle ==> a.pc == Idle) && (stage == Responded ==> pc == DelayResponse(trans))
    requires if pc.DelayResponse? then
               (stage == Responded && pc.trans == trans && !a.pc.DelayResponse?) || (pc == a.pc && pc.trans != trans)
             else a.pc.DelayResponse? ==> a.pc.trans == trans && stage == Done
    ensures Good((if stage == Done then Complete(a, trans) else WithStage(a, trans, stage)).(pc := pc))
  {
    hide ScheduledExact;
    var n := a.pending[trans];
    var b := if stage == Done then Complete(a, trans) else WithStage(a, trans, stage);
    MovesOn(a.callers, a.pending, a.scheduled, n, b.callers[n], b.pending);
  }

  lemma TakeKeeps(a: Adapter, answer: Answer, inside: Inside)
    requires Good(a) && Enabled(a, TakeStep(answer, inside))
    ensures Good(Take(a, answer, inside))
  {
    hide ScheduledExact, PendingExact, CallerOk, Send, Nested;
    if a.scheduled != [] && a.scheduled[0].t <= a.now {
      var trans := a.scheduled[0].p.trans;
      var b := Nested(Send(a), trans, inside);
      SendKeeps(a);
      NestedKeeps(Send(a), trans, inside);
      match answer
      case Completed => StageKeeps(b, trans, Done, Running);
      case StillRequest =>
      case RequestEnded => StageKeeps(b, trans, Accepted, DelayAccepted);
      case ResponseBegun => StageKeeps(b, trans, Responded, DelayResponse(trans));
    }
  }

  /** The thread goes to sleep, or takes one entry. */
  lemma TakeFacts(a: Adapter, answer: Answer, inside: Inside)
    requires a.pc == Running
    ensures var b := Take(a, answer, inside);
            && b.pc != Woken && b.now == a.now
            && (b.pc == Idle ==> b.scheduled == a.scheduled && (b.scheduled == [] || b.scheduled[0].t > b.now))
            && (b.pc != Idle ==> a.scheduled != [] && b.scheduled == a.scheduled[1..])
  {
    hide NotifyAt, Nested, Complete, WithStage;
    if a.scheduled != [] {
      var trans := a.scheduled[0].p.trans;
      NestedFacts(Send(a), trans, inside);
      CompleteFacts(Nested(Send(a), trans, inside), trans, Accepted);
      CompleteFacts(Nested(Send(a), trans, inside), trans, Responded);
    }
  }

  lemma NestedFacts(a: Adapter, trans: nat, inside: Inside)
    ensures var b := Nested(a, trans, inside); b.pc == a.pc && b.now == a.now && b.scheduled == a.scheduled
  {
  }

  lemma CompleteFacts(a: Adapter, trans: nat, stage: Stage)
    ensures var b := Complete(a, trans); b.pc == a.pc && b.now == a.now && b.scheduled == a.scheduled
    ensures var b := WithStage(a, trans, stage); b.pc == a.pc && b.now == a.now && b.scheduled == a.scheduled
  {
  }

  lemma NestedKeeps(a: Adapter, trans: nat, inside: Inside)
    requires Good(a) && a.pc == Running && AtStage(a, trans, Open)
    ensures var b := Nested(a, trans, inside);
            && Good(b) && b.pc == Running
            && (inside == NoCall ==> AtStage(b, trans, Open))
            && (inside == EndsRequest ==> AtStage(b, trans, Accepted))
  {
    hide ScheduledExact, PendingExact, CallerOk;
    match inside
    case NoCall =>
    case EndsRequest => StageKeeps(a, trans, Accepted, Running);
    case BeginsResponse => StageKeeps(a, trans, Done, Running);
    case EndsAndResponds =>
      StageKeeps(a, trans, Accepted, Running);
      StageKeeps(EndReq(a, trans), trans, Done, Running);
  }

  /** A call of the target on the backward path. */
  lemma BackwardKeeps(a: Adapter, s: Step)
    requires Good(a) && Enabled(a, s) && (s.EndReqStep? || s.BeginRespStep?)
    ensures Good(Apply(a, s))
  {
    hide ScheduledExact, PendingExact, CallerOk;
    if s.trans in a.pending {
      if s.EndReqStep? {
        StageKeeps(a, s.trans, Accepted, a.pc);
      } else {
        StageKeeps(a, s.trans, Done, a.pc);
      }
    }
  }

  lemma DelayOverKeeps(a: Adapter)
    requires Good(a) && Enabled(a, DelayOverStep)
    ensures Good(DelayOver(a))
  {
    hide ScheduledExact, PendingExact, CallerOk;
    if a.pc.DelayResponse? {
      StageKeeps(a, a.pc.trans, Done, Running);
    }
  }

  lemma ReturnKeeps(a: Adapter, n: nat)
    requires Good(a) && Enabled(a, ReturnStep(n))
    ensures Good(Return(a, n))
  {
    hide InQueue, Sorted, DistinctEntries;
    assert CallerOk(a.callers[n]);
    var b := Return(a, n);
    forall k | 0 <= k < |a.scheduled| ensures EntryOk(b.callers, b.pending, a.scheduled[k]) {
      assert EntryOk(a.callers, a.pending, a.scheduled[k]);
    }
  }

  lemma StepKeeps(a: Adapter, s: Step)
    requires Good(a) && Enabled(a, s)
    ensures Good(Apply(a, s))
  {
    hide Submit, Take, EndReq, BeginResp, DelayOver, Return, ScheduledExact, PendingExact, CallerOk;
    match s
    case SubmitStep(trans, t) => SubmitKeeps(a, trans, t);
    case TakeStep(answer, inside) => TakeKeeps(a, answer, inside);
    case EndReqStep(_) => BackwardKeeps(a, s);
    case BeginRespStep(_) => BackwardKeeps(a, s);
    case DelayOverStep => DelayOverKeeps(a);
    case ReturnStep(n) => ReturnKeeps(a, n);
    case FireEndStep =>
    case WakeStep =>
    case FireQueueStep =>
    case AdvanceStep(_) =>
  }

  lemma {:induction false} RunKeeps(a: Adapter, steps: seq<Step>, b: Adapter)
    requires Good(a) && Run(a, steps, b)
    ensures Good(b)
    decreases |steps|
  {
    hide Good, Enabled, Apply;
    if steps != [] {
      StepKeeps(a, steps[0]);
      RunKeeps(Apply(a, steps[0]), steps[1..], b);
    }
  }

  lemma StartGood()
    ensures Good(START)
  {
  }

  // ------------------------------------------------------------------ turns

  /** A step of the thread itself. */
  predicate Own(s: Step) {
    s.TakeStep? || s.WakeStep? || s.DelayOverStep?
  }

  /** What everybody but the thread does for a while; what is not enabled does not happen. */
  function Turn(a: Adapter, steps: seq<Step>): Adapter
    decreases |steps|
  {
    if steps == [] then a
    else Turn(if !Own(steps[0]) && Enabled(a, steps[0]) then Apply(a, steps[0]) else a, steps[1..])
  }

  /** Where the others can move the thread to: they only wake it. */
  predicate MayWake(before: Pc, after: Pc) {
    after == before || (before == WaitingEnd && after == Woken) || (before == Idle && after == Running)
  }

  lemma {:induction false} TurnKeeps(a: Adapter, steps: seq<Step>)
    requires Good(a)
    ensures Good(Turn(a, steps)) && MayWake(a.pc, Turn(a, steps).pc)
    decreases |steps|
  {
    hide Good, Enabled, Apply;
    if steps != [] {
      var s := steps[0];
      var b := if !Own(s) && Enabled(a, s) then Apply(a, s) else a;
      if !Own(s) && Enabled(a, s) {
        StepKeeps(a, s);
        OtherWakes(a, s);
      }
      TurnKeeps(b, steps[1..]);
    }
  }

  lemma OtherWakes(a: Adapter, s: Step)
    requires Enabled(a, s) && !Own(s)
    ensures MayWake(a.pc, Apply(a, s).pc)
  {
  }

  /** The thread goes to sleep only when nothing is due, and with its event armed for what is to come. */
  lemma SleepsSafely(a: Adapter, n: nat)
    requires Good(a) && a.pc == Idle && (a.scheduled == [] || a.scheduled[0].t > a.now)
    requires n < |a.callers| && a.callers[n].stage == Queued
    ensures a.callers[n].due > a.now
    ensures a.event == DeltaEvent || (a.event.TimedEvent? && a.now <= a.event.at <= a.callers[n].due)
  {
    hide ScheduledExact;
    InOrder(a, n);
  }

  // ------------------------------------------------------------------ main results

  /** In every run with a conforming target, whatever the completion path: a call is in the map exactly
      until the target is done with it, it is then notified, once, and it does not return earlier. No
      assertion fails. */
  lemma NotifiedExactlyOnce(steps: seq<Step>, b: Adapter, n: nat)
    requires Run(START, steps, b) && n < |b.callers|
    ensures var c := b.callers[n];
            && (c.stage != Done <==> c.trans in b.pending && b.pending[c.trans] == n)
            && c.notified == (if c.stage == Done then 1 else 0)
            && c.begun == (if c.stage == Queued then 0 else 1)
            && (c.returned ==> c.notified == 1)
    ensures !b.broken
  {
    hide ScheduledExact;
    StartGood();
    RunKeeps(START, steps, b);
    assert CallerOk(b.callers[n]);
  }

  /** The keys of the map are exactly the payloads submitted and not completed. */
  lemma PendingKeys(steps: seq<Step>, b: Adapter, p: nat)
    requires Run(START, steps, b)
    ensures p in b.pending <==> exists n :: 0 <= n < |b.callers| && b.callers[n].trans == p && b.callers[n].stage != Done
  {
    hide ScheduledExact;
    StartGood();
    RunKeeps(START, steps, b);
    if p in b.pending {
      assert b.callers[b.pending[p]].trans == p;
    }
  }

  /** A transaction is sent at its due time or later, before any other that is due later. */
  lemma SentInOrder(steps: seq<Step>, b: Adapter, answer: Answer, inside: Inside, n: nat, m: nat)
    requires Run(START, steps, b) && Enabled(b, TakeStep(answer, inside)) && n < |b.callers| && m < |b.callers|
    requires b.callers[n].stage == Queued && b.callers[m].stage == Queued
    requires |Take(b, answer, inside).callers| == |b.callers|
    requires Take(b, answer, inside).callers[n].stage != Queued
    ensures b.callers[n].due <= b.now && b.callers[n].due <= b.callers[m].due
  {
    hide InQueue, Sorted, DistinctEntries, Run;
    StartGood();
    RunKeeps(START, steps, b);
    InOrder(b, n);
    InOrder(b, m);
    HeadPending(b);
    assert EntryOk(b.callers, b.pending, b.scheduled[0]);
  }

  /** The thread is never left asleep: while it waits for its queue with transactions in it, the event is
      notified, no later than the first of them is due. */
  lemma NeverOverslept(steps: seq<Step>, b: Adapter, n: nat)
    requires Run(START, steps, b) && b.pc == Idle && n < |b.callers| && b.callers[n].stage == Queued
    ensures b.event == DeltaEvent || (b.event.TimedEvent? && b.now <= b.event.at <= b.callers[n].due)
  {
    StartGood();
    RunKeeps(START, steps, b);
    InOrder(b, n);
  }

  /** The head of the queue is the least due time of the calls not sent. */
  lemma InOrder(b: Adapter, n: nat)
    requires Good(b) && n < |b.callers| && b.callers[n].stage == Queued
    ensures b.scheduled != [] && b.scheduled[0].t <= b.callers[n].due
  {
    hide DistinctEntries;
    assert InQueue(b.scheduled, b.callers[n].trans);
    var k :| 0 <= k < |b.scheduled| && b.scheduled[k].p.trans == b.callers[n].trans;
    assert EntryOk(b.callers, b.pending, b.scheduled[k]);
  }

  // ------------------------------------------------------------------ what each step does to a call

  /** The time after a run, from the times it advances to. */
  function Clock(now: nat, steps: seq<Step>): nat
    decreases |steps|
  {
    if steps == [] then now else Clock(if steps[0].AdvanceStep? then steps[0].to else now, steps[1..])
  }

  /** The payloads of the b_transport calls of a run that starts at this time, with the times they are due. */
  function Submissions(now: nat, steps: seq<Step>): seq<(nat, nat)>
    decreases |steps|
  {
    if steps == [] then []
    else
      (if steps[0].SubmitStep? then [(steps[0].trans, now + steps[0].t)] else [])
      + Submissions(if steps[0].AdvanceStep? then steps[0].to else now, steps[1..])
  }

  function Made(callers: seq<Caller>): seq<(nat, nat)> {
    seq(|callers|, n requires 0 <= n < |callers| => (callers[n].trans, callers[n].due))
  }

  lemma MadeStep(a: Adapter, s: Step)
    requires Enabled(a, s)
    ensures Made(Apply(a, s).callers) == Made(a.callers) + if s.SubmitStep? then [(s.trans, a.now + s.t)] else []
    ensures Apply(a, s).now == if s.AdvanceStep? then s.to else a.now
  {
    hide StableInsert, NotifyAt, Take, EndReq, BeginResp;
    if s.TakeStep? {
      TakeCalls(a, s.answer, s.inside);
    } else if s.EndReqStep? || s.BeginRespStep? {
      BackwardCalls(a, s.trans);
    }
    var b := Apply(a, s);
    if !s.SubmitStep? {
      assert |b.callers| == |a.callers|;
      assert forall n :: 0 <= n < |a.callers| ==> Made(b.callers)[n] == Made(a.callers)[n];
    }
  }

  ghost predicate SameCalls(a: Adapter, b: Adapter) {
    && |b.callers| == |a.callers| && b.now == a.now
    && forall n :: 0 <= n < |a.callers| ==> b.callers[n].trans == a.callers[n].trans && b.callers[n].due == a.callers[n].due
  }

  lemma BackwardCalls(a: Adapter, trans: nat)
    ensures SameCalls(a, EndReq(a, trans)) && SameCalls(a, BeginResp(a, trans))
  {
  }

  lemma TakeCalls(a: Adapter, answer: Answer, inside: Inside)
    ensures SameCalls(a, Take(a, answer, inside))
  {
    hide NotifyAt, EndReq, BeginResp, Send, Answered;
    if a.scheduled != [] {
      var trans := a.scheduled[0].p.trans;
      var b := Send(a);
      SendCalls(a);
      BackwardCalls(b, trans);
      BackwardCalls(EndReq(b, trans), trans);
      AnsweredCalls(Nested(b, trans, inside), trans, answer);
    }
  }

  lemma SendCalls(a: Adapter)
    requires a.scheduled != []
    ensures SameCalls(a, Send(a))
  {
  }

  lemma AnsweredCalls(a: Adapter, trans: nat, answer: Answer)
    ensures SameCalls(a, Answered(a, trans, answer))
  {
  }

  /** The n-th call is the n-th b_transport of the run, with its payload, and due its delay after its time. */
  lemma {:induction false} CallsAreSubmissions(a: Adapter, steps: seq<Step>, b: Adapter)
    requires Run(a, steps, b)
    ensures Made(b.callers) == Made(a.callers) + Submissions(a.now, steps)
    ensures b.now == Clock(a.now, steps)
    decreases |steps|
  {
    hide Enabled, Apply, Made;
    if steps == [] {
      assert Made(a.callers) + [] == Made(a.callers);
    } else {
      var s := steps[0];
      var c := Apply(a, s);
      MadeStep(a, s);
      CallsAreSubmissions(c, steps[1..], b);
      var now: seq<(nat, nat)> := if s.SubmitStep? then [(s.trans, a.now + s.t)] else [];
      assert Made(a.callers) + (now + Submissions(c.now, steps[1..]))
             == (Made(a.callers) + now) + Submissions(c.now, steps[1..]);
    }
  }

  predicate Due(a: Adapter) {
    a.scheduled != [] && a.scheduled[0].t <= a.now
  }

  /** Call n is the one that the thread is about to send. */
  predicate First(a: Adapter, n: nat) {
    Due(a) && n < |a.callers| && a.callers[n].stage != Done && a.callers[n].trans == a.scheduled[0].p.trans
  }

  /** The steps that notify a call: a response on the backward path, from inside nb_transport_fw as well; the
      answer TLM_COMPLETED; and the end of the delay of a response on the return path. */
  predicate Completes(a: Adapter, s: Step, n: nat) {
    && n < |a.callers| && a.callers[n].stage != Done
    && match s {
         case BeginRespStep(trans) => a.callers[n].trans == trans
         case TakeStep(answer, inside) =>
           First(a, n) && (answer == Completed || inside == BeginsResponse || inside == EndsAndResponds)
         case DelayOverStep => a.pc == DelayResponse(a.callers[n].trans)
         case _ => false
       }
  }

  /** How far a call is after a step. */
  function StageAfter(a: Adapter, s: Step, n: nat): Stage
    requires n < |a.callers|
  {
    if Completes(a, s, n) then Done
    else if s.TakeStep? && First(a, n) then
      match s.answer
      case StillRequest => if s.inside == EndsRequest then Accepted else Open
      case RequestEnded => Accepted
      case _ => Responded
    else if s.EndReqStep? && a.callers[n].trans == s.trans && a.callers[n].stage != Done then Accepted
    else a.callers[n].stage
  }

  /** A step notifies exactly the calls it completes, and takes exactly the others it is about further. */
  lemma CompletionExactly(a: Adapter, s: Step, n: nat)
    requires Good(a) && Enabled(a, s) && n < |a.callers|
    ensures var b := Apply(a, s);
            && n < |b.callers| && b.callers[n].stage == StageAfter(a, s, n)
            && b.callers[n].notified == a.callers[n].notified + if Completes(a, s, n) then 1 else 0
  {
    hide ScheduledExact, StableInsert, NotifyAt, Awake, CallerOk, Take;
    if s.TakeStep? {
      TakeCompletes(a, s.answer, s.inside, n);
    }
  }

  lemma TakeCompletes(a: Adapter, answer: Answer, inside: Inside, n: nat)
    requires Good(a) && Enabled(a, TakeStep(answer, inside)) && n < |a.callers|
    ensures var b, s := Take(a, answer, inside), TakeStep(answer, inside);
            && n < |b.callers| && b.callers[n].stage == StageAfter(a, s, n)
            && b.callers[n].notified == a.callers[n].notified + if Completes(a, s, n) then 1 else 0
  {
    hide NotifyAt, Good, Send, Nested, Answered, AtStage;
    if Due(a) {
      var trans := a.scheduled[0].p.trans;
      HeadPending(a);
      LiveCalls(a, n);
      var m := HeadCall(a);
      SendMoves(a, trans, m);
      var b := Nested(Send(a), trans, inside);
      NestedMoves(Send(a), trans, inside, m);
      AnsweredMoves(b, trans, answer, m);
    }
  }

  /** Call m is at this stage, with this many more notifications, and no other call has changed. */
  ghost predicate Moves(a: Adapter, b: Adapter, m: nat, stage: Stage, more: nat) {
    && m < |a.callers| == |b.callers|
    && b.callers[m].stage == stage && b.callers[m].notified == a.callers[m].notified + more
    && b.callers[m].trans == a.callers[m].trans
    && (forall k :: 0 <= k < |a.callers| && k != m ==> b.callers[k] == a.callers[k])
    && b.pending == if stage == Done then a.pending - {a.callers[m].trans} else a.pending
  }

  ghost predicate Maps(a: Adapter, trans: nat, m: nat) {
    trans in a.pending && a.pending[trans] == m && m < |a.callers| && a.callers[m].trans == trans
  }

  lemma HeadCall(a: Adapter) returns (m: nat)
    requires Good(a) && a.scheduled != []
    ensures Maps(a, a.scheduled[0].p.trans, m)
  {
    hide ScheduledExact, Awake, CallerOk;
    HeadPending(a);
    m := a.pending[a.scheduled[0].p.trans];
  }

  lemma SendMoves(a: Adapter, trans: nat, m: nat)
    requires a.scheduled != [] && a.scheduled[0].p.trans == trans && Maps(a, trans, m)
    ensures Moves(a, Send(a), m, Open, 0) && Maps(Send(a), trans, m)
  {
  }

  lemma NestedMoves(a: Adapter, trans: nat, inside: Inside, m: nat)
    requires Maps(a, trans, m) && a.callers[m].stage == Open
    ensures var b := Nested(a, trans, inside);
            match inside
            case NoCall => b == a
            case EndsRequest => Moves(a, b, m, Accepted, 0) && Maps(b, trans, m)
            case _ => Moves(a, b, m, Done, 1)
  {
  }

  lemma AnsweredMoves(a: Adapter, trans: nat, answer: Answer, m: nat)
    ensures answer == StillRequest ==> Answered(a, trans, answer).callers == a.callers
    ensures answer != StillRequest && Maps(a, trans, m) ==>
              Moves(a, Answered(a, trans, answer), m,
                    match answer { case Completed => Done case RequestEnded => Accepted case _ => Responded },
                    if answer == Completed then 1 else 0)
  {
  }

  /** Whether a call is the one a payload in the map belongs to. */
  lemma LiveCalls(a: Adapter, n: nat)
    requires Good(a) && n < |a.callers|
    ensures forall p :: p in a.pending ==>
              (a.pending[p] == n <==> a.callers[n].stage != Done && a.callers[n].trans == p)
  {
    hide ScheduledExact, Awake, CallerOk;
  }

  /** And where the thread goes on: at once, in its wait for the end of the request, or in one for a delay. */
  lemma ThreadGoesTo(a: Adapter, answer: Answer, inside: Inside)
    requires Good(a) && Enabled(a, TakeStep(answer, inside)) && Due(a)
    ensures var b, trans := Take(a, answer, inside), a.scheduled[0].p.trans;
            && b.scheduled == a.scheduled[1..]
            && b.pc == match answer {
                 case Completed => Running
                 case StillRequest => WaitingEnd
                 case RequestEnded => DelayAccepted
                 case ResponseBegun => DelayResponse(trans)
               }
            && (answer == StillRequest ==> b.current == Some(trans))
  {
    hide NotifyAt, Nested, Complete, WithStage, Good;
    var trans := a.scheduled[0].p.trans;
    NestedFacts(Send(a), trans, inside);
    CompleteFacts(Nested(Send(a), trans, inside), trans, Accepted);
    CompleteFacts(Nested(Send(a), trans, inside), trans, Responded);
  }

  /** A call answered with a response stays in the map, not notified, until the delay of the response is over,
      whatever happens meanwhile; then it is notified. */
  lemma ResponseWaitsForDelay(a: Adapter, inside: Inside, n: nat, steps: seq<Step>, d: Adapter)
    requires Good(a) && Enabled(a, TakeStep(ResponseBegun, inside)) && First(a, n)
    requires Run(Apply(a, TakeStep(ResponseBegun, inside)), steps, d)
    requires forall k :: 0 <= k < |steps| ==> !steps[k].DelayOverStep?
    ensures n < |d.callers| && d.callers[n].trans == a.callers[n].trans && AtStage(d, d.callers[n].trans, Responded)
    ensures d.pending[d.callers[n].trans] == n && d.callers[n].notified == 0
    ensures Enabled(d, DelayOverStep) && Apply(d, DelayOverStep).callers[n].notified == 1
    ensures d.callers[n].trans !in Apply(d, DelayOverStep).pending
  {
    hide Run, Take, Good;
    var s := TakeStep(ResponseBegun, inside);
    var c := Apply(a, s);
    StepKeeps(a, s);
    CompletionExactly(a, s, n);
    ThreadGoesTo(a, ResponseBegun, inside);
    assert Made(c.callers)[n] == Made(a.callers)[n] by { MadeStep(a, s); }
    DelayLasts(c, steps, d, n);
    OverIsNotified(d, n);
  }

  lemma {:induction false} DelayLasts(a: Adapter, steps: seq<Step>, b: Adapter, n: nat)
    requires Good(a) && Run(a, steps, b) && n < |a.callers| && a.pc == DelayResponse(a.callers[n].trans)
    requires a.callers[n].stage == Responded && forall k :: 0 <= k < |steps| ==> !steps[k].DelayOverStep?
    ensures Good(b) && n < |b.callers| && b.callers[n].trans == a.callers[n].trans && b.pc == a.pc
    ensures b.callers[n].stage == Responded
    decreases |steps|
  {
    hide Good, Apply, StageAfter;
    if steps != [] {
      var s := steps[0];
      var c := Apply(a, s);
      StepKeeps(a, s);
      OtherWakes(a, s);
      CompletionExactly(a, s, n);
      NotYet(a, s, n);
      MadeStep(a, s);
      assert Made(c.callers)[n] == Made(a.callers)[n];
      DelayLasts(c, steps[1..], b, n);
    }
  }

  lemma NotYet(a: Adapter, s: Step, n: nat)
    requires Good(a) && Enabled(a, s) && n < |a.callers| && a.callers[n].stage == Responded
    requires a.pc.DelayResponse? && !s.DelayOverStep?
    ensures StageAfter(a, s, n) == Responded && !Own(s)
  {
    hide ScheduledExact, Awake, CallerOk;
  }

  lemma OverIsNotified(a: Adapter, n: nat)
    requires Good(a) && n < |a.callers| && a.callers[n].stage == Responded && a.pc == DelayResponse(a.callers[n].trans)
    ensures a.callers[n].notified == 0 && AtStage(a, a.callers[n].trans, Responded) && a.pending[a.callers[n].trans] == n
    ensures Apply(a, DelayOverStep).callers[n].notified == 1
    ensures a.callers[n].trans !in Apply(a, DelayOverStep).pending
  {
    hide ScheduledExact, Awake;
  }

  // ------------------------------------------------------------------ what holds along a run

  /** A property of every state of a run. */
  ghost predicate Always(holds: Adapter -> bool, a: Adapter, steps: seq<Step>)
    decreases |steps|
  {
    holds(a) && (steps == [] || (Enabled(a, steps[0]) && Always(holds, Apply(a, steps[0]), steps[1..])))
  }

  /** No step of a run is taken in a state where it is a bad one. */
  ghost predicate Never(bad: (Adapter, Step) -> bool, a: Adapter, steps: seq<Step>)
    decreases |steps|
  {
    steps == [] || (Enabled(a, steps[0]) && !bad(a, steps[0]) && Never(bad, Apply(a, steps[0]), steps[1..]))
  }

  /** The thread has a current transaction only while it waits for the end of its request. */
  predicate CurrentOk(a: Adapter) {
    a.current.Some? ==> a.pc == WaitingEnd || a.pc == Woken
  }

  ghost predicate NoneOpen(a: Adapter) {
    forall n :: 0 <= n < |a.callers| ==> a.callers[n].stage != Open
  }

  // ------------------------------------------------------------------ request exclusion

  /** At most one request is open, and none when the thread is about to begin one. */
  ghost predicate Excluded(a: Adapter) {
    && (forall m, n :: 0 <= m < |a.callers| && 0 <= n < |a.callers| ==>
          a.callers[m].stage == Open && a.callers[n].stage == Open ==> m == n)
    && (a.pc == Running ==> NoneOpen(a))
  }

  /** The thread goes on although the request it has waited for is still open. */
  predicate Hasty(a: Adapter, s: Step) {
    s == WakeStep && a.current.Some? && AtStage(a, a.current.value, Open)
  }

  /** An open request is the one the thread waits for, or has been woken from. */
  ghost predicate Owned(a: Adapter) {
    && CurrentOk(a)
    && (forall n :: 0 <= n < |a.callers| && a.callers[n].stage == Open ==> a.current == Some(a.callers[n].trans))
  }

  lemma OwnedStep(a: Adapter, s: Step)
    requires Good(a) && Owned(a) && Enabled(a, s)
    ensures !Hasty(a, s) ==> Owned(Apply(a, s))
    ensures Hasty(a, s) ==> !Excluded(Apply(a, s))
  {
    hide ScheduledExact, StableInsert, NotifyAt, Awake, CallerOk, Take;
    if s.TakeStep? {
      OwnedTake(a, s.answer, s.inside);
    }
  }

  lemma OwnedTake(a: Adapter, answer: Answer, inside: Inside)
    requires Good(a) && Owned(a) && Enabled(a, TakeStep(answer, inside))
    ensures Owned(Take(a, answer, inside))
  {
    hide ScheduledExact, NotifyAt, Awake, CallerOk;
    if a.scheduled != [] {
      HeadPending(a);
    }
  }

  lemma OwnedExcluded(a: Adapter)
    requires Good(a) && Owned(a)
    ensures Excluded(a)
  {
    hide ScheduledExact, Awake, CallerOk;
  }

  lemma {:induction false} ExcludedRun(a: Adapter, steps: seq<Step>, b: Adapter)
    requires Good(a) && Owned(a) && Run(a, steps, b)
    ensures Always(Excluded, a, steps) <==> Never(Hasty, a, steps)
    decreases |steps|
  {
    hide Good, Owned, Excluded, Hasty, Enabled, Apply;
    OwnedExcluded(a);
    if steps != [] {
      StepKeeps(a, steps[0]);
      OwnedStep(a, steps[0]);
      if !Hasty(a, steps[0]) {
        ExcludedRun(Apply(a, steps[0]), steps[1..], b);
      }
    }
  }

  // Where hasty wake-ups come from: an end of request is notified that nobody waits for.

  /** No end of request is notified for an open request yet. */
  ghost predicate Exclusive(a: Adapter) {
    && CurrentOk(a)
    && (forall n :: 0 <= n < |a.callers| && a.callers[n].stage == Open ==>
          a.pc == WaitingEnd && !a.endRequest && a.current == Some(a.callers[n].trans))
  }

  /** An end of request is notified that the thread does not wait for. */
  predicate Leftover(a: Adapter) {
    a.endRequest && a.pc != WaitingEnd
  }

  /** The thread begins to wait for the end of an open request while an earlier one is still notified. */
  predicate Spurious(a: Adapter, s: Step) {
    s == TakeStep(StillRequest, NoCall) && a.endRequest && Due(a)
  }

  /** An end of request without a wait for it: a response for the current transaction that arrives when the
      end of its request has already woken the thread, which has not run yet; or a request that is ended
      from inside nb_transport_fw, which then does not answer that it is open. */
  predicate Stray(a: Adapter, s: Step) {
    || (s.BeginRespStep? && a.pc == Woken && a.current == Some(s.trans) && s.trans in a.pending)
    || (s.TakeStep? && s.inside == EndsRequest && s.answer != StillRequest && Due(a))
  }

  lemma ExclusiveStep(a: Adapter, s: Step)
    requires Good(a) && Exclusive(a) && Enabled(a, s)
    ensures Exclusive(Apply(a, s)) <==> !Spurious(a, s)
    ensures !Hasty(a, s)
  {
    hide ScheduledExact, StableInsert, NotifyAt, Awake, CallerOk, Take;
    if s.TakeStep? {
      ExclusiveTake(a, s.answer, s.inside);
    }
  }

  lemma ExclusiveTake(a: Adapter, answer: Answer, inside: Inside)
    requires Good(a) && Exclusive(a) && Enabled(a, TakeStep(answer, inside))
    ensures Exclusive(Take(a, answer, inside)) <==> !Spurious(a, TakeStep(answer, inside))
  {
    hide ScheduledExact, NotifyAt, Awake, CallerOk;
    if a.scheduled != [] {
      HeadPending(a);
      var n := a.pending[a.scheduled[0].p.trans];
      assert answer == StillRequest && inside == NoCall && Due(a) ==>
        n < |a.callers| && Take(a, answer, inside).callers[n].stage == Open;
    }
  }

  /** An end of request is left over exactly after a stray one, until it fires or the thread waits again. */
  lemma LeftoverExactly(a: Adapter, s: Step)
    requires Good(a) && Exclusive(a) && Enabled(a, s)
    ensures Leftover(Apply(a, s)) <==>
              Stray(a, s) || (Leftover(a) && s != FireEndStep && Apply(a, s).pc != WaitingEnd)
  {
    hide ScheduledExact, StableInsert, NotifyAt, Awake, CallerOk;
    if s.TakeStep? && a.scheduled != [] {
      HeadPending(a);
    }
  }

  lemma {:induction false} ExclusiveRun(a: Adapter, steps: seq<Step>, b: Adapter)
    requires Good(a) && Exclusive(a) && Run(a, steps, b)
    ensures Never(Spurious, a, steps) ==> Never(Hasty, a, steps) && Good(b) && Exclusive(b)
    ensures !Leftover(a) && Never(Stray, a, steps) ==> Never(Spurious, a, steps) && !Leftover(b)
    decreases |steps|
  {
    hide Good, Exclusive, Enabled, Apply, Stray, Leftover, Hasty;
    if steps != [] {
      StepKeeps(a, steps[0]);
      ExclusiveStep(a, steps[0]);
      if Spurious(a, steps[0]) {
        NoWaitYet(a);
      } else {
        LeftoverExactly(a, steps[0]);
        ExclusiveRun(Apply(a, steps[0]), steps[1..], b);
      }
    }
  }

  lemma NoWaitYet(a: Adapter)
    requires Enabled(a, TakeStep(StillRequest, NoCall)) && a.endRequest
    ensures Leftover(a)
  {
  }

  /** Over every run: in all states at most one request is open, and none when the thread is about to begin
      one, if and only if the thread never goes on while the request it has waited for is open. It does not
      if it never begins a wait with an earlier end of request still notified; and runs without stray ends
      have no such wait. */
  lemma RequestsExcludedExactly(steps: seq<Step>, b: Adapter)
    requires Run(START, steps, b)
    ensures Always(Excluded, START, steps) <==> Never(Hasty, START, steps)
    ensures Never(Spurious, START, steps) ==> Never(Hasty, START, steps)
    ensures Never(Stray, START, steps) ==> Never(Spurious, START, steps)
  {
    hide Run, Never, Always, ScheduledExact;
    StartGood();
    ExcludedRun(START, steps, b);
    ExclusiveRun(START, steps, b);
  }

  /** A wait that is begun like that can end at once, with its request still open and the thread free to
      begin another. */
  lemma SpuriousEndsTheWait(a: Adapter)
    requires Good(a) && Enabled(a, TakeStep(StillRequest, NoCall)) && Spurious(a, TakeStep(StillRequest, NoCall))
    ensures var d := Apply(a, TakeStep(StillRequest, NoCall));
            && Enabled(d, FireEndStep) && Enabled(Apply(d, FireEndStep), WakeStep)
            && Hasty(Apply(d, FireEndStep), WakeStep)
            && var e := Apply(Apply(d, FireEndStep), WakeStep);
               e.pc == Running && AtStage(e, a.scheduled[0].p.trans, Open)
  {
    hide ScheduledExact, PendingExact, ResponseExact, CallerOk, Awake;
    SendKeeps(a);
  }

  // ------------------------------------------------------------------ waits in vain

  /** A waiting thread has an open request, or an end of request, to wait for. */
  predicate Waits(a: Adapter) {
    a.pc == WaitingEnd ==> a.current.Some? && (a.endRequest || AtStage(a, a.current.value, Open))
  }

  /** The target begins the response from inside nb_transport_fw, where no end of request is notified, and
      the thread goes to wait for one. */
  predicate Orphans(a: Adapter, s: Step) {
    s.TakeStep? && s.inside == BeginsResponse && !a.endRequest && Due(a)
  }

  lemma WaitsStep(a: Adapter, s: Step)
    requires Good(a) && CurrentOk(a) && Waits(a) && Enabled(a, s)
    ensures CurrentOk(Apply(a, s))
    ensures Waits(Apply(a, s)) <==> !Orphans(a, s)
  {
    hide ScheduledExact, StableInsert, NotifyAt, Awake, CallerOk, Take;
    if s.TakeStep? {
      WaitsTake(a, s.answer, s.inside);
    } else if s.SubmitStep? {
      NotInFlight(a, s.trans);
    }
  }

  lemma WaitsTake(a: Adapter, answer: Answer, inside: Inside)
    requires Good(a) && CurrentOk(a) && Enabled(a, TakeStep(answer, inside))
    ensures CurrentOk(Take(a, answer, inside))
    ensures Waits(Take(a, answer, inside)) <==> !Orphans(a, TakeStep(answer, inside))
  {
    hide ScheduledExact, NotifyAt, Awake, CallerOk;
    if a.scheduled != [] {
      HeadPending(a);
    }
  }

  lemma {:induction false} WaitsRun(a: Adapter, steps: seq<Step>, b: Adapter)
    requires Good(a) && CurrentOk(a) && Waits(a) && Run(a, steps, b)
    ensures Always(Waits, a, steps) <==> Never(Orphans, a, steps)
    decreases |steps|
  {
    hide Good, Waits, Orphans, CurrentOk, Enabled, Apply;
    if steps != [] {
      StepKeeps(a, steps[0]);
      WaitsStep(a, steps[0]);
      if !Orphans(a, steps[0]) {
        WaitsRun(Apply(a, steps[0]), steps[1..], b);
      }
    }
  }

  /** Over every run: the thread waits only for an end that is notified, or that the target still owes, if
      and only if no response is begun from inside nb_transport_fw without an end of its request. */
  lemma WaitsExactly(steps: seq<Step>, b: Adapter)
    requires Run(START, steps, b)
    ensures Always(Waits, START, steps) <==> Never(Orphans, START, steps)
  {
    hide Run, Never, Always, ScheduledExact;
    StartGood();
    WaitsRun(START, steps, b);
  }

  /** The thread waits, no end is notified, and nothing is left that the target could end. */
  ghost predicate InVain(a: Adapter) {
    && a.pc == WaitingEnd && !a.endRequest && a.current.Some? && NoneOpen(a)
    && (a.current.value in a.pending ==> AtStage(a, a.current.value, Queued))
  }

  lemma OrphanInVain(a: Adapter, s: Step)
    requires Good(a) && Owned(a) && Enabled(a, s) && Orphans(a, s)
    ensures InVain(Apply(a, s))
  {
    hide ScheduledExact, StableInsert, NotifyAt, Awake, CallerOk;
    HeadPending(a);
  }

  lemma InVainStep(a: Adapter, s: Step)
    requires Good(a) && InVain(a) && Enabled(a, s)
    ensures InVain(Apply(a, s)) && |a.callers| <= |Apply(a, s).callers|
    ensures forall n :: 0 <= n < |Apply(a, s).callers| && (n < |a.callers| ==> a.callers[n].stage == Queued) ==>
              Apply(a, s).callers[n].stage == Queued
  {
    hide ScheduledExact, StableInsert, NotifyAt, Awake;
    if s.SubmitStep? {
      NotInFlight(a, s.trans);
    }
  }

  /** From then on the thread never runs again: no call that is queued, or made later, is ever sent. */
  lemma {:induction false} InVainForEver(a: Adapter, steps: seq<Step>, b: Adapter)
    requires Good(a) && InVain(a) && Run(a, steps, b)
    ensures InVain(b) && |a.callers| <= |b.callers|
    ensures forall n :: 0 <= n < |b.callers| && (n < |a.callers| ==> a.callers[n].stage == Queued) ==>
              b.callers[n].stage == Queued
    decreases |steps|
  {
    hide Good, InVain, Enabled, Apply;
    if steps != [] {
      StepKeeps(a, steps[0]);
      InVainStep(a, steps[0]);
      InVainForEver(Apply(a, steps[0]), steps[1..], b);
    }
  }

  /** In runs without either, requests exclude each other and the thread is owed the end it waits for. */
  lemma RequestsExcluded(steps: seq<Step>, b: Adapter, m: nat, n: nat)
    requires Run(START, steps, b) && Never(Spurious, START, steps) && m < |b.callers| && n < |b.callers|
    ensures b.callers[m].stage == Open && b.callers[n].stage == Open ==> m == n
    ensures b.pc == Running ==> b.callers[n].stage != Open
    ensures Never(Orphans, START, steps) && b.pc == WaitingEnd ==>
              b.current.Some? && (b.endRequest || AtStage(b, b.current.value, Open))
  {
    hide Run, Never, Always, ScheduledExact;
    StartGood();
    ExclusiveRun(START, steps, b);
    ExcludedRun(START, steps, b);
    WaitsRun(START, steps, b);
    LastState(Excluded, START, steps, b);
    if Never(Orphans, START, steps) {
      LastState(Waits, START, steps, b);
    }
  }

  lemma {:induction false} LastState(holds: Adapter -> bool, a: Adapter, steps: seq<Step>, b: Adapter)
    requires Always(holds, a, steps) && Run(a, steps, b)
    ensures holds(b)
    decreases |steps|
  {
    hide Enabled, Apply;
    if steps != [] {
      LastState(holds, Apply(a, steps[0]), steps[1..], b);
    }
  }

  // ------------------------------------------------------------------ reached runs

  ghost predicate Reaches(a: Adapter, b: Adapter) {
    exists steps :: Run(a, steps, b)
  }

  lemma StepThen(a: Adapter, s: Step, b: Adapter)
    requires Enabled(a, s) && Reaches(Apply(a, s), b)
    ensures Reaches(a, b)
  {
    hide Enabled, Apply;
    var rest :| Run(Apply(a, s), rest, b);
    assert ([s] + rest)[1..] == rest;
    assert Run(a, [s] + rest, b);
  }

  lemma Stays(a: Adapter)
    ensures Reaches(a, a)
  {
    assert Run(a, [], a);
  }

  /** One transaction in flight, with payload 7. */
  function OneCall(stage: Stage, pc: Pc, endRequest: bool): Adapter {
    Adapter([Caller(7, 0, stage, 1, 0, false)], map[7 := 0], [], NoEvent, 0, pc, Some(7), endRequest, false)
  }

  /** The first call is sent. */
  lemma FirstSent() returns (a: Adapter)
    ensures Enabled(a, TakeStep(StillRequest, NoCall))
    ensures a.callers == [Caller(7, 0, Queued, 0, 0, false)] && a.scheduled == [EntryOf(7, 0)]
    ensures a.pending == map[7 := 0] && a.current == None && !a.endRequest && a.now == 0
    ensures !a.broken && a.event == NoEvent && a.pc == Running
    ensures forall b :: Reaches(a, b) ==> Reaches(START, b)
  {
    hide Reaches;
    var a1 := Apply(START, SubmitStep(7, 0));
    assert a1.scheduled == [EntryOf(7, 0)];
    a := Apply(a1, FireQueueStep);
    forall b | Reaches(a, b) ensures Reaches(START, b) {
      StepThen(a1, FireQueueStep, b);
      StepThen(START, SubmitStep(7, 0), b);
    }
  }

  lemma FromStart(b: Adapter)
    requires Reaches(OneCall(Open, WaitingEnd, false), b)
    ensures Reaches(START, b)
  {
    hide Reaches;
    var a := FirstSent();
    assert a.callers[0 := Caller(7, 0, Open, 1, 0, false)] == [Caller(7, 0, Open, 1, 0, false)];
    assert Apply(a, TakeStep(StillRequest, NoCall)) == OneCall(Open, WaitingEnd, false);
    StepThen(a, TakeStep(StillRequest, NoCall), b);
  }

  /** One call is enough for a wait in vain. */
  lemma InVainIsReached() returns (b: Adapter)
    ensures Reaches(START, b) && InVain(b)
  {
    hide Reaches;
    var a := FirstSent();
    b := Apply(a, TakeStep(StillRequest, BeginsResponse));
    Stays(b);
    StepThen(a, TakeStep(StillRequest, BeginsResponse), b);
  }

  /** Two calls wait in the queue, and an end of request that nobody waits for is notified: the first call's
      request was ended and the thread woken, then two more calls were made, then the response came late. */
  function TwoBehind(pc: Pc, current: Option<nat>): Adapter {
    Adapter([Caller(7, 0, Done, 1, 1, false), Caller(8, 0, Queued, 0, 0, false), Caller(9, 0, Queued, 0, 0, false)],
            map[8 := 1, 9 := 2], [EntryOf(8, 0), EntryOf(9, 0)], DeltaEvent, 0, pc, current, true, false)
  }

  lemma ReachesTwoBehind(b: Adapter)
    requires Reaches(TwoBehind(Running, None), b)
    ensures Reaches(START, b)
  {
    hide Reaches;
    var a1, a2 := OneCall(Open, WaitingEnd, false), OneCall(Accepted, WaitingEnd, true);
    assert a1.callers[0 := a1.callers[0].(stage := Accepted)] == a2.callers;
    assert Apply(a1, EndReqStep(7)) == a2 && Apply(a2, FireEndStep) == OneCall(Accepted, Woken, false);
    LateFollows(b);
    StepThen(a2, FireEndStep, b);
    StepThen(a1, EndReqStep(7), b);
    FromStart(b);
  }

  lemma LateFollows(b: Adapter)
    requires Reaches(TwoBehind(Running, None), b)
    ensures Reaches(OneCall(Accepted, Woken, false), b)
  {
    hide Reaches;
    var a := OneCall(Accepted, Woken, false);
    var a1 := Apply(a, SubmitStep(8, 0));
    assert a1.scheduled == [EntryOf(8, 0)];
    var a2 := Apply(a1, SubmitStep(9, 0));
    assert a2.scheduled == [EntryOf(8, 0), EntryOf(9, 0)];
    assert Apply(a2, BeginRespStep(7)) == TwoBehind(Woken, Some(7));
    ThreadGoesOn(b);
    StepThen(a2, BeginRespStep(7), b);
    StepThen(a1, SubmitStep(9, 0), b);
    StepThen(a, SubmitStep(8, 0), b);
  }

  lemma ThreadGoesOn(b: Adapter)
    requires Reaches(TwoBehind(Running, None), b)
    ensures Reaches(TwoBehind(Woken, Some(7)), b)
  {
    hide Reaches;
    assert Apply(TwoBehind(Woken, Some(7)), WakeStep) == TwoBehind(Running, None);
    StepThen(TwoBehind(Woken, Some(7)), WakeStep, b);
  }

  /** A wait that begins with an earlier end of request still notified is reached. */
  lemma SpuriousIsReached() returns (a: Adapter)
    ensures Reaches(START, a) && Enabled(a, TakeStep(StillRequest, NoCall)) && Spurious(a, TakeStep(StillRequest, NoCall))
    ensures forall steps :: Run(START, steps, a) ==> !Never(Stray, START, steps)
  {
    hide Reaches, Run, Never;
    a := TwoBehind(Running, None);
    Stays(a);
    ReachesTwoBehind(a);
    forall steps | Run(START, steps, a) ensures !Never(Stray, START, steps) {
      StartGood();
      ExclusiveRun(START, steps, a);
    }
  }

  /** And from there two requests that are open at once. */
  lemma TwoOpenIsReached() returns (b: Adapter)
    ensures Reaches(START, b) && |b.callers| == 3 && b.callers[1].stage == Open && b.callers[2].stage == Open
  {
    hide Reaches;
    var take := TakeStep(StillRequest, NoCall);
    var a := TwoBehind(Running, None);
    var a1 := Apply(a, take);
    var a2 := Apply(a1, FireEndStep);
    var a3 := Apply(a2, WakeStep);
    b := Apply(a3, take);
    Stays(b);
    StepThen(a3, take, b);
    StepThen(a2, WakeStep, b);
    StepThen(a1, FireEndStep, b);
    StepThen(a, take, b);
    ReachesTwoBehind(b);
  }
}
