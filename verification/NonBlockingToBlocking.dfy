/** The simple target socket in front of a blocking target: every BEGIN_REQ is served by a process of
    its own, and the responses go back one at a time. */
module NonBlockingToBlocking {
  import opened Wrappers

  /** Where a process stands: waiting for its own event, in the target's b_transport, in the wait for the
      annotated delay, about to look at the response flag, waiting for the end of a response, or inside
      nb_transport_bw. */
  datatype Pc = Parked | InTarget | Delaying | Returning | Blocked | Responding

  /** A process handle; armed says that its event is notified, request numbers the request it serves. */
  datatype Handle = Handle(trans: nat, suspended: bool, armed: bool, pc: Pc, request: nat)

  /** The protocol calls in the order they are made. Answer ends the exclusion of a response: the initiator
      returned TLM_COMPLETED or END_RESP, or called nb_transport_fw with END_RESP. */
  datatype Event = BeginReq(request: nat, trans: nat) | Call(request: nat, trans: nat)
                 | BeginResp(request: nat, trans: nat) | Answer

  /** calling is the process inside nb_transport_bw, if any; asked lists the payload of every request. */
  datatype Adapter = Adapter(handles: seq<Handle>, responseInProgress: bool, endResponse: bool,
                             calling: Option<nat>, asked: seq<nat>, log: seq<Event>)

  // ------------------------------------------------------------------ operations

  /** The first process that waits for another transaction. */
  function FirstSuspended(handles: seq<Handle>): (i: nat)
    ensures i <= |handles|
    ensures i < |handles| ==> handles[i].suspended
    ensures forall j :: 0 <= j < i ==> !handles[j].suspended
  {
    if handles == [] || handles[0].suspended then 0 else 1 + FirstSuspended(handles[1..])
  }

  /** nb_transport_fw with BEGIN_REQ: reuse a suspended process or spawn one. */
  function Begin(a: Adapter, trans: nat): Adapter {
    var i := FirstSuspended(a.handles);
    var h := Handle(trans, false, true, Parked, |a.asked|);
    a.(handles := if i < |a.handles| then a.handles[i := h] else a.handles + [h],
       asked := a.asked + [trans], log := a.log + [BeginReq(|a.asked|, trans)])
  }

  /** nb_transport_fw with END_RESP. */
  function End(a: Adapter): Adapter {
    a.(responseInProgress := false, endResponse := true, log := a.log + [Answer])
  }

  function WithPc(a: Adapter, i: nat, pc: Pc): Adapter
    requires i < |a.handles|
  {
    a.(handles := a.handles[i := a.handles[i].(pc := pc)])
  }

  /** The event of a process fires and it calls the target. */
  function Start(a: Adapter, i: nat): Adapter
    requires i < |a.handles|
  {
    var h := a.handles[i];
    a.(handles := a.handles[i := h.(armed := false, pc := InTarget)], log := a.log + [Call(h.request, h.trans)])
  }

  /** The process looks at the response flag: it waits, or makes the BEGIN_RESP call. */
  function Return(a: Adapter, i: nat): Adapter
    requires i < |a.handles|
  {
    var h := a.handles[i];
    if a.responseInProgress then WithPc(a, i, Blocked)
    else WithPc(a, i, Responding).(calling := Some(i), log := a.log + [BeginResp(h.request, h.trans)])
  }

  /** The BEGIN_RESP call returns, and the process suspends itself. */
  function Finish(a: Adapter, i: nat, answered: bool): Adapter
    requires i < |a.handles|
  {
    var b := if answered then a.(log := a.log + [Answer]) else a.(responseInProgress := true);
    b.(calling := None, handles := b.handles[i := b.handles[i].(suspended := true, pc := Parked)])
  }

  function Wake(h: Handle): Handle {
    if h.pc == Blocked then h.(pc := Returning) else h
  }

  function WakeAll(handles: seq<Handle>): (r: seq<Handle>)
    ensures |r| == |handles| && forall i :: 0 <= i < |r| ==> r[i] == Wake(handles[i])
  {
    if handles == [] then [] else [Wake(handles[0])] + WakeAll(handles[1..])
  }

  /** The end-of-response event fires. */
  function FireEnd(a: Adapter): Adapter {
    a.(endResponse := false, handles := WakeAll(a.handles))
  }

  // ------------------------------------------------------------------ runs

  /** The number of responses without an answer. */
  function Unanswered(log: seq<Event>): int {
    if log == [] then 0
    else
      Unanswered(log[..|log| - 1])
      + match log[|log| - 1] { case BeginResp(_, _) => 1 case Answer => -1 case _ => 0 }
  }

  datatype Step = BeginStep(trans: nat) | EndStep | StartStep(i: nat) | TargetReturns(i: nat) | DelayOver(i: nat)
                | ReturnStep(i: nat) | FinishStep(i: nat, answered: bool) | FireStep

  predicate At(a: Adapter, i: nat, pc: Pc) {
    i < |a.handles| && !a.handles[i].suspended && a.handles[i].pc == pc
  }

  /** Inside nb_transport_bw only the initiator acts. It ends a response only when there is one to end. */
  predicate Enabled(a: Adapter, s: Step) {
    && (s.BeginStep? || s.EndStep? || s.FinishStep? || a.calling.None?)
    && match s
    case BeginStep(_) => true
    case EndStep => Unanswered(a.log) == 1
    case StartStep(i) => At(a, i, Parked) && a.handles[i].armed
    case TargetReturns(i) => At(a, i, InTarget)
    case DelayOver(i) => At(a, i, Delaying)
    case ReturnStep(i) => At(a, i, Returning)
    case FinishStep(i, answered) => At(a, i, Responding) && (answered ==> Unanswered(a.log) == 1)
    case FireStep => a.endResponse
  }

  function Apply(a: Adapter, s: Step): Adapter
    requires Enabled(a, s)
  {
    match s
    case BeginStep(trans) => Begin(a, trans)
    case EndStep => End(a)
    case StartStep(i) => Start(a, i)
    case TargetReturns(i) => WithPc(a, i, Delaying)
    case DelayOver(i) => WithPc(a, i, Returning)
    case ReturnStep(i) => Return(a, i)
    case FinishStep(i, answered) => Finish(a, i, answered)
    case FireStep => FireEnd(a)
  }

  ghost predicate Run(a: Adapter, steps: seq<Step>, b: Adapter)
    decreases |steps|
  {
    if steps == [] then a == b else Enabled(a, steps[0]) && Run(Apply(a, steps[0]), steps[1..], b)
  }

  const START := Adapter([], false, false, None, [], [])

  // ------------------------------------------------------------------ invariants

  /** The protocol calls of one request. */
  function Of(log: seq<Event>, n: nat): seq<Event> {
    if log == [] then []
    else
      var e := log[|log| - 1];
      Of(log[..|log| - 1], n) + if !e.Answer? && e.request == n then [e] else []
  }

  lemma OfAppend(log: seq<Event>, e: Event, n: nat)
    ensures Of(log + [e], n) == Of(log, n) + if !e.Answer? && e.request == n then [e] else []
    ensures Unanswered(log + [e]) == Unanswered(log) + if e.BeginResp? then 1 else if e.Answer? then -1 else 0
  {
    assert (log + [e])[..|log|] == log;
  }

  /** The calls of a request from its arrival to its response. */
  function Life(n: nat, trans: nat): seq<Event> {
    [BeginReq(n, trans), Call(n, trans), BeginResp(n, trans)]
  }

  /** How far a process has brought its request. */
  function Stage(pc: Pc): nat {
    if pc == Parked then 1 else if pc == Responding then 3 else 2
  }

  ghost predicate HandleOk(h: Handle, asked: seq<nat>, log: seq<Event>) {
    && (h.armed <==> h.pc == Parked && !h.suspended)
    && (h.suspended ==> h.pc == Parked)
    && (!h.suspended ==>
          && h.request < |asked| && h.trans == asked[h.request]
          && Of(log, h.request) == Life(h.request, h.trans)[..Stage(h.pc)])
  }

  predicate Holds(h: Handle, n: nat) {
    !h.suspended && h.request == n
  }

  ghost predicate Held(handles: seq<Handle>, n: nat) {
    exists i :: 0 <= i < |handles| && Holds(handles[i], n)
  }

  ghost predicate HandlesOk(handles: seq<Handle>, asked: seq<nat>, log: seq<Event>) {
    && (forall i :: 0 <= i < |handles| ==> HandleOk(handles[i], asked, log))
    && (forall i, j, n :: 0 <= i < j < |handles| && Holds(handles[i], n) ==> !Holds(handles[j], n))
  }

  /** Every request is in the hands of a process or has had its response. */
  ghost predicate NoneLost(handles: seq<Handle>, asked: seq<nat>, log: seq<Event>) {
    && (forall n :: 0 <= n < |asked| ==> Held(handles, n) || Of(log, n) == Life(n, asked[n]))
    && (forall n: nat :: n >= |asked| ==> Of(log, n) == [])
  }

  /** In call order there is never more than one response without an answer. */
  ghost predicate OneAtATime(log: seq<Event>, excluded: bool) {
    && (forall k :: 0 <= k <= |log| ==> 0 <= Unanswered(log[..k]) <= 1)
    && (Unanswered(log) == 1 ==> excluded)
  }

  /** A process waiting for the end of a response will hear of it. */
  ghost predicate NoLostWakeUp(a: Adapter) {
    forall i :: 0 <= i < |a.handles| && a.handles[i].pc == Blocked ==> a.responseInProgress || a.endResponse
  }

  predicate CallingOk(handles: seq<Handle>, calling: Option<nat>) {
    && (calling.Some? ==> calling.value < |handles|)
    && forall i :: 0 <= i < |handles| ==> (handles[i].pc == Responding <==> calling == Some(i))
  }

  ghost predicate Good(a: Adapter) {
    && HandlesOk(a.handles, a.asked, a.log) && NoneLost(a.handles, a.asked, a.log)
    && OneAtATime(a.log, a.responseInProgress || a.calling.Some?) && NoLostWakeUp(a)
    && CallingOk(a.handles, a.calling)
  }

  // ------------------------------------------------------------------ preservation

  /** One process changes, with at most one call of its own request. */
  lemma HandleMoves(hs: seq<Handle>, asked: seq<nat>, log: seq<Event>, i: nat, h: Handle, log': seq<Event>)
    requires HandlesOk(hs, asked, log) && NoneLost(hs, asked, log)
    requires i < |hs| && !hs[i].suspended
    requires HandleOk(h, asked, log')
    requires !h.suspended ==> h.request == hs[i].request
    requires forall n :: n != hs[i].request ==> Of(log', n) == Of(log, n)
    requires h.suspended ==> Of(log', hs[i].request) == Life(hs[i].request, asked[hs[i].request])
    ensures HandlesOk(hs[i := h], asked, log') && NoneLost(hs[i := h], asked, log')
  {
    hide Of, Life;
    var r := hs[i := h];
    assert HandleOk(hs[i], asked, log) && Holds(hs[i], hs[i].request);
    forall j | 0 <= j < |r| ensures HandleOk(r[j], asked, log') {
      if j != i {
        assert HandleOk(hs[j], asked, log);
        assert !hs[j].suspended ==> Holds(hs[j], hs[j].request);
      }
    }
    forall n | 0 <= n < |asked| ensures Held(r, n) || Of(log', n) == Life(n, asked[n]) {
      if n == hs[i].request {
        assert h.suspended || Holds(r[i], n);
      } else if Held(hs, n) {
        var j :| 0 <= j < |hs| && Holds(hs[j], n);
        assert Holds(r[j], n);
      }
    }
  }

  lemma TheHandle(a: Adapter, i: nat)
    requires HandlesOk(a.handles, a.asked, a.log) && i < |a.handles|
    ensures HandleOk(a.handles[i], a.asked, a.log)
  {
  }

  lemma NextStage(n: nat, trans: nat, k: nat)
    requires k < 3
    ensures Life(n, trans)[..k] + [Life(n, trans)[k]] == Life(n, trans)[..k + 1]
    ensures Life(n, trans)[..1] == [BeginReq(n, trans)] && Life(n, trans)[..3] == Life(n, trans)
    ensures Life(n, trans)[1] == Call(n, trans) && Life(n, trans)[2] == BeginResp(n, trans)
  {
  }

  /** One more call keeps the exclusion if the balance stays between 0 and 1. */
  lemma OneMore(log: seq<Event>, excluded: bool, e: Event, after: bool)
    requires OneAtATime(log, excluded)
    requires 0 <= Unanswered(log + [e]) <= 1 && (Unanswered(log + [e]) == 1 ==> after)
    ensures OneAtATime(log + [e], after)
  {
    forall k | 0 <= k <= |log| + 1 ensures 0 <= Unanswered((log + [e])[..k]) <= 1 {
      if k <= |log| {
        assert (log + [e])[..k] == log[..k];
      } else {
        assert (log + [e])[..k] == log + [e];
      }
    }
  }

  lemma Balance(log: seq<Event>, excluded: bool)
    requires OneAtATime(log, excluded)
    ensures 0 <= Unanswered(log) <= 1 && (Unanswered(log) == 1 ==> excluded)
  {
    assert log[..|log|] == log;
  }

  /** The steps of one process. */
  lemma ProcessKeeps(a: Adapter, s: Step)
    requires Good(a) && Enabled(a, s) && !s.BeginStep? && !s.EndStep? && !s.FireStep?
    ensures Good(Apply(a, s))
  {
    hide HandlesOk, NoneLost, OneAtATime, Of, Life, Unanswered;
    var i := s.i;
    var h := a.handles[i];
    var b := Apply(a, s);
    TheHandle(a, i);
    Balance(a.log, a.responseInProgress || a.calling.Some?);
    NextStage(h.request, h.trans, 1);
    NextStage(h.request, h.trans, 2);
    var e := if s.StartStep? then Call(h.request, h.trans) else if s.ReturnStep? then BeginResp(h.request, h.trans)
             else Answer;
    forall n: nat ensures Of(a.log + [e], n) == Of(a.log, n) + if !e.Answer? && e.request == n then [e] else [] {
      OfAppend(a.log, e, n);
    }
    OfAppend(a.log, e, 0);
    if b.log != a.log {
      OneMore(a.log, a.responseInProgress || a.calling.Some?, e, b.responseInProgress || b.calling.Some?);
    } else {
      SameLog(a.log, a.responseInProgress || a.calling.Some?, b.responseInProgress || b.calling.Some?);
    }
    HandleMoves(a.handles, a.asked, a.log, i, b.handles[i], b.log);
  }

  lemma SameLog(log: seq<Event>, excluded: bool, after: bool)
    requires OneAtATime(log, excluded) && (excluded ==> after)
    ensures OneAtATime(log, after)
  {
  }

  /** A new request reaches a process that serves no other. */
  lemma BeginKeeps(a: Adapter, trans: nat)
    requires Good(a)
    ensures Good(Begin(a, trans))
  {
    hide OneAtATime, Of, Life, Unanswered, HandlesOk, NoneLost, FirstSuspended;
    var i, n := FirstSuspended(a.handles), |a.asked|;
    var b := Begin(a, trans);
    Balance(a.log, a.responseInProgress || a.calling.Some?);
    OfAppend(a.log, BeginReq(n, trans), 0);
    OneMore(a.log, a.responseInProgress || a.calling.Some?, BeginReq(n, trans), a.responseInProgress || a.calling.Some?);
    if i < |a.handles| {
      TheHandle(a, i);
    }
    BeginHandles(a.handles, a.asked, a.log, trans, b.handles);
    assert forall j :: 0 <= j < |a.handles| && j != i ==> b.handles[j] == a.handles[j];
  }

  lemma BeginHandles(hs: seq<Handle>, asked: seq<nat>, log: seq<Event>, trans: nat, r: seq<Handle>)
    requires HandlesOk(hs, asked, log) && NoneLost(hs, asked, log)
    requires var i, h := FirstSuspended(hs), Handle(trans, false, true, Parked, |asked|);
             r == if i < |hs| then hs[i := h] else hs + [h]
    ensures HandlesOk(r, asked + [trans], log + [BeginReq(|asked|, trans)])
    ensures NoneLost(r, asked + [trans], log + [BeginReq(|asked|, trans)])
  {
    hide Of, Life, FirstSuspended, HandleOk, Held;
    var i, n := FirstSuspended(hs), |asked|;
    var e := BeginReq(n, trans);
    forall m: nat ensures Of(log + [e], m) == Of(log, m) + if m == n then [e] else [] {
      OfAppend(log, e, m);
    }
    NextStage(n, trans, 0);
    assert [] + [e] == [e];
    NewHandle(r[i], asked, log, trans);
    forall j | 0 <= j < |r| ensures HandleOk(r[j], asked + [trans], log + [e]) {
      if j != i {
        assert r[j] == hs[j] && HandleOk(hs[j], asked, log);
        OldHandle(hs[j], asked, log, trans);
      }
    }
    forall j, k, m | 0 <= j < k < |r| && Holds(r[j], m) ensures !Holds(r[k], m) {
      RequestBound(hs, asked, log, if j == i then k else j);
    }
    forall m | 0 <= m < n + 1 ensures Held(r, m) || Of(log + [e], m) == Life(m, (asked + [trans])[m]) {
      if m == n {
        HeldAt(r, i, n);
      } else if Held(hs, m) {
        HeldKept(hs, r, i, m);
      }
    }
  }

  lemma NewHandle(h: Handle, asked: seq<nat>, log: seq<Event>, trans: nat)
    requires h == Handle(trans, false, true, Parked, |asked|)
    requires Of(log, |asked|) == []
    ensures HandleOk(h, asked + [trans], log + [BeginReq(|asked|, trans)])
  {
    OfAppend(log, BeginReq(|asked|, trans), |asked|);
    NextStage(|asked|, trans, 0);
  }

  lemma OldHandle(h: Handle, asked: seq<nat>, log: seq<Event>, trans: nat)
    requires HandleOk(h, asked, log)
    ensures HandleOk(h, asked + [trans], log + [BeginReq(|asked|, trans)])
  {
    hide Of, Life;
    if !h.suspended {
      OfAppend(log, BeginReq(|asked|, trans), h.request);
    }
  }

  lemma RequestBound(hs: seq<Handle>, asked: seq<nat>, log: seq<Event>, j: nat)
    requires HandlesOk(hs, asked, log)
    ensures j < |hs| && !hs[j].suspended ==> hs[j].request < |asked|
  {
    hide Of, Life;
    assert j < |hs| ==> HandleOk(hs[j], asked, log);
  }

  lemma HeldAt(hs: seq<Handle>, i: nat, n: nat)
    requires i < |hs| && Holds(hs[i], n)
    ensures Held(hs, n)
  {
  }

  /** Only a suspended process changed, or one was added. */
  lemma HeldKept(hs: seq<Handle>, r: seq<Handle>, i: nat, m: nat)
    requires Held(hs, m) && |r| >= |hs| && i <= |hs| && (i < |hs| ==> hs[i].suspended)
    requires forall j :: 0 <= j < |hs| && j != i ==> r[j] == hs[j]
    ensures Held(r, m)
  {
    var j :| 0 <= j < |hs| && Holds(hs[j], m);
    assert Holds(r[j], m);
  }

  lemma EndKeeps(a: Adapter)
    requires Good(a) && Enabled(a, EndStep)
    ensures Good(End(a))
  {
    hide OneAtATime, Of, Life, Unanswered;
    forall n: nat ensures Of(a.log + [Answer], n) == Of(a.log, n) {
      OfAppend(a.log, Answer, n);
      assert Of(a.log, n) + [] == Of(a.log, n);
    }
    OfAppend(a.log, Answer, 0);
    OneMore(a.log, a.responseInProgress || a.calling.Some?, Answer, a.calling.Some?);
    forall i | 0 <= i < |a.handles| ensures HandleOk(a.handles[i], a.asked, a.log + [Answer]) {
      assert HandleOk(a.handles[i], a.asked, a.log);
    }
  }

  lemma FireKeeps(a: Adapter)
    requires Good(a) && Enabled(a, FireStep)
    ensures Good(FireEnd(a))
  {
    hide OneAtATime, Of, Life, Unanswered, WakeAll;
    var b := FireEnd(a);
    forall i | 0 <= i < |b.handles| ensures HandleOk(b.handles[i], a.asked, a.log) {
      assert HandleOk(a.handles[i], a.asked, a.log) && b.handles[i] == Wake(a.handles[i]);
    }
    forall i, j, n | 0 <= i < j < |b.handles| && Holds(b.handles[i], n) ensures !Holds(b.handles[j], n) {
      assert Holds(a.handles[i], n) && !Holds(a.handles[j], n);
    }
    forall n | 0 <= n < |a.asked| ensures Held(b.handles, n) || Of(a.log, n) == Life(n, a.asked[n]) {
      if Held(a.handles, n) {
        var i :| 0 <= i < |a.handles| && Holds(a.handles[i], n);
        assert Holds(b.handles[i], n);
      }
    }
  }

  lemma StepKeeps(a: Adapter, s: Step)
    requires Good(a) && Enabled(a, s)
    ensures Good(Apply(a, s))
  {
    hide Good, Begin, End, FireEnd;
    if s.BeginStep? {
      BeginKeeps(a, s.trans);
    } else if s.EndStep? {
      EndKeeps(a);
    } else if s.FireStep? {
      FireKeeps(a);
    } else {
      ProcessKeeps(a, s);
    }
  }

  lemma {:induction false} RunKeeps(a: Adapter, steps: seq<Step>, b: Adapter)
    requires Good(a) && Run(a, steps, b)
    ensures Good(b)
    decreases |steps|
  {
    hide Good, Enabled, Apply;
    if steps != [] {
      StepKeeps(a, steps[0]);
      RunKeeps(Apply(a, steps[0]), steps[1..], b);
    }
  }

  // ------------------------------------------------------------------ turns

  /** A step of process i itself. */
  predicate Own(s: Step, i: nat) {
    (s.StartStep? || s.TargetReturns? || s.DelayOver? || s.ReturnStep? || s.FinishStep?) && s.i == i
  }

  /** What everybody but process i does for a while; what is not enabled does not happen. */
  function Turn(a: Adapter, steps: seq<Step>, i: nat): Adapter
    decreases |steps|
  {
    if steps == [] then a
    else Turn(if !Own(steps[0], i) && Enabled(a, steps[0]) then Apply(a, steps[0]) else a, steps[1..], i)
  }

  /** The others leave a busy process as it is, but that they may wake it. */
  ghost predicate LeavesAlone(a: Adapter, b: Adapter, i: nat)
    requires i < |a.handles|
  {
    && i < |b.handles| && a.asked <= b.asked
    && (b.handles[i] == a.handles[i] || b.handles[i] == Wake(a.handles[i]))
  }

  lemma OtherStep(a: Adapter, s: Step, i: nat)
    requires Good(a) && i < |a.handles| && !a.handles[i].suspended && !Own(s, i) && Enabled(a, s)
    ensures Good(Apply(a, s)) && LeavesAlone(a, Apply(a, s), i)
    ensures a.calling == Some(i) ==> KeepsCalling(a, s, i)
  {
    hide HandlesOk, NoneLost, OneAtATime, NoLostWakeUp, Apply, LeavesAlone, Enabled, CallingOk, KeepsCalling;
    StepKeeps(a, s);
    OtherMoves(a, s, i);
    if a.calling == Some(i) {
      OtherCalls(a, s, i);
    }
  }

  /** Only the initiator acts, and the flag goes down at most. */
  predicate KeepsCalling(a: Adapter, s: Step, i: nat)
    requires Enabled(a, s)
  {
    && Apply(a, s).calling == Some(i)
    && (s.EndStep? || Apply(a, s).responseInProgress == a.responseInProgress)
    && (s.EndStep? || Unanswered(Apply(a, s).log) == Unanswered(a.log))
    && (!a.responseInProgress ==> !Apply(a, s).responseInProgress)
  }

  lemma OtherMoves(a: Adapter, s: Step, i: nat)
    requires i < |a.handles| && !a.handles[i].suspended && !Own(s, i) && Enabled(a, s)
    ensures LeavesAlone(a, Apply(a, s), i)
  {
    hide Unanswered, FirstSuspended;
    assert s.BeginStep? ==> FirstSuspended(a.handles) != i;
  }

  lemma OtherCalls(a: Adapter, s: Step, i: nat)
    requires a.calling == Some(i) && !Own(s, i) && Enabled(a, s) && CallingOk(a.handles, a.calling) && i < |a.handles|
    ensures KeepsCalling(a, s, i)
  {
    hide Unanswered, FirstSuspended;
    assert s.BeginStep? || s.EndStep?;
    if s.BeginStep? {
      OfAppend(a.log, BeginReq(|a.asked|, s.trans), 0);
    }
  }

  lemma {:induction false} TurnKeeps(a: Adapter, steps: seq<Step>, i: nat)
    requires Good(a) && i < |a.handles| && !a.handles[i].suspended
    ensures var b := Turn(a, steps, i);
            && Good(b) && LeavesAlone(a, b, i)
            && (a.calling == Some(i) ==>
                  && b.calling == Some(i) && (!a.responseInProgress ==> !b.responseInProgress)
                  && ((forall k :: 0 <= k < |steps| ==> !steps[k].EndStep?) ==> Unanswered(b.log) == Unanswered(a.log)))
    decreases |steps|
  {
    hide Good, Enabled, Apply, Unanswered;
    if steps != [] {
      var s := steps[0];
      var c := if !Own(s, i) && Enabled(a, s) then Apply(a, s) else a;
      if !Own(s, i) && Enabled(a, s) {
        OtherStep(a, s, i);
      }
      TurnKeeps(c, steps[1..], i);
    }
  }

  /** A process that finds the response path free makes its response the one that is unanswered. */
  lemma ResponseBegins(a: Adapter, i: nat)
    requires Good(a) && Enabled(a, ReturnStep(i)) && !a.responseInProgress
    ensures Good(Return(a, i)) && Unanswered(Return(a, i).log) == 1
  {
    StepKeeps(a, ReturnStep(i));
    hide Unanswered;
    Balance(a.log, a.responseInProgress || a.calling.Some?);
    OfAppend(a.log, BeginResp(a.handles[i].request, a.handles[i].trans), 0);
  }

  /** When it comes back from that call, all the calls of its request have been made. */
  lemma ResponseEnds(a: Adapter, i: nat, answered: bool)
    requires Good(a) && Enabled(a, FinishStep(i, answered))
    ensures var b, n := Finish(a, i, answered), a.handles[i].request;
            Good(b) && n < |b.asked| && a.handles[i].trans == b.asked[n] && Of(b.log, n) == Life(n, b.asked[n])
  {
    StepKeeps(a, FinishStep(i, answered));
    TheHandle(a, i);
    hide Of, Unanswered;
    OfAppend(a.log, Answer, a.handles[i].request);
  }

  // ------------------------------------------------------------------ main results

  /** The payloads of the BEGIN_REQ calls of a run, in order. */
  function Payloads(steps: seq<Step>): seq<nat> {
    if steps == [] then []
    else (if steps[0].BeginStep? then [steps[0].trans] else []) + Payloads(steps[1..])
  }

  /** They are the requests, and each gets its own payload. */
  lemma {:induction false} RequestsArePayloads(a: Adapter, steps: seq<Step>, b: Adapter)
    requires Run(a, steps, b)
    ensures b.asked == a.asked + Payloads(steps)
    decreases |steps|
  {
    hide Apply, Enabled;
    if steps == [] {
      assert a.asked + [] == a.asked;
    } else {
      var s := steps[0];
      var c := Apply(a, s);
      OneRequestMore(a, s);
      RequestsArePayloads(c, steps[1..], b);
      var now := if s.BeginStep? then [s.trans] else [];
      assert a.asked + (now + Payloads(steps[1..])) == (a.asked + now) + Payloads(steps[1..]);
    }
  }

  lemma OneRequestMore(a: Adapter, s: Step)
    requires Enabled(a, s)
    ensures Apply(a, s).asked == if s.BeginStep? then a.asked + [s.trans] else a.asked
  {
    hide FirstSuspended, WakeAll, Unanswered;
  }

  /** In every run the calls made for the n-th BEGIN_REQ are a beginning of: that BEGIN_REQ, one b_transport
      with its payload, one BEGIN_RESP with it. A request that has not had its response is held by a
      process. */
  lemma EachRequestOnce(steps: seq<Step>, b: Adapter, n: nat)
    requires Run(START, steps, b) && n < |Payloads(steps)|
    ensures Of(b.log, n) <= Life(n, Payloads(steps)[n])
    ensures Of(b.log, n) == Life(n, Payloads(steps)[n]) || Held(b.handles, n)
  {
    RunKeeps(START, steps, b);
    RequestsArePayloads(START, steps, b);
    if Held(b.handles, n) {
      var i :| 0 <= i < |b.handles| && Holds(b.handles[i], n);
      assert HandleOk(b.handles[i], b.asked, b.log);
    }
  }

  /** Nothing is called for anything else. */
  lemma NothingElse(steps: seq<Step>, b: Adapter, n: nat)
    requires Run(START, steps, b) && n >= |Payloads(steps)|
    ensures Of(b.log, n) == []
  {
    RunKeeps(START, steps, b);
    RequestsArePayloads(START, steps, b);
  }

  /** No two live requests share a process handle: a process serves at most one, one is served by at most
      one process, and while it is served it has not had its response. */
  lemma HandlesNotShared(steps: seq<Step>, b: Adapter, i: nat, j: nat, n: nat)
    requires Run(START, steps, b) && i < |b.handles| && j < |b.handles|
    requires Holds(b.handles[i], n) && Holds(b.handles[j], n)
    ensures i == j && n < |Payloads(steps)| && b.handles[i].trans == Payloads(steps)[n]
    ensures b.handles[i].pc != Responding ==> Of(b.log, n) < Life(n, Payloads(steps)[n])
  {
    RunKeeps(START, steps, b);
    RequestsArePayloads(START, steps, b);
    assert HandleOk(b.handles[i], b.asked, b.log);
  }

  /** At every point of every run at most one BEGIN_RESP is unanswered, and no process waits in vain. */
  lemma ResponsesExcluded(steps: seq<Step>, b: Adapter, k: nat)
    requires Run(START, steps, b) && k <= |b.log|
    ensures 0 <= Unanswered(b.log[..k]) <= 1
    ensures NoLostWakeUp(b)
  {
    RunKeeps(START, steps, b);
  }

  /** The initiator never ends a response from inside nb_transport_bw. */
  ghost predicate NeverEndsInside(a: Adapter, steps: seq<Step>)
    decreases |steps|
  {
    steps == []
    || (&& Enabled(a, steps[0]) && !(steps[0].EndStep? && a.calling.Some?)
        && NeverEndsInside(Apply(a, steps[0]), steps[1..]))
  }

  predicate FlagExact(a: Adapter) {
    if a.calling.None? then a.responseInProgress <==> Unanswered(a.log) == 1
    else !a.responseInProgress && Unanswered(a.log) == 1
  }

  lemma FlagStep(a: Adapter, s: Step)
    requires FlagExact(a) && Enabled(a, s) && !(s.EndStep? && a.calling.Some?)
    requires CallingOk(a.handles, a.calling) && 0 <= Unanswered(a.log) <= 1
    ensures FlagExact(Apply(a, s))
  {
    hide Unanswered, FirstSuspended, WakeAll;
    match s {
      case BeginStep(trans) => OfAppend(a.log, BeginReq(|a.asked|, trans), 0);
      case StartStep(i) => OfAppend(a.log, Call(a.handles[i].request, a.handles[i].trans), 0);
      case ReturnStep(i) => OfAppend(a.log, BeginResp(a.handles[i].request, a.handles[i].trans), 0);
      case EndStep => OfAppend(a.log, Answer, 0);
      case FinishStep(_, _) => OfAppend(a.log, Answer, 0);
      case _ =>
    }
  }

  lemma {:induction false} FlagStaysExact(a: Adapter, steps: seq<Step>, b: Adapter)
    requires Good(a) && FlagExact(a) && Run(a, steps, b) && NeverEndsInside(a, steps)
    ensures FlagExact(b)
    decreases |steps|
  {
    hide FlagExact, HandlesOk, NoneLost, OneAtATime, Enabled, Apply, CallingOk;
    if steps != [] {
      StepKeeps(a, steps[0]);
      Balance(a.log, a.responseInProgress || a.calling.Some?);
      FlagStep(a, steps[0]);
      FlagStaysExact(Apply(a, steps[0]), steps[1..], b);
    }
  }

  /** With the flag set and nothing to answer, no response ever goes back again. */
  lemma {:induction false} StuckForever(a: Adapter, steps: seq<Step>, b: Adapter)
    requires a.responseInProgress && Unanswered(a.log) == 0 && a.calling.None? && Good(a)
    requires Run(a, steps, b)
    ensures b.responseInProgress && Unanswered(b.log) == 0 && b.calling.None?
    ensures forall n: nat, trans: nat :: BeginResp(n, trans) in b.log ==> BeginResp(n, trans) in a.log
    decreases |steps|
  {
    hide Unanswered, HandlesOk, NoneLost;
    if steps != [] {
      var s := steps[0];
      var c := Apply(a, s);
      StepKeeps(a, s);
      assert !s.FinishStep?;
      if |c.log| > |a.log| {
        OfAppend(a.log, c.log[|a.log|], 0);
        assert c.log == a.log + [c.log[|a.log|]];
      }
      StuckForever(c, steps[1..], b);
    }
  }

  /** The initiator has ended the response it is being called with, and has yet to return from the call. */
  ghost predicate EndedInside(a: Adapter) {
    a.calling.Some? && Unanswered(a.log) == 0
  }

  /** It can then only return TLM_ACCEPTED, and the flag is set for good. */
  lemma {:induction false} EndInsideSticks(a: Adapter, steps: seq<Step>, b: Adapter)
    requires Good(a) && EndedInside(a) && Run(a, steps, b) && b.calling.None?
    ensures b.responseInProgress && Unanswered(b.log) == 0
    decreases |steps|
  {
    hide Unanswered, HandlesOk, NoneLost;
    var s := steps[0];
    var c := Apply(a, s);
    StepKeeps(a, s);
    if s.FinishStep? {
      assert !s.answered;
      StuckForever(c, steps[1..], b);
    } else {
      assert s.BeginStep?;
      OfAppend(a.log, BeginReq(|a.asked|, s.trans), 0);
      EndInsideSticks(c, steps[1..], b);
    }
  }

  lemma {:induction false} ExactlyInside(a: Adapter, steps: seq<Step>, b: Adapter)
    requires Good(a) && FlagExact(a) && Run(a, steps, b) && b.calling.None?
    ensures (b.responseInProgress <==> Unanswered(b.log) == 1) <==> NeverEndsInside(a, steps)
    decreases |steps|
  {
    hide FlagExact, HandlesOk, NoneLost, OneAtATime, Enabled, CallingOk, Unanswered;
    if steps == [] {
      FlagStaysExact(a, steps, b);
      assert FlagExact(b);
      ExactOutside(b);
    } else {
      var s := steps[0];
      StepKeeps(a, s);
      Balance(a.log, a.responseInProgress || a.calling.Some?);
      if s.EndStep? && a.calling.Some? {
        EndsTheCall(a);
        EndInsideSticks(Apply(a, s), steps[1..], b);
      } else {
        FlagStep(a, s);
        ExactlyInside(Apply(a, s), steps[1..], b);
      }
    }
  }

  lemma ExactOutside(a: Adapter)
    requires FlagExact(a) && a.calling.None?
    ensures a.responseInProgress <==> Unanswered(a.log) == 1
  {
  }

  lemma EndsTheCall(a: Adapter)
    requires Enabled(a, EndStep) && a.calling.Some?
    ensures EndedInside(End(a))
  {
    OfAppend(a.log, Answer, 0);
  }

  /** After any run that does not stop inside nb_transport_bw, the flag says whether a response is
      unanswered if and only if the initiator has never ended a response from inside that call. */
  lemma FlagSaysUnansweredExactly(steps: seq<Step>, b: Adapter)
    requires Run(START, steps, b) && b.calling.None?
    ensures (b.responseInProgress <==> Unanswered(b.log) == 1) <==> NeverEndsInside(START, steps)
  {
    ExactlyInside(START, steps, b);
  }

  ghost predicate Reaches(a: Adapter, b: Adapter) {
    exists steps :: Run(a, steps, b)
  }

  lemma StepThen(a: Adapter, s: Step, b: Adapter)
    requires Enabled(a, s) && Reaches(Apply(a, s), b)
    ensures Reaches(a, b)
  {
    hide Enabled, Apply;
    var rest :| Run(Apply(a, s), rest, b);
    assert ([s] + rest)[1..] == rest;
    assert Run(a, [s] + rest, b);
  }

  lemma Stays(a: Adapter)
    ensures Reaches(a, a)
  {
    assert Run(a, [], a);
  }

  /** One request on its way, in the hands of process 0. */
  function OneRequest(trans: nat, pc: Pc): Adapter {
    Adapter([Handle(trans, false, pc == Parked, pc, 0)], false, false, if pc == Responding then Some(0) else None, [trans],
            Life(0, trans)[..Stage(pc)])
  }

  lemma OneRequestMoves(trans: nat, pc: Pc, s: Step, next: Pc)
    requires || (pc == Parked && s == StartStep(0) && next == InTarget)
             || (pc == InTarget && s == TargetReturns(0) && next == Delaying)
             || (pc == Delaying && s == DelayOver(0) && next == Returning)
             || (pc == Returning && s == ReturnStep(0) && next == Responding)
    ensures Enabled(OneRequest(trans, pc), s) && Apply(OneRequest(trans, pc), s) == OneRequest(trans, next)
  {
    NextStage(0, trans, 1);
    NextStage(0, trans, 2);
  }

  lemma OneRequestBegins(trans: nat)
    ensures Apply(START, BeginStep(trans)) == OneRequest(trans, Parked)
  {
    NextStage(0, trans, 0);
    assert [] + [BeginReq(0, trans)] == [BeginReq(0, trans)];
  }

  lemma OneUnanswered(trans: nat)
    ensures Unanswered(OneRequest(trans, Responding).log) == 1
  {
    hide Unanswered;
    var b, c, r := BeginReq(0, trans), Call(0, trans), BeginResp(0, trans);
    assert Unanswered([b]) == 0 by {
      NoResponses();
      OfAppend([], b, 0);
      assert [] + [b] == [b];
    }
    assert Unanswered([b, c]) == 0 by {
      OfAppend([b], c, 0);
      assert [b] + [c] == [b, c];
    }
    OfAppend([b, c], r, 0);
    assert [b, c] + [r] == Life(0, trans)[..3];
  }

  lemma ResponseIsReached(trans: nat, b: Adapter)
    requires Reaches(OneRequest(trans, Responding), b)
    ensures Reaches(START, b)
  {
    hide Reaches, Apply, OneRequest;
    OneRequestMoves(trans, Returning, ReturnStep(0), Responding);
    StepThen(OneRequest(trans, Returning), ReturnStep(0), b);
    OneRequestMoves(trans, Delaying, DelayOver(0), Returning);
    StepThen(OneRequest(trans, Delaying), DelayOver(0), b);
    OneRequestMoves(trans, InTarget, TargetReturns(0), Delaying);
    StepThen(OneRequest(trans, InTarget), TargetReturns(0), b);
    OneRequestMoves(trans, Parked, StartStep(0), InTarget);
    StepThen(OneRequest(trans, Parked), StartStep(0), b);
    OneRequestBegins(trans);
    StepThen(START, BeginStep(trans), b);
  }

  /** Such a state is reached: one request, whose response is ended inside the call, which then returns
      TLM_ACCEPTED; in every run that leads there a response has been ended inside the call. */
  lemma EndInsideIsReached(trans: nat) returns (b: Adapter)
    ensures Reaches(START, b) && b.calling.None? && b.responseInProgress && Unanswered(b.log) == 0
    ensures forall steps :: Run(START, steps, b) ==> !NeverEndsInside(START, steps)
  {
    hide Reaches, Run, Unanswered, NeverEndsInside;
    OneUnanswered(trans);
    var a := OneRequest(trans, Responding);
    OfAppend(a.log, Answer, 0);
    b := Apply(End(a), FinishStep(0, false));
    Stays(b);
    StepThen(End(a), FinishStep(0, false), b);
    StepThen(a, EndStep, b);
    ResponseIsReached(trans, b);
    forall steps | Run(START, steps, b) ensures !NeverEndsInside(START, steps) {
      FlagSaysUnansweredExactly(steps, b);
    }
  }

  lemma NoResponses()
    ensures Unanswered([]) == 0
  {
  }
}
