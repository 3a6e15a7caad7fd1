/** The two protocol adapters of the simple target socket as objects. The short methods are the code between
    two waits, and take one step of the state machine; the threads are put together from them, and what
    everybody else does while a thread waits is given as a list of steps for every gap. */
module TargetSocket {
  import opened TimeOrderedList
  import PQ = PayloadQueue
  import N = NonBlockingToBlocking
  import B = BlockingToNonBlocking
  import opened Wrappers

  /** Protocol phases and return values of the non-blocking transport calls. */
  datatype Phase = BEGIN_REQ | END_REQ | BEGIN_RESP | END_RESP | OtherPhase

  datatype Sync = Accepted | Updated | Completed

  /** In front of a target with b_transport only. The fields calling, asked and log are history. */
  class BlockingTarget {
    var handles: seq<N.Handle>
    var responseInProgress: bool
    var endResponse: bool
    var calling: Option<nat>
    var asked: seq<nat>
    var log: seq<N.Event>
    /** The initiator, the kernel and the other processes: their steps in each of the coming gaps. */
    var others: seq<seq<N.Step>>

    function View(): N.Adapter
      reads this
    {
      N.Adapter(handles, responseInProgress, endResponse, calling, asked, log)
    }

    constructor ()
      ensures View() == N.START && others == []
    {
      handles, responseInProgress, endResponse := [], false, false;
      calling, asked, log, others := None, [], [], [];
    }

    /** The index of a suspended process that now serves the transaction, or the number of processes. */
    method GetHandle(trans: nat) returns (i: nat)
      modifies `handles
      ensures i == N.FirstSuspended(old(handles))
      ensures handles == if i < |old(handles)|
                         then old(handles)[i := old(handles)[i].(trans := trans, suspended := false)]
                         else old(handles)
    {
      i := 0;
      while i < |handles|
        invariant i <= N.FirstSuspended(handles) && handles == old(handles)
      {
        if handles[i].suspended {
          handles := handles[i := handles[i].(trans := trans, suspended := false)];
          return;
        }
        i := i + 1;
      }
    }

    /** BEGIN_REQ finds or spawns a process and notifies it; END_RESP frees the response path; any other
        phase is an error and changes nothing. */
    method NbTransportFw(trans: nat, phase: Phase) returns (sync: Sync, error: bool)
      requires forall i :: 0 <= i < |handles| && handles[i].suspended ==> handles[i].pc == N.Parked
      modifies `handles, `responseInProgress, `endResponse, `calling, `asked, `log
      ensures View() == if phase == BEGIN_REQ then N.Begin(old(View()), trans)
                        else if phase == END_RESP then N.End(old(View()))
                        else old(View())
      ensures phase == BEGIN_REQ ==>
                && asked == old(asked) + [trans]
                && exists i :: 0 <= i < |handles| && handles[i] == N.Handle(trans, false, true, N.Parked, |old(asked)|)
      ensures sync == if phase == BEGIN_REQ then Accepted else Completed
      ensures error <==> phase != BEGIN_REQ && phase != END_RESP
    {
      error := false;
      if phase == BEGIN_REQ {
        ghost var before := handles;
        var i := GetHandle(trans);
        if i == |handles| {
          handles := handles + [N.Handle(trans, false, false, N.Parked, |asked|)];
        }
        handles := handles[i := handles[i].(armed := true, request := |asked|)];
        assert handles[i] == N.Handle(trans, false, true, N.Parked, |asked|);
        assert handles == if i < |before| then before[i := handles[i]] else before + [handles[i]];
        log := log + [N.BeginReq(|asked|, trans)];
        asked := asked + [trans];
        return Accepted, false;
      }
      if phase == END_RESP {
        responseInProgress := false;
        endResponse := true;
        log := log + [N.Answer];
        return Completed, false;
      }
      return Completed, true;
    }

    /** nb2b_thread from its wake-up to the call of the target, which it makes with this payload. */
    method ThreadStarts(i: nat) returns (trans: nat)
      requires N.Enabled(View(), N.StartStep(i))
      modifies `handles, `responseInProgress, `endResponse, `calling, `asked, `log
      ensures View() == N.Start(old(View()), i) && trans == old(handles[i].trans)
    {
      trans := handles[i].trans;
      log := log + [N.Call(handles[i].request, trans)];
      handles := handles[i := handles[i].(armed := false, pc := N.InTarget)];
    }

    /** The process is back from the delay, or woken by the end of a response. */
    method ThreadReturns(i: nat)
      requires N.Enabled(View(), N.ReturnStep(i))
      modifies `handles, `responseInProgress, `endResponse, `calling, `asked, `log
      ensures View() == N.Return(old(View()), i)
    {
      if responseInProgress {
        handles := handles[i := handles[i].(pc := N.Blocked)];
      } else {
        calling := Some(i);
        log := log + [N.BeginResp(handles[i].request, handles[i].trans)];
        handles := handles[i := handles[i].(pc := N.Responding)];
      }
    }

    /** nb_transport_bw returns with this status and phase. */
    method ResponseReturns(i: nat, sync: Sync, phase: Phase)
      requires i < |handles|
      modifies `handles, `responseInProgress, `endResponse, `calling, `asked, `log
      ensures View() == N.Finish(old(View()), i, sync == Completed || (sync == Updated && phase == END_RESP))
    {
      if !(sync == Completed || (sync == Updated && phase == END_RESP)) {
        responseInProgress := true;
      } else {
        log := log + [N.Answer];
      }
      calling := None;
      handles := handles[i := handles[i].(suspended := true, pc := N.Parked)];
    }

    // ------------------------------------------------------------ the others

    /** Any step of another process, of the initiator or of the kernel, if it can be taken. */
    method TakeStep(s: N.Step)
      requires forall i :: 0 <= i < |handles| && handles[i].suspended ==> handles[i].pc == N.Parked
      modifies `handles, `responseInProgress, `endResponse, `calling, `asked, `log
      ensures View() == if N.Enabled(old(View()), s) then N.Apply(old(View()), s) else old(View())
    {
      hide N.Unanswered, N.FirstSuspended, N.WakeAll;
      if !N.Enabled(View(), s) {
        return;
      }
      match s {
        case BeginStep(trans) =>
          var _, _ := NbTransportFw(trans, BEGIN_REQ);
        case EndStep =>
          var _, _ := NbTransportFw(0, END_RESP);
        case StartStep(i) =>
          var _ := ThreadStarts(i);
        case TargetReturns(i) =>
          handles := handles[i := handles[i].(pc := N.Delaying)];
        case DelayOver(i) =>
          handles := handles[i := handles[i].(pc := N.Returning)];
        case ReturnStep(i) =>
          ThreadReturns(i);
        case FinishStep(i, answered) =>
          ResponseReturns(i, if answered then Completed else Accepted, BEGIN_RESP);
        case FireStep =>
          endResponse, handles := false, N.WakeAll(handles);
      }
    }

    predicate IsAt(i: nat, pc: N.Pc)
      reads `handles
    {
      i < |handles| && !handles[i].suspended && handles[i].pc == pc
    }

    /** The steps of the others in a gap. */
    method TakeSteps(i: nat, steps: seq<N.Step>)
      requires N.Good(View()) && i < |handles| && !handles[i].suspended
      modifies `handles, `responseInProgress, `endResponse, `calling, `asked, `log
      ensures View() == N.Turn(old(View()), steps, i)
    {
      hide N.Good, N.Apply, N.Enabled, N.LeavesAlone;
      var k := 0;
      while k < |steps|
        invariant 0 <= k <= |steps| && N.Good(View()) && i < |handles| && !handles[i].suspended
        invariant N.Turn(View(), steps[k..], i) == N.Turn(old(View()), steps, i)
      {
        assert steps[k..][0] == steps[k] && steps[k..][1..] == steps[k + 1..];
        SuspendedParked();
        if !N.Own(steps[k], i) {
          OneOther(steps[k], i);
          TakeStep(steps[k]);
        }
        k := k + 1;
      }
    }

    lemma SuspendedParked()
      requires N.Good(View())
      ensures forall i :: 0 <= i < |handles| && handles[i].suspended ==> handles[i].pc == N.Parked
    {
      hide N.Of, N.Life, N.Unanswered;
      forall i | 0 <= i < |handles| && handles[i].suspended ensures handles[i].pc == N.Parked {
        N.TheHandle(View(), i);
      }
    }

    lemma OneOther(s: N.Step, i: nat)
      requires N.Good(View()) && i < |handles| && !handles[i].suspended && !N.Own(s, i)
      ensures N.Enabled(View(), s) ==>
                var b := N.Apply(View(), s); N.Good(b) && i < |b.handles| && !b.handles[i].suspended
    {
      hide N.Good, N.Apply, N.Enabled;
      if N.Enabled(View(), s) {
        N.OtherStep(View(), s, i);
      }
    }

    /** A gap in the life of process i; back says that no process is inside nb_transport_bw any more. */
    method Gap(i: nat) returns (back: bool)
      requires N.Good(View()) && i < |handles| && !handles[i].suspended && calling != Some(i)
      modifies this
      ensures N.Good(View()) && N.LeavesAlone(old(View()), View(), i) && calling != Some(i)
      ensures back <==> calling.None?
      ensures !back ==> others == []
      ensures |others| <= |old(others)| && (old(others) != [] ==> |others| < |old(others)|)
      ensures old(others) == [] ==> View() == old(View())
    {
      hide N.Good;
      NotCalling(i);
      if others != [] {
        N.TurnKeeps(View(), others[0], i);
        var steps := others[0];
        others := others[1..];
        TakeSteps(i, steps);
        NotCalling(i);
      }
      while calling.Some? && others != []
        invariant N.Good(View()) && N.LeavesAlone(old(View()), View(), i) && calling != Some(i)
        invariant |others| <= |old(others)| && (old(others) != [] ==> |others| < |old(others)|)
        invariant old(others) == [] ==> View() == old(View())
        decreases |others|
      {
        N.TurnKeeps(View(), others[0], i);
        var steps := others[0];
        others := others[1..];
        TakeSteps(i, steps);
        NotCalling(i);
      }
      back := calling.None?;
    }

    lemma NotCalling(i: nat)
      requires N.Good(View()) && i < |handles|
      ensures calling == Some(i) <==> handles[i].pc == N.Responding
    {
    }

    /** Process i stands at pc with request n. */
    ghost predicate Busy(i: nat, pc: N.Pc, n: nat, trans: nat)
      reads this
    {
      N.Good(View()) && IsAt(i, pc) && handles[i].request == n && handles[i].trans == trans
    }

    /** The call of the target and the annotated delay; false if the gaps end first. */
    method CallTarget(i: nat, ghost n: nat) returns (done: bool)
      requires N.Good(View()) && N.Enabled(View(), N.StartStep(i)) && handles[i].request == n
      modifies this
      ensures N.Good(View())
      ensures done ==> Busy(i, N.Returning, n, old(handles[i].trans)) && calling.None?
      ensures !done ==> others == []
    {
      hide N.Good;
      N.StepKeeps(View(), N.StartStep(i));
      var trans := ThreadStarts(i);
      done := Gap(i);
      if !done {
        return;
      }
      N.StepKeeps(View(), N.TargetReturns(i));
      handles := handles[i := handles[i].(pc := N.Delaying)];
      done := Gap(i);
      if !done {
        return;
      }
      N.StepKeeps(View(), N.DelayOver(i));
      handles := handles[i := handles[i].(pc := N.Returning)];
    }

    /** One wait for the end of a response; false if the gaps end first. */
    method AwaitEnd(i: nat, ghost n: nat, ghost trans: nat) returns (done: bool)
      requires Busy(i, N.Blocked, n, trans) && calling.None?
      modifies this
      ensures N.Good(View())
      ensures done ==> Busy(i, N.Returning, n, trans) && calling.None? && |others| < |old(others)|
      ensures !done ==> others == []
    {
      hide N.Good;
      done := true;
      while done && handles[i].pc == N.Blocked && others != []
        invariant Busy(i, N.Blocked, n, trans) || (Busy(i, N.Returning, n, trans) && |others| < |old(others)|)
        invariant calling != Some(i) && (done ==> calling.None?) && (!done ==> others == [])
        invariant |others| <= |old(others)|
        decreases |others|
      {
        done := Gap(i);
      }
      done := done && handles[i].pc != N.Blocked;
    }

    /** The wait until no response is in progress; false if the gaps end first. */
    method AwaitFreePath(i: nat, ghost n: nat, ghost trans: nat) returns (done: bool)
      requires Busy(i, N.Returning, n, trans) && calling.None?
      modifies this
      ensures N.Good(View())
      ensures done ==> Busy(i, N.Returning, n, trans) && calling.None? && !responseInProgress
      ensures !done ==> others == []
    {
      hide N.Good;
      while responseInProgress
        invariant Busy(i, N.Returning, n, trans) && calling.None?
        decreases |others|
      {
        N.StepKeeps(View(), N.ReturnStep(i));
        ThreadReturns(i);
        done := AwaitEnd(i, n, trans);
        if !done {
          return;
        }
      }
      done := true;
    }

    /** The call of nb_transport_bw, and what the initiator does inside it. */
    method Respond(i: nat, inside: seq<N.Step>, ghost answered: bool, ghost n: nat, ghost trans: nat)
      requires Busy(i, N.Returning, n, trans) && calling.None? && !responseInProgress
      requires answered ==> forall k :: 0 <= k < |inside| ==> !inside[k].EndStep?
      modifies this
      ensures Busy(i, N.Responding, n, trans) && calling == Some(i) && !responseInProgress
      ensures answered ==> N.Unanswered(log) == 1
      ensures others == old(others)
    {
      hide N.Good, N.Unanswered;
      N.ResponseBegins(View(), i);
      ThreadReturns(i);
      N.TurnKeeps(View(), inside, i);
      TakeSteps(i, inside);
    }

    /** A turn of nb2b_thread for the request of process i: the call of the target, the annotated delay, the
        wait until the response path is free, and BEGIN_RESP, to which the initiator answers with sync and
        phase, after what it does inside the call. Then all the calls of the request have been made, each
        once, and the flag says whether the response is still to be ended. False if the gaps end first. */
    method Nb2bThread(i: nat, inside: seq<N.Step>, sync: Sync, phase: Phase) returns (done: bool)
      requires N.Good(View()) && N.Enabled(View(), N.StartStep(i))
      requires Answers(sync, phase) ==> forall k :: 0 <= k < |inside| ==> !inside[k].EndStep?
      modifies this
      ensures N.Good(View())
      ensures var h := old(handles[i]);
              done ==>
                && i < |handles| && handles[i].suspended && handles[i].pc == N.Parked
                && h.request < |asked| && asked[h.request] == h.trans
                && N.Of(log, h.request) == N.Life(h.request, h.trans)
                && responseInProgress == !Answers(sync, phase)
      ensures !done ==> others == []
    {
      hide N.Good, N.Of, N.Life, N.Unanswered;
      ghost var n, trans := handles[i].request, handles[i].trans;
      done := CallTarget(i, n);
      if !done {
        return;
      }
      done := AwaitFreePath(i, n, trans);
      if !done {
        return;
      }
      Respond(i, inside, Answers(sync, phase), n, trans);
      N.ResponseEnds(View(), i, Answers(sync, phase));
      ResponseReturns(i, sync, phase);
    }
  }

  /** What the initiator returns from nb_transport_bw that ends the response. */
  predicate Answers(sync: Sync, phase: Phase) {
    sync == Completed || (sync == Updated && phase == END_RESP)
  }

  /** In front of a target with nb_transport_fw only. The calls, with their events, are numbered. */
  class NonBlockingTarget {
    var scheduledEvents: seq<Entry>
    var event: PQ.Pending
    var pendingTrans: map<nat, nat>
    var currentTransaction: Option<nat>
    var endRequest: bool
    var callers: seq<B.Caller>
    var now: nat
    var pc: B.Pc
    /** Whether an assertion has failed; history. */
    var broken: bool
    /** Initiators, target and kernel: their steps in each of the coming gaps. */
    var others: seq<seq<B.Step>>

    function View(): B.Adapter
      reads this
    {
      B.Adapter(callers, pendingTrans, scheduledEvents, event, now, pc, currentTransaction, endRequest, broken)
    }

    ghost predicate Valid()
      reads this
    {
      forall p :: p in pendingTrans ==> pendingTrans[p] < |callers|
    }

    constructor ()
      ensures View() == B.START && Valid() && others == []
    {
      scheduledEvents, event, pendingTrans := [], PQ.NoEvent, map[];
      currentTransaction, endRequest, callers, now := None, false, [], 0;
      pc, broken, others := B.Idle, false, [];
    }

    /** notify of the event queue. */
    method Notify(trans: nat, t: nat)
      modifies `scheduledEvents, `event
      ensures scheduledEvents == StableInsert(old(scheduledEvents), B.EntryOf(trans, now + t))
      ensures event == if t == 0 then PQ.DeltaEvent else PQ.NotifyAt(old(event), now + t)
    {
      scheduledEvents := StableInsert(scheduledEvents, B.EntryOf(trans, t + now));
      if event != PQ.DeltaEvent {
        if t == 0 {
          event := PQ.DeltaEvent;
        } else if !(event.TimedEvent? && event.at <= now + t) {
          event := PQ.TimedEvent(now + t);
        }
      }
    }

    /** get_next_transaction of the event queue: the first one that is due; otherwise its event is armed. */
    method GetNextTransaction() returns (trans: Option<nat>)
      modifies `scheduledEvents, `event
      ensures trans.Some? <==> old(scheduledEvents) != [] && old(scheduledEvents)[0].t <= now
      ensures trans.Some? ==>
                && trans.value == old(scheduledEvents)[0].p.trans
                && scheduledEvents == old(scheduledEvents)[1..] && event == old(event)
      ensures trans.None? ==>
                && scheduledEvents == old(scheduledEvents)
                && event == if scheduledEvents == [] then old(event) else PQ.NotifyAt(old(event), scheduledEvents[0].t)
    {
      if scheduledEvents == [] {
        return None;
      }
      if scheduledEvents[0].t <= now {
        trans := Some(scheduledEvents[0].p.trans);
        scheduledEvents := scheduledEvents[1..];
        return;
      }
      if event.NoEvent? || (event.TimedEvent? && event.at > scheduledEvents[0].t) {
        event := PQ.TimedEvent(scheduledEvents[0].t);
      }
      return None;
    }

    /** b_transport as far as its wait; the number of the call. */
    method BTransport(trans: nat, t: nat) returns (n: nat)
      requires Valid()
      modifies `scheduledEvents, `event, `pendingTrans, `callers
      ensures Valid() && View() == B.Submit(old(View()), trans, t) && n == old(|callers|)
    {
      Notify(trans, t);
      n := |callers|;
      pendingTrans := pendingTrans[trans := n];
      callers := callers + [B.Caller(trans, now + t, B.Queued, 0, 0, false)];
    }

    /** Notifies the call blocked on a transaction and forgets the transaction. */
    method CompleteTransaction(trans: nat)
      requires Valid()
      modifies `callers, `pendingTrans, `broken
      ensures Valid() && View() == B.Complete(old(View()), trans)
    {
      if trans in pendingTrans {
        var n := pendingTrans[trans];
        callers := callers[n := callers[n].(stage := B.Done, notified := callers[n].notified + 1)];
        pendingTrans := pendingTrans - {trans};
      } else {
        broken := true;
      }
    }

    method SetStage(trans: nat, stage: B.Stage)
      requires Valid()
      modifies `callers
      ensures Valid() && View() == B.WithStage(old(View()), trans, stage)
    {
      if trans in pendingTrans {
        var n := pendingTrans[trans];
        callers := callers[n := callers[n].(stage := stage)];
      }
    }

    /** nb_transport_bw: calls about transactions that are not blocking go through to the initiator. */
    method NbTransportBw(trans: nat, phase: Phase) returns (forwarded: bool, sync: Sync, error: bool)
      requires Valid()
      modifies `pendingTrans, `callers, `endRequest, `broken
      ensures Valid()
      ensures forwarded <==> trans !in old(pendingTrans)
      ensures error <==> !forwarded && phase != END_REQ && phase != BEGIN_RESP
      ensures !forwarded ==> sync == if phase == END_REQ then Accepted else Completed
      ensures View() == if phase == END_REQ then B.EndReq(old(View()), trans)
                        else if phase == BEGIN_RESP then B.BeginResp(old(View()), trans)
                        else old(View())
    {
      forwarded, error, sync := false, false, Completed;
      if trans !in pendingTrans {
        forwarded := true;
        return;
      }
      if phase == END_REQ {
        endRequest := true;
        SetStage(trans, B.Accepted);
        sync := Accepted;
        return;
      }
      if phase == BEGIN_RESP {
        if currentTransaction == Some(trans) {
          endRequest := true;
        }
        CompleteTransaction(trans);
        return;
      }
      error := true;
    }

    /** What the target calls on the return path before nb_transport_fw returns. */
    method TargetCalls(trans: nat, inside: B.Inside)
      requires Valid()
      modifies `pendingTrans, `callers, `endRequest, `broken
      ensures Valid() && View() == B.Nested(old(View()), trans, inside)
    {
      if inside == B.EndsRequest || inside == B.EndsAndResponds {
        var _, _, _ := NbTransportBw(trans, END_REQ);
      }
      if inside == B.BeginsResponse || inside == B.EndsAndResponds {
        var _, _, _ := NbTransportBw(trans, BEGIN_RESP);
      }
    }

    /** One turn of b2nb_thread; inside is what the target calls while it is in nb_transport_fw, and answer
        what it returns from there to BEGIN_REQ, if it is called. */
    method ThreadTakes(answer: B.Answer, inside: B.Inside)
      requires Valid()
      modifies `scheduledEvents, `event, `pendingTrans, `callers, `currentTransaction, `endRequest, `pc, `broken
      ensures Valid() && View() == B.Take(old(View()), answer, inside)
    {
      hide PQ.NotifyAt, B.Nested, B.Answered;
      var next := GetNextTransaction();
      if next.None? {
        pc := B.Idle;
        return;
      }
      var trans := next.value;
      if trans in pendingTrans {
        var n := pendingTrans[trans];
        callers := callers[n := callers[n].(stage := B.Open, begun := callers[n].begun + 1)];
      }
      TargetCalls(trans, inside);
      ActOn(trans, answer);
    }

    /** The switch on what nb_transport_fw has returned, up to the wait it asks for. */
    method ActOn(trans: nat, answer: B.Answer)
      requires Valid()
      modifies `pendingTrans, `callers, `currentTransaction, `pc, `broken
      ensures Valid() && View() == B.Answered(old(View()), trans, answer)
    {
      match answer
      case Completed => CompleteTransaction(trans);
      case StillRequest =>
        currentTransaction := Some(trans);
        pc := B.WaitingEnd;
      case RequestEnded =>
        SetStage(trans, B.Accepted);
        pc := B.DelayAccepted;
      case ResponseBegun =>
        SetStage(trans, B.Responded);
        pc := B.DelayResponse(trans);
    }

    /** The thread is back from one of the waits for a delay: a response that came on the return path is
        ended, and the transaction is complete. */
    method ThreadDelayOver()
      requires Valid() && (pc == B.DelayAccepted || pc.DelayResponse?)
      modifies `pendingTrans, `callers, `pc, `broken
      ensures Valid() && View() == B.DelayOver(old(View()))
    {
      if pc.DelayResponse? {
        CompleteTransaction(pc.trans);
      }
      pc := B.Running;
    }

    // ------------------------------------------------------------ the others

    /** Any step of an initiator, of the target or of the kernel, if it can be taken. */
    method TakeStep(s: B.Step)
      requires Valid() && !B.Own(s)
      modifies `scheduledEvents, `event, `pendingTrans, `endRequest, `callers, `now, `pc, `broken
      ensures Valid() && View() == if B.Enabled(old(View()), s) then B.Apply(old(View()), s) else old(View())
    {
      hide PQ.NotifyAt, StableInsert, B.Complete, B.WithStage;
      if !B.Enabled(View(), s) {
        return;
      }
      match s {
        case SubmitStep(trans, t) =>
          var _ := BTransport(trans, t);
        case EndReqStep(trans) =>
          var _, _, _ := NbTransportBw(trans, END_REQ);
        case BeginRespStep(trans) =>
          var _, _, _ := NbTransportBw(trans, BEGIN_RESP);
        case FireEndStep =>
          endRequest, pc := false, if pc == B.WaitingEnd then B.Woken else pc;
        case FireQueueStep =>
          event, pc := PQ.NoEvent, if pc == B.Idle then B.Running else pc;
        case AdvanceStep(to) =>
          now := to;
        case ReturnStep(n) =>
          callers := callers[n := callers[n].(returned := true)];
        case _ =>
      }
    }

    /** A gap between two sections of the thread. */
    method Gap()
      requires B.Good(View())
      modifies this
      ensures B.Good(View()) && B.MayWake(old(pc), pc)
      ensures others == if old(others) == [] then [] else old(others)[1..]
      ensures old(others) == [] ==> View() == old(View())
    {
      hide B.Good, B.Apply, B.Enabled;
      if others == [] {
        return;
      }
      var steps := others[0];
      others := others[1..];
      B.TurnKeeps(View(), steps);
      GoodValid();
      var k := 0;
      while k < |steps|
        invariant 0 <= k <= |steps| && Valid() && others == old(others)[1..]
        invariant B.Turn(View(), steps[k..]) == B.Turn(old(View()), steps)
      {
        assert steps[k..][0] == steps[k] && steps[k..][1..] == steps[k + 1..];
        if !B.Own(steps[k]) {
          TakeStep(steps[k]);
        }
        k := k + 1;
      }
    }

    lemma GoodValid()
      requires B.Good(View())
      ensures Valid()
    {
    }

    /** The waits for the end of the request or for a delay, as the answer to BEGIN_REQ asks for, up to the
        head of the loop; false if the gaps end first. */
    method FinishTurn() returns (done: bool)
      requires B.Good(View()) && pc != B.Idle && pc != B.Woken
      modifies this
      ensures B.Good(View())
      ensures done ==> pc == B.Running
      ensures !done ==> others == []
      ensures |others| < |old(others)| || (old(others) == others && (done ==> scheduledEvents == old(scheduledEvents)))
    {
      hide B.Good;
      done := true;
      if pc == B.WaitingEnd {
        while pc == B.WaitingEnd && others != []
          invariant B.Good(View()) && (pc == B.WaitingEnd || (pc == B.Woken && |others| < |old(others)|))
          invariant |others| < |old(others)| || others == old(others)
          decreases |others|
        {
          Gap();
        }
        if pc == B.WaitingEnd {
          return false;
        }
        B.StepKeeps(View(), B.WakeStep);
        pc, currentTransaction := B.Running, None;
      } else if pc == B.DelayAccepted || pc.DelayResponse? {
        Gap();
        B.StepKeeps(View(), B.DelayOverStep);
        GoodValid();
        ThreadDelayOver();
      }
    }

    /** A run of b2nb_thread from its wake-up to the next wait for its queue; answers is what the target does
        in the BEGIN_REQ calls. When it waits again every transaction that was due has been sent, its event is
        armed in time for the others, no assertion has failed, and every call the target is done with has been
        notified exactly once. False if the gaps end first. */
    method B2nbThread(answers: seq<(B.Answer, B.Inside)>) returns (done: bool)
      requires B.Good(View()) && pc == B.Running
      requires forall k :: 0 <= k < |answers| ==> B.Conforms(answers[k].0, answers[k].1)
      modifies this
      ensures B.Good(View()) && !broken
      ensures done ==> pc == B.Idle
      ensures done ==> forall n :: 0 <= n < |callers| && callers[n].stage == B.Queued ==>
                && callers[n].due > now
                && (event == PQ.DeltaEvent || (event.TimedEvent? && now <= event.at <= callers[n].due))
      ensures done ==> forall n :: 0 <= n < |callers| ==>
                callers[n].notified == if callers[n].trans in pendingTrans && pendingTrans[callers[n].trans] == n then 0 else 1
      ensures !done ==> others == []
    {
      hide B.Good;
      var k: nat := 0;
      while pc != B.Idle
        invariant B.Good(View()) && (pc == B.Running || pc == B.Idle)
        invariant pc == B.Idle ==> scheduledEvents == [] || scheduledEvents[0].t > now
        decreases |others|, |scheduledEvents|, pc != B.Idle
      {
        var (answer, inside) := if k < |answers| then answers[k] else (B.Completed, B.NoCall);
        k := k + 1;
        TakeNext(answer, inside);
        if pc != B.Idle {
          done := FinishTurn();
          if !done {
            AllAccounted();
            return;
          }
        }
      }
      AllAccounted();
      done := true;
    }

    /** The head of the loop. */
    method TakeNext(answer: B.Answer, inside: B.Inside)
      requires B.Good(View()) && pc == B.Running && B.Conforms(answer, inside)
      modifies `scheduledEvents, `event, `pendingTrans, `callers, `currentTransaction, `endRequest, `pc, `broken
      ensures B.Good(View()) && pc != B.Woken
      ensures pc == B.Idle ==> scheduledEvents == [] || scheduledEvents[0].t > now
      ensures |scheduledEvents| <= |old(scheduledEvents)|
      ensures pc != B.Idle ==> |scheduledEvents| < |old(scheduledEvents)|
    {
      hide B.Good, B.Take;
      B.StepKeeps(View(), B.TakeStep(answer, inside));
      B.TakeFacts(View(), answer, inside);
      GoodValid();
      ThreadTakes(answer, inside);
    }

    lemma AllAccounted()
      requires B.Good(View())
      ensures !broken
      ensures forall n :: 0 <= n < |callers| ==>
                callers[n].notified == if callers[n].trans in pendingTrans && pendingTrans[callers[n].trans] == n then 0 else 1
      ensures pc == B.Idle && (scheduledEvents == [] || scheduledEvents[0].t > now) ==>
                forall n :: 0 <= n < |callers| && callers[n].stage == B.Queued ==>
                  && callers[n].due > now
                  && (event == PQ.DeltaEvent || (event.TimedEvent? && now <= event.at <= callers[n].due))
    {
      hide B.ScheduledExact, B.ResponseExact, B.Awake;
      forall n | 0 <= n < |callers|
        ensures callers[n].notified == if callers[n].trans in pendingTrans && pendingTrans[callers[n].trans] == n then 0 else 1
      {
        assert B.CallerOk(callers[n]);
      }
      if pc == B.Idle && (scheduledEvents == [] || scheduledEvents[0].t > now) {
        forall n | 0 <= n < |callers| && callers[n].stage == B.Queued
          ensures callers[n].due > now
          ensures event == PQ.DeltaEvent || (event.TimedEvent? && now <= event.at <= callers[n].due)
        {
          B.SleepsSafely(View(), n);
        }
      }
    }
  }
}
