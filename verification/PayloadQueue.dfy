/** The payload event queue with its one wake-up event, as a state machine: notifications, the fec
    method, the ends of delta cycles, the advance of time and cancel_all. */
module PayloadQueue {
  import opened TimeOrderedList

  /** The notification state of m_e. */
  datatype Pending = NoEvent | DeltaEvent | TimedEvent(at: nat)

  /** A call a callback makes on the queue while fec runs: a timed notification, where when = 0 asks for
      the next delta cycle, an immediate one, or cancel_all. */
  datatype Ask = Later(p: Payload, when: nat) | AtOnce(p: Payload) | Revoke

  /** The calls of the callbacks to come, callback by callback; a callback past the end makes none.
      Any call of fec that returns has made finitely many callbacks. */
  type Script = seq<seq<Ask>>

  /** What was asked for and what the callback received. Timed entries carry their due time, or the
      time of the call; delta entries carry the delta count they are due at, or were delivered at.
      lostT has the timed entries that were unlinked instead of delivered. What cancel_all drops is no
      longer asked for; made, dropped and lost have all there ever was. */
  datatype Hist = Hist(askT: seq<Entry>, gotT: seq<Entry>, lostT: seq<Entry>,
                       askD: seq<Entry>, gotD: seq<Entry>, askI: seq<Payload>, gotI: seq<Payload>,
                       made: multiset<Payload>, dropped: multiset<Payload>, lost: multiset<Payload>)

  datatype Queue = Queue(now: nat, delta: nat, pending: Pending, runnable: bool, imm: seq<Payload>,
                         even: seq<Payload>, odd: seq<Payload>, timed: seq<Entry>, script: Script,
                         hist: Hist)

  predicate Odd(n: nat) {
    n % 2 == 1
  }

  /** The delta list that fec drains at the current delta count, and the other one. */
  function Cur(q: Queue): seq<Payload> {
    if Odd(q.delta) then q.odd else q.even
  }

  function Nxt(q: Queue): seq<Payload> {
    if Odd(q.delta) then q.even else q.odd
  }

  /** A timed notification never displaces an earlier one, nor a delta notification. */
  function NotifyAt(e: Pending, t: nat): Pending {
    match e
    case DeltaEvent => e
    case TimedEvent(at) => if at <= t then e else TimedEvent(t)
    case NoEvent => TimedEvent(t)
  }

  /** The override rules: what was pending stays or the new time takes its place, the earlier of the two. */
  lemma NotifyAtRules(e: Pending, t: nat)
    ensures NotifyAt(e, t) == e || NotifyAt(e, t) == TimedEvent(t)
    ensures NotifyAt(e, t) == DeltaEvent <==> e == DeltaEvent
    ensures e != DeltaEvent ==>
              NotifyAt(e, t).TimedEvent? && NotifyAt(e, t).at <= t && (e.TimedEvent? ==> NotifyAt(e, t).at <= e.at)
  {
  }

  function NotifyWhen(q: Queue, p: Payload, when: nat): Queue {
    if when == 0 then
      var h := q.hist.(askD := q.hist.askD + [Entry(p, q.delta + 1)], made := q.hist.made + multiset{p});
      if Odd(q.delta) then q.(even := q.even + [p], pending := DeltaEvent, hist := h)
      else q.(odd := q.odd + [p], pending := DeltaEvent, hist := h)
    else
      var e := Entry(p, when + q.now);
      q.(timed := StableInsert(q.timed, e), pending := NotifyAt(q.pending, e.t),
         hist := q.hist.(askT := q.hist.askT + [e], made := q.hist.made + multiset{p}))
  }

  /** The immediate notification cancels whatever is pending and makes fec runnable, unless it is fec
      itself that notifies: the kernel ignores a process that triggers itself, though the cancellation
      has happened. */
  function NotifyNow(q: Queue, p: Payload, self: bool): Queue {
    q.(imm := q.imm + [p], pending := NoEvent, runnable := q.runnable || !self,
       hist := q.hist.(askI := q.hist.askI + [p], made := q.hist.made + multiset{p}))
  }

  /** The payloads of a list of entries. */
  function Bag(s: seq<Entry>): multiset<Payload> {
    if s == [] then multiset{} else multiset{s[0].p} + Bag(s[1..])
  }

  function Waiting(q: Queue): multiset<Payload> {
    multiset(q.imm) + multiset(q.even) + multiset(q.odd) + Bag(q.timed)
  }

  function CancelAll(q: Queue): Queue {
    q.(imm := [], even := [], odd := [], timed := [], pending := NoEvent,
       hist := q.hist.(askT := q.hist.gotT, lostT := [], askD := q.hist.gotD, askI := q.hist.gotI,
                       dropped := q.hist.dropped + Waiting(q)))
  }

  // ------------------------------------------------------------------------ fec

  function Answer(q: Queue, a: Ask): (r: Queue)
    ensures r.now == q.now && r.delta == q.delta && r.runnable == q.runnable && r.script == q.script
    ensures |r.imm| == LeftBy(|q.imm|, a) && Cur(r) == if a.Revoke? then [] else Cur(q)
  {
    match a
    case Later(p, when) => NotifyWhen(q, p, when)
    case AtOnce(p) => NotifyNow(q, p, true)
    case Revoke => CancelAll(q)
  }

  function LeftBy(n: nat, a: Ask): nat {
    match a
    case Later(_, _) => n
    case AtOnce(_) => n + 1
    case Revoke => 0
  }

  /** How many immediate payloads are queued after a callback that began with n of them. */
  function Left(n: nat, asks: seq<Ask>): nat
    decreases |asks|
  {
    if asks == [] then n else Left(LeftBy(n, asks[0]), asks[1..])
  }

  /** Whether a callback cancels. */
  predicate Revokes(asks: seq<Ask>)
    decreases |asks|
  {
    asks != [] && (asks[0].Revoke? || Revokes(asks[1..]))
  }

  /** Whether the next one does. */
  predicate Revoked(script: Script) {
    script != [] && Revokes(script[0])
  }

  /** The calls one callback makes, in order. */
  function React(q: Queue, asks: seq<Ask>): (r: Queue)
    ensures r.now == q.now && r.delta == q.delta && r.runnable == q.runnable && r.script == q.script
    ensures |r.imm| == Left(|q.imm|, asks) && Cur(r) == if Revokes(asks) then [] else Cur(q)
    decreases |asks|
  {
    if asks == [] then q else React(Answer(q, asks[0]), asks[1..])
  }

  /** The next callback of the owner. */
  function Callback(q: Queue): (r: Queue)
    ensures r.now == q.now && r.delta == q.delta && r.runnable == q.runnable
    ensures Cur(r) == if Revoked(q.script) then [] else Cur(q)
    ensures r.script == Rest(q.script, 1)
    ensures |r.imm| == Next(|q.imm|, q.script)
  {
    if q.script == [] then q else React(q.(script := q.script[1..]), q.script[0])
  }

  /** How many immediate payloads are queued after the next callback. */
  function Next(n: nat, script: Script): nat {
    if script == [] then n else Left(n, script[0])
  }

  /** The script after n more callbacks. */
  function Rest(script: Script, n: nat): Script {
    if n <= |script| then script[n..] else []
  }

  function DeliverNow(q: Queue): (r: Queue)
    requires q.imm != []
    ensures |r.imm| == |q.imm| - 1
  {
    q.(imm := q.imm[1..], hist := q.hist.(gotI := q.hist.gotI + [q.imm[0]]))
  }

  function DrainImmediate(q: Queue): Queue
    decreases |q.script|, |q.imm|
  {
    if q.imm == [] then q else DrainImmediate(Callback(DeliverNow(q)))
  }

  function DeliverDelta(q: Queue): (r: Queue)
    requires Cur(q) != []
    ensures Cur(r) == Cur(q)[1..] && r.script == q.script && r.imm == q.imm
  {
    var h := q.hist.(gotD := q.hist.gotD + [Entry(Cur(q)[0], q.delta)]);
    if Odd(q.delta) then q.(odd := q.odd[1..], hist := h) else q.(even := q.even[1..], hist := h)
  }

  function DrainDelta(q: Queue): Queue
    decreases |Cur(q)|
  {
    if Cur(q) == [] then q else DrainDelta(Callback(DeliverDelta(q)))
  }

  /** How many entries at the head of the list are due now. */
  function Due(s: seq<Entry>, now: nat): nat {
    if s == [] || s[0].t != now then 0 else 1 + Due(s[1..], now)
  }

  function DeliverTimed(q: Queue): Queue
    requires q.timed != []
  {
    q.(timed := q.timed[1..], hist := q.hist.(gotT := q.hist.gotT + [Entry(q.timed[0].p, q.now)]))
  }

  lemma {:induction false} InsertLater(s: seq<Entry>, e: Entry, now: nat)
    requires e.t > now
    ensures Due(StableInsert(s, e), now) == Due(s, now)
  {
    if s == [] || s[0].t > e.t {
      assert ([e] + s)[0] == e;
    } else {
      InsertLater(s[1..], e, now);
      assert ([s[0]] + StableInsert(s[1..], e))[1..] == StableInsert(s[1..], e);
    }
  }

  lemma {:induction false} ReactKeepsDue(q: Queue, asks: seq<Ask>)
    ensures Due(React(q, asks).timed, q.now) == if Revokes(asks) then 0 else Due(q.timed, q.now)
    decreases |asks|
  {
    if asks == [] {
    } else {
      if asks[0].Later? && asks[0].when > 0 {
        InsertLater(q.timed, Entry(asks[0].p, asks[0].when + q.now), q.now);
      }
      ReactKeepsDue(Answer(q, asks[0]), asks[1..]);
    }
  }

  lemma CallbackKeepsDue(q: Queue)
    ensures Due(Callback(q).timed, q.now) == if Revoked(q.script) then 0 else Due(q.timed, q.now)
  {
    if q.script != [] {
      ReactKeepsDue(q.(script := q.script[1..]), q.script[0]);
    }
  }

  ghost predicate AllAfter(s: seq<Entry>, now: nat) {
    forall i :: 0 <= i < |s| ==> s[i].t > now
  }

  lemma InsertAllAfter(s: seq<Entry>, e: Entry, now: nat)
    requires AllAfter(s, now) && e.t > now
    ensures AllAfter(StableInsert(s, e), now)
  {
    StableInsertAt(s, e, Slot(s, e));
  }

  /** What is queued for a time after a cancellation is due later than now. */
  lemma {:induction false} ReactAfter(q: Queue, asks: seq<Ask>)
    requires AllAfter(q.timed, q.now) || Revokes(asks)
    ensures AllAfter(React(q, asks).timed, q.now)
    decreases |asks|
  {
    hide StableInsert, AllAfter;
    if asks != [] {
      if asks[0].Later? && asks[0].when > 0 && AllAfter(q.timed, q.now) {
        InsertAllAfter(q.timed, Entry(asks[0].p, asks[0].when + q.now), q.now);
      }
      assert AllAfter([], q.now) by { NothingAfter(q.now); }
      ReactAfter(Answer(q, asks[0]), asks[1..]);
    }
  }

  lemma NothingAfter(now: nat)
    ensures AllAfter([], now)
  {
  }

  /** delete_top after a callback that has cancelled: what it has queued first since then is unlinked in
      place of the payload it was called with. */
  function Unlink(q: Queue): Queue {
    if q.timed == [] then q
    else q.(timed := q.timed[1..],
            hist := q.hist.(lostT := q.hist.lostT + [q.timed[0]], lost := q.hist.lost + multiset{q.timed[0].p}))
  }

  /** One round of the timed loop. */
  function Round(q: Queue): Queue
    requires q.timed != []
  {
    var r := Callback(DeliverTimed(q));
    if Revoked(q.script) then Unlink(r) else r
  }

  lemma RoundDue(q: Queue)
    requires q.timed != [] && q.timed[0].t == q.now
    ensures Due(Round(q).timed, q.now) == if Revoked(q.script) then 0 else Due(q.timed, q.now) - 1
  {
    hide Callback;
    CallbackKeepsDue(DeliverTimed(q));
    if Revoked(q.script) {
      RevokedAfter(DeliverTimed(q));
    }
  }

  lemma RevokedAfter(q: Queue)
    requires Revoked(q.script)
    ensures AllAfter(Callback(q).timed, q.now)
  {
    ReactAfter(q.(script := q.script[1..]), q.script[0]);
  }

  function DrainTimed(q: Queue): Queue
    decreases Due(q.timed, q.now)
  {
    if q.timed == [] || q.timed[0].t != q.now then q
    else
      RoundDue(q);
      DrainTimed(Round(q))
  }

  /** fec re-arms the event for the other delta list, and for the first timed payload left. */
  function RearmDelta(q: Queue): Queue {
    if Nxt(q) != [] then q.(pending := DeltaEvent) else q
  }

  function RearmTimed(q: Queue): Queue {
    if q.timed != [] then q.(pending := NotifyAt(q.pending, q.timed[0].t)) else q
  }

  /** The timed part of fec, which returns early when nothing is queued. */
  function FecTimed(q: Queue): Queue {
    if q.timed == [] then q else RearmTimed(DrainTimed(q))
  }

  function Fec(q: Queue, script: Script): Queue {
    var q0 := q.(runnable := false, script := script);
    FecTimed(RearmDelta(DrainDelta(DrainImmediate(q0)))).(script := [])
  }

  // ---------------------------------------------------------------- the kernel

  /** The end of an evaluation phase: the count moves on if any process ran, and a pending delta
      notification fires. */
  function EndDelta(q: Queue, ran: bool): Queue {
    var q1 := if ran then q.(delta := q.delta + 1) else q;
    if q.pending == DeltaEvent then q1.(runnable := true, pending := NoEvent) else q1
  }

  function Advance(q: Queue, to: nat): Queue {
    var q1 := q.(now := to);
    if q.pending == TimedEvent(to) then q1.(runnable := true, pending := NoEvent) else q1
  }

  datatype Move =
    | When(p: Payload, when: nat)
    | Now(p: Payload)
    | RunFec(script: Script)
    | End(ran: bool)
    | Tick(to: nat)
    | Cancel

  predicate Enabled(q: Queue, m: Move) {
    match m
    case RunFec(_) => q.runnable
    case End(_) => !q.runnable
    case Tick(to) =>
      && !q.runnable && q.pending != DeltaEvent && to > q.now
      && (q.pending.TimedEvent? ==> to <= q.pending.at)
    case _ => true
  }

  function Apply(q: Queue, m: Move): Queue {
    match m
    case When(p, when) => NotifyWhen(q, p, when)
    case Now(p) => NotifyNow(q, p, false)
    case RunFec(script) => Fec(q, script)
    case End(ran) => EndDelta(q, ran)
    case Tick(to) => Advance(q, to)
    case Cancel => CancelAll(q)
  }

  const INIT: Queue :=
    Queue(0, 0, NoEvent, false, [], [], [], [], [], Hist([], [], [], [], [], [], [], multiset{}, multiset{}, multiset{}))

  // ------------------------------------------------------------- the invariant

  /** The payloads of the two delta lists that are due at delta count c. */
  function Queued(delta: nat, cur: seq<Payload>, nxt: seq<Payload>, c: nat): seq<Payload> {
    if c == delta then cur else if c == delta + 1 then nxt else []
  }

  ghost predicate TimedAccounted(got: seq<Entry>, timed: seq<Entry>, asked: seq<Entry>) {
    forall t: nat :: At(got, t) + At(timed, t) == At(asked, t)
  }

  ghost predicate DeltaAccounted(got: seq<Entry>, delta: nat, cur: seq<Payload>, nxt: seq<Payload>,
                                 asked: seq<Entry>)
  {
    forall c: nat :: At(got, c) + Queued(delta, cur, nxt, c) == At(asked, c)
  }

  /** Every payload asked for is either delivered with the right stamp or still queued, in order; or it is
      a timed one that was lost. */
  ghost predicate Accounted(q: Queue) {
    && TimedAccounted(q.hist.lostT + q.hist.gotT, q.timed, q.hist.askT)
    && DeltaAccounted(q.hist.gotD, q.delta, Cur(q), Nxt(q), q.hist.askD)
    && q.hist.gotI + q.imm == q.hist.askI
  }

  /** What holds at every point, inside fec too. */
  ghost predicate Consistent(q: Queue) {
    && Sorted(q.timed)
    && (forall i :: 0 <= i < |q.timed| ==> q.timed[i].t >= q.now)
    && (q.pending.TimedEvent? ==> q.pending.at > q.now)
    && (forall i :: 0 <= i < |q.hist.gotT| ==> q.hist.gotT[i].t <= q.now)
    && Accounted(q)
  }

  /** No lost wake-up: with a payload queued, fec is runnable or m_e fires no later than the payload
      is due. */
  predicate Awake(q: Queue) {
    && (q.imm != [] || Cur(q) != [] ==> q.runnable)
    && (Nxt(q) != [] ==> q.runnable || q.pending == DeltaEvent)
    && (q.timed != [] ==>
          || q.runnable
          || (q.timed[0].t > q.now && q.pending == DeltaEvent)
          || (q.timed[0].t > q.now && q.pending.TimedEvent? && q.pending.at <= q.timed[0].t))
  }

  lemma NotifyWhenConsistent(q: Queue, p: Payload, when: nat)
    requires Consistent(q)
    ensures Consistent(NotifyWhen(q, p, when))
  {
    if when == 0 {
      NotifyZeroConsistent(q, p);
    } else {
      NotifyLaterConsistent(q, p, when);
    }
  }

  lemma NotifyZeroConsistent(q: Queue, p: Payload)
    requires Consistent(q)
    ensures Consistent(NotifyWhen(q, p, 0))
  {
    hide TimedAccounted, DeltaAccounted, Sorted;
    AskDelta(q.hist.gotD, q.delta, Cur(q), Nxt(q), q.hist.askD, p);
    assert Cur(NotifyWhen(q, p, 0)) == Cur(q) && Nxt(NotifyWhen(q, p, 0)) == Nxt(q) + [p];
  }

  lemma AskDelta(got: seq<Entry>, delta: nat, cur: seq<Payload>, nxt: seq<Payload>, asked: seq<Entry>, p: Payload)
    requires DeltaAccounted(got, delta, cur, nxt, asked)
    ensures DeltaAccounted(got, delta, cur, nxt + [p], asked + [Entry(p, delta + 1)])
  {
    forall c: nat
      ensures At(got, c) + Queued(delta, cur, nxt + [p], c) == At(asked + [Entry(p, delta + 1)], c)
    {
      var x := At([Entry(p, delta + 1)], c);
      AtAppend(asked, [Entry(p, delta + 1)], c);
      AtCons(Entry(p, delta + 1), [], c);
      assert Queued(delta, cur, nxt + [p], c) == Queued(delta, cur, nxt, c) + x;
      assert At(got, c) + (Queued(delta, cur, nxt, c) + x) == (At(got, c) + Queued(delta, cur, nxt, c)) + x;
    }
  }

  lemma NotifyLaterConsistent(q: Queue, p: Payload, when: nat)
    requires Consistent(q) && when > 0
    ensures Consistent(NotifyWhen(q, p, when))
  {
    hide TimedAccounted, DeltaAccounted, Sorted;
    var r := NotifyWhen(q, p, when);
    var e := Entry(p, when + q.now);
    StableInsertSorted(q.timed, e);
    InsertedTimes(q.timed, e, q.now);
    AskTimed(q.hist.lostT + q.hist.gotT, q.timed, q.hist.askT, e);
    assert Cur(r) == Cur(q) && Nxt(r) == Nxt(q);
  }

  lemma AskTimed(got: seq<Entry>, timed: seq<Entry>, asked: seq<Entry>, e: Entry)
    requires TimedAccounted(got, timed, asked) && Sorted(timed)
    ensures TimedAccounted(got, StableInsert(timed, e), asked + [e])
  {
    forall t: nat
      ensures At(got, t) + At(StableInsert(timed, e), t) == At(asked + [e], t)
    {
      AskTimedAt(got, timed, asked, e, t);
    }
  }

  lemma AskTimedAt(got: seq<Entry>, timed: seq<Entry>, asked: seq<Entry>, e: Entry, t: nat)
    requires At(got, t) + At(timed, t) == At(asked, t) && Sorted(timed)
    ensures At(got, t) + At(StableInsert(timed, e), t) == At(asked + [e], t)
  {
    hide StableInsert, Sorted;
    StableInsertFifo(timed, e, t);
    AtAppend(asked, [e], t);
    AtCons(e, [], t);
    assert At(got, t) + (At(timed, t) + At([e], t)) == (At(got, t) + At(timed, t)) + At([e], t);
  }

  lemma InsertedTimes(s: seq<Entry>, e: Entry, now: nat)
    requires e.t >= now && forall i :: 0 <= i < |s| ==> s[i].t >= now
    ensures forall i :: 0 <= i < |StableInsert(s, e)| ==> StableInsert(s, e)[i].t >= now
    ensures StableInsert(s, e)[0].t == if s == [] || s[0].t > e.t then e.t else s[0].t
  {
    StableInsertAt(s, e, Slot(s, e));
  }

  lemma NotifyNowConsistent(q: Queue, p: Payload, self: bool)
    requires Consistent(q)
    ensures Consistent(NotifyNow(q, p, self))
  {
    hide TimedAccounted, DeltaAccounted, Sorted;
    var r := NotifyNow(q, p, self);
    assert q.hist.gotI + (q.imm + [p]) == (q.hist.gotI + q.imm) + [p];
    assert Cur(r) == Cur(q) && Nxt(r) == Nxt(q);
  }

  lemma CancelConsistent(q: Queue)
    requires Consistent(q)
    ensures Consistent(CancelAll(q)) && Awake(CancelAll(q))
  {
    var r := CancelAll(q);
    assert Cur(r) == Nxt(r) == [];
    assert TimedAccounted(r.hist.lostT + r.hist.gotT, [], q.hist.gotT) by {
      assert r.hist.lostT + r.hist.gotT == q.hist.gotT;
    }
    forall c: nat
      ensures At(q.hist.gotD, c) + Queued(q.delta, [], [], c) == At(q.hist.gotD, c)
    {
    }
    assert r.hist.gotI + [] == r.hist.gotI;
  }

  lemma {:induction false} ReactConsistent(q: Queue, asks: seq<Ask>)
    requires Consistent(q)
    ensures Consistent(React(q, asks))
    ensures Armed(q) ==> Armed(React(q, asks))
    decreases |asks|
  {
    hide Consistent;
    if asks == [] {
    } else {
      match asks[0] {
        case Later(p, when) => NotifyWhenConsistent(q, p, when);
        case AtOnce(p) => NotifyNowConsistent(q, p, true);
        case Revoke => CancelConsistent(q);
      }
      ReactConsistent(Answer(q, asks[0]), asks[1..]);
    }
  }

  /** The next callback never spoils the accounting, nor the event for the other delta list. */
  lemma CallbackConsistent(q: Queue)
    requires Consistent(q)
    ensures Consistent(Callback(q))
    ensures Armed(q) ==> Armed(Callback(q))
  {
    if q.script != [] {
      var q1 := q.(script := q.script[1..]);
      assert Cur(q1) == Cur(q) && Nxt(q1) == Nxt(q);
      ReactConsistent(q1, q.script[0]);
    }
  }

  /** With a payload for the next delta cycle, m_e fires at the end of this one, unless a payload is queued
      for now, whose notification has cancelled it. */
  predicate Armed(q: Queue) {
    q.imm == [] && Nxt(q) != [] ==> q.pending == DeltaEvent
  }

  lemma {:induction false} DrainImmediateConsistent(q: Queue)
    requires Consistent(q)
    ensures var r := DrainImmediate(q);
            && Consistent(r) && r.imm == [] && r.now == q.now && r.delta == q.delta
            && r.runnable == q.runnable
    decreases |q.script|, |q.imm|
  {
    if q.imm == [] {
    } else {
      assert q.hist.gotI + q.imm == (q.hist.gotI + [q.imm[0]]) + q.imm[1..];
      CallbackConsistent(DeliverNow(q));
      DrainImmediateConsistent(Callback(DeliverNow(q)));
    }
  }

  lemma DeliverDeltaConsistent(q: Queue)
    requires Consistent(q) && Cur(q) != []
    ensures Consistent(DeliverDelta(q))
  {
    hide TimedAccounted, DeltaAccounted, Sorted;
    GetDelta(q.hist.gotD, q.delta, Cur(q), Nxt(q), q.hist.askD);
    assert Cur(DeliverDelta(q)) == Cur(q)[1..] && Nxt(DeliverDelta(q)) == Nxt(q);
  }

  lemma GetDelta(got: seq<Entry>, delta: nat, cur: seq<Payload>, nxt: seq<Payload>, asked: seq<Entry>)
    requires DeltaAccounted(got, delta, cur, nxt, asked) && cur != []
    ensures DeltaAccounted(got + [Entry(cur[0], delta)], delta, cur[1..], nxt, asked)
  {
    forall c: nat
      ensures At(got + [Entry(cur[0], delta)], c) + Queued(delta, cur[1..], nxt, c) == At(asked, c)
    {
      AtAppend(got, [Entry(cur[0], delta)], c);
      AtCons(Entry(cur[0], delta), [], c);
      assert At(got, c) + Queued(delta, cur, nxt, c) == At(asked, c);
      if c == delta {
        assert At(got, c) + cur == (At(got, c) + [cur[0]]) + cur[1..];
      }
    }
  }

  lemma {:induction false} DrainDeltaConsistent(q: Queue)
    requires Consistent(q)
    ensures var r := DrainDelta(q);
            && Consistent(r) && Cur(r) == [] && r.now == q.now && r.delta == q.delta
            && r.runnable == q.runnable
    decreases |Cur(q)|
  {
    hide Consistent;
    if Cur(q) == [] {
    } else {
      DeliverDeltaConsistent(q);
      CallbackConsistent(DeliverDelta(q));
      DrainDeltaConsistent(Callback(DeliverDelta(q)));
    }
  }

  lemma DeliverTimedConsistent(q: Queue)
    requires Consistent(q) && q.timed != [] && q.timed[0].t == q.now
    ensures Consistent(DeliverTimed(q))
  {
    hide TimedAccounted, DeltaAccounted, Sorted;
    SortedTail(q.timed);
    GetTimed(q.hist.lostT + q.hist.gotT, q.timed, q.hist.askT);
    assert (q.hist.lostT + q.hist.gotT) + [q.timed[0]] == q.hist.lostT + (q.hist.gotT + [q.timed[0]]);
    assert Cur(DeliverTimed(q)) == Cur(q) && Nxt(DeliverTimed(q)) == Nxt(q);
  }

  lemma GetTimed(got: seq<Entry>, timed: seq<Entry>, asked: seq<Entry>)
    requires TimedAccounted(got, timed, asked) && timed != []
    ensures TimedAccounted(got + [timed[0]], timed[1..], asked)
  {
    hide At;
    forall t: nat
      ensures At(got + [timed[0]], t) + At(timed[1..], t) == At(asked, t)
    {
      GetTimedAt(got, timed, t);
      assert At(got, t) + At(timed, t) == At(asked, t);
    }
  }

  lemma GetTimedAt(got: seq<Entry>, timed: seq<Entry>, t: nat)
    requires timed != []
    ensures At(got + [timed[0]], t) + At(timed[1..], t) == At(got, t) + At(timed, t)
  {
    hide At;
    var head := [timed[0]];
    AtAppend(got, head, t);
    AtAppend(head, timed[1..], t);
    assert head + timed[1..] == timed;
    Assoc(At(got, t), At(head, t), At(timed[1..], t));
  }

  lemma Assoc(a: seq<Payload>, b: seq<Payload>, c: seq<Payload>)
    ensures (a + b) + c == a + (b + c)
  {
  }

  /** Nothing that is due later has been delivered, so a lost entry goes before what has. */
  lemma LoseTimed(lost: seq<Entry>, got: seq<Entry>, timed: seq<Entry>, asked: seq<Entry>)
    requires TimedAccounted(lost + got, timed, asked) && timed != []
    requires forall i :: 0 <= i < |got| ==> got[i].t < timed[0].t
    ensures TimedAccounted((lost + [timed[0]]) + got, timed[1..], asked)
  {
    hide At;
    var head := [timed[0]];
    forall t: nat
      ensures At((lost + head) + got, t) + At(timed[1..], t) == At(asked, t)
    {
      assert At(lost + got, t) + At(timed, t) == At(asked, t);
      LoseTimedAt(lost, got, timed, t);
    }
  }

  lemma LoseTimedAt(lost: seq<Entry>, got: seq<Entry>, timed: seq<Entry>, t: nat)
    requires timed != [] && forall i :: 0 <= i < |got| ==> got[i].t < timed[0].t
    ensures At((lost + [timed[0]]) + got, t) + At(timed[1..], t) == At(lost + got, t) + At(timed, t)
  {
    hide At;
    var head := [timed[0]];
    AtAppend(lost + head, got, t);
    AtAppend(lost, head, t);
    AtAppend(lost, got, t);
    AtAppend(head, timed[1..], t);
    assert head + timed[1..] == timed;
    if t == timed[0].t {
      AtEarly(got, t);
    } else {
      AtCons(timed[0], [], t);
    }
    assert (At(lost, t) + At(head, t)) + At(got, t) == At(lost, t) + At(got, t) + At(head, t);
  }

  lemma {:induction false} AtEarly(s: seq<Entry>, t: nat)
    requires forall i :: 0 <= i < |s| ==> s[i].t < t
    ensures At(s, t) == []
  {
    if s == [] {
    } else {
      AtEarly(s[1..], t);
    }
  }

  lemma UnlinkConsistent(q: Queue)
    requires Consistent(q) && AllAfter(q.timed, q.now)
    ensures Consistent(Unlink(q))
  {
    hide TimedAccounted, DeltaAccounted, Sorted;
    if q.timed != [] {
      SortedTail(q.timed);
      LoseTimed(q.hist.lostT, q.hist.gotT, q.timed, q.hist.askT);
      assert Cur(Unlink(q)) == Cur(q) && Nxt(Unlink(q)) == Nxt(q);
    }
  }

  lemma RoundConsistent(q: Queue)
    requires Consistent(q) && q.timed != [] && q.timed[0].t == q.now
    ensures Consistent(Round(q)) && (Armed(q) ==> Armed(Round(q)))
  {
    hide Consistent, Callback;
    DeliverTimedConsistent(q);
    CallbackConsistent(DeliverTimed(q));
    if Revoked(q.script) {
      RevokedAfter(DeliverTimed(q));
      UnlinkConsistent(Callback(DeliverTimed(q)));
    }
  }

  lemma {:induction false} DrainTimedConsistent(q: Queue)
    requires Consistent(q) && Cur(q) == []
    ensures var r := DrainTimed(q);
            && Consistent(r) && Cur(r) == [] && r.now == q.now && r.delta == q.delta
            && r.runnable == q.runnable && (Armed(q) ==> Armed(r))
            && (r.timed != [] ==> r.timed[0].t > r.now)
    decreases Due(q.timed, q.now)
  {
    hide Accounted, Sorted, Callback;
    if q.timed == [] || q.timed[0].t != q.now {
    } else {
      RoundDue(q);
      RoundConsistent(q);
      DrainTimedConsistent(Round(q));
    }
  }

  /** Whether fec is runnable, and when the event fires, is no part of the accounting. */
  lemma RearmedConsistent(q: Queue, b: bool, e: Pending)
    requires Consistent(q)
    requires e.TimedEvent? ==> e.at > q.now
    ensures Consistent(q.(runnable := b, pending := e))
  {
    hide TimedAccounted, DeltaAccounted, Sorted;
    var r := q.(runnable := b, pending := e);
    assert Cur(r) == Cur(q) && Nxt(r) == Nxt(q);
  }

  lemma ConsistentPending(q: Queue)
    requires Consistent(q)
    ensures q.pending.TimedEvent? ==> q.pending.at > q.now
  {
  }

  /** The tail of fec, from the point where the delta payloads have been handed out: the queue is
      left awake exactly when no immediate payload is left over. */
  lemma FecTailKeeps(q: Queue)
    requires Consistent(q) && Cur(q) == [] && !q.runnable
    ensures var r := FecTimed(RearmDelta(q));
            Consistent(r) && !r.runnable && (Awake(r) <==> r.imm == [])
  {
    hide Consistent, DrainTimed;
    ConsistentPending(q);
    RearmedConsistent(q, false, if Nxt(q) != [] then DeltaEvent else q.pending);
    var q1 := RearmDelta(q);
    if q1.timed != [] {
      DrainTimedConsistent(q1);
      var q2 := DrainTimed(q1);
      if q2.timed != [] {
        ConsistentPending(q2);
        RearmedConsistent(q2, false, NotifyAt(q2.pending, q2.timed[0].t));
      }
    }
  }

  // ------------------------------------------- what callbacks do to fec

  /** The script, and how many callbacks the delta and the timed loop are still to make. */
  datatype Plan = Plan(script: Script, delta: nat, timed: nat)

  function Ahead(q: Queue): Plan {
    Plan(q.script, |Cur(q)|, Due(q.timed, q.now))
  }

  /** After the next callback: one that cancels leaves nothing to do in the loops. */
  function Spent(p: Plan): Plan {
    if Revoked(p.script) then Plan(p.script[1..], 0, 0) else p.(script := Rest(p.script, 1))
  }

  /** When the immediate loop ends, which starts with n payloads and takes in what its own callbacks
      notify immediately. */
  function AfterImmediate(n: nat, p: Plan): Plan
    decreases |p.script|
  {
    if n == 0 || p.script == [] then p else AfterImmediate(Next(n - 1, p.script), Spent(p))
  }

  function AfterDelta(p: Plan): Plan
    decreases p.delta
  {
    if p.delta == 0 then p else AfterDelta(Spent(p.(delta := p.delta - 1)))
  }

  /** How many immediate payloads the callbacks of the delta and timed loops leave queued. */
  function LeftOver(p: Plan, n: nat): nat
    decreases p.delta + p.timed
  {
    if p.delta > 0 then LeftOver(Spent(p.(delta := p.delta - 1)), Next(n, p.script))
    else if p.timed > 0 then LeftOver(Spent(p.(timed := p.timed - 1)), Next(n, p.script))
    else n
  }

  /** Whether a callback ends with timed entries queued, when it begins with some or with none. */
  predicate Renews(some: bool, asks: seq<Ask>)
    decreases |asks|
  {
    if asks == [] then some
    else Renews(if asks[0].Later? then some || asks[0].when > 0 else some && asks[0].AtOnce?, asks[1..])
  }

  /** No callback of the timed loop makes a notification with a positive delay after cancelling. */
  predicate CarefulTimed(p: Plan)
    decreases p.timed
  {
    p.timed > 0 ==>
      && (Revoked(p.script) ==> !Renews(false, p.script[0]))
      && CarefulTimed(Spent(p.(timed := p.timed - 1)))
  }

  /** What the loops of a call of fec still have to do after the immediate one. */
  function PlanOf(q: Queue, script: Script): Plan {
    AfterImmediate(|q.imm|, Ahead(q.(script := script)))
  }

  /** fec's delta and timed loops leave no immediate notification behind: their callbacks make none, or
      cancel it themselves. */
  predicate Quiet(q: Queue, script: Script) {
    LeftOver(PlanOf(q, script), 0) == 0
  }

  predicate Careful(q: Queue, script: Script) {
    CarefulTimed(AfterDelta(PlanOf(q, script)))
  }

  lemma CallbackAhead(q: Queue)
    ensures Ahead(Callback(q)) == Spent(Ahead(q))
  {
    hide Callback;
    CallbackKeepsDue(q);
  }

  lemma {:induction false} ImmediateLoop(q: Queue)
    ensures Ahead(DrainImmediate(q)) == AfterImmediate(|q.imm|, Ahead(q))
    ensures DrainImmediate(q).now == q.now && DrainImmediate(q).hist.lost == q.hist.lost
    decreases |q.script|, |q.imm|
  {
    hide Callback;
    if q.imm == [] {
    } else {
      var d := DeliverNow(q);
      assert Ahead(d) == Ahead(q);
      CallbackAhead(d);
      CallbackLosesNone(d);
      ImmediateLoop(Callback(d));
      assert q.script == [] ==> AfterImmediate(|q.imm| - 1, Spent(Ahead(q))) == Ahead(q);
    }
  }

  lemma {:induction false} ReactLosesNone(q: Queue, asks: seq<Ask>)
    ensures React(q, asks).hist.lost == q.hist.lost
    decreases |asks|
  {
    hide StableInsert, NotifyAt, Waiting;
    if asks != [] {
      ReactLosesNone(Answer(q, asks[0]), asks[1..]);
    }
  }

  lemma CallbackLosesNone(q: Queue)
    ensures Callback(q).hist.lost == q.hist.lost
  {
    if q.script != [] {
      ReactLosesNone(q.(script := q.script[1..]), q.script[0]);
    }
  }

  lemma {:induction false} DeltaLoop(q: Queue)
    ensures var r := DrainDelta(q);
            && Ahead(r) == AfterDelta(Ahead(q)) && r.now == q.now && r.hist.lost == q.hist.lost
            && LeftOver(Ahead(r), |r.imm|) == LeftOver(Ahead(q), |q.imm|)
    decreases |Cur(q)|
  {
    hide Due, Callback;
    if Cur(q) == [] {
    } else {
      var d := DeliverDelta(q);
      assert Ahead(d) == Ahead(q).(delta := |Cur(q)| - 1);
      CallbackAhead(d);
      CallbackLosesNone(d);
      DeltaLoop(Callback(d));
    }
  }

  lemma {:induction false} ReactRenews(q: Queue, asks: seq<Ask>)
    ensures React(q, asks).timed != [] <==> Renews(q.timed != [], asks)
    ensures Revokes(asks) ==> Renews(true, asks) == Renews(false, asks)
    decreases |asks|
  {
    if asks != [] {
      ReactRenews(Answer(q, asks[0]), asks[1..]);
    }
  }

  lemma RoundAhead(q: Queue)
    requires q.timed != [] && q.timed[0].t == q.now && Cur(q) == []
    ensures var p, r := Ahead(q), Round(q);
            && p.timed > 0 && Ahead(r) == Spent(p.(timed := p.timed - 1)) && |r.imm| == Next(|q.imm|, q.script)
            && q.hist.lost <= r.hist.lost
            && (r.hist.lost == q.hist.lost <==> (Revoked(q.script) ==> !Renews(false, q.script[0])))
  {
    hide Callback;
    RoundDue(q);
    var d := DeliverTimed(q);
    CallbackLosesNone(d);
    if Revoked(q.script) {
      RevokedRenews(d);
    }
    assert Cur(Round(q)) == Cur(Callback(d));
  }

  lemma RevokedRenews(q: Queue)
    requires Revoked(q.script)
    ensures Callback(q).timed != [] <==> Renews(false, q.script[0])
  {
    ReactRenews(q.(script := q.script[1..]), q.script[0]);
  }

  lemma {:induction false} TimedLoop(q: Queue)
    requires Cur(q) == []
    ensures var r := DrainTimed(q);
            && |r.imm| == LeftOver(Ahead(q), |q.imm|) && q.hist.lost <= r.hist.lost
            && (r.hist.lost == q.hist.lost <==> CarefulTimed(Ahead(q)))
    decreases Due(q.timed, q.now)
  {
    hide Round, Renews;
    if q.timed == [] || q.timed[0].t != q.now {
    } else {
      RoundDue(q);
      RoundAhead(q);
      TimedLoop(Round(q));
    }
  }

  /** fec accounts for every payload, whatever the callbacks do; and it leaves the queue awake if and only
      if its delta and timed loops leave no immediate notification behind. A callback of the immediate loop
      may make one: its payload is taken up by the same loop. */
  lemma FecKeeps(q: Queue, script: Script)
    requires Consistent(q)
    ensures Consistent(Fec(q, script))
    ensures Awake(Fec(q, script)) <==> Quiet(q, script)
    ensures !Fec(q, script).runnable
  {
    hide Consistent, Due, DrainImmediate, DrainDelta, DrainTimed, AfterImmediate, LeftOver;
    ConsistentPending(q);
    var q0 := q.(runnable := false, script := script);
    ScriptConsistent(q, false, script);
    DrainImmediateConsistent(q0);
    var q1 := DrainImmediate(q0);
    DrainDeltaConsistent(q1);
    var q2 := DrainDelta(q1);
    FecTailKeeps(q2);
    FecLoops(q, script);
    var r := FecTimed(RearmDelta(q2));
    ScriptConsistent(r, false, []);
    assert Cur(r.(script := [])) == Cur(r) && Nxt(r.(script := [])) == Nxt(r);
  }

  /** It loses no payload if and only if no callback of the timed loop makes a notification with a positive
      delay after cancelling. */
  lemma FecLoops(q: Queue, script: Script)
    ensures var r := Fec(q, script);
            && (r.imm == [] <==> Quiet(q, script)) && q.hist.lost <= r.hist.lost
            && (r.hist.lost == q.hist.lost <==> Careful(q, script))
  {
    hide Due, DrainImmediate, DrainDelta, DrainTimed, AfterImmediate, LeftOver, AfterDelta, CarefulTimed;
    var q0 := q.(runnable := false, script := script);
    assert Ahead(q0) == Ahead(q.(script := script));
    ImmediateLoop(q0);
    NoneLeft(q0);
    var q1 := DrainImmediate(q0);
    DeltaLoop(q1);
    NoneLeft(q1);
    var q2 := DrainDelta(q1);
    TimedTail(q2);
  }

  lemma NoneLeft(q: Queue)
    ensures DrainImmediate(q).imm == [] && Cur(DrainDelta(q)) == []
  {
    ImmediateEmpty(q);
    DeltaEmpty(q);
  }

  lemma {:induction false} ImmediateEmpty(q: Queue)
    ensures DrainImmediate(q).imm == []
    decreases |q.script|, |q.imm|
  {
    hide Callback;
    if q.imm != [] {
      ImmediateEmpty(Callback(DeliverNow(q)));
    }
  }

  lemma {:induction false} DeltaEmpty(q: Queue)
    ensures Cur(DrainDelta(q)) == []
    decreases |Cur(q)|
  {
    hide Callback;
    if Cur(q) != [] {
      DeltaEmpty(Callback(DeliverDelta(q)));
    }
  }

  lemma TimedTail(q: Queue)
    requires Cur(q) == []
    ensures var r := FecTimed(RearmDelta(q));
            && |r.imm| == LeftOver(Ahead(q), |q.imm|) && q.hist.lost <= r.hist.lost
            && (r.hist.lost == q.hist.lost <==> CarefulTimed(Ahead(q)))
  {
    hide DrainTimed;
    var d := RearmDelta(q);
    assert Cur(d) == [] && Ahead(d) == Ahead(q);
    TimedLoop(d);
  }

  lemma ScriptConsistent(q: Queue, b: bool, script: Script)
    requires Consistent(q)
    ensures Consistent(q.(runnable := b, script := script))
  {
    hide TimedAccounted, DeltaAccounted, Sorted;
    var r := q.(runnable := b, script := script);
    assert Cur(r) == Cur(q) && Nxt(r) == Nxt(q);
  }

  lemma EndDeltaKeeps(q: Queue, ran: bool)
    requires Consistent(q) && Awake(q) && !q.runnable
    ensures Consistent(EndDelta(q, ran)) && Awake(EndDelta(q, ran))
  {
    hide TimedAccounted, DeltaAccounted, Sorted;
    var r := EndDelta(q, ran);
    if ran {
      assert Odd(q.delta + 1) == !Odd(q.delta);
      assert Cur(r) == Nxt(q) && Nxt(r) == Cur(q) == [];
      NextDelta(q.hist.gotD, q.delta, Nxt(q), q.hist.askD);
    } else {
      assert Cur(r) == Cur(q) && Nxt(r) == Nxt(q);
    }
  }

  lemma NextDelta(got: seq<Entry>, delta: nat, nxt: seq<Payload>, asked: seq<Entry>)
    requires DeltaAccounted(got, delta, [], nxt, asked)
    ensures DeltaAccounted(got, delta + 1, nxt, [], asked)
  {
    forall c: nat
      ensures Queued(delta + 1, nxt, [], c) == Queued(delta, [], nxt, c)
    {
    }
  }

  /** Every move keeps the accounting; it keeps the queue awake if and only if it is not a call of fec
      that leaves an immediate payload behind. */
  lemma MoveKeeps(q: Queue, m: Move)
    requires Consistent(q) && Awake(q) && Enabled(q, m)
    ensures Consistent(Apply(q, m))
    ensures Awake(Apply(q, m)) <==> (m.RunFec? ==> Quiet(q, m.script))
  {
    hide TimedAccounted, DeltaAccounted, Sorted, StableInsert, Fec, Quiet;
    match m {
      case When(p, when) =>
        NotifyWhenConsistent(q, p, when);
        if when > 0 {
          InsertedTimes(q.timed, Entry(p, when + q.now), q.now);
        }
      case Now(p) => NotifyNowConsistent(q, p, false);
      case RunFec(script) => FecKeeps(q, script);
      case End(ran) => EndDeltaKeeps(q, ran);
      case Tick(to) => TickKeeps(q, to);
      case Cancel => CancelConsistent(q);
    }
  }

  lemma TickKeeps(q: Queue, to: nat)
    requires Consistent(q) && Awake(q) && Enabled(q, Tick(to))
    ensures Consistent(Advance(q, to)) && Awake(Advance(q, to))
  {
    hide TimedAccounted, DeltaAccounted;
    assert Cur(Advance(q, to)) == Cur(q) && Nxt(Advance(q, to)) == Nxt(q);
  }
}
