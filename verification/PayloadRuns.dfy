/** Runs of the payload event queue: what is delivered when, what is lost and why. */
module PayloadRuns {
  import opened TimeOrderedList
  import opened PayloadQueue

  /** A run of the queue under an arbitrary kernel schedule. */
  ghost predicate Run(qs: seq<Queue>, ms: seq<Move>) {
    && |qs| == |ms| + 1
    && qs[0] == INIT
    && forall i :: 0 <= i < |ms| ==> Enabled(qs[i], ms[i]) && qs[i + 1] == Apply(qs[i], ms[i])
  }

  /** No delta or timed loop among the first n moves leaves an immediate notification behind. */
  predicate QuietRun(qs: seq<Queue>, ms: seq<Move>, n: nat)
    requires |qs| == |ms| + 1 && n <= |ms|
  {
    forall i :: 0 <= i < n && ms[i].RunFec? ==> Quiet(qs[i], ms[i].script)
  }

  /** No callback of a timed loop among the first n moves cancels and then notifies with a positive delay. */
  predicate CarefulRun(qs: seq<Queue>, ms: seq<Move>, n: nat)
    requires |qs| == |ms| + 1 && n <= |ms|
  {
    forall i :: 0 <= i < n && ms[i].RunFec? ==> Careful(qs[i], ms[i].script)
  }

  lemma {:induction false} RunSafe(qs: seq<Queue>, ms: seq<Move>, n: nat)
    requires Run(qs, ms) && n <= |ms| && QuietRun(qs, ms, n)
    ensures Consistent(qs[n]) && Awake(qs[n])
  {
    hide Consistent, Awake, Quiet, Apply, Enabled;
    if n == 0 {
      INITSafe();
    } else {
      RunSafe(qs, ms, n - 1);
      MoveKeeps(qs[n - 1], ms[n - 1]);
    }
  }

  lemma INITSafe()
    ensures Consistent(INIT) && Awake(INIT)
  {
  }

  /** A run never loses a wake-up if and only if, in all its calls of fec, the delta and timed loops leave no
      immediate notification behind. */
  lemma {:induction false} NoLostWakeUpExactly(qs: seq<Queue>, ms: seq<Move>, n: nat)
    requires Run(qs, ms) && n <= |ms|
    ensures (forall i :: 0 <= i <= n ==> Awake(qs[i])) <==> QuietRun(qs, ms, n)
  {
    hide Consistent, Awake, Quiet, Apply, Enabled;
    if n == 0 {
      INITSafe();
    } else {
      NoLostWakeUpExactly(qs, ms, n - 1);
      if QuietRun(qs, ms, n - 1) {
        RunSafe(qs, ms, n - 1);
        MoveKeeps(qs[n - 1], ms[n - 1]);
        assert QuietRun(qs, ms, n) <==> (ms[n - 1].RunFec? ==> Quiet(qs[n - 1], ms[n - 1].script));
        assert qs[n] == Apply(qs[n - 1], ms[n - 1]);
      } else {
        assert !(forall i :: 0 <= i <= n - 1 ==> Awake(qs[i]));
        assert !QuietRun(qs, ms, n);
      }
    }
  }

  // ------------------------------------------------------------------ the record

  /** Every notification there ever was is delivered, queued, cancelled or lost, and only one of them. */
  ghost predicate Conserved(q: Queue) {
    q.hist.made ==
    Bag(q.hist.gotT) + Bag(q.hist.gotD) + multiset(q.hist.gotI) + Waiting(q) + q.hist.dropped + q.hist.lost
  }

  /** Nothing is delivered ahead of time, and times of delivery never decrease. */
  ghost predicate Past(q: Queue) {
    && Sorted(q.hist.gotT) && (forall i :: 0 <= i < |q.hist.gotT| ==> q.hist.gotT[i].t <= q.now)
    && Sorted(q.hist.gotD) && (forall i :: 0 <= i < |q.hist.gotD| ==> q.hist.gotD[i].t <= q.delta)
    && (q.hist.lost == multiset{} ==> q.hist.lostT == [])
  }

  ghost predicate Recorded(q: Queue) {
    Conserved(q) && Past(q)
  }

  lemma SortedAppend(s: seq<Entry>, e: Entry)
    requires Sorted(s) && forall i :: 0 <= i < |s| ==> s[i].t <= e.t
    ensures Sorted(s + [e]) && forall i :: 0 <= i < |s| + 1 ==> (s + [e])[i].t <= e.t
  {
  }

  lemma {:induction false} BagInsert(s: seq<Entry>, e: Entry)
    ensures Bag(StableInsert(s, e)) == Bag(s) + multiset{e.p}
  {
    if s == [] || s[0].t > e.t {
      assert ([e] + s)[1..] == s;
    } else {
      BagInsert(s[1..], e);
      assert ([s[0]] + StableInsert(s[1..], e))[1..] == StableInsert(s[1..], e);
    }
  }

  lemma {:induction false} BagAppend(s: seq<Entry>, e: Entry)
    ensures Bag(s + [e]) == Bag(s) + multiset{e.p}
  {
    if s == [] {
      assert ([e])[1..] == [];
    } else {
      BagAppend(s[1..], e);
      assert (s + [e])[1..] == s[1..] + [e];
    }
  }

  /** Nothing has been delivered, and time has not gone back. */
  lemma PastLater(q: Queue, r: Queue)
    requires Past(q) && r.hist.gotT == q.hist.gotT && r.hist.gotD == q.hist.gotD
    requires r.hist.lost == q.hist.lost && (r.hist.lostT == q.hist.lostT || r.hist.lostT == [])
    requires r.now >= q.now && r.delta >= q.delta
    ensures Past(r)
  {
    hide Sorted;
  }

  /** No payload has moved either. */
  lemma SameRecord(q: Queue, r: Queue)
    requires Recorded(q) && r.hist == q.hist && r.now >= q.now && r.delta >= q.delta
    requires r.imm == q.imm && r.even == q.even && r.odd == q.odd && r.timed == q.timed
    ensures Recorded(r)
  {
    hide Past, Bag;
    PastLater(q, r);
  }

  lemma NotifyWhenRecorded(q: Queue, p: Payload, when: nat)
    requires Recorded(q)
    ensures Recorded(NotifyWhen(q, p, when))
  {
    hide Past, Conserved;
    PastLater(q, NotifyWhen(q, p, when));
    if when > 0 {
      NotifyLaterConserved(q, p, when);
    } else {
      NotifyZeroConserved(q, p);
    }
  }

  lemma NotifyZeroConserved(q: Queue, p: Payload)
    requires Conserved(q)
    ensures Conserved(NotifyWhen(q, p, 0))
  {
    hide Bag;
  }

  lemma NotifyLaterConserved(q: Queue, p: Payload, when: nat)
    requires Conserved(q) && when > 0
    ensures Conserved(NotifyWhen(q, p, when))
  {
    hide Bag, StableInsert, NotifyAt;
    BagInsert(q.timed, Entry(p, when + q.now));
  }

  lemma NotifyNowRecorded(q: Queue, p: Payload, self: bool)
    requires Recorded(q)
    ensures Recorded(NotifyNow(q, p, self))
  {
    hide Past, Bag;
    PastLater(q, NotifyNow(q, p, self));
  }

  lemma CancelRecorded(q: Queue)
    requires Recorded(q)
    ensures Recorded(CancelAll(q))
  {
    hide Past;
    PastLater(q, CancelAll(q));
  }

  lemma {:induction false} ReactRecorded(q: Queue, asks: seq<Ask>)
    requires Recorded(q)
    ensures Recorded(React(q, asks))
    decreases |asks|
  {
    hide Recorded;
    if asks == [] {
    } else {
      match asks[0] {
        case Later(p, when) => NotifyWhenRecorded(q, p, when);
        case AtOnce(p) => NotifyNowRecorded(q, p, true);
        case Revoke => CancelRecorded(q);
      }
      ReactRecorded(Answer(q, asks[0]), asks[1..]);
    }
  }

  lemma CallbackRecorded(q: Queue)
    requires Recorded(q)
    ensures Recorded(Callback(q))
  {
    hide Recorded;
    if q.script != [] {
      SameRecord(q, q.(script := q.script[1..]));
      ReactRecorded(q.(script := q.script[1..]), q.script[0]);
    }
  }

  lemma DeliverPast(q: Queue)
    requires Past(q)
    ensures Cur(q) != [] ==> Past(DeliverDelta(q))
    ensures q.timed != [] ==> Past(DeliverTimed(q))
  {
    hide Sorted;
    if Cur(q) != [] {
      SortedAppend(q.hist.gotD, Entry(Cur(q)[0], q.delta));
    }
    if q.timed != [] {
      SortedAppend(q.hist.gotT, Entry(q.timed[0].p, q.now));
    }
  }

  lemma DeliverNowRecorded(q: Queue)
    requires Recorded(q) && q.imm != []
    ensures Recorded(DeliverNow(q))
  {
    hide Past, Bag;
    PastLater(q, DeliverNow(q));
    HeadOut(q.imm);
  }

  lemma HeadOut(s: seq<Payload>)
    requires s != []
    ensures multiset(s) == multiset{s[0]} + multiset(s[1..])
  {
    assert s == [s[0]] + s[1..];
  }

  lemma DeliverDeltaRecorded(q: Queue)
    requires Recorded(q) && Cur(q) != []
    ensures Recorded(DeliverDelta(q))
  {
    hide Past, Bag;
    DeliverPast(q);
    HeadOut(Cur(q));
    BagAppend(q.hist.gotD, Entry(Cur(q)[0], q.delta));
  }

  lemma DeliverTimedRecorded(q: Queue)
    requires Recorded(q) && q.timed != []
    ensures Recorded(DeliverTimed(q))
  {
    hide Past, Bag;
    DeliverPast(q);
    BagHead(q.timed);
    BagAppend(q.hist.gotT, Entry(q.timed[0].p, q.now));
  }

  lemma BagHead(s: seq<Entry>)
    requires s != []
    ensures Bag(s) == multiset{s[0].p} + Bag(s[1..])
  {
  }

  lemma {:induction false} DrainImmediateRecorded(q: Queue)
    requires Recorded(q)
    ensures Recorded(DrainImmediate(q))
    decreases |q.script|, |q.imm|
  {
    hide Recorded;
    if q.imm == [] {
    } else {
      DeliverNowRecorded(q);
      CallbackRecorded(DeliverNow(q));
      DrainImmediateRecorded(Callback(DeliverNow(q)));
    }
  }

  lemma {:induction false} DrainDeltaRecorded(q: Queue)
    requires Recorded(q)
    ensures Recorded(DrainDelta(q))
    decreases |Cur(q)|
  {
    hide Recorded;
    if Cur(q) == [] {
    } else {
      DeliverDeltaRecorded(q);
      CallbackRecorded(DeliverDelta(q));
      DrainDeltaRecorded(Callback(DeliverDelta(q)));
    }
  }

  lemma UnlinkRecorded(q: Queue)
    requires Recorded(q)
    ensures Recorded(Unlink(q))
  {
    hide Sorted, Bag;
    if q.timed != [] {
      BagHead(q.timed);
    }
  }

  lemma {:induction false} DrainTimedRecorded(q: Queue)
    requires Recorded(q)
    ensures Recorded(DrainTimed(q))
    decreases Due(q.timed, q.now)
  {
    hide Recorded, Callback;
    if q.timed == [] || q.timed[0].t != q.now {
    } else {
      DeliverTimedRecorded(q);
      CallbackRecorded(DeliverTimed(q));
      UnlinkRecorded(Callback(DeliverTimed(q)));
      RoundDue(q);
      DrainTimedRecorded(Round(q));
    }
  }

  lemma FecRecorded(q: Queue, script: Script)
    requires Recorded(q)
    ensures Recorded(Fec(q, script))
  {
    hide Recorded, DrainImmediate, DrainDelta, DrainTimed;
    var q0 := q.(runnable := false, script := script);
    SameRecord(q, q0);
    DrainImmediateRecorded(q0);
    var q1 := DrainDelta(DrainImmediate(q0));
    DrainDeltaRecorded(DrainImmediate(q0));
    SameRecord(q1, RearmDelta(q1));
    DrainTimedRecorded(RearmDelta(q1));
    var q2 := if q1.timed == [] then RearmDelta(q1) else DrainTimed(RearmDelta(q1));
    SameRecord(q2, Fec(q, script));
  }

  lemma MoveRecorded(q: Queue, m: Move)
    requires Recorded(q) && Enabled(q, m)
    ensures Recorded(Apply(q, m))
  {
    hide Recorded, Fec, NotifyWhen, NotifyNow, CancelAll;
    match m {
      case When(p, when) => NotifyWhenRecorded(q, p, when);
      case Now(p) => NotifyNowRecorded(q, p, false);
      case RunFec(script) => FecRecorded(q, script);
      case Cancel => CancelRecorded(q);
      case _ => SameRecord(q, Apply(q, m));
    }
  }

  /** A move loses payloads if and only if it is a call of fec that is not careful. */
  lemma MoveLoses(q: Queue, m: Move)
    ensures q.hist.lost <= Apply(q, m).hist.lost
    ensures Apply(q, m).hist.lost == q.hist.lost <==> (m.RunFec? ==> Careful(q, m.script))
  {
    hide Fec, StableInsert, NotifyAt, Careful, Waiting;
    if m.RunFec? {
      FecLoops(q, m.script);
    }
  }

  /** Over every run, whatever the callbacks do, and whether or not wake-ups are lost: every notification is
      delivered, queued, cancelled or lost, in exactly one of these ways, and nothing is delivered ahead of
      time. None is lost if and only if no callback of a timed loop makes a notification with a positive
      delay after cancelling. */
  lemma {:induction false} NothingLostOrDoubled(qs: seq<Queue>, ms: seq<Move>, n: nat)
    requires Run(qs, ms) && n <= |ms|
    ensures Recorded(qs[n])
    ensures qs[n].hist.lost == multiset{} <==> CarefulRun(qs, ms, n)
  {
    hide Recorded, Apply, Enabled, Careful;
    if n == 0 {
      InitRecorded();
    } else {
      NothingLostOrDoubled(qs, ms, n - 1);
      assert qs[n] == Apply(qs[n - 1], ms[n - 1]);
      MoveRecorded(qs[n - 1], ms[n - 1]);
      MoveLoses(qs[n - 1], ms[n - 1]);
      assert CarefulRun(qs, ms, n) <==>
        CarefulRun(qs, ms, n - 1) && (ms[n - 1].RunFec? ==> Careful(qs[n - 1], ms[n - 1].script));
    }
  }

  lemma InitRecorded()
    ensures Recorded(INIT)
  {
  }

  // ------------------------------------------------------------------ delivery

  /** Over every run in which no wake-up is lost: what was due before now, or at an earlier delta count,
      has been delivered at exactly its own time or count, in the order it was asked for, except what was
      lost, which is nothing if the run is careful; at the end of an evaluation phase no immediate payload
      is left either. */
  lemma DeliveredExactlyOnce(qs: seq<Queue>, ms: seq<Move>, n: nat)
    requires Run(qs, ms) && n <= |ms| && QuietRun(qs, ms, n)
    ensures var q := qs[n];
            && (forall t: nat :: t < q.now ==> At(q.hist.lostT + q.hist.gotT, t) == At(q.hist.askT, t))
            && (forall c: nat :: c < q.delta ==> At(q.hist.gotD, c) == At(q.hist.askD, c))
            && (!q.runnable ==> q.hist.gotI == q.hist.askI)
            && (!q.runnable ==> At(q.hist.lostT + q.hist.gotT, q.now) == At(q.hist.askT, q.now)
                                && At(q.hist.gotD, q.delta) == At(q.hist.askD, q.delta))
            && (CarefulRun(qs, ms, n) ==> q.hist.lostT + q.hist.gotT == q.hist.gotT)
            && (forall t: nat :: t > q.now ==> At(q.hist.gotT, t) == [])
            && (forall c: nat :: c > q.delta ==> At(q.hist.gotD, c) == [])
            && Sorted(q.hist.gotT) && Sorted(q.hist.gotD)
  {
    hide QuietRun, CarefulRun;
    RunSafe(qs, ms, n);
    NothingLostOrDoubled(qs, ms, n);
    TimedDelivered(qs[n]);
    DeltaDelivered(qs[n]);
    assert qs[n].hist.gotI + [] == qs[n].hist.gotI;
  }

  lemma TimedDelivered(q: Queue)
    requires Consistent(q) && Awake(q) && Past(q)
    ensures forall t: nat :: t < q.now || (t == q.now && !q.runnable) ==>
              At(q.hist.lostT + q.hist.gotT, t) == At(q.hist.askT, t)
    ensures forall t: nat :: t > q.now ==> At(q.hist.gotT, t) == []
  {
    hide DeltaAccounted;
    forall t: nat | t < q.now || (t == q.now && !q.runnable)
      ensures At(q.hist.lostT + q.hist.gotT, t) == At(q.hist.askT, t)
    {
      AtLate(q.timed, t);
      assert At(q.hist.lostT + q.hist.gotT, t) + At(q.timed, t) == At(q.hist.askT, t);
    }
    forall t: nat | t > q.now
      ensures At(q.hist.gotT, t) == []
    {
      AtEarly(q.hist.gotT, t);
    }
  }

  lemma DeltaDelivered(q: Queue)
    requires Consistent(q) && Awake(q) && Past(q)
    ensures forall c: nat :: c < q.delta || (c == q.delta && !q.runnable) ==> At(q.hist.gotD, c) == At(q.hist.askD, c)
    ensures forall c: nat :: c > q.delta ==> At(q.hist.gotD, c) == []
  {
    hide TimedAccounted;
    forall c: nat | c < q.delta || (c == q.delta && !q.runnable)
      ensures At(q.hist.gotD, c) == At(q.hist.askD, c)
    {
      assert At(q.hist.gotD, c) + Queued(q.delta, Cur(q), Nxt(q), c) == At(q.hist.askD, c);
      assert At(q.hist.gotD, c) + [] == At(q.hist.gotD, c);
    }
    forall c: nat | c > q.delta
      ensures At(q.hist.gotD, c) == []
    {
      AtEarly(q.hist.gotD, c);
    }
  }

  // ------------------------------------------------------------- a lost wake-up

  /** Nothing will make fec run unless somebody notifies again. */
  predicate Asleep(q: Queue) {
    !q.runnable && q.pending == NoEvent
  }

  /** The kernel alone never wakes it: no payload moves until the next notification. */
  lemma {:induction false} SleepsOn(qs: seq<Queue>, ms: seq<Move>, i: nat, n: nat)
    requires Run(qs, ms) && i <= n <= |ms| && Asleep(qs[i])
    requires forall k :: i <= k < n ==> !ms[k].When? && !ms[k].Now? && !ms[k].Cancel?
    ensures Asleep(qs[n]) && qs[n].hist == qs[i].hist && Waiting(qs[n]) == Waiting(qs[i])
  {
    if n > i {
      SleepsOn(qs, ms, i, n - 1);
    }
  }

  /** A callback that makes one call, or two. */
  lemma CallbackOnce(q: Queue, a: Ask)
    requires q.script == [[a]]
    ensures Callback(q) == Answer(q.(script := []), a) && Revoked(q.script) == a.Revoke?
  {
    hide StableInsert, NotifyAt, Waiting;
    assert q.script[1..] == [] && [a][1..] == [];
    assert React(Answer(q.(script := []), a), []) == Answer(q.(script := []), a);
  }

  lemma CallbackTwice(q: Queue, a: Ask, b: Ask)
    requires q.script == [[a, b]]
    ensures Callback(q) == Answer(Answer(q.(script := []), a), b) && Revoked(q.script) == (a.Revoke? || b.Revoke?)
  {
    hide StableInsert, NotifyAt, Waiting;
    var asks := [a, b];
    assert q.script[1..] == [] && asks[1..] == [b] && asks[1..][1..] == [];
    var r := Answer(q.(script := []), a);
    assert React(r, asks[1..]) == React(Answer(r, b), []) == Answer(r, b);
    assert Revokes(asks[1..]) == b.Revoke?;
  }

  /** fec with one delta payload, whose callback notifies x immediately. */
  lemma FecOneDelta(q: Queue, p: Payload, x: Payload)
    requires q.imm == [] && Cur(q) == [p] && Nxt(q) == [] && q.timed == []
    ensures Fec(q, [[AtOnce(x)]]) == NotifyNow(DeliverDelta(q.(runnable := false, script := [])), x, true)
  {
    var d := q.(runnable := false, script := [[AtOnce(x)]]);
    CallbackOnce(DeliverDelta(d), AtOnce(x));
    assert DrainImmediate(d) == d && Cur(d) == [p];
    var r := Callback(DeliverDelta(d));
    assert DrainDelta(d) == DrainDelta(r);
    assert Cur(r) == [] && Nxt(r) == [];
  }

  /** fec with one timed payload is the round of that payload, if that leaves nothing due. */
  lemma FecOneTimed(q: Queue, p: Payload, script: Script)
    requires q.imm == [] && Cur(q) == [] && q.timed == [Entry(p, q.now)]
    ensures var d := RearmDelta(q.(runnable := false, script := script));
            d.timed == [Entry(p, d.now)] && (Round(d).timed == [] ==> Fec(q, script) == Round(d).(script := []))
  {
    hide Round, Callback;
    var c := q.(runnable := false, script := script);
    assert Cur(c) == [];
    assert DrainImmediate(c) == c && DrainDelta(c) == c;
    var d := RearmDelta(c);
    if Round(d).timed == [] {
      assert DrainTimed(d) == DrainTimed(Round(d)) == Round(d);
    }
  }

  /** The round of the last payload, whose callback notifies x immediately. */
  lemma NotifyingRound(q: Queue, p: Payload, x: Payload)
    requires q.timed == [Entry(p, q.now)] && q.script == [[AtOnce(x)]]
    ensures Round(q) == NotifyNow(DeliverTimed(q.(script := [])), x, true) && Round(q).timed == []
  {
    hide Callback;
    CallbackOnce(DeliverTimed(q), AtOnce(x));
  }

  /** The round of the last payload, whose callback cancels and then notifies x for a later time. */
  lemma CancellingRound(q: Queue, p: Payload, x: Payload)
    requires q.imm == [] && q.even == [] && q.odd == [] && q.timed == [Entry(p, q.now)]
    requires q.script == [[Revoke, Later(x, 3)]]
    ensures var r := Round(q);
            && r.imm == [] && r.even == [] && r.odd == [] && r.timed == []
            && r.hist.made == q.hist.made + multiset{x} && r.hist.lost == q.hist.lost + multiset{x}
            && r.hist.dropped == q.hist.dropped && r.hist.gotT == q.hist.gotT + [Entry(p, q.now)]
  {
    hide Callback;
    var d := DeliverTimed(q);
    CallbackTwice(d, Revoke, Later(x, 3));
    var c := CancelAll(d.(script := []));
    assert d.timed == [] && Waiting(d.(script := [])) == multiset{};
    assert Callback(d) == NotifyWhen(c, x, 3);
    assert StableInsert([], Entry(x, 3 + q.now)) == [Entry(x, 3 + q.now)];
    assert Callback(d).timed == [Entry(x, 3 + q.now)];
  }

  /** A callback of the delta loop notifies immediately: its own payload x stays behind. */
  lemma LostFromDeltaLoop(p: Payload, x: Payload)
    ensures var ms := [When(p, 0), End(true), RunFec([[AtOnce(x)]])];
            exists qs: seq<Queue> :: Run(qs, ms) && Asleep(qs[3]) && !Awake(qs[3]) && qs[3].imm == [x]
  {
    hide Fec, DrainDelta, Callback;
    var ms := [When(p, 0), End(true), RunFec([[AtOnce(x)]])];
    var q1 := NotifyWhen(INIT, p, 0);
    var q2 := EndDelta(q1, true);
    assert q2.odd == [p] && q2.delta == 1;
    FecOneDelta(q2, p, x);
    var qs := [INIT, q1, q2, Fec(q2, [[AtOnce(x)]])];
    assert Run(qs, ms);
  }

  /** One payload is due, at time 5. */
  lemma FirstDue(p: Payload)
    ensures var q := NotifyWhen(INIT, p, 5);
            && Enabled(q, Tick(5))
            && Advance(q, 5) == INIT.(now := 5, runnable := true, timed := [Entry(p, 5)],
                                      hist := INIT.hist.(askT := [Entry(p, 5)], made := multiset{p}))
  {
    assert StableInsert([], Entry(p, 5)) == [Entry(p, 5)];
  }

  lemma NotifyingFec(q: Queue, p: Payload, x: Payload)
    requires q.imm == [] && Cur(q) == [] && q.timed == [Entry(p, q.now)]
    ensures var r := Fec(q, [[AtOnce(x)]]);
            Asleep(r) && !Awake(r) && Nxt(r) == Nxt(q) && r.imm == [x]
  {
    hide Fec, Round;
    var script := [[AtOnce(x)]];
    FecOneTimed(q, p, script);
    NotifyingRound(RearmDelta(q.(runnable := false, script := script)), p, x);
  }

  /** A callback of the timed loop does: the delta payload d, notified by someone else, stays behind
      too, because the delta event that stood for it is cancelled. */
  lemma LostFromTimedLoop(p: Payload, d: Payload, x: Payload)
    ensures var ms := [When(p, 5), Tick(5), When(d, 0), RunFec([[AtOnce(x)]])];
            exists qs: seq<Queue> ::
              Run(qs, ms) && Asleep(qs[4]) && !Awake(qs[4]) && Nxt(qs[4]) == [d] && qs[4].imm == [x]
  {
    hide Fec, Advance, Awake;
    var ms := [When(p, 5), Tick(5), When(d, 0), RunFec([[AtOnce(x)]])];
    FirstDue(p);
    var q1 := NotifyWhen(INIT, p, 5);
    var q2 := Advance(q1, 5);
    var q3 := NotifyWhen(q2, d, 0);
    NotifyingFec(q3, p, x);
    var qs := [INIT, q1, q2, q3, Fec(q3, [[AtOnce(x)]])];
    assert Run(qs, ms);
  }

  lemma CancellingFec(q: Queue, p: Payload, x: Payload)
    requires q.imm == [] && q.even == [] && q.odd == [] && q.timed == [Entry(p, q.now)]
    ensures var r := Fec(q, [[Revoke, Later(x, 3)]]);
            && Waiting(r) == multiset{}
            && r.hist.made == q.hist.made + multiset{x} && r.hist.lost == q.hist.lost + multiset{x}
            && r.hist.dropped == q.hist.dropped && r.hist.gotT == q.hist.gotT + [Entry(p, q.now)]
  {
    hide Fec, Round;
    var script := [[Revoke, Later(x, 3)]];
    FecOneTimed(q, p, script);
    CancellingRound(q.(runnable := false, script := script), p, x);
  }

  /** A callback of the timed loop cancels and then notifies x for a later time: x is unlinked in its place,
      and never delivered. */
  lemma LostAfterCancel(p: Payload, x: Payload)
    ensures var ms := [When(p, 5), Tick(5), RunFec([[Revoke, Later(x, 3)]])];
            exists qs: seq<Queue> ::
              && Run(qs, ms) && qs[3].hist.made == multiset{p, x} && qs[3].hist.gotT == [Entry(p, 5)]
              && qs[3].hist.lost == multiset{x} && Waiting(qs[3]) == qs[3].hist.dropped == multiset{}
  {
    hide Fec, Advance, NotifyWhen, Waiting;
    var script := [[Revoke, Later(x, 3)]];
    var ms := [When(p, 5), Tick(5), RunFec(script)];
    FirstDue(p);
    var q1 := NotifyWhen(INIT, p, 5);
    var q2 := Advance(q1, 5);
    CancellingFec(q2, p, x);
    var qs := [INIT, q1, q2, Fec(q2, script)];
    assert Run(qs, ms);
  }
}
