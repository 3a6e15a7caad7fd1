/** What a run of the payload event queue was asked for, and what became of it, told from its moves alone:
    every notification is delivered at the time it names, and a cancellation undoes what came before it. */
module PayloadOrigins {
  import opened TimeOrderedList
  import opened PayloadQueue
  import opened PayloadRuns

  // ------------------------------------------------------------------ a number of callbacks

  /** What one callback notifies. */
  function AskBag(asks: seq<Ask>): multiset<Payload> {
    if asks == [] then multiset{}
    else (if asks[0].Revoke? then multiset{} else multiset{asks[0].p}) + AskBag(asks[1..])
  }

  /** What the first k callbacks of a script do. */
  function ScriptBag(script: Script, k: nat): multiset<Payload>
    decreases k
  {
    if k == 0 || script == [] then multiset{} else AskBag(script[0]) + ScriptBag(script[1..], k - 1)
  }

  /** No callback cancels. */
  ghost predicate Calm(script: Script) {
    forall k :: 0 <= k < |script| ==> !Revokes(script[k])
  }

  /** How many payloads have been delivered: as many callbacks have been made. */
  function Delivered(q: Queue): nat {
    |q.hist.gotT| + |q.hist.gotD| + |q.hist.gotI|
  }

  ghost predicate Extends(q: Queue, r: Queue) {
    q.hist.askT <= r.hist.askT && q.hist.askD <= r.hist.askD && q.hist.askI <= r.hist.askI
  }

  /** A call made by a callback, or from outside, at the time and delta count of q is on record. */
  ghost predicate OnRecord(q: Queue, a: Ask, r: Queue) {
    match a
    case Later(p, when) => if when > 0 then Entry(p, q.now + when) in r.hist.askT else Entry(p, q.delta + 1) in r.hist.askD
    case AtOnce(p) => p in r.hist.askI
    case Revoke => true
  }

  ghost predicate AllOnRecord(q: Queue, asks: seq<Ask>, r: Queue) {
    forall a :: a in asks ==> OnRecord(q, a, r)
  }

  /** From q to r the script has been followed for k callbacks. */
  ghost predicate Follows(q: Queue, r: Queue, k: nat) {
    && r.now == q.now && r.delta == q.delta && Delivered(r) == Delivered(q) + k && r.script == Rest(q.script, k)
    && r.hist.made == q.hist.made + ScriptBag(q.script, k)
    && q.hist.dropped <= r.hist.dropped && q.hist.lost <= r.hist.lost
    && (Calm(q.script) ==>
          && Calm(r.script) && Extends(q, r)
          && forall j :: 0 <= j < k && j < |q.script| ==> AllOnRecord(q, q.script[j], r))
  }

  lemma {:induction false} ScriptSplit(script: Script, j: nat, k: nat)
    ensures ScriptBag(script, j + k) == ScriptBag(script, j) + ScriptBag(Rest(script, j), k)
    decreases j
  {
    hide AskBag, Rest, ScriptBag;
    BagStep(script, j);
    BagStep(script, j + k);
    BagStep([], k);
    if j == 0 {
      RestRest(script, 0, 0);
    } else if script == [] {
      RestRest(script, j, k);
    } else {
      ScriptSplit(script[1..], j - 1, k);
      RestRest(script, 1, j - 1);
      assert Rest(script, 1) == script[1..] by { OneLess(script); }
    }
  }

  lemma BagStep(script: Script, k: nat)
    ensures ScriptBag(script, k)
            == if k == 0 || script == [] then multiset{} else AskBag(script[0]) + ScriptBag(script[1..], k - 1)
  {
  }

  lemma OneLess(script: Script)
    requires script != []
    ensures Rest(script, 1) == script[1..]
  {
  }

  lemma RestRest(script: Script, j: nat, k: nat)
    ensures Rest(Rest(script, j), k) == Rest(script, j + k) && Rest(script, 0) == script
    ensures script == [] ==> Rest(script, j) == []
  {
  }

  lemma FollowsOn(q: Queue, r: Queue, s: Queue, j: nat, k: nat)
    requires Follows(q, r, j) && Follows(r, s, k)
    ensures Follows(q, s, j + k)
  {
    hide ScriptBag, Calm, Extends, OnRecord;
    ScriptSplit(q.script, j, k);
    RestRest(q.script, j, k);
    if Calm(q.script) {
      forall i | 0 <= i < j + k && i < |q.script| ensures AllOnRecord(q, q.script[i], s) {
        if i < j {
          StaysOnRecord(q, q.script[i], r, s);
        } else {
          assert q.script[i] == r.script[i - j];
          SameMoment(q, r, q.script[i], s);
        }
      }
      assert Extends(q, s) by { ExtendsOn(q, r, s); }
    }
  }

  lemma ExtendsOn(q: Queue, r: Queue, s: Queue)
    requires Extends(q, r) && Extends(r, s)
    ensures Extends(q, s)
  {
  }

  lemma StaysOnRecord(q: Queue, asks: seq<Ask>, r: Queue, s: Queue)
    requires AllOnRecord(q, asks, r) && Extends(r, s)
    ensures AllOnRecord(q, asks, s)
  {
    forall a | a in asks ensures OnRecord(q, a, s) {
      assert OnRecord(q, a, r);
    }
  }

  lemma SameMoment(q: Queue, r: Queue, asks: seq<Ask>, s: Queue)
    requires AllOnRecord(r, asks, s) && q.now == r.now && q.delta == r.delta
    ensures AllOnRecord(q, asks, s)
  {
    forall a | a in asks ensures OnRecord(q, a, s) {
      assert OnRecord(r, a, s);
    }
  }

  lemma FollowsNone(q: Queue, r: Queue)
    requires r.hist == q.hist && r.script == q.script && r.delta == q.delta && r.now == q.now
    ensures Follows(q, r, 0)
  {
  }

  ghost predicate Makes(q: Queue, r: Queue, more: multiset<Payload>, cancels: bool) {
    && r.now == q.now && r.delta == q.delta && Delivered(r) == Delivered(q) && r.hist.made == q.hist.made + more
    && q.hist.dropped <= r.hist.dropped && q.hist.lost == r.hist.lost
    && (!cancels ==> Extends(q, r))
  }

  lemma NotifyMakes(q: Queue, p: Payload, when: nat, self: bool)
    ensures Makes(q, NotifyWhen(q, p, when), multiset{p}, false)
    ensures Makes(q, NotifyNow(q, p, self), multiset{p}, false)
    ensures OnRecord(q, Later(p, when), NotifyWhen(q, p, when)) && OnRecord(q, AtOnce(p), NotifyNow(q, p, self))
  {
    hide StableInsert, NotifyAt;
  }

  lemma CancelMakes(q: Queue)
    ensures Makes(q, CancelAll(q), multiset{}, true)
  {
    hide Waiting;
  }

  lemma {:induction false} ReactMakes(q: Queue, asks: seq<Ask>)
    ensures Makes(q, React(q, asks), AskBag(asks), Revokes(asks))
    ensures !Revokes(asks) ==> AllOnRecord(q, asks, React(q, asks))
    decreases |asks|
  {
    hide Makes, Answer, OnRecord;
    if asks == [] {
      SameMakes(q, q);
    } else {
      var a, r := asks[0], Answer(q, asks[0]);
      assert [a][1..] == [];
      assert AskBag(asks) == AskBag([a]) + AskBag(asks[1..]);
      AnswerMakes(q, a);
      ReactMakes(r, asks[1..]);
      MakesOn(q, r, React(q, asks), AskBag([a]), AskBag(asks[1..]), a.Revoke?, Revokes(asks[1..]));
      if !Revokes(asks) {
        FirstOnRecord(q, asks, r, React(q, asks));
      }
    }
  }

  lemma FirstOnRecord(q: Queue, asks: seq<Ask>, r: Queue, s: Queue)
    requires asks != [] && OnRecord(q, asks[0], r) && AllOnRecord(r, asks[1..], s)
    requires Makes(q, r, AskBag([asks[0]]), false) && Makes(r, s, AskBag(asks[1..]), false)
    ensures AllOnRecord(q, asks, s)
  {
    SameMoment(q, r, asks[1..], s);
    assert asks == [asks[0]] + asks[1..];
  }

  lemma AnswerMakes(q: Queue, a: Ask)
    ensures Makes(q, Answer(q, a), AskBag([a]), a.Revoke?) && OnRecord(q, a, Answer(q, a))
  {
    hide NotifyWhen, NotifyNow, CancelAll, Makes;
    assert a.Revoke? ==> OnRecord(q, a, Answer(q, a));
    assert [a][1..] == [];
    assert AskBag([a]) == if a.Revoke? then multiset{} else multiset{a.p};
    match a {
      case Later(p, when) => NotifyMakes(q, p, when, true);
      case AtOnce(p) => NotifyMakes(q, p, 0, true);
      case Revoke => CancelMakes(q);
    }
  }

  lemma MakesOn(q: Queue, r: Queue, s: Queue, a: multiset<Payload>, b: multiset<Payload>, c: bool, d: bool)
    requires Makes(q, r, a, c) && Makes(r, s, b, d)
    ensures Makes(q, s, a + b, c || d)
  {
  }

  /** A delivery and the callback it makes. */
  lemma OneRound(q: Queue, d: Queue)
    requires d.now == q.now && d.delta == q.delta && Delivered(d) == Delivered(q) + 1 && d.script == q.script && d.hist.made == q.hist.made
    requires d.hist.dropped == q.hist.dropped && d.hist.lost == q.hist.lost && Extends(q, d)
    ensures Follows(q, Callback(d), 1)
  {
    hide React;
    if d.script != [] {
      ReactMakes(d.(script := d.script[1..]), d.script[0]);
      assert ScriptBag(q.script, 1) == AskBag(q.script[0]) by {
        assert ScriptBag(q.script[1..], 0) == multiset{};
      }
    }
  }

  lemma {:induction false} ImmediateFollows(q: Queue) returns (k: nat)
    ensures Follows(q, DrainImmediate(q), k)
    decreases |q.script|, |q.imm|
  {
    hide Callback, Follows;
    if q.imm == [] {
      FollowsNone(q, q);
      k := 0;
    } else {
      var c := Callback(DeliverNow(q));
      OneRound(q, DeliverNow(q));
      k := ImmediateFollows(c);
      FollowsOn(q, c, DrainImmediate(q), 1, k);
      k := 1 + k;
    }
  }

  lemma {:induction false} DeltaFollows(q: Queue) returns (k: nat)
    ensures Follows(q, DrainDelta(q), k)
    decreases |Cur(q)|
  {
    hide Callback, Follows;
    if Cur(q) == [] {
      FollowsNone(q, q);
      k := 0;
    } else {
      var c := Callback(DeliverDelta(q));
      OneRound(q, DeliverDelta(q));
      k := DeltaFollows(c);
      FollowsOn(q, c, DrainDelta(q), 1, k);
      k := 1 + k;
    }
  }

  lemma UnlinkFollows(q: Queue, r: Queue)
    requires Follows(q, r, 1)
    ensures Follows(q, Unlink(r), 1)
  {
    hide Rest, ScriptBag, Calm;
  }

  lemma {:induction false} TimedFollows(q: Queue) returns (k: nat)
    ensures Follows(q, DrainTimed(q), k)
    decreases Due(q.timed, q.now)
  {
    hide Callback, Follows;
    if q.timed == [] || q.timed[0].t != q.now {
      FollowsNone(q, q);
      k := 0;
    } else {
      RoundDue(q);
      OneRound(q, DeliverTimed(q));
      UnlinkFollows(q, Callback(DeliverTimed(q)));
      k := TimedFollows(Round(q));
      FollowsOn(q, Round(q), DrainTimed(q), 1, k);
      k := 1 + k;
    }
  }

  lemma FecFollows(q: Queue, script: Script) returns (k: nat)
    ensures var r := Fec(q, script); Follows(q.(script := script), r.(script := Rest(script, k)), k)
  {
    hide Follows, DrainImmediate, DrainDelta, DrainTimed, Callback;
    var q0 := q.(runnable := false, script := script);
    var q1 := DrainImmediate(q0);
    var q2 := DrainDelta(q1);
    var i := ImmediateFollows(q0);
    var j := DeltaFollows(q1);
    FollowsOn(q0, q1, q2, i, j);
    FollowsNone(q2, RearmDelta(q2));
    FollowsOn(q0, q2, RearmDelta(q2), i + j, 0);
    k := i + j;
    var q3 := RearmDelta(q2);
    if q3.timed != [] {
      var t := TimedFollows(q3);
      FollowsOn(q0, q3, DrainTimed(q3), k, t);
      q3 := DrainTimed(q3);
      k := k + t;
    }
    SameFollows(q0, q3, k, q.(script := script), Fec(q, script).(script := Rest(script, k)));
  }

  lemma SameFollows(q: Queue, r: Queue, k: nat, q': Queue, r': Queue)
    requires Follows(q, r, k) && q'.hist == q.hist && q'.script == q.script && r'.hist == r.hist
    requires r'.script == Rest(q.script, k) && q'.delta == q.delta && r'.delta == r.delta
    requires q'.now == q.now && r'.now == r.now
    ensures Follows(q', r', k)
  {
    hide Rest, ScriptBag, Calm;
  }

  // ------------------------------------------------------------------ moves

  /** How many callbacks a move makes. */
  function Callbacks(q: Queue, m: Move): nat {
    var before, after := Delivered(q), Delivered(Apply(q, m));
    if before < after then after - before else 0
  }

  /** What a move notifies; a call of fec, what the callbacks notify that it makes. */
  function MadeBy(q: Queue, m: Move): multiset<Payload> {
    match m
    case When(p, _) => multiset{p}
    case Now(p) => multiset{p}
    case RunFec(script) => ScriptBag(script, Callbacks(q, m))
    case _ => multiset{}
  }

  /** A call that the move makes on the queue itself, or a callback that it runs. */
  ghost predicate Calls(q: Queue, m: Move, a: Ask) {
    match m
    case When(p, when) => a == Later(p, when)
    case Now(p) => a == AtOnce(p)
    case RunFec(script) => exists j :: 0 <= j < Callbacks(q, m) && j < |script| && a in script[j]
    case _ => false
  }

  ghost predicate Cancels(m: Move) {
    m.Cancel? || (m.RunFec? && !Calm(m.script))
  }

  /** A move makes exactly these notifications; what was asked for before it still is, unless it cancels. */
  lemma MoveMakes(q: Queue, m: Move)
    ensures var r := Apply(q, m);
            && Delivered(q) <= Delivered(r) && q.delta <= r.delta && r.hist.made == q.hist.made + MadeBy(q, m)
            && q.hist.dropped <= r.hist.dropped && q.hist.lost <= r.hist.lost
            && (!Cancels(m) ==> Extends(q, r))
  {
    hide Fec, NotifyWhen, NotifyNow, CancelAll, Calm, Delivered, ScriptBag, OnRecord, Extends, AllOnRecord;
    match m {
      case When(p, when) => NotifyMakes(q, p, when, false);
      case Now(p) => NotifyMakes(q, p, 0, false);
      case RunFec(script) => FecMakes(q, script);
      case Cancel => CancelMakes(q);
      case _ => SameHistory(q, Apply(q, m));
    }
  }

  /** And what it calls for is on record. */
  lemma CallOnRecord(q: Queue, m: Move, a: Ask)
    requires Calls(q, m, a) && !Cancels(m)
    ensures OnRecord(q, a, Apply(q, m))
  {
    hide Fec, NotifyWhen, NotifyNow, Calm, Delivered, OnRecord, ScriptBag;
    match m {
      case When(p, when) => NotifyMakes(q, p, when, false);
      case Now(p) => NotifyMakes(q, p, 0, false);
      case RunFec(script) => FecMakes(q, script);
    }
  }

  lemma FecMakes(q: Queue, script: Script)
    ensures var r := Fec(q, script);
            && Delivered(q) <= Delivered(r) && r.delta == q.delta
            && r.hist.made == q.hist.made + ScriptBag(script, Delivered(r) - Delivered(q))
            && q.hist.dropped <= r.hist.dropped && q.hist.lost <= r.hist.lost
            && (Calm(script) ==>
                  && Extends(q, r)
                  && forall j :: 0 <= j < Delivered(r) - Delivered(q) && j < |script| ==> AllOnRecord(q, script[j], r))
  {
    hide Fec, Calm, ScriptBag, Rest, OnRecord;
    var k := FecFollows(q, script);
    var r := Fec(q, script);
    if Calm(script) {
      forall j | 0 <= j < Delivered(r) - Delivered(q) && j < |script| ensures AllOnRecord(q, script[j], r) {
        SameRecords(q.(script := script), script[j], r.(script := Rest(script, k)), q, r);
      }
    }
  }

  lemma SameRecords(q: Queue, asks: seq<Ask>, r: Queue, q': Queue, r': Queue)
    requires AllOnRecord(q, asks, r) && q'.now == q.now && q'.delta == q.delta && r'.hist == r.hist
    ensures AllOnRecord(q', asks, r')
  {
    forall a | a in asks ensures OnRecord(q', a, r') {
      assert OnRecord(q, a, r);
    }
  }

  lemma SameMakes(q: Queue, r: Queue)
    requires r.hist == q.hist && r.delta == q.delta && r.now == q.now
    ensures Makes(q, r, multiset{}, false)
  {
  }

  lemma SameHistory(q: Queue, r: Queue)
    requires r.hist == q.hist
    ensures Delivered(r) == Delivered(q) && Extends(q, r)
  {
  }

  /** Time, delta count and process after a move: a delta cycle is counted if a process ran in it, and fec is
      made runnable by an immediate notification from outside, at the end of a delta cycle, and when the time
      of its event has come, and not otherwise. */
  lemma ClockExactly(q: Queue, m: Move)
    ensures var r := Apply(q, m);
            && r.now == (if m.Tick? then m.to else q.now)
            && r.delta == (if m == End(true) then q.delta + 1 else q.delta)
            && (r.runnable <==>
                  match m {
                    case Now(_) => true
                    case RunFec(_) => false
                    case End(_) => q.runnable || q.pending == DeltaEvent
                    case Tick(to) => q.runnable || q.pending == TimedEvent(to)
                    case _ => q.runnable
                  })
  {
    hide Fec, StableInsert, NotifyAt, Waiting;
    if m.RunFec? {
      FecClock(q, m.script);
    }
  }

  lemma FecClock(q: Queue, script: Script)
    ensures var r := Fec(q, script); r.now == q.now && r.delta == q.delta && !r.runnable
  {
    hide Follows, DrainImmediate, DrainDelta, DrainTimed, Callback;
    var q0 := q.(runnable := false, script := script);
    DrainsAsleep(q0);
    DrainsAsleep(DrainImmediate(q0));
    DrainsAsleep(RearmDelta(DrainDelta(DrainImmediate(q0))));
  }

  lemma DrainsAsleep(q: Queue)
    requires !q.runnable
    ensures var r := DrainImmediate(q); r.now == q.now && r.delta == q.delta && !r.runnable
    ensures var r := DrainDelta(q); r.now == q.now && r.delta == q.delta && !r.runnable
    ensures var r := DrainTimed(q); r.now == q.now && r.delta == q.delta && !r.runnable
  {
    ImmediateAsleep(q);
    DeltaAsleep(q);
    TimedAsleep(q);
  }

  lemma {:induction false} ImmediateAsleep(q: Queue)
    ensures var r := DrainImmediate(q); r.now == q.now && r.delta == q.delta && r.runnable == q.runnable
    decreases |q.script|, |q.imm|
  {
    hide Callback;
    if q.imm != [] {
      ImmediateAsleep(Callback(DeliverNow(q)));
    }
  }

  lemma {:induction false} DeltaAsleep(q: Queue)
    ensures var r := DrainDelta(q); r.now == q.now && r.delta == q.delta && r.runnable == q.runnable
    decreases |Cur(q)|
  {
    hide Callback;
    if Cur(q) != [] {
      DeltaAsleep(Callback(DeliverDelta(q)));
    }
  }

  lemma {:induction false} TimedAsleep(q: Queue)
    ensures var r := DrainTimed(q); r.now == q.now && r.delta == q.delta && r.runnable == q.runnable
    decreases Due(q.timed, q.now)
  {
    hide Callback;
    if q.timed != [] && q.timed[0].t == q.now {
      RoundDue(q);
      TimedAsleep(Round(q));
    }
  }

  // ------------------------------------------------------------------ runs

  /** Everything the first n moves of a run notify. */
  function AllMade(qs: seq<Queue>, ms: seq<Move>, n: nat): multiset<Payload>
    requires n <= |ms| && n <= |qs|
  {
    if n == 0 then multiset{} else AllMade(qs, ms, n - 1) + MadeBy(qs[n - 1], ms[n - 1])
  }

  /** The notifications ever made are those of the moves, and of their callbacks, each once. So what is
      delivered, queued, cancelled or lost adds up to them. */
  lemma {:induction false} AllAccountedFor(qs: seq<Queue>, ms: seq<Move>, n: nat)
    requires Run(qs, ms) && n <= |ms|
    ensures qs[n].hist.made == AllMade(qs, ms, n)
    ensures var h := qs[n].hist;
            AllMade(qs, ms, n)
            == Bag(h.gotT) + Bag(h.gotD) + multiset(h.gotI) + Waiting(qs[n]) + h.dropped + h.lost
  {
    hide Apply, Enabled, MadeBy, Waiting, Bag;
    NothingLostOrDoubled(qs, ms, n);
    assert qs[n].hist.made == AllMade(qs, ms, n) by {
      if n == 0 {
        hide *;
        assert INIT.hist.made == multiset{} by { NothingYet(); }
      } else {
        AllAccountedFor(qs, ms, n - 1);
        MoveMakes(qs[n - 1], ms[n - 1]);
        assert qs[n] == Apply(qs[n - 1], ms[n - 1]);
      }
    }
  }

  lemma NothingYet()
    ensures INIT.hist.made == multiset{}
  {
  }

  /** None of the moves from i on cancels. */
  ghost predicate NoneCancels(ms: seq<Move>, i: nat, n: nat)
    requires n <= |ms|
  {
    forall k :: i <= k < n ==> !Cancels(ms[k])
  }

  lemma {:induction false} StillAsked(qs: seq<Queue>, ms: seq<Move>, i: nat, n: nat)
    requires Run(qs, ms) && i <= n <= |ms| && NoneCancels(ms, i, n)
    ensures Extends(qs[i], qs[n])
  {
    hide Apply, Enabled, MadeBy, Cancels;
    if n > i {
      StillAsked(qs, ms, i, n - 1);
      MoveMakes(qs[n - 1], ms[n - 1]);
      assert qs[n] == Apply(qs[n - 1], ms[n - 1]);
    }
  }

  lemma {:induction false} AtMember(s: seq<Entry>, e: Entry)
    ensures e in s <==> e.p in At(s, e.t)
  {
    if s != [] {
      AtMember(s[1..], e);
      assert s == [s[0]] + s[1..];
      assert At(s, e.t) == (if s[0].t == e.t then [s[0].p] else []) + At(s[1..], e.t);
    }
  }

  /** What the i-th move, or a callback in it, calls for is still on record. */
  lemma StillOnRecord(qs: seq<Queue>, ms: seq<Move>, i: nat, n: nat, a: Ask)
    requires Run(qs, ms) && i < n <= |ms| && Calls(qs[i], ms[i], a) && NoneCancels(ms, i, n)
    ensures OnRecord(qs[i], a, qs[n])
  {
    hide Apply, Enabled, MadeBy, Calls, Cancels, OnRecord;
    StillAsked(qs, ms, i + 1, n);
    CallOnRecord(qs[i], ms[i], a);
    assert qs[i + 1] == Apply(qs[i], ms[i]);
    assert [a][0] == a;
    forall b | b in [a] ensures OnRecord(qs[i], b, qs[i + 1]) {
    }
    StaysOnRecord(qs[i], [a], qs[i + 1], qs[n]);
  }

  /** A notification with a delay, from outside or by a callback, is delivered at the time of the call plus
      the delay: until then it is queued for that time, afterwards it has been delivered at it. */
  lemma DeliveredAfterDelay(qs: seq<Queue>, ms: seq<Move>, i: nat, n: nat, p: Payload, when: nat)
    requires Run(qs, ms) && i < n <= |ms| && QuietRun(qs, ms, n) && CarefulRun(qs, ms, n)
    requires Calls(qs[i], ms[i], Later(p, when)) && when > 0 && NoneCancels(ms, i, n)
    ensures var q, e := qs[n], Entry(p, qs[i].now + when);
            && (e.t < q.now || (e.t == q.now && !q.runnable) ==> e in q.hist.gotT)
            && (e.t > q.now ==> e !in q.hist.gotT && e in q.timed)
            && (e in q.hist.gotT || e in q.timed)
  {
    hide QuietRun, CarefulRun, NoneCancels, Calls, Enabled, Apply, Consistent, At, Awake;
    var q, e := qs[n], Entry(p, qs[i].now + when);
    StillOnRecord(qs, ms, i, n, Later(p, when));
    DeliveredExactlyOnce(qs, ms, n);
    RunSafe(qs, ms, n);
    TimedPlaces(q, e);
  }

  lemma TimedPlaces(q: Queue, e: Entry)
    requires Consistent(q) && q.hist.lostT + q.hist.gotT == q.hist.gotT && e in q.hist.askT
    requires e.t < q.now || (e.t == q.now && !q.runnable) ==> At(q.hist.gotT, e.t) == At(q.hist.askT, e.t)
    requires e.t > q.now ==> At(q.hist.gotT, e.t) == []
    ensures e.t < q.now || (e.t == q.now && !q.runnable) ==> e in q.hist.gotT
    ensures e.t > q.now ==> e !in q.hist.gotT && e in q.timed
    ensures e in q.hist.gotT || e in q.timed
  {
    hide At, Sorted, DeltaAccounted;
    AtMember(q.hist.askT, e);
    AtMember(q.hist.gotT, e);
    AtMember(q.timed, e);
    assert At(q.hist.lostT + q.hist.gotT, e.t) + At(q.timed, e.t) == At(q.hist.askT, e.t);
  }

  /** One with no delay is delivered in the next delta cycle. */
  lemma DeliveredNextDelta(qs: seq<Queue>, ms: seq<Move>, i: nat, n: nat, p: Payload)
    requires Run(qs, ms) && i < n <= |ms| && QuietRun(qs, ms, n)
    requires Calls(qs[i], ms[i], Later(p, 0)) && NoneCancels(ms, i, n)
    ensures var q, e := qs[n], Entry(p, qs[i].delta + 1);
            && (e.t < q.delta || (e.t == q.delta && !q.runnable) ==> e in q.hist.gotD)
            && (e.t > q.delta ==> e !in q.hist.gotD && p in Nxt(q))
  {
    hide QuietRun, NoneCancels, Enabled, Apply, Consistent, At, Calls;
    var q, e := qs[n], Entry(p, qs[i].delta + 1);
    StillOnRecord(qs, ms, i, n, Later(p, 0));
    DeliveredExactlyOnce(qs, ms, n);
    RunSafe(qs, ms, n);
    DeltaBounds(qs, ms, i, n);
    DeltaPlaces(q, e);
  }

  lemma DeltaPlaces(q: Queue, e: Entry)
    requires Consistent(q) && e in q.hist.askD && e.t <= q.delta + 1
    requires e.t < q.delta || (e.t == q.delta && !q.runnable) ==> At(q.hist.gotD, e.t) == At(q.hist.askD, e.t)
    requires e.t > q.delta ==> At(q.hist.gotD, e.t) == []
    ensures e.t < q.delta || (e.t == q.delta && !q.runnable) ==> e in q.hist.gotD
    ensures e.t > q.delta ==> e !in q.hist.gotD && e.p in Nxt(q)
  {
    hide At, Sorted, TimedAccounted;
    AtMember(q.hist.askD, e);
    AtMember(q.hist.gotD, e);
    assert At(q.hist.gotD, e.t) + Queued(q.delta, Cur(q), Nxt(q), e.t) == At(q.hist.askD, e.t);
  }

  lemma {:induction false} DeltaBounds(qs: seq<Queue>, ms: seq<Move>, i: nat, n: nat)
    requires Run(qs, ms) && i <= n <= |ms|
    ensures qs[i].delta <= qs[n].delta
  {
    hide Apply, Enabled, MadeBy;
    if n > i {
      DeltaBounds(qs, ms, i, n - 1);
      assert qs[n] == Apply(qs[n - 1], ms[n - 1]);
      MoveMakes(qs[n - 1], ms[n - 1]);
    }
  }

  /** An immediate one is delivered in the same evaluation phase, behind those before it. */
  lemma DeliveredAtOnce(qs: seq<Queue>, ms: seq<Move>, i: nat, n: nat, p: Payload)
    requires Run(qs, ms) && i < n <= |ms| && QuietRun(qs, ms, n) && !qs[n].runnable
    requires ms[i] == Now(p) && NoneCancels(ms, i + 1, n)
    ensures var k := |qs[i].hist.askI|; k < |qs[n].hist.gotI| && qs[n].hist.gotI[k] == p
  {
    hide QuietRun, NoneCancels, Enabled;
    StillAsked(qs, ms, i + 1, n);
    DeliveredExactlyOnce(qs, ms, n);
    assert qs[i + 1].hist.askI == qs[i].hist.askI + [p];
  }

  function AllDelivered(q: Queue): multiset<Payload> {
    Bag(q.hist.gotT) + Bag(q.hist.gotD) + multiset(q.hist.gotI)
  }

  /** What a cancellation finds queued is never delivered: later deliveries are of later notifications. */
  lemma CancelledForGood(qs: seq<Queue>, ms: seq<Move>, i: nat, n: nat)
    requires Run(qs, ms) && i < n <= |ms| && ms[i] == Cancel
    ensures Waiting(qs[i + 1]) == multiset{} && AllDelivered(qs[i + 1]) == AllDelivered(qs[i])
    ensures AllDelivered(qs[n]) - AllDelivered(qs[i]) <= AllMade(qs, ms, n) - AllMade(qs, ms, i)
  {
    hide Enabled, Waiting, Bag, MadeBy;
    NothingWaits(qs[i]);
    assert qs[i + 1] == CancelAll(qs[i]);
    AllAccountedFor(qs, ms, i + 1);
    AllAccountedFor(qs, ms, n);
    MadeGrows(qs, ms, i + 1, n);
    CancelMakesNone(qs[i]);
    assert AllMade(qs, ms, i + 1) == AllMade(qs, ms, i);
    var now, later := qs[i + 1].hist, qs[n].hist;
    assert AllDelivered(qs[n]) + (later.dropped + later.lost) <= AllMade(qs, ms, n);
    assert AllDelivered(qs[i]) + (now.dropped + now.lost) == AllMade(qs, ms, i);
  }

  lemma CancelMakesNone(q: Queue)
    ensures MadeBy(q, Cancel) == multiset{}
  {
  }

  lemma NothingWaits(q: Queue)
    ensures Waiting(CancelAll(q)) == multiset{}
  {
  }

  lemma {:induction false} MadeGrows(qs: seq<Queue>, ms: seq<Move>, i: nat, n: nat)
    requires Run(qs, ms) && i <= n <= |ms|
    ensures qs[i].hist.dropped <= qs[n].hist.dropped && qs[i].hist.lost <= qs[n].hist.lost
  {
    hide Apply, Enabled, MadeBy;
    if n > i {
      MadeGrows(qs, ms, i, n - 1);
      assert qs[n] == Apply(qs[n - 1], ms[n - 1]);
      MoveMakes(qs[n - 1], ms[n - 1]);
    }
  }
}
