/** The payload event queue itself: the classes whose methods change it in place, each shown to make
    exactly the move that PayloadQueue describes. */
module Peq {
  import opened TimeOrderedList
  import opened PayloadQueue

  const INITIAL_ENTRIES: nat := 100
  const NO_PAYLOAD: Payload := Payload(0, 0)

  /** A vector that grows by doubling, filled at size and drained at out. */
  class DeltaList {
    var entries: seq<Payload>
    var size: nat
    var out: nat

    ghost predicate Valid()
      reads this
    {
      out <= size <= |entries| && |entries| > 0
    }

    /** What has been inserted and not yet taken out. */
    ghost function Rest(): seq<Payload>
      reads this
      requires Valid()
    {
      entries[out..size]
    }

    constructor ()
      ensures Valid() && Rest() == [] && out == 0
    {
      size := 0;
      out := 0;
      entries := seq(INITIAL_ENTRIES, _ => NO_PAYLOAD);
    }

    method Insert(p: Payload)
      requires Valid()
      modifies this
      ensures Valid() && Rest() == old(Rest()) + [p] && out == old(out)
    {
      if size == |entries| {
        entries := entries + seq(|entries|, _ => NO_PAYLOAD);
      }
      entries := entries[size := p];
      size := size + 1;
    }

    method Get() returns (p: Payload)
      requires Valid() && Rest() != []
      modifies this
      ensures Valid() && p == old(Rest())[0] && Rest() == old(Rest())[1..]
    {
      p := entries[out];
      out := out + 1;
    }

    method Next() returns (b: bool)
      requires Valid()
      ensures b <==> Rest() != []
    {
      b := out < size;
    }

    method Reset()
      requires Valid()
      modifies this
      ensures Valid() && Rest() == [] && out == 0
    {
      size := 0;
      out := 0;
    }
  }

  /** A notification while the head is being served goes behind it. */
  lemma InsertBehindHead(s: seq<Entry>, e: Entry)
    requires s != [] && s[0].t <= e.t
    ensures StableInsert(s, e)[0] == s[0] && StableInsert(s, e)[1..] == StableInsert(s[1..], e)
  {
    assert StableInsert(s, e) == [s[0]] + StableInsert(s[1..], e);
  }

  lemma LoopsDone(q: Queue)
    ensures q.imm == [] ==> DrainImmediate(q) == q
    ensures Cur(q) == [] ==> DrainDelta(q) == q
    ensures (q.timed == [] || q.timed[0].t != q.now) ==> DrainTimed(q) == q
  {
  }

  lemma ImmediateRound(q: Queue)
    requires q.imm != []
    ensures DrainImmediate(q) == DrainImmediate(Callback(DeliverNow(q)))
  {
  }

  lemma TimedRound(q: Queue)
    requires q.timed != [] && q.timed[0].t == q.now
    ensures DrainTimed(q) == DrainTimed(Round(q)) && Round(q).now == q.now
    ensures Due(Round(q).timed, q.now) < Due(q.timed, q.now)
  {
    hide Callback;
    RoundDue(q);
  }

  lemma DeltaRound(q: Queue)
    requires Cur(q) != []
    ensures DrainDelta(q) == DrainDelta(Callback(DeliverDelta(q)))
  {
  }

  class PeqWithCbAndPhase {
    const ppq: List
    const unevenDelta: DeltaList
    const evenDelta: DeltaList
    const immediateYield: DeltaList
    /** The notification state of m_e, and the kernel's time and delta count. */
    var event: Pending
    var runnable: bool
    var now: nat
    var deltaCount: nat
    /** The owner: what its coming callbacks will call. */
    var script: Script
    /** Whether the first element of ppq is the one the running callback was called with. */
    ghost var serving: bool
    ghost var hist: Hist

    ghost predicate Valid()
      reads this, ppq, unevenDelta, evenDelta, immediateYield
    {
      && ppq.Valid() && unevenDelta.Valid() && evenDelta.Valid() && immediateYield.Valid()
      && unevenDelta != evenDelta && unevenDelta != immediateYield && evenDelta != immediateYield
      && (serving ==> ppq.Contents != [] && ppq.Contents[0].t == now)
    }

    /** Outside its drain loop no delta list has been drained in part, so size counts what is left. */
    ghost predicate Undrained()
      reads unevenDelta, evenDelta
    {
      unevenDelta.out == 0 && evenDelta.out == 0
    }

    /** A payload is delivered when its callback begins, though it is unlinked after that. */
    ghost function View(): Queue
      reads this, ppq, unevenDelta, evenDelta, immediateYield
      requires Valid()
    {
      Queue(now, deltaCount, event, runnable, immediateYield.Rest(), evenDelta.Rest(), unevenDelta.Rest(),
            if serving then ppq.Contents[1..] else ppq.Contents, script, hist)
    }

    constructor ()
      ensures Valid() && View() == INIT && Undrained() && !serving
      ensures fresh(ppq) && fresh(unevenDelta) && fresh(evenDelta) && fresh(immediateYield)
    {
      ppq := new List();
      unevenDelta := new DeltaList();
      evenDelta := new DeltaList();
      immediateYield := new DeltaList();
      event := NoEvent;
      runnable := false;
      now := 0;
      deltaCount := 0;
      script := [];
      serving := false;
      hist := INIT.hist;
    }

    /** A payload for the next delta cycle, or for the time now + when. */
    method Notify(p: Payload, when: nat)
      requires Valid()
      modifies this, ppq, unevenDelta, evenDelta
      ensures Valid() && View() == NotifyWhen(old(View()), p, when) && serving == old(serving)
      ensures evenDelta.out == old(evenDelta.out) && unevenDelta.out == old(unevenDelta.out)
    {
      hide Shape, Sorted, StableInsert, NotifyAt;
      if when == 0 {
        if deltaCount % 2 == 1 {
          evenDelta.Insert(p);
        } else {
          unevenDelta.Insert(p);
        }
        event := DeltaEvent;
        hist := hist.(askD := hist.askD + [Entry(p, deltaCount + 1)], made := hist.made + multiset{p});
      } else {
        if serving {
          InsertBehindHead(ppq.Contents, Entry(p, when + now));
        }
        ppq.Insert(p, when + now, deltaCount);
        event := NotifyAt(event, now + when);
        hist := hist.(askT := hist.askT + [Entry(p, when + now)], made := hist.made + multiset{p});
      }
    }

    /** self says that fec itself is the process that notifies. */
    method NotifyImmediate(p: Payload, self: bool)
      requires Valid()
      modifies this, immediateYield
      ensures Valid() && View() == NotifyNow(old(View()), p, self) && serving == old(serving)
    {
      hide Shape, Sorted;
      immediateYield.Insert(p);
      event := NoEvent;
      if !self {
        runnable := true;
      }
      hist := hist.(askI := hist.askI + [p], made := hist.made + multiset{p});
    }

    method CancelAll()
      requires Valid()
      modifies this, ppq, unevenDelta, evenDelta, immediateYield
      ensures Valid() && View() == PayloadQueue.CancelAll(old(View())) && Undrained() && !serving
    {
      hide Shape, Sorted;
      ghost var waiting := Waiting(View());
      ppq.Reset();
      unevenDelta.Reset();
      evenDelta.Reset();
      immediateYield.Reset();
      event := NoEvent;
      serving := false;
      hist := hist.(askT := hist.gotT, lostT := [], askD := hist.gotD, askI := hist.gotI,
                    dropped := hist.dropped + waiting);
    }

    /** The callback of the owner: it may notify the queue again, in any way, or cancel everything. */
    method OwnerCallback(p: Payload)
      requires Valid()
      modifies this, ppq, unevenDelta, evenDelta, immediateYield
      ensures Valid() && View() == Callback(old(View()))
      ensures serving <==> old(serving) && !Revoked(old(script))
      ensures old(evenDelta.out) == 0 ==> evenDelta.out == 0
      ensures old(unevenDelta.out) == 0 ==> unevenDelta.out == 0
    {
      hide Shape, Sorted, StableInsert, NotifyWhen, NotifyNow, PayloadQueue.CancelAll;
      if script == [] {
        return;
      }
      var asks := script[0];
      script := script[1..];
      var i := 0;
      while i < |asks|
        invariant 0 <= i <= |asks|
        invariant Valid() && React(View(), asks[i..]) == Callback(old(View()))
        invariant old(serving) && !Revokes(asks) <==> serving && !Revokes(asks[i..])
        invariant old(evenDelta.out) == 0 ==> evenDelta.out == 0
        invariant old(unevenDelta.out) == 0 ==> unevenDelta.out == 0
      {
        assert asks[i..][0] == asks[i] && asks[i..][1..] == asks[i + 1..];
        match asks[i] {
          case Later(x, when) => Notify(x, when);
          case AtOnce(x) => NotifyImmediate(x, true);
          case Revoke => CancelAll();
        }
        i := i + 1;
      }
    }

    method CallImmediate()
      requires Valid() && !serving && immediateYield.Rest() != []
      modifies this, ppq, unevenDelta, evenDelta, immediateYield
      ensures Valid() && View() == Callback(DeliverNow(old(View())))
      ensures !serving
      ensures old(evenDelta.out) == 0 ==> evenDelta.out == 0
      ensures old(unevenDelta.out) == 0 ==> unevenDelta.out == 0
    {
      hide Shape, Sorted, StableInsert, Callback;
      ghost var q := View();
      var tmp := immediateYield.Get();
      hist := hist.(gotI := hist.gotI + [tmp]);
      assert View() == DeliverNow(q);
      OwnerCallback(tmp);
    }

    method CallDelta(list: DeltaList)
      requires Valid() && !serving && list == (if deltaCount % 2 == 1 then unevenDelta else evenDelta) && list.Rest() != []
      modifies this, ppq, unevenDelta, evenDelta, immediateYield
      ensures Valid() && View() == Callback(DeliverDelta(old(View()))) && !serving
      ensures list != evenDelta && old(evenDelta.out) == 0 ==> evenDelta.out == 0
      ensures list != unevenDelta && old(unevenDelta.out) == 0 ==> unevenDelta.out == 0
    {
      hide Shape, Sorted, StableInsert, Callback;
      ghost var q := View();
      var tmp := list.Get();
      hist := hist.(gotD := hist.gotD + [Entry(tmp, deltaCount)]);
      assert View() == DeliverDelta(q);
      OwnerCallback(tmp);
    }

    /** The callback comes first, the unlinking after it: of the payload that was served, or, if the callback
        has cancelled, of what is first in the list by then. */
    method CallTimed()
      requires Valid() && !serving && ppq.Contents != [] && ppq.Contents[0].t == now
      modifies this, ppq, unevenDelta, evenDelta, immediateYield
      ensures Valid() && View() == Round(old(View())) && !serving
      ensures old(evenDelta.out) == 0 ==> evenDelta.out == 0
      ensures old(unevenDelta.out) == 0 ==> unevenDelta.out == 0
    {
      hide Shape, Sorted, StableInsert, Callback;
      ghost var q := View();
      var tmp := ppq.Top();
      serving := true;
      hist := hist.(gotT := hist.gotT + [Entry(tmp, now)]);
      assert View() == DeliverTimed(q);
      OwnerCallback(tmp);
      if !serving && ppq.Contents != [] {
        hist := hist.(lostT := hist.lostT + [ppq.Contents[0]], lost := hist.lost + multiset{ppq.Contents[0].p});
      }
      ppq.DeleteTop();
      serving := false;
    }

    method YieldImmediate()
      requires Valid() && !serving
      modifies this, ppq, unevenDelta, evenDelta, immediateYield
      ensures Valid() && View() == DrainImmediate(old(View())) && !serving
      ensures now == old(now) && deltaCount == old(deltaCount)
      ensures old(Undrained()) ==> Undrained()
    {
      hide Shape, Sorted, StableInsert, Callback, DrainImmediate;
      var more := immediateYield.Next();
      while more
        invariant Valid() && !serving && more == (immediateYield.Rest() != [])
        invariant now == old(now) && deltaCount == old(deltaCount)
        invariant DrainImmediate(View()) == DrainImmediate(old(View()))
        invariant old(Undrained()) ==> Undrained()
        decreases |script|, |immediateYield.Rest()|
      {
        ImmediateRound(View());
        CallImmediate();
        more := immediateYield.Next();
      }
      LoopsDone(View());
      immediateYield.Reset();
    }

    /** Drains the list of the current parity. */
    method YieldDelta(list: DeltaList)
      requires Valid() && !serving && list == if deltaCount % 2 == 1 then unevenDelta else evenDelta
      modifies this, ppq, unevenDelta, evenDelta, immediateYield
      ensures Valid() && View() == DrainDelta(old(View())) && !serving
      ensures now == old(now) && deltaCount == old(deltaCount)
      ensures list.out == 0
      ensures list != evenDelta && old(evenDelta.out) == 0 ==> evenDelta.out == 0
      ensures list != unevenDelta && old(unevenDelta.out) == 0 ==> unevenDelta.out == 0
    {
      hide Shape, Sorted, StableInsert, Callback, DrainDelta;
      var more := list.Next();
      while more
        invariant Valid() && !serving && more == (list.Rest() != [])
        invariant now == old(now) && deltaCount == old(deltaCount)
        invariant DrainDelta(View()) == DrainDelta(old(View()))
        invariant list != evenDelta && old(evenDelta.out) == 0 ==> evenDelta.out == 0
        invariant list != unevenDelta && old(unevenDelta.out) == 0 ==> unevenDelta.out == 0
        decreases |list.Rest()|
      {
        DeltaRound(View());
        CallDelta(list);
        more := list.Next();
      }
      LoopsDone(View());
      list.Reset();
    }

    method YieldTimed()
      requires Valid() && !serving
      modifies this, ppq, unevenDelta, evenDelta, immediateYield
      ensures Valid() && View() == DrainTimed(old(View())) && !serving
      ensures old(Undrained()) ==> Undrained()
    {
      hide Shape, Sorted, StableInsert, Round, Due, DrainTimed;
      var top := ppq.TopTime();
      var n := ppq.GetSize();
      while n > 0 && top == now
        invariant Valid() && !serving && n == |ppq.Contents| && (n > 0 ==> top == ppq.Contents[0].t)
        invariant now == old(now) && (old(Undrained()) ==> Undrained())
        invariant DrainTimed(View()) == DrainTimed(old(View()))
        decreases Due(ppq.Contents, now)
      {
        TimedRound(View());
        CallTimed();
        top := ppq.TopTime();
        n := ppq.GetSize();
      }
      LoopsDone(View());
    }

    /** The delta part of fec: drains one list and re-arms the event for the other. */
    method ServeDelta()
      requires Valid() && !serving && Undrained()
      modifies this, ppq, unevenDelta, evenDelta, immediateYield
      ensures Valid() && View() == RearmDelta(DrainDelta(old(View()))) && !serving && Undrained()
    {
      hide Shape, Sorted, DrainDelta;
      if deltaCount % 2 == 1 {
        YieldDelta(unevenDelta);
        if evenDelta.size > 0 {
          event := DeltaEvent;
        }
      } else {
        YieldDelta(evenDelta);
        if unevenDelta.size > 0 {
          event := DeltaEvent;
        }
      }
    }

    /** The timed part of fec. */
    method ServeTimed()
      requires Valid() && !serving && ppq.Contents != []
      modifies this, ppq, unevenDelta, evenDelta, immediateYield
      ensures Valid() && View() == RearmTimed(DrainTimed(old(View()))) && !serving
      ensures old(Undrained()) ==> Undrained()
    {
      hide Shape, Sorted, DrainTimed;
      YieldTimed();
      var n := ppq.GetSize();
      if n > 0 {
        var top := ppq.TopTime();
        event := NotifyAt(event, top);
      }
    }

    /** The method process: immediate payloads, the delta list of this parity, then whatever is due. */
    method FecRun(callbacks: Script)
      requires Valid() && !serving && runnable && Undrained()
      modifies this, ppq, unevenDelta, evenDelta, immediateYield
      ensures Valid() && View() == Fec(old(View()), callbacks) && !serving && Undrained()
    {
      hide Shape, Sorted, DrainImmediate, DrainDelta, DrainTimed, RearmDelta, RearmTimed;
      runnable := false;
      script := callbacks;
      YieldImmediate();
      ServeDelta();
      var n := ppq.GetSize();
      if n > 0 {
        ServeTimed();
      }
      script := [];
    }
  }
}
