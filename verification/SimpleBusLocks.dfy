/** Arbitration and locks of simple_bus. */
module SimpleBusLocks {
  import opened SimpleBus
  import opened Wrappers

  // ------------------------------------------------------------------ arbitration

  ghost predicate SameButLock(x: Request, y: Request) {
    x.(lock := y.lock) == y
  }

  /** What arbitration changes: the current request, and at most its lock. */
  lemma NextChooses(b: Bus)
    requires b.current.None?
    ensures var r := NextRequest(b);
            r.current.None? ==> r == b && forall i :: 0 <= i < |b.requests| ==> !Pending(b.requests[i])
    ensures var r := NextRequest(b);
            r.current.Some? ==>
              && r == b.(requests := r.requests, current := r.current, last := r.current, since := 0)
              && r.current.value < |b.requests| == |r.requests|
              && Pending(b.requests[r.current.value])
              && SameButLock(b.requests[r.current.value], r.requests[r.current.value])
              && r.requests == b.requests[r.current.value := r.requests[r.current.value]]
  {
    hide FirstLocked, FirstGranted, Best;
    var q := PendingFrom(b.requests, 0);
    if q != [] {
      var i := Choose(b.requests, q);
      assert Pending(b.requests[i]);
      assert b.requests == b.requests[i := b.requests[i]];
    } else {
      forall i | 0 <= i < |b.requests| ensures !Pending(b.requests[i]) {
        assert Pending(b.requests[i]) ==> i in q;
      }
    }
  }

  /** A locked burst is served before any other request, and rule 1 leaves its lock alone. */
  lemma LockedFirst(b: Bus, i: nat)
    requires b.current.None? && i < |b.requests| && LockedBurst(b.requests[i])
    requires forall j :: 0 <= j < |b.requests| && LockedBurst(b.requests[j]) ==> j == i
    ensures NextRequest(b).current == Some(i) && NextRequest(b).requests == b.requests
  {
    hide FirstLocked, FirstGranted, Best;
    var q := PendingFrom(b.requests, 0);
    assert Pending(b.requests[i]) && i in q;
    var m :| 0 <= m < |q| && q[m] == i;
    var k := FirstLocked(b.requests, q);
    assert k < |q|;
    assert LockedBurst(b.requests[q[k]]);
  }

  /** The three rules: whoever is served, no pending request has a better claim. A locked burst comes first,
      then a granted lock, then the least priority number; only the last rule grants the lock. */
  lemma ArbiterRules(b: Bus, i: nat, c: nat)
    requires b.current.None? && DistinctPriorities(b.requests)
    requires i < |b.requests| && Pending(b.requests[i]) && NextRequest(b).current == Some(c)
    ensures c < |b.requests| && Pending(b.requests[c])
    ensures LockedBurst(b.requests[i]) ==> LockedBurst(b.requests[c])
    ensures b.requests[i].lock == Granted ==> LockedBurst(b.requests[c]) || b.requests[c].lock == Granted
    ensures !LockedBurst(b.requests[c]) && b.requests[c].lock != Granted && i != c ==>
              b.requests[c].priority < b.requests[i].priority
    ensures var byRule3 := !LockedBurst(b.requests[c]) && b.requests[c].lock != Granted;
            NextRequest(b).requests[c].lock
            == if byRule3 && b.requests[c].lock == Set then Granted else b.requests[c].lock
  {
    hide FirstLocked, FirstGranted, Best, DistinctPriorities;
    var q := PendingFrom(b.requests, 0);
    assert i in q;
    var m :| 0 <= m < |q| && q[m] == i;
    assert Pending(b.requests[c]);
    if i != c {
      PrioritiesDiffer(b.requests, i, c);
    }
  }

  lemma PrioritiesDiffer(rs: seq<Request>, i: nat, j: nat)
    requires DistinctPriorities(rs) && i < |rs| && j < |rs| && i != j
    ensures rs[i].priority != rs[j].priority
  {
  }

  /** The assertion of the arbiter: pending requests have distinct priorities. */
  lemma ArbiterAssertionHolds(rs: seq<Request>, q: seq<nat>, k: nat, m: nat)
    requires DistinctPriorities(rs) && q == PendingFrom(rs, 0)
    requires k < m < |q|
    ensures rs[q[k]].priority != rs[q[m]].priority
  {
  }

  // ------------------------------------------------------- priorities and locks

  ghost predicate DistinctPriorities(rs: seq<Request>) {
    forall i, j :: 0 <= i < j < |rs| ==> rs[i].priority != rs[j].priority
  }

  predicate WaitingLocked(r: Request) {
    r.status == Wait && r.lock != Unlocked
  }

  /** An access in progress belongs to the request chosen last, which is waiting. Only the request
      chosen last can be waiting with a lock, and between accesses that lock is set, not granted. */
  ghost predicate LocksOk(rs: seq<Request>, current: Option<nat>, last: Option<nat>) {
    && (current.Some? ==> current == last && current.value < |rs| && rs[current.value].status == Wait)
    && (forall i :: 0 <= i < |rs| && WaitingLocked(rs[i]) ==> last == Some(i))
    && (current.None? ==> forall i :: 0 <= i < |rs| && rs[i].status == Wait ==> rs[i].lock != Granted)
  }

  lemma SubmitLocks(b: Bus, p: nat, w: bool, d: nat, a: nat, n: nat, l: bool)
    requires DistinctPriorities(b.requests) && LocksOk(b.requests, b.current, b.last)
    requires Enabled(b, SubmitStep(p, w, d, a, n, l))
    ensures var r := Submit(b, p, w, d, a, n, l);
            DistinctPriorities(r.requests) && LocksOk(r.requests, r.current, r.last)
  {
    hide FindRequest;
    var i := FindRequest(b.requests, p);
    var r := Submit(b, p, w, d, a, n, l).requests;
    assert |r| == (if i < |b.requests| then |b.requests| else |b.requests| + 1);
    assert forall j :: 0 <= j < |b.requests| && j != i ==> r[j] == b.requests[j];
    assert r[i].priority == p && r[i].status == Requested;
  }

  lemma NextLocks(b: Bus)
    requires b.current.None? && LocksOk(b.requests, b.current, b.last)
    ensures var r := NextRequest(b);
            r.current.Some? ==>
              forall i :: 0 <= i < |r.requests| && WaitingLocked(r.requests[i]) ==> r.current == Some(i)
  {
    hide NextRequest;
    NextChooses(b);
    var r := NextRequest(b);
    if i :| 0 <= i < |b.requests| && LockedBurst(b.requests[i]) {
      assert WaitingLocked(b.requests[i]);
      forall j | 0 <= j < |b.requests| && LockedBurst(b.requests[j]) ensures j == i {
        assert WaitingLocked(b.requests[j]);
      }
      LockedFirst(b, i);
    } else {
      assert forall i :: 0 <= i < |b.requests| ==> !WaitingLocked(b.requests[i]);
    }
  }

  /** What serving the current request changes among the requests. */
  lemma HandleChanges(b: Bus)
    requires b.current.Some? && b.current.value < |b.requests|
    ensures var r, c := Handle(b), b.current.value;
            && (r.current.None? || (r.current == b.current && r.requests[c] == b.requests[c].(status := Wait)))
            && r.last == b.last && |r.requests| == |b.requests|
            && r.requests == b.requests[c := r.requests[c]]
            && r.requests[c].priority == b.requests[c].priority && r.requests[c].lock == b.requests[c].lock
  {
    hide GetSlave, Accept, Wrap;
  }

  lemma HandleLocks(b: Bus)
    requires b.current.Some? && b.current == b.last && b.current.value < |b.requests|
    requires forall i :: 0 <= i < |b.requests| && WaitingLocked(b.requests[i]) ==> b.current == Some(i)
    ensures var r := Settle(Handle(b)); LocksOk(r.requests, r.current, r.last)
  {
    hide ClearLocks, Handle;
    HandleChanges(b);
    var c := b.current.value;
    var h := Handle(b);
    var r := Settle(h);
    if h.current.None? {
      assert |r.requests| == |h.requests|;
      forall i | 0 <= i < |r.requests| && r.requests[i].status == Wait
        ensures r.requests[i].lock != Granted && (WaitingLocked(r.requests[i]) ==> r.last == Some(i))
      {
        assert r.requests[i] == h.requests[i].(lock := Downgrade(h.requests[i].lock));
        assert WaitingLocked(r.requests[i]) ==> WaitingLocked(h.requests[i]);
        assert i != c ==> h.requests[i] == b.requests[i];
      }
    } else {
      assert h.requests[c].status == Wait;
    }
  }

  lemma IdleLocks(b: Bus)
    requires b.current.None? && LocksOk(b.requests, b.current, b.last)
    ensures var r := Settle(b); LocksOk(r.requests, r.current, r.last)
  {
    hide ClearLocks;
    var r := Settle(b);
    forall i | 0 <= i < |r.requests| && r.requests[i].status == Wait ensures r.requests[i].lock == Unlocked {
      assert r.requests[i] == b.requests[i].(lock := Downgrade(b.requests[i].lock));
    }
  }

  lemma MainActionLocks(b: Bus)
    requires LocksOk(b.requests, b.current, b.last)
    ensures var r := MainAction(b); LocksOk(r.requests, r.current, r.last)
  {
    hide NextRequest, Handle, Settle;
    var b1 := if b.current.None? then NextRequest(b) else b;
    if b.current.None? {
      NextChooses(b);
      NextLocks(b);
    }
    if b1.current.Some? {
      HandleLocks(b1);
    } else {
      IdleLocks(b);
    }
  }

  /** A locked burst is never broken into before its next transfer: the request that was granted with
      its lock and has words left is chosen again at the next arbitration. */
  lemma LockedBurstServedNext(b: Bus)
    requires LocksOk(b.requests, b.current, b.last) && b.current.None?
    requires b.last.Some? && b.last.value < |b.requests| && LockedBurst(b.requests[b.last.value])
    ensures NextRequest(b).current == b.last
    ensures NextRequest(b).requests == b.requests
  {
    hide NextRequest;
    forall j | 0 <= j < |b.requests| && LockedBurst(b.requests[j]) ensures j == b.last.value {
      assert WaitingLocked(b.requests[j]);
    }
    LockedFirst(b, b.last.value);
  }

  /** Rule 1 does not renew the lock: once the transfer that rule 1 granted is over the lock is gone. */
  lemma LockEndsAfterRuleOne(b: Bus, r: Bus)
    requires LocksOk(b.requests, b.current, b.last) && b.current.None?
    requires b.last.Some? && b.last.value < |b.requests| && LockedBurst(b.requests[b.last.value])
    requires r == MainAction(b)
    ensures |r.requests| == |b.requests|
    ensures r.current.None? ==> r.requests[b.last.value].lock == Unlocked
    ensures r.current.Some? ==> r.current == b.last && r.requests[b.last.value].lock == Set
  {
    hide LocksOk, LockedBurst, NextRequest, Handle, ClearLocks;
    var i := b.last.value;
    assert b.requests[i].lock == Set by { LockIsSet(b.requests[i]); }
    LockedBurstServedNext(b);
    NextChooses(b);
    HandleChanges(NextRequest(b));
    var h := Handle(NextRequest(b));
    assert h.requests[i].lock == Set;
    assert r == Settle(h);
  }

  lemma LockIsSet(r: Request)
    requires LockedBurst(r)
    ensures r.lock == Set
  {
  }

  // ------------------------------------------------------------------ where a locked burst comes from

  /** Request c holds the bus: it is being served with its lock granted, or waits for its next word with its
      lock set. */
  ghost predicate Holds(b: Bus, c: nat) {
    && b.last == Some(c) && c < |b.requests| && b.requests[c].status == Wait
    && if b.current.Some? then b.current == Some(c) && b.requests[c].lock == Granted
       else LockedBurst(b.requests[c])
  }

  /** It is finished, and its lock is still set. */
  ghost predicate KeepsLock(b: Bus, c: nat) {
    && b.current.None? && b.last == Some(c) && c < |b.requests| && !Pending(b.requests[c])
    && b.requests[c].lock == Set
  }

  lemma SettleLock(b: Bus, c: nat)
    requires c < |b.requests| && b.requests[c].lock == Granted
    ensures |Settle(b).requests| == |b.requests|
    ensures Settle(b).requests[c] == b.requests[c].(lock := if b.current.None? then Set else Granted)
    ensures Settle(b).current == b.current && Settle(b).last == b.last
  {
    hide ClearLocks;
  }

  /** One falling edge on which the request served has its lock granted. */
  lemma GrantedServed(b: Bus, c: nat)
    requires b.current == Some(c) == b.last && c < |b.requests| && b.requests[c].lock == Granted
    ensures var r := Settle(Handle(b)); Holds(r, c) || KeepsLock(r, c)
  {
    hide Handle, Settle;
    HandleChanges(b);
    HandleEnds(b);
    SettleLock(Handle(b), c);
  }

  lemma HandleEnds(b: Bus)
    requires b.current.Some? && b.current.value < |b.requests|
    ensures Handle(b).requests[b.current.value].status != Requested
  {
    hide GetSlave, Accept, Wrap, Move;
  }

  /** A request that rule 3 chooses with its lock set holds the bus from then on: on this falling edge and, if
      its slave makes it wait, on the following ones; and when the word has been moved and there are words
      left, it waits with its lock set. */
  lemma RuleThreeLocks(b: Bus, c: nat)
    requires b.current.None? && DistinctPriorities(b.requests)
    requires NextRequest(b).current == Some(c) && c < |b.requests|
    requires b.requests[c].status == Requested && b.requests[c].lock == Set
    ensures Holds(MainAction(b), c) || KeepsLock(MainAction(b), c)
  {
    hide NextRequest, Handle, Settle, DistinctPriorities;
    NextChooses(b);
    ArbiterRules(b, c, c);
    GrantedServed(NextRequest(b), c);
  }

  lemma HoldsOn(b: Bus, c: nat)
    requires Holds(b, c) && b.current.Some?
    ensures Holds(MainAction(b), c) || KeepsLock(MainAction(b), c)
  {
    hide Handle, Settle;
    GrantedServed(b, c);
  }

  /** Between two words such a request is the one to be served next, whatever else is pending. */
  lemma HolderServedNext(b: Bus, c: nat)
    requires LocksOk(b.requests, b.current, b.last) && b.current.None? && Holds(b, c)
    ensures NextRequest(b).current == Some(c)
  {
    hide NextRequest;
    LockedBurstServedNext(b);
  }

  lemma LockedIsWaiting(r: Request)
    ensures LockedBurst(r) ==> WaitingLocked(r)
  {
  }

  /** A master whose request kept its lock and that locks its next request as well is served next, unless
      somebody else has done the same. */
  lemma LockedAgainServedNext(b: Bus, p: nat, w: bool, d: nat, a: nat, n: nat)
    requires LocksOk(b.requests, b.current, b.last) && DistinctPriorities(b.requests)
    requires Enabled(b, SubmitStep(p, w, d, a, n, true))
    requires var c := FindRequest(b.requests, p);
             && KeepsLock(b, c)
             && forall i :: 0 <= i < |b.requests| && i != c ==> b.requests[i].lock != Granted
    ensures NextRequest(Submit(b, p, w, d, a, n, true)).current == Some(FindRequest(b.requests, p))
  {
    hide NextRequest, FindRequest, DistinctPriorities;
    var c := FindRequest(b.requests, p);
    var r := Submit(b, p, w, d, a, n, true);
    SubmitLocks(b, p, w, d, a, n, true);
    assert r.requests[c].lock == Granted && Pending(r.requests[c]);
    forall i | 0 <= i < |r.requests| ensures !LockedBurst(r.requests[i]) {
      LockedIsWaiting(r.requests[i]);
    }
    NextChooses(r);
    var e := NextRequest(r).current;
    assert e.Some?;
    ArbiterRules(r, c, e.value);
  }
}
