/** What simple_bus does for each submission and on each step, told from the steps of a run alone. */
module SimpleBusOrigins {
  import opened SimpleBus
  import opened SimpleBusLocks
  import opened SimpleBusTiming
  import opened SimpleBusMemory
  import opened SimpleBusBursts
  import opened SimpleBusRuns
  import opened Wrappers

  /** The submissions of a run, in order. */
  function Submissions(steps: seq<Step>): (r: seq<Step>)
    ensures forall k :: 0 <= k < |r| ==> r[k].SubmitStep?
  {
    if steps == [] then [] else (if steps[0].SubmitStep? then [steps[0]] else []) + Submissions(steps[1..])
  }

  ghost predicate AllSubmits(subs: seq<Step>) {
    forall k :: 0 <= k < |subs| ==> subs[k].SubmitStep?
  }

  /** A form says what was submitted. */
  predicate FormOf(r: Request, s: Step)
    requires s.SubmitStep?
  {
    r.priority == s.priority && r.doWrite == s.write && r.start == s.address && r.base == s.data && r.length == s.length
  }

  /** The k-th word of a submission. */
  predicate WordOf(t: Transfer, s: Step, k: nat)
    requires s.SubmitStep?
  {
    t.write == s.write && t.address == Wrap(s.address + 4 * k) && t.data == s.data + k
  }

  /** Every submission has its form, until the next one of the same priority. */
  ghost predicate FormsTied(b: Bus, subs: seq<Step>)
    requires AllSubmits(subs)
  {
    && b.subs == |subs|
    && (forall i :: 0 <= i < |b.requests| ==> b.requests[i].sub <= |subs|)
    && (forall i :: 0 <= i < |b.requests| && b.requests[i].sub > 0 ==> FormOf(b.requests[i], subs[b.requests[i].sub - 1]))
    && (forall k :: 0 <= k < |subs| ==> HasForm(b.requests, subs[k].priority, k + 1))
  }

  ghost predicate HasForm(rs: seq<Request>, priority: nat, sub: nat) {
    exists i :: 0 <= i < |rs| && rs[i].priority == priority && rs[i].sub >= sub
  }

  /** The words moved for a submission are its words, in order. */
  ghost predicate WordsTied(log: seq<Transfer>, subs: seq<Step>)
    requires AllSubmits(subs)
  {
    forall n, k :: 0 < n <= |subs| && 0 <= k < |Moves(log, n)| ==> WordOf(Moves(log, n)[k], subs[n - 1], k)
  }

  ghost predicate SameForm(x: Request, y: Request) {
    && x.priority == y.priority && x.doWrite == y.doWrite && x.start == y.start && x.base == y.base
    && x.length == y.length && x.sub == y.sub
  }

  ghost predicate SameForms(rs: seq<Request>, ts: seq<Request>) {
    |rs| == |ts| && forall i :: 0 <= i < |rs| ==> SameForm(rs[i], ts[i])
  }

  lemma HandleForms(b: Bus)
    requires b.current.Some? && b.current.value < |b.requests|
    ensures SameForms(b.requests, Handle(b).requests) && Handle(b).subs == b.subs
  {
    hide GetSlave, Accept, Wrap;
  }

  /** Serving changes no form in what it was asked for. */
  lemma MainActionForms(b: Bus)
    requires b.current.Some? ==> b.current.value < |b.requests|
    ensures SameForms(b.requests, MainAction(b).requests) && MainAction(b).subs == b.subs
  {
    hide NextRequest, Handle, ClearLocks;
    if b.current.None? {
      NextChooses(b);
    }
    var n := if b.current.None? then NextRequest(b) else b;
    assert SameForms(b.requests, n.requests);
    if n.current.Some? {
      HandleForms(n);
    }
  }

  lemma SameFormsTied(b: Bus, r: Bus, subs: seq<Step>)
    requires AllSubmits(subs) && FormsTied(b, subs) && SameForms(b.requests, r.requests) && r.subs == b.subs
    ensures FormsTied(r, subs)
  {
    forall i | 0 <= i < |r.requests|
      ensures r.requests[i].sub <= |subs| && (r.requests[i].sub > 0 ==> FormOf(r.requests[i], subs[r.requests[i].sub - 1]))
    {
      assert SameForm(b.requests[i], r.requests[i]);
    }
    forall k | 0 <= k < |subs| ensures HasForm(r.requests, subs[k].priority, k + 1) {
      assert HasForm(b.requests, subs[k].priority, k + 1);
      var i :| 0 <= i < |b.requests| && b.requests[i].priority == subs[k].priority && b.requests[i].sub >= k + 1;
      assert SameForm(b.requests[i], r.requests[i]);
    }
  }

  lemma SubmitTied(b: Bus, subs: seq<Step>, s: Step)
    requires AllSubmits(subs) && FormsTied(b, subs) && s.SubmitStep? && Enabled(b, s)
    ensures FormsTied(Apply(b, s), subs + [s])
  {
    hide FindRequest, HasForm, Wrap;
    var r, i := Apply(b, s), FindRequest(b.requests, s.priority);
    assert |r.requests| == if i < |b.requests| then |b.requests| else |b.requests| + 1;
    assert r.requests[i].sub == |subs| + 1 && FormOf(r.requests[i], s);
    forall j | 0 <= j < |r.requests|
      ensures r.requests[j].sub <= |subs| + 1
      ensures r.requests[j].sub > 0 ==> FormOf(r.requests[j], (subs + [s])[r.requests[j].sub - 1])
    {
      if j != i {
        assert r.requests[j] == b.requests[j];
      }
    }
    forall k | 0 <= k < |subs| + 1 ensures HasForm(r.requests, (subs + [s])[k].priority, k + 1) {
      if k < |subs| {
        FormStays(b.requests, r.requests, i, subs[k].priority, k + 1);
      } else {
        FormAt(r.requests, i, k + 1);
      }
    }
  }

  lemma FormAt(rs: seq<Request>, i: nat, sub: nat)
    requires i < |rs| && rs[i].sub >= sub
    ensures HasForm(rs, rs[i].priority, sub)
  {
  }

  lemma FormStays(rs: seq<Request>, ts: seq<Request>, i: nat, priority: nat, sub: nat)
    requires HasForm(rs, priority, sub) && |rs| <= |ts| && i < |ts|
    requires forall j :: 0 <= j < |rs| && j != i ==> ts[j] == rs[j]
    requires i < |rs| ==> ts[i].priority == rs[i].priority && ts[i].sub >= rs[i].sub
    ensures HasForm(ts, priority, sub)
  {
    var j :| 0 <= j < |rs| && rs[j].priority == priority && rs[j].sub >= sub;
    assert ts[j].priority == priority && ts[j].sub >= sub;
  }

  lemma StepTied(b: Bus, subs: seq<Step>, s: Step)
    requires AllSubmits(subs) && FormsTied(b, subs) && Enabled(b, s)
    ensures FormsTied(Apply(b, s), subs + if s.SubmitStep? then [s] else [])
  {
    hide FormsTied, MainAction, Submit, Direct, RisingEdge, Enabled;
    if s.SubmitStep? {
      SubmitTied(b, subs, s);
    } else {
      OtherForms(b, s);
      SameFormsTied(b, Apply(b, s), subs);
      assert subs + [] == subs;
    }
  }

  lemma OtherForms(b: Bus, s: Step)
    requires Enabled(b, s) && !s.SubmitStep?
    ensures SameForms(b.requests, Apply(b, s).requests) && Apply(b, s).subs == b.subs
  {
    hide MainAction, Move, WaitLoops;
    if s.Fall? {
      MainActionForms(b);
    } else if s.DirectStep? {
      DirectKeeps(b, s.write, s.data, s.address);
    }
  }

  // ------------------------------------------------------------------ words

  /** On a step either nothing is moved and both memories stay as they are, but for a poke; or one word is
      moved, and the log says which. */
  ghost predicate MovesOne(b: Bus, r: Bus, s: Step) {
    || (r.log == b.log && SameWords(b, r) && r.host == if s.Poke? then b.host[s.data := s.value] else b.host)
    || (&& (s.Fall? || s.DirectStep?) && |r.log| == |b.log| + 1 && r.log[..|b.log|] == b.log
        && WordMoved(b, r, r.log[|b.log|]))
  }

  lemma SameMemWords(b: Bus, r: Bus)
    requires SameLayout(b.slaves, r.slaves) && forall i :: 0 <= i < |b.slaves| ==> r.slaves[i].mem == b.slaves[i].mem
    ensures SameWords(b, r)
  {
    hide GetSlave;
    forall a: nat ensures Word(r.slaves, a) == Word(b.slaves, a) {
      GetSlaveSame(b.slaves, r.slaves, a);
    }
  }

  lemma HandleHost(b: Bus)
    requires b.current.Some? && b.current.value < |b.requests|
    requires var r := b.requests[b.current.value];
             var i := GetSlave(b.slaves, r.address);
             !(r.address % 4 == 0 && i < |b.slaves| && Ready(b.slaves[i]))
    ensures Handle(b).host == b.host && Handle(b).log == b.log
  {
    hide GetSlave;
  }

  lemma FallMovesOne(b: Bus)
    requires Good(b) && Enabled(b, Fall)
    ensures MovesOne(b, MainAction(b), Fall)
  {
    hide Handle, NextRequest, GetSlave, Good, MemoryOk, WordMoved, SameWords, SameLayout, ClearLocks;
    var n := if b.current.None? then NextRequest(b) else b;
    if b.current.None? {
      NextChooses(b);
      SettleSlaves(b);
    }
    GoodMemory(b);
    if n.current.Some? {
      var r := n.requests[n.current.value];
      var i := GetSlave(n.slaves, r.address);
      if r.address % 4 == 0 && i < |n.slaves| && Ready(n.slaves[i]) {
        HandleWord(n);
        SameWordMoved(n, Handle(n), b, MainAction(b), Handle(n).log[|b.log|]);
      } else {
        HandleHost(n);
        HandleStays(n);
        HandleMoves(n);
        SameMemWords(n, Handle(n));
        SameAsSame(n, Handle(n), b, MainAction(b));
      }
    } else {
      SameAsSame(b, b, b, MainAction(b));
    }
  }

  lemma GoodMemory(b: Bus)
    requires Good(b)
    ensures MemoryOk(b.slaves, b.log)
  {
  }

  lemma SameWordMoved(n: Bus, h: Bus, b: Bus, r: Bus, t: Transfer)
    requires WordMoved(n, h, t) && b.slaves == n.slaves && b.host == n.host && r.slaves == h.slaves && r.host == h.host
    ensures WordMoved(b, r, t)
  {
  }

  lemma SameAsSame(n: Bus, h: Bus, b: Bus, r: Bus)
    requires n == h || SameWords(n, h)
    requires b.slaves == n.slaves && r.slaves == h.slaves
    ensures SameWords(b, r)
  {
  }

  /** Every step, in any reachable state. */
  lemma StepMovesOne(b: Bus, s: Step)
    requires Good(b) && Enabled(b, s)
    ensures MovesOne(b, Apply(b, s), s)
  {
    hide MainAction, Direct, WordMoved, WaitLoops, WithRequest, FindRequest, Wrap;
    match s {
      case Fall => FallMovesOne(b);
      case DirectStep(w, d, a) =>
        DirectExactly(b, w, d, a);
        SameAsSame(b, b, b, b);
      case Rise => SameMemWords(b, Apply(b, s));
      case _ => SameAsSame(b, b, b, Apply(b, s));
    }
  }

  // ------------------------------------------------------------------ runs

  lemma StepWords(b: Bus, subs: seq<Step>, s: Step)
    requires Good(b) && AllSubmits(subs) && FormsTied(b, subs) && WordsTied(b.log, subs) && Enabled(b, s)
    ensures WordsTied(Apply(b, s).log, subs + if s.SubmitStep? then [s] else [])
  {
    hide Good, FormsTied, Apply, Enabled, WordOf, Moves;
    StepTied(b, subs, s);
    StepKeeps(b, s);
    var r := Apply(b, s);
    var all := subs + if s.SubmitStep? then [s] else [];
    GoodLog(b);
    GoodLog(r);
    TiedCount(b, subs);
    LogGrows(b, s);
    forall n, k | 0 < n <= |all| && 0 <= k < |Moves(r.log, n)| ensures WordOf(Moves(r.log, n)[k], all[n - 1], k) {
      if r.log != b.log {
        MovesAppend(b.log, r.log[|b.log|], n);
      }
      if Moves(r.log, n) == Moves(b.log, n) {
        if n == |subs| + 1 {
          NoMoves(b.log, n);
        }
      } else {
        WordsOfForm(r, all, n, k);
      }
    }
  }

  ghost predicate ForSomeForm(rs: seq<Request>, sub: nat) {
    sub == 0 || exists i :: 0 <= i < |rs| && rs[i].sub == sub
  }

  /** A word is moved directly, or for a form. */
  lemma LogGrows(b: Bus, s: Step)
    requires Good(b) && Enabled(b, s)
    ensures var r := Apply(b, s);
            r.log == b.log || (r.log != [] && r.log == b.log + [r.log[|r.log| - 1]] && ForSomeForm(r.requests, r.log[|r.log| - 1].sub))
  {
    hide MainAction, Direct, WordMoved, WaitLoops, WithRequest, FindRequest, Wrap, MemoryOk;
    match s {
      case Fall => FallGrows(b);
      case DirectStep(w, d, a) =>
        GoodMemory(b);
        DirectExactly(b, w, d, a);
        var r := Direct(b, w, d, a);
        assert r.log == b.log || r.log == r.log[..|b.log|] + [r.log[|b.log|]];
      case _ =>
    }
  }

  lemma FallGrows(b: Bus)
    requires Good(b) && Enabled(b, Fall)
    ensures var r := MainAction(b);
            r.log == b.log || (r.log != [] && r.log == b.log + [r.log[|r.log| - 1]] && ForSomeForm(r.requests, r.log[|r.log| - 1].sub))
  {
    hide Handle, NextRequest, GetSlave, Good, MemoryOk, WordMoved, ClearLocks;
    var n := if b.current.None? then NextRequest(b) else b;
    if b.current.None? {
      NextChooses(b);
    }
    GoodMemory(b);
    if n.current.Some? {
      var c := n.current.value;
      var i := GetSlave(n.slaves, n.requests[c].address);
      HandleForms(n);
      if n.requests[c].address % 4 == 0 && i < |n.slaves| && Ready(n.slaves[i]) {
        HandleWord(n);
        assert SameForm(n.requests[c], Handle(n).requests[c]);
        assert MainAction(b).requests[c].sub == n.requests[c].sub;
      } else {
        HandleHost(n);
      }
    }
  }

  /** The words of a form that is still there. */
  lemma WordsOfForm(r: Bus, all: seq<Step>, n: nat, k: nat)
    requires Good(r) && AllSubmits(all) && FormsTied(r, all) && 0 < n <= |all| && k < |Moves(r.log, n)|
    requires ForSomeForm(r.requests, n)
    ensures WordOf(Moves(r.log, n)[k], all[n - 1], k)
  {
    hide Moves, MemoryOk, TimingOk, AllTimed, LocksOk, DistinctPriorities, Progress, HasForm;
    var i :| 0 <= i < |r.requests| && r.requests[i].sub == n;
    assert RequestOk(r.requests[i], r.slaves, r.log, r.subs);
    assert FormOf(r.requests[i], all[n - 1]);
  }

  lemma GoodLog(b: Bus)
    requires Good(b)
    ensures forall k :: 0 <= k < |b.log| ==> b.log[k].sub <= b.subs
  {
  }

  lemma TiedCount(b: Bus, subs: seq<Step>)
    requires AllSubmits(subs) && FormsTied(b, subs)
    ensures b.subs == |subs|
  {
  }

  lemma {:induction false} RunTied(b: Bus, subs: seq<Step>, steps: seq<Step>, c: Bus)
    requires Good(b) && AllSubmits(subs) && FormsTied(b, subs) && WordsTied(b.log, subs) && Run(b, steps, c)
    ensures Good(c) && FormsTied(c, subs + Submissions(steps)) && WordsTied(c.log, subs + Submissions(steps))
    decreases |steps|
  {
    hide Good, FormsTied, WordsTied, Apply, Enabled;
    if steps == [] {
      assert subs + [] == subs;
    } else {
      var s := steps[0];
      var more := subs + if s.SubmitStep? then [s] else [];
      StepKeeps(b, s);
      StepTied(b, subs, s);
      StepWords(b, subs, s);
      RunTied(Apply(b, s), more, steps[1..], c);
      assert more + Submissions(steps[1..]) == subs + Submissions(steps);
    }
  }

  lemma StartTied(b: Bus)
    requires Init(b)
    ensures Good(b) && FormsTied(b, []) && WordsTied(b.log, [])
  {
    InitGood(b);
  }

  /** In every run the words moved for the n-th submission are the words it asked for, from its address and
      its place in the masters' memory upwards, in its direction, each once and in order. */
  lemma WordsOfSubmission(b: Bus, steps: seq<Step>, c: Bus, n: nat, k: nat)
    requires Init(b) && Run(b, steps, c)
    requires 0 < n <= |Submissions(steps)| && k < |Moves(c.log, n)|
    ensures WordOf(Moves(c.log, n)[k], Submissions(steps)[n - 1], k)
  {
    hide Init, Good, FormsTied, Run, Moves;
    StartTied(b);
    RunTied(b, [], steps, c);
    assert [] + Submissions(steps) == Submissions(steps);
  }

  /** And no others: every transfer belongs to a submission or is direct. */
  lemma NoOtherWords(b: Bus, steps: seq<Step>, c: Bus, k: nat)
    requires Init(b) && Run(b, steps, c) && k < |c.log|
    ensures c.log[k].sub <= |Submissions(steps)|
  {
    hide Init, Good, FormsTied, WordsTied, Run;
    StartTied(b);
    RunTied(b, [], steps, c);
    assert [] + Submissions(steps) == Submissions(steps);
    TiedCount(c, Submissions(steps));
    GoodLog(c);
  }

  /** The burst stays below the end of the address space, or starts at its last word. */
  predicate InSpace(start: nat, length: nat) {
    1 <= length && (start + 4 * length < WORD_LIMIT || (start + 4 == WORD_LIMIT && 2 <= length <= WORD_LIMIT / 4))
  }

  /** Each submission has its form, which later ones of the same priority take over; and when the form of a
      submission says that it is finished, as many words have been moved as it asked for, if and only if the
      burst is in the address space. */
  lemma FinishedSubmission(b: Bus, steps: seq<Step>, c: Bus, n: nat, i: nat)
    requires Init(b) && Run(b, steps, c) && 0 < n <= |Submissions(steps)|
    ensures HasForm(c.requests, Submissions(steps)[n - 1].priority, n)
    ensures i < |c.requests| && c.requests[i].sub == n && c.requests[i].status == Ok ==>
              var s := Submissions(steps)[n - 1];
              FormOf(c.requests[i], s) && (|Moves(c.log, n)| == s.length <==> InSpace(s.address, s.length))
  {
    hide Init, Good, FormsTied, WordsTied, Run, Moves, HasForm, FormOf, Submissions, InSpace;
    StartTied(b);
    RunTied(b, [], steps, c);
    var all := Submissions(steps);
    assert [] + all == all;
    FormsAre(c, all, n, i);
    if i < |c.requests| && c.requests[i].sub == n && c.requests[i].status == Ok {
      LengthExactly(b, steps, c, i);
      FormLength(c.requests[i], all[n - 1]);
    }
  }

  lemma FormsAre(c: Bus, all: seq<Step>, n: nat, i: nat)
    requires AllSubmits(all) && FormsTied(c, all) && 0 < n <= |all|
    ensures HasForm(c.requests, all[n - 1].priority, n)
    ensures i < |c.requests| && c.requests[i].sub == n ==> FormOf(c.requests[i], all[n - 1])
  {
    hide HasForm;
    assert HasForm(c.requests, all[n - 1].priority, (n - 1) + 1);
  }

  lemma FormLength(r: Request, s: Step)
    requires s.SubmitStep? && FormOf(r, s)
    ensures r.length == s.length
    ensures InSpace(s.address, s.length) <==>
              1 <= r.length && (r.start + 4 * r.length < WORD_LIMIT
                                || (r.start + 4 == WORD_LIMIT && 2 <= r.length <= WORD_LIMIT / 4))
  {
  }
}
