/** The simulator thread and the Python worker thread of the core: two queues, promises, and the flag that
    lets the cycle count be read while the worker is blocked. Every step is one action that a mutex, a
    condition variable or a promise makes atomic. A condition variable wakes only who sleeps on it: what is
    notified before that is lost. */
module Handshake {

  datatype Kind = SetCb | GetCycles | SetPc | ReadPc | Simulate(cycles: nat) | FreeCpu

  /** A task with its promise: how often it was set, and to what. */
  datatype Task = Task(kind: Kind, sets: nat, value: nat)

  datatype Access = Access(address: nat, sets: nat)

  /** The SystemC side: between calls; blocked on a task; in simulate after the push, at the loop test, in
      the wait for a memory access (about to test its condition; the condition was false, and the mutex is
      still held; asleep), serving one, past the loop; in the destructor. Stuck is a call made from inside
      a memory access. */
  datatype Main = Ready | Await(t: nat) | Pushed(t: nat) | Check(t: nat) | Testing(t: nat) | Tested(t: nat)
                | Asleep(t: nat) | Serve(t: nat, a: nat) | Leaving(t: nat) | Joining | Finished
                | Stuck(t: nat, a: nat, inner: nat)

  /** The worker: waiting for a task, in a handler, in simulate before step k, inside step k, about to push
      a memory access, about to notify it, blocked on it, past set_value and about to notify that or not,
      gone. */
  datatype Worker = Idle | Handling(t: nat) | Stepping(t: nat, k: nat) | InStep(t: nat, k: nat)
                  | Allowed(t: nat, k: nat, address: nat) | Announcing(t: nat, k: nat, a: nat)
                  | Blocked(t: nat, k: nat, a: nat) | Closing(notify: bool) | Exited

  /** steps is the counter of the Python object. The rest is history: the cycles asked for since the
      callbacks were set, the steps of those never begun because an earlier one raised, the counter at the
      start of the last simulate, and whether cycles was read before the counter was last reset. */
  datatype Core = Core(taskQueue: seq<nat>, memQueue: seq<nat>, tasks: seq<Task>, accesses: seq<Access>,
                       simStarted: bool, stop: bool, cycles: int, main: Main, worker: Worker,
                       steps: nat, asked: nat, missed: nat, before: nat, stale: bool)

  const START := Core([], [], [], [], false, false, 0, Ready, Idle, 0, 0, 0, 0, false)

  // ------------------------------------------------------------------ arithmetic

  /** Assignment of a 64-bit count to int. */
  function ToInt(x: int): int {
    if x % 0x1_0000_0000 < 0x8000_0000 then x % 0x1_0000_0000 else x % 0x1_0000_0000 - 0x1_0000_0000
  }

  /** Conversion of int to uint64_t. */
  function ToU64(x: int): nat {
    x % 0x1_0000_0000_0000_0000
  }

  /** The addresses the callbacks let through. */
  predicate InRange(address: nat) {
    0x1000 <= address <= 0x1fff || 0x8000_0000 <= address <= 0x8fff_ffff
  }

  // ------------------------------------------------------------------ steps

  datatype Step =
    | Submit(kind: Kind) | CycleCount | Answered | RaiseFlag | LoopTest | WakeUp | FallAsleep | AccessDone | Leave
    | Joined | SubmitInside(kind: Kind) | AnsweredInside
    | PopTask | Handle | BeginStep | TryAccess(address: nat) | PushAccess | NotifyAccess | Resume | EndStep
    | RaiseInStep | EndSimulate | Notified | Exit

  predicate IsSet(c: Core, t: nat) {
    t < |c.tasks| && c.tasks[t].sets > 0
  }

  /** What a call made from inside a memory access waits for: its promise, or, if it is another simulate, a
      memory access as well. */
  predicate InnerWoken(c: Core)
    requires c.main.Stuck?
  {
    || IsSet(c, c.main.inner)
    || (c.main.inner < |c.tasks| && c.tasks[c.main.inner].kind.Simulate? && c.memQueue != [])
  }

  predicate Enabled(c: Core, s: Step) {
    match s
    // the SystemC side
    case Submit(kind) => c.main == Ready && !kind.GetCycles?
    case CycleCount => c.main == Ready || c.main.Serve?
    case Answered => c.main.Await? && IsSet(c, c.main.t)
    case RaiseFlag => c.main.Pushed?
    case LoopTest => c.main.Check?
    case WakeUp => c.main.Testing?
    case FallAsleep => c.main.Tested?
    case AccessDone => c.main.Serve? && c.main.a < |c.accesses|
    case Leave => c.main.Leaving?
    case Joined => c.main == Joining && c.worker == Exited
    case SubmitInside(kind) => c.main.Serve? && !kind.GetCycles?
    case AnsweredInside => c.main.Stuck? && InnerWoken(c)
    // the worker
    case PopTask => c.worker == Idle && c.taskQueue != []
    case Handle => c.worker.Handling? && c.worker.t < |c.tasks|
    case BeginStep => c.worker.Stepping? && c.worker.t < |c.tasks| && c.worker.k < Cycles(c, c.worker.t)
    case TryAccess(_) => c.worker.InStep?
    case PushAccess => c.worker.Allowed? && !c.main.Tested?
    case NotifyAccess => c.worker.Announcing?
    case Resume => c.worker.Blocked? && c.worker.a < |c.accesses| && c.accesses[c.worker.a].sets > 0
    case EndStep => c.worker.InStep?
    case RaiseInStep => c.worker.InStep? && c.worker.t < |c.tasks| && c.worker.k < Cycles(c, c.worker.t)
    case EndSimulate => c.worker.Stepping? && c.worker.t < |c.tasks| && c.worker.k >= Cycles(c, c.worker.t)
    case Notified => c.worker.Closing?
    case Exit => c.worker == Idle && c.stop && c.taskQueue == []
  }

  function Cycles(c: Core, t: nat): nat
    requires t < |c.tasks|
  {
    if c.tasks[t].kind.Simulate? then c.tasks[t].kind.cycles else 0
  }

  /** A task is created and pushed under the task mutex. */
  function Push(c: Core, kind: Kind): Core {
    c.(tasks := c.tasks + [Task(kind, 0, 0)], taskQueue := c.taskQueue + [|c.tasks|])
  }

  function SetPromise(c: Core, t: nat, value: nat): Core
    requires t < |c.tasks|
  {
    c.(tasks := c.tasks[t := c.tasks[t].(sets := c.tasks[t].sets + 1, value := value)])
  }

  function ApplyMain(c: Core, s: Step): Core
    requires Enabled(c, s)
  {
    match s
    case Submit(kind) =>
      var t := |c.tasks|;
      if kind.Simulate? then Push(c, kind).(main := Pushed(t))
      else Push(c, kind).(main := Await(t), stop := c.stop || kind == FreeCpu)
    case CycleCount => if c.simStarted then c else Push(c, GetCycles).(main := Await(|c.tasks|))
    case Answered =>
      c.(main := if c.main.t < |c.tasks| && c.tasks[c.main.t].kind == FreeCpu then Joining else Ready)
    case RaiseFlag => c.(simStarted := true, main := Check(c.main.t))
    case LoopTest => c.(main := if IsSet(c, c.main.t) then Leaving(c.main.t) else Testing(c.main.t))
    case WakeUp =>
      if c.memQueue != [] then c.(main := Serve(c.main.t, c.memQueue[0]), memQueue := c.memQueue[1..])
      else c.(main := if IsSet(c, c.main.t) then Check(c.main.t) else Tested(c.main.t))
    case FallAsleep => c.(main := Asleep(c.main.t))
    case AccessDone =>
      var a := c.main.a;
      c.(accesses := c.accesses[a := c.accesses[a].(sets := c.accesses[a].sets + 1)], main := Check(c.main.t))
    case Leave => c.(simStarted := false, main := Ready)
    case Joined => c.(main := Finished)
    case SubmitInside(kind) =>
      Push(c, kind).(main := Stuck(c.main.t, c.main.a, |c.tasks|), stop := c.stop || kind == FreeCpu)
    case AnsweredInside => c.(main := Serve(c.main.t, c.main.a))
    case _ => c
  }

  /** notify_one on the condition variable of the memory accesses. */
  function Rouse(m: Main): Main {
    if m.Asleep? then Testing(m.t) else m
  }

  /** The handler of any task but Simulate. */
  function HandleTask(c: Core, t: nat): Core
    requires t < |c.tasks|
  {
    match c.tasks[t].kind
    case SetCb => SetPromise(c, t, 0).(steps := 0, asked := 0, missed := 0, stale := c.cycles != 0,
                                                 worker := Closing(false))
    case GetCycles => SetPromise(c, t, ToU64(ToInt(c.steps))).(cycles := ToInt(c.steps), stale := false,
                                                                              worker := Closing(false))
    case Simulate(n) => c.(worker := Stepping(t, 0), asked := c.asked + n, before := c.steps)
    case _ => SetPromise(c, t, 0).(worker := Closing(false))
  }

  function ApplyWorker(c: Core, s: Step): Core
    requires Enabled(c, s)
  {
    var w := c.worker;
    match s
    case PopTask => c.(worker := Handling(c.taskQueue[0]), taskQueue := c.taskQueue[1..])
    case Handle => HandleTask(c, w.t)
    case BeginStep => c.(steps := c.steps + 1, worker := InStep(w.t, w.k))
    case TryAccess(address) =>
      if InRange(address) && c.simStarted then c.(worker := Allowed(w.t, w.k, address)) else c
    case PushAccess =>
      c.(accesses := c.accesses + [Access(w.address, 0)], memQueue := c.memQueue + [|c.accesses|],
         worker := Announcing(w.t, w.k, |c.accesses|))
    case NotifyAccess => c.(main := Rouse(c.main), worker := Blocked(w.t, w.k, w.a))
    case Resume => c.(worker := InStep(w.t, w.k))
    case EndStep => c.(worker := Stepping(w.t, w.k + 1))
    case RaiseInStep =>
      c.(worker := Stepping(w.t, Cycles(c, w.t)), missed := c.missed + Cycles(c, w.t) - (w.k + 1))
    case EndSimulate => SetPromise(c, w.t, 0).(cycles := ToInt(c.steps), stale := false, worker := Closing(true))
    case Notified => c.(main := if w.notify then Rouse(c.main) else c.main, worker := Idle)
    case Exit => c.(worker := Exited)
    case _ => c
  }

  predicate OfMain(s: Step) {
    match s
    case Submit(_) => true
    case CycleCount => true
    case Answered => true
    case RaiseFlag => true
    case LoopTest => true
    case WakeUp => true
    case FallAsleep => true
    case AccessDone => true
    case Leave => true
    case Joined => true
    case SubmitInside(_) => true
    case AnsweredInside => true
    case _ => false
  }

  function Apply(c: Core, s: Step): Core
    requires Enabled(c, s)
  {
    if OfMain(s) then ApplyMain(c, s) else ApplyWorker(c, s)
  }

  /** The states that can be reached when the SystemC side makes no call but cycle_count during a memory
      access. */
  ghost predicate Reachable(d: Core) {
    Reaches(START, d)
  }

  ghost predicate Reaches(c: Core, d: Core) {
    exists steps :: Run(c, steps, d) && Sequential(steps)
  }

  ghost predicate Run(c: Core, steps: seq<Step>, d: Core)
    decreases |steps|
  {
    if steps == [] then c == d else Enabled(c, steps[0]) && Run(Apply(c, steps[0]), steps[1..], d)
  }

  predicate Sequential(steps: seq<Step>) {
    forall i :: 0 <= i < |steps| ==> !steps[i].SubmitInside?
  }

  // ------------------------------------------------------------------ invariants

  /** The task the SystemC side is waiting for. */
  function Waiting(m: Main): (t: int)
    ensures t >= -1
  {
    match m
    case Await(t) => t
    case Pushed(t) => t
    case Check(t) => t
    case Testing(t) => t
    case Tested(t) => t
    case Asleep(t) => t
    case Serve(t, _) => t
    case Leaving(t) => t
    case _ => -1
  }

  /** The task the worker is handling. */
  function InService(w: Worker): (t: int)
    ensures t >= -1
  {
    match w
    case Handling(t) => t
    case Stepping(t, _) => t
    case InStep(t, _) => t
    case Allowed(t, _, _) => t
    case Announcing(t, _, _) => t
    case Blocked(t, _, _) => t
    case _ => -1
  }

  /** The memory access the worker has pushed and not seen answered. */
  function AccessOf(w: Worker): (a: int)
    ensures a >= -1
  {
    match w
    case Announcing(_, _, a) => a
    case Blocked(_, _, a) => a
    case _ => -1
  }

  predicate InSimulate(w: Worker) {
    w.Stepping? || w.InStep? || w.Allowed? || w.Announcing? || w.Blocked?
  }

  /** Every promise but that of the task being waited for is set, once; that task is queued, in service or
      set, and nothing else is queued or in service. */
  predicate TasksOk(c: Core) {
    && (forall i :: 0 <= i < |c.tasks| ==> c.tasks[i].sets == 1 || (c.tasks[i].sets == 0 && i == Waiting(c.main)))
    && Waiting(c.main) < |c.tasks|
    && (Waiting(c.main) >= 0 && c.tasks[Waiting(c.main)].sets == 0 ==>
          || (c.taskQueue == [Waiting(c.main)] && InService(c.worker) == -1)
          || (c.taskQueue == [] && InService(c.worker) == Waiting(c.main)))
    && (Waiting(c.main) == -1 || c.tasks[Waiting(c.main)].sets == 1 ==>
          c.taskQueue == [] && InService(c.worker) == -1)
  }

  /** Who may be where. */
  predicate PlacesOk(c: Core) {
    && !c.main.Stuck?
    && (c.simStarted <==> c.main.Check? || c.main.Testing? || c.main.Tested? || c.main.Asleep? || c.main.Serve? || c.main.Leaving?)
    && (Waiting(c.main) >= 0 && Waiting(c.main) < |c.tasks| ==>
          && (c.main.Await? <==> !c.tasks[Waiting(c.main)].kind.Simulate?)
          && (c.stop <==> c.tasks[Waiting(c.main)].kind == FreeCpu)
          && (c.main.Leaving? ==> c.tasks[Waiting(c.main)].sets == 1))
    && (Waiting(c.main) == -1 ==> (c.stop <==> c.main != Ready))
    && (0 <= InService(c.worker) < |c.tasks| && InSimulate(c.worker) ==>
          c.tasks[InService(c.worker)].kind.Simulate?)
    && (c.worker == Exited ==> c.stop && c.taskQueue == [])
    && (c.main == Finished ==> c.worker == Exited)
  }

  /** A memory access is outstanding exactly while the worker is blocked on it and it is not done; it is then
      queued, or being served. While the SystemC side sleeps, its notification is still to come. */
  predicate AccessesOk(c: Core) {
    && (forall i :: 0 <= i < |c.accesses| ==>
          && InRange(c.accesses[i].address)
          && (c.accesses[i].sets == 1 || (c.accesses[i].sets == 0 && i == AccessOf(c.worker))))
    && (c.worker.Allowed? ==> InRange(c.worker.address))
    && (c.worker.Allowed? || AccessOf(c.worker) >= 0 ==> c.simStarted)
    && AccessOf(c.worker) < |c.accesses|
    && (if Outstanding(c) then
          if c.main.Serve? then c.main.a == AccessOf(c.worker) && c.memQueue == [] else c.memQueue == [AccessOf(c.worker)]
        else c.memQueue == [] && !c.main.Serve?)
    && (c.main.Tested? ==> c.memQueue == [])
    && (c.main.Asleep? && c.memQueue != [] ==> c.worker.Announcing?)
  }

  predicate Outstanding(c: Core) {
    var a := AccessOf(c.worker);
    0 <= a < |c.accesses| && c.accesses[a].sets == 0
  }

  /** The steps of the current simulate that have not begun. */
  function Remaining(c: Core): int {
    var w := c.worker;
    if !(InSimulate(w) && w.t < |c.tasks|) then 0
    else if w.Stepping? then Cycles(c, w.t) - w.k else Cycles(c, w.t) - w.k - 1
  }

  predicate CountOk(c: Core) {
    && c.steps + c.missed + Remaining(c) == c.asked && Remaining(c) >= 0
    && (c.main.Await? && c.main.t < |c.tasks| && c.tasks[c.main.t].kind == GetCycles && c.tasks[c.main.t].sets == 1 ==>
          c.tasks[c.main.t].value == ToU64(ToInt(c.steps)))
    && (c.stale || c.cycles == ToInt(if InSimulate(c.worker) then c.before else c.steps))
    && (InSimulate(c.worker) && !c.worker.Stepping? ==> c.steps == c.before + c.worker.k + 1)
    && (c.worker.Stepping? && c.worker.t < |c.tasks| && c.worker.k < Cycles(c, c.worker.t) ==>
          c.steps == c.before + c.worker.k)
  }

  predicate Good(c: Core) {
    TasksOk(c) && PlacesOk(c) && AccessesOk(c) && CountOk(c)
  }

  lemma MainTasks(c: Core, s: Step)
    requires Good(c) && Enabled(c, s) && OfMain(s) && !s.SubmitInside?
    ensures TasksOk(ApplyMain(c, s))
  {
    hide InRange, ToInt, ToU64, CountOk, AccessesOk;
  }

  lemma MainPlaces(c: Core, s: Step)
    requires Good(c) && Enabled(c, s) && OfMain(s) && !s.SubmitInside?
    ensures PlacesOk(ApplyMain(c, s))
  {
    hide InRange, ToInt, ToU64, CountOk, AccessesOk;
  }

  lemma MainAccesses(c: Core, s: Step)
    requires Good(c) && Enabled(c, s) && OfMain(s) && !s.SubmitInside?
    ensures AccessesOk(ApplyMain(c, s))
  {
    hide InRange, ToInt, ToU64, CountOk;
  }

  lemma MainCount(c: Core, s: Step)
    requires Good(c) && Enabled(c, s) && OfMain(s) && !s.SubmitInside?
    ensures CountOk(ApplyMain(c, s))
  {
    hide InRange, ToU64, ToInt;
    assert ToInt(0) == 0 by { IntRoundTrip(0); }
  }

  lemma WorkerTasks(c: Core, s: Step)
    requires Good(c) && Enabled(c, s) && !OfMain(s)
    ensures TasksOk(ApplyWorker(c, s))
  {
    hide InRange, ToInt, ToU64, CountOk, AccessesOk, HandleTask;
    if s.Handle? {
      HandlerTasks(c);
    }
  }

  lemma HandlerTasks(c: Core)
    requires Good(c) && Enabled(c, Handle)
    ensures TasksOk(HandleTask(c, c.worker.t))
  {
    hide InRange, ToInt, ToU64, CountOk, AccessesOk;
  }

  lemma WorkerPlaces(c: Core, s: Step)
    requires Good(c) && Enabled(c, s) && !OfMain(s)
    ensures PlacesOk(ApplyWorker(c, s))
  {
    hide InRange, ToInt, ToU64, CountOk, AccessesOk;
  }

  lemma WorkerAccesses(c: Core, s: Step)
    requires Good(c) && Enabled(c, s) && !OfMain(s)
    ensures AccessesOk(ApplyWorker(c, s))
  {
    hide InRange, ToInt, ToU64, CountOk;
  }

  lemma WorkerCount(c: Core, s: Step)
    requires Good(c) && Enabled(c, s) && !OfMain(s)
    ensures CountOk(ApplyWorker(c, s))
  {
    hide InRange, ToU64, ToInt, HandleTask;
    if s.Handle? {
      HandlerCount(c);
    }
  }

  lemma HandlerCount(c: Core)
    requires Good(c) && Enabled(c, Handle)
    ensures CountOk(HandleTask(c, c.worker.t))
  {
    hide InRange, ToU64, ToInt, AccessesOk;
    assert ToInt(0) == 0 by { IntRoundTrip(0); }
  }

  lemma StepKeeps(c: Core, s: Step)
    requires Good(c) && Enabled(c, s) && !s.SubmitInside?
    ensures Good(Apply(c, s))
  {
    hide TasksOk, PlacesOk, AccessesOk, CountOk, Enabled, ApplyMain, ApplyWorker;
    if OfMain(s) {
      MainTasks(c, s);
      MainPlaces(c, s);
      MainAccesses(c, s);
      MainCount(c, s);
    } else {
      WorkerTasks(c, s);
      WorkerPlaces(c, s);
      WorkerAccesses(c, s);
      WorkerCount(c, s);
    }
  }

  lemma {:induction false} RunKeeps(c: Core, steps: seq<Step>, d: Core)
    requires Good(c) && Run(c, steps, d) && Sequential(steps)
    ensures Good(d)
    decreases |steps|
  {
    hide Good, Enabled, Apply;
    if steps != [] {
      StepKeeps(c, steps[0]);
      assert Sequential(steps[1..]);
      RunKeeps(Apply(c, steps[0]), steps[1..], d);
    }
  }

  lemma StartGood()
    ensures Good(START) && Owes(START)
  {
  }

  lemma ReachableGood(d: Core)
    requires Reachable(d)
    ensures Good(d)
  {
    hide Run, Good, Sequential;
    var steps :| Run(START, steps, d) && Sequential(steps);
    StartGood();
    RunKeeps(START, steps, d);
  }

  // ------------------------------------------------------------------ turns

  /** A step that a thread can take now, main saying which thread; calls from inside an access aside. */
  predicate Takes(c: Core, s: Step, main: bool) {
    OfMain(s) == main && Enabled(c, s) && !s.SubmitInside? && !s.AnsweredInside?
  }

  /** What one thread does while the other is between two of its sections. */
  function Turn(c: Core, steps: seq<Step>, main: bool): Core
    decreases |steps|
  {
    if steps == [] then c
    else Turn(if Takes(c, steps[0], main) then Apply(c, steps[0]) else c, steps[1..], main)
  }

  /** The SystemC side waits for a task of this kind, pushed on top of the earlier ones; the worker counts
      its cycles when it begins to handle it. */
  ghost predicate Calling(c: Core, kind: Kind, earlier: seq<Task>, asked: nat) {
    var t := |earlier|;
    && |c.tasks| == t + 1 && c.tasks[..t] == earlier && c.tasks[t].kind == kind && Waiting(c.main) == t
    && (c.asked == if c.taskQueue == [t] || c.worker == Handling(t) then asked else Asked(kind, asked))
    && (c.tasks[t].sets > 0 && (kind.Simulate? || kind.GetCycles?) ==> !c.stale)
  }

  function Asked(kind: Kind, asked: nat): nat {
    match kind
    case Simulate(n) => asked + n
    case SetCb => 0
    case _ => asked
  }

  lemma CallingStep(c: Core, s: Step, kind: Kind, earlier: seq<Task>, asked: nat)
    requires Good(c) && Calling(c, kind, earlier, asked) && Enabled(c, s) && !OfMain(s)
    ensures Calling(ApplyWorker(c, s), kind, earlier, asked)
  {
    hide ToInt, ToU64, InRange, CountOk, AccessesOk;
  }

  /** A call begins. */
  lemma CallBegins(c: Core, s: Step, kind: Kind)
    requires Good(c) && Enabled(c, s)
    requires s == Submit(kind) || (s == CycleCount && kind == GetCycles && !c.simStarted)
    ensures Good(Apply(c, s)) && Calling(Apply(c, s), kind, c.tasks, c.asked)
  {
    StepKeeps(c, s);
    hide ToInt, ToU64, InRange, CountOk, AccessesOk;
    assert Push(c, kind).tasks[..|c.tasks|] == c.tasks;
  }

  /** The steps that the loop of simulate takes. */
  lemma LoopStep(c: Core, s: Step, kind: Kind, earlier: seq<Task>, asked: nat)
    requires Good(c) && Calling(c, kind, earlier, asked) && Enabled(c, s)
    requires s == RaiseFlag || s == LoopTest || s == WakeUp || s == FallAsleep || s == AccessDone
    ensures Good(ApplyMain(c, s)) && Calling(ApplyMain(c, s), kind, earlier, asked)
  {
    StepKeeps(c, s);
    hide ToInt, ToU64, InRange, CountOk, AccessesOk;
  }

  /** The promise of the call is set: its work is counted, and nothing is left over from it. */
  lemma CallServed(c: Core, kind: Kind, earlier: seq<Task>, asked: nat)
    requires Good(c) && Calling(c, kind, earlier, asked) && c.tasks[|earlier|].sets > 0
    ensures c.asked == Asked(kind, asked) && c.steps + c.missed == c.asked
    ensures c.taskQueue == [] && c.memQueue == [] && InService(c.worker) == -1
    ensures forall i :: 0 <= i < |c.tasks| ==> c.tasks[i].sets == 1
    ensures forall i :: 0 <= i < |c.accesses| ==> c.accesses[i].sets == 1
    ensures kind.Simulate? || kind.GetCycles? ==> c.cycles == ToInt(c.steps)
  {
    hide ToInt, ToU64, InRange;
  }

  lemma CountAnswer(c: Core, earlier: seq<Task>, asked: nat)
    requires Good(c) && Calling(c, GetCycles, earlier, asked) && c.tasks[|earlier|].sets > 0
    ensures c.tasks[|earlier|].value == asked <==> Survives(asked, c.missed)
  {
    hide ToInt, ToU64, InRange, Survives;
    CallServed(c, GetCycles, earlier, asked);
    CountThrough(c.steps, c.missed);
  }

  lemma WorkerStep(c: Core, s: Step)
    requires Enabled(c, s) && !OfMain(s)
    ensures var d := ApplyWorker(c, s);
            && (d.main == c.main || d.main == Rouse(c.main)) && d.simStarted == c.simStarted && d.stop == c.stop
  {
    hide ToInt, ToU64, InRange;
  }

  /** A turn of the worker leaves the SystemC side where it is or wakes it, and a call under way. */
  lemma {:induction false} WorkerTurn(c: Core, steps: seq<Step>, kind: Kind, earlier: seq<Task>, asked: nat)
    requires Good(c)
    ensures var d := Turn(c, steps, false);
            && Good(d) && (d.main == c.main || d.main == Rouse(c.main))
            && d.simStarted == c.simStarted && d.stop == c.stop
            && (Calling(c, kind, earlier, asked) ==> Calling(d, kind, earlier, asked))
    decreases |steps|
  {
    hide Good, Calling, Enabled, ApplyMain, ApplyWorker;
    if steps != [] {
      var s := steps[0];
      if Takes(c, s, false) {
        StepKeeps(c, s);
        if Calling(c, kind, earlier, asked) {
          CallingStep(c, s, kind, earlier, asked);
        }
        WorkerStep(c, s);
        WorkerTurn(Apply(c, s), steps[1..], kind, earlier, asked);
      } else {
        WorkerTurn(c, steps[1..], kind, earlier, asked);
      }
    }
  }

  /** What the code relies on when it indexes tasks and accesses, and what is settled when. */
  lemma GoodFacts(c: Core)
    requires Good(c)
    ensures InService(c.worker) < |c.tasks|
    ensures c.main.Serve? ==> c.main.a < |c.accesses|
    ensures AccessOf(c.worker) < |c.accesses|
    ensures forall i :: 0 <= i < |c.accesses| && c.accesses[i].sets > 0 ==> c.accesses[i].sets == 1
    ensures AccessOf(c.worker) == -1 ==> forall i :: 0 <= i < |c.accesses| ==> c.accesses[i].sets == 1
    ensures c.worker.Closing? ==> c.steps + c.missed == c.asked
    ensures forall i :: 0 <= i < |c.tasks| && c.tasks[i].sets > 0 ==> c.tasks[i].sets == 1
    ensures c.main == Finished ==> c.worker == Exited
    ensures c.worker == Exited ==>
              && c.stop && c.taskQueue == [] && c.memQueue == []
              && forall i :: 0 <= i < |c.tasks| ==> c.tasks[i].sets == 1
  {
    hide ToInt, ToU64, InRange;
  }

  /** A turn of the SystemC side leaves the worker where it is, and sets no promise of a task. */
  lemma {:induction false} MainTurn(c: Core, steps: seq<Step>)
    requires Good(c)
    ensures var d := Turn(c, steps, true);
            && Good(d) && d.worker == c.worker && d.steps == c.steps && c.tasks <= d.tasks
            && |d.accesses| == |c.accesses| && d.missed == c.missed && d.before == c.before
            && d.asked == c.asked
            && forall i :: 0 <= i < |c.accesses| ==> c.accesses[i].sets <= d.accesses[i].sets
    decreases |steps|
  {
    hide Good, Enabled;
    if steps != [] {
      var s := steps[0];
      if Takes(c, s, true) {
        StepKeeps(c, s);
        MainStep(c, s);
        MainTurn(Apply(c, s), steps[1..]);
      } else {
        MainTurn(c, steps[1..]);
      }
    }
  }

  lemma MainStep(c: Core, s: Step)
    requires Enabled(c, s) && OfMain(s)
    ensures var d := ApplyMain(c, s);
            && d.worker == c.worker && d.steps == c.steps && c.tasks <= d.tasks && d.missed == c.missed
            && d.before == c.before && d.asked == c.asked && |d.accesses| == |c.accesses|
            && forall i :: 0 <= i < |c.accesses| ==> c.accesses[i].sets <= d.accesses[i].sets
  {
    hide ToInt, ToU64, InRange, InnerWoken, Cycles;
  }

  // ------------------------------------------------------------------ main results

  /** In every reachable state at most one task is queued or in service, at most one memory access is queued
      or being served, and no promise is set twice. */
  lemma OneAtATime(d: Core, i: nat)
    requires Reachable(d)
    ensures |d.taskQueue| + (if InService(d.worker) >= 0 then 1 else 0) <= 1
    ensures |d.memQueue| + (if d.main.Serve? then 1 else 0) <= 1
    ensures |d.memQueue| + (if d.main.Serve? then 1 else 0) == 1 <==> Outstanding(d)
    ensures i < |d.tasks| ==> d.tasks[i].sets <= 1
    ensures i < |d.accesses| ==> d.accesses[i].sets <= 1 && InRange(d.accesses[i].address)
  {
    hide Reachable, ToInt, ToU64, InRange;
    ReachableGood(d);
  }

  /** When a call of the SystemC side has returned, nothing is left over: no task, no memory access, and
      every promise has been set exactly once. */
  lemma NothingLeftOver(d: Core)
    requires Reachable(d) && d.main == Ready
    ensures d.taskQueue == [] && d.memQueue == [] && !d.simStarted && InService(d.worker) == -1
    ensures forall i :: 0 <= i < |d.tasks| ==> d.tasks[i].sets == 1
    ensures forall i :: 0 <= i < |d.accesses| ==> d.accesses[i].sets == 1
  {
    hide Reachable, ToInt, ToU64, InRange;
    ReachableGood(d);
  }

  /** cycle_count during a memory access, with the worker blocked in step k of a simulate, pushes no task
      and reads the count from before that simulate. */
  lemma CountInsideAccess(d: Core)
    requires Reachable(d) && d.main.Serve?
    ensures Enabled(d, CycleCount) && Apply(d, CycleCount) == d
    ensures AccessOf(d.worker) == d.main.a && Outstanding(d) && d.steps == d.before + d.worker.k + 1
    ensures !d.stale ==> d.cycles == ToInt(d.before)
  {
    hide Reachable, ToInt, ToU64, InRange;
    ReachableGood(d);
  }

  /** The worker drains its queue before it exits, and only then does the destructor finish. */
  lemma DrainedBeforeExit(d: Core)
    requires Reachable(d)
    ensures d.main == Finished ==> d.worker == Exited
    ensures d.worker == Exited ==> d.taskQueue == [] && forall i :: 0 <= i < |d.tasks| ==> d.tasks[i].sets == 1
  {
    hide Reachable, ToInt, ToU64, InRange;
    ReachableGood(d);
  }

  /** When the number of steps, missed of those asked for having been left out, is read as the number asked
      for: it fits in an int; or it is so large that its conversions meet it again. */
  predicate Survives(asked: nat, missed: nat) {
    || (asked < 0x8000_0000 && missed == 0)
    || (0xffff_ffff_8000_0000 <= asked < 0x1_0000_0000_0000_0000 && missed % 0x1_0000_0000 == 0)
  }

  // What has been asked for, from the calls of a run alone.

  /** The tasks that the calls of a run push; cycle_count pushes one only while the flag is down. */
  function Requests(started: bool, steps: seq<Step>): seq<Kind>
    decreases |steps|
  {
    if steps == [] then []
    else
      var s := steps[0];
      Pushes(started, s) + Requests(if s.RaiseFlag? then true else if s.Leave? then false else started, steps[1..])
  }

  function Kinds(tasks: seq<Task>): seq<Kind> {
    seq(|tasks|, i requires 0 <= i < |tasks| => tasks[i].kind)
  }

  lemma KindsStep(c: Core, s: Step)
    requires Enabled(c, s)
    ensures Kinds(Apply(c, s).tasks) == Kinds(c.tasks) + Pushes(c.simStarted, s)
    ensures Apply(c, s).simStarted == if s.RaiseFlag? then true else if s.Leave? then false else c.simStarted
  {
    hide Enabled, ApplyMain, ApplyWorker, Pushes;
    if OfMain(s) {
      MainKinds(c, s);
    } else {
      WorkerKinds(c, s);
    }
  }

  function Pushes(started: bool, s: Step): seq<Kind> {
    if s.Submit? || s.SubmitInside? then [s.kind] else if s.CycleCount? && !started then [GetCycles] else []
  }

  lemma MainKinds(c: Core, s: Step)
    requires Enabled(c, s) && OfMain(s)
    ensures Kinds(ApplyMain(c, s).tasks) == Kinds(c.tasks) + Pushes(c.simStarted, s)
    ensures ApplyMain(c, s).simStarted == if s.RaiseFlag? then true else if s.Leave? then false else c.simStarted
  {
    hide InnerWoken, IsSet, Kinds, Push;
    assert Kinds(c.tasks) + [] == Kinds(c.tasks);
    if s.Submit? || s.SubmitInside? {
      PushKinds(c, s.kind);
    } else if s.CycleCount? {
      PushKinds(c, GetCycles);
    }
  }

  lemma PushKinds(c: Core, kind: Kind)
    ensures Kinds(Push(c, kind).tasks) == Kinds(c.tasks) + [kind] && Push(c, kind).simStarted == c.simStarted
  {
  }

  lemma WorkerKinds(c: Core, s: Step)
    requires Enabled(c, s) && !OfMain(s)
    ensures Kinds(ApplyWorker(c, s).tasks) == Kinds(c.tasks) + Pushes(c.simStarted, s)
    ensures ApplyWorker(c, s).simStarted == c.simStarted && !s.RaiseFlag? && !s.Leave?
  {
    hide ToInt, ToU64, InRange, Kinds;
    SameKinds(c.tasks, ApplyWorker(c, s).tasks);
    assert Kinds(c.tasks) + [] == Kinds(c.tasks);
  }

  lemma SameKinds(a: seq<Task>, b: seq<Task>)
    requires |a| == |b| && forall i :: 0 <= i < |a| ==> a[i].kind == b[i].kind
    ensures Kinds(a) == Kinds(b)
  {
  }

  /** The tasks are those that the calls have pushed, in order. */
  lemma {:induction false} TasksAreRequests(c: Core, steps: seq<Step>, d: Core)
    requires Run(c, steps, d)
    ensures Kinds(d.tasks) == Kinds(c.tasks) + Requests(c.simStarted, steps)
    decreases |steps|
  {
    hide Enabled, Apply, Kinds;
    if steps == [] {
      assert Kinds(c.tasks) + [] == Kinds(c.tasks);
    } else {
      var s := steps[0];
      KindsStep(c, s);
      TasksAreRequests(Apply(c, s), steps[1..], d);
      var now, later := Pushes(c.simStarted, s), Requests(Apply(c, s).simStarted, steps[1..]);
      assert Kinds(c.tasks) + (now + later) == (Kinds(c.tasks) + now) + later;
    }
  }

  /** The addresses that the memory callbacks of a run let through: in range, while the flag is up. */
  function Passed(started: bool, steps: seq<Step>): seq<nat>
    decreases |steps|
  {
    if steps == [] then []
    else
      var s := steps[0];
      (if s.TryAccess? && InRange(s.address) && started then [s.address] else [])
      + Passed(if s.RaiseFlag? then true else if s.Leave? then false else started, steps[1..])
  }

  /** The addresses of the memory accesses made, and the one about to be pushed. */
  function Addresses(c: Core): seq<nat> {
    seq(|c.accesses|, i requires 0 <= i < |c.accesses| => c.accesses[i].address)
    + if c.worker.Allowed? then [c.worker.address] else []
  }

  lemma AddressesStep(c: Core, s: Step)
    requires Enabled(c, s)
    ensures Addresses(Apply(c, s))
         == Addresses(c) + if s.TryAccess? && InRange(s.address) && c.simStarted then [s.address] else []
  {
    hide ToInt, ToU64, InRange, InnerWoken, Cycles, IsSet, ApplyMain, ApplyWorker, Enabled, Addresses;
    if OfMain(s) {
      MainAddresses(c, s);
    } else {
      WorkerAddresses(c, s);
    }
    assert Addresses(c) + [] == Addresses(c);
  }

  lemma MainAddresses(c: Core, s: Step)
    requires Enabled(c, s) && OfMain(s)
    ensures Addresses(ApplyMain(c, s)) == Addresses(c) && !s.TryAccess?
  {
    hide InnerWoken, IsSet;
    var d := ApplyMain(c, s);
    assert |d.accesses| == |c.accesses| && d.worker == c.worker;
    assert forall i :: 0 <= i < |c.accesses| ==> d.accesses[i].address == c.accesses[i].address;
  }

  lemma WorkerAddresses(c: Core, s: Step)
    requires Enabled(c, s) && !OfMain(s)
    ensures Addresses(ApplyWorker(c, s))
         == Addresses(c) + if s.TryAccess? && InRange(s.address) && c.simStarted then [s.address] else []
  {
    hide ToInt, ToU64, InRange, Cycles;
  }

  /** The memory accesses are those, each once and in order. */
  lemma {:induction false} AccessesArePassed(c: Core, steps: seq<Step>, d: Core)
    requires Run(c, steps, d)
    ensures Addresses(d) == Addresses(c) + Passed(c.simStarted, steps)
    decreases |steps|
  {
    hide Enabled, Apply, Addresses;
    if steps == [] {
      assert Addresses(c) + [] == Addresses(c);
    } else {
      var s := steps[0];
      KindsStep(c, s);
      AddressesStep(c, s);
      AccessesArePassed(Apply(c, s), steps[1..], d);
      var now: seq<nat> := if s.TryAccess? && InRange(s.address) && c.simStarted then [s.address] else [];
      var later := Passed(Apply(c, s).simStarted, steps[1..]);
      assert Addresses(c) + (now + later) == (Addresses(c) + now) + later;
    }
  }

  /** The sum of the simulate arguments since the callbacks were set. */
  function Total(kinds: seq<Kind>): nat {
    if kinds == [] then 0
    else
      match kinds[|kinds| - 1]
      case Simulate(n) => Total(kinds[..|kinds| - 1]) + n
      case SetCb => 0
      case _ => Total(kinds[..|kinds| - 1])
  }

  /** How many tasks the worker has begun to handle: all but the newest, while that is queued or just taken. */
  function Begun(c: Core): nat {
    if |c.tasks| > 0 && (c.taskQueue != [] || c.worker.Handling?) then |c.tasks| - 1 else |c.tasks|
  }

  /** The sum is that of these tasks, and the SystemC side waits for the newest one, if any. */
  ghost predicate AskedOk(c: Core) {
    && (Waiting(c.main) == -1 || Waiting(c.main) == |c.tasks| - 1)
    && c.asked == Total(Kinds(c.tasks)[..Begun(c)])
  }

  lemma AskedStep(c: Core, s: Step)
    requires Good(c) && AskedOk(c) && Enabled(c, s) && !s.SubmitInside?
    ensures AskedOk(Apply(c, s))
  {
    hide ToInt, ToU64, InRange, CountOk, AccessesOk, Kinds, Total, Apply, Enabled, Good;
    var d := Apply(c, s);
    KindsStep(c, s);
    AskedMoves(c, s);
    var k, l := Kinds(c.tasks), Kinds(d.tasks);
    SameLength(c.tasks);
    SameLength(d.tasks);
    if s.Handle? {
      assert l == k && Begun(c) == |k| - 1 && Begun(d) == |k|;
      TotalStep(k);
      assert k[..|k|] == k;
    } else {
      assert l[..Begun(d)] == k[..Begun(c)];
    }
  }

  lemma SameLength(tasks: seq<Task>)
    ensures |Kinds(tasks)| == |tasks| && forall i :: 0 <= i < |tasks| ==> Kinds(tasks)[i] == tasks[i].kind
  {
  }

  lemma TotalStep(kinds: seq<Kind>)
    requires kinds != []
    ensures Total(kinds) == Asked(kinds[|kinds| - 1], Total(kinds[..|kinds| - 1]))
  {
  }

  /** Only a handler adds to the sum, and it begins with the newest task. */
  ghost predicate AddsUp(c: Core, s: Step, d: Core) {
    && (Waiting(d.main) == -1 || Waiting(d.main) == |d.tasks| - 1)
    && |c.tasks| <= |d.tasks|
    && (if s.Handle? then
          && |d.tasks| == |c.tasks| && |c.tasks| > 0 && Begun(c) == |c.tasks| - 1 && Begun(d) == |c.tasks|
          && d.asked == Asked(c.tasks[|c.tasks| - 1].kind, c.asked)
        else Begun(d) == Begun(c) && d.asked == c.asked)
  }

  lemma AskedMoves(c: Core, s: Step)
    requires Good(c) && Enabled(c, s) && !s.SubmitInside?
    requires Waiting(c.main) == -1 || Waiting(c.main) == |c.tasks| - 1
    ensures AddsUp(c, s, Apply(c, s))
  {
    hide Good, Enabled, AddsUp, ApplyMain, ApplyWorker;
    if OfMain(s) {
      MainAdds(c, s);
    } else if s.Handle? {
      HandlerAdds(c);
    } else {
      WorkerAdds(c, s);
    }
  }

  lemma MainAdds(c: Core, s: Step)
    requires Good(c) && Enabled(c, s) && !s.SubmitInside? && OfMain(s)
    requires Waiting(c.main) == -1 || Waiting(c.main) == |c.tasks| - 1
    ensures AddsUp(c, s, ApplyMain(c, s))
  {
    hide ToInt, ToU64, InRange, CountOk, AccessesOk;
  }

  lemma WorkerAdds(c: Core, s: Step)
    requires Good(c) && Enabled(c, s) && !OfMain(s) && !s.Handle?
    requires Waiting(c.main) == -1 || Waiting(c.main) == |c.tasks| - 1
    ensures AddsUp(c, s, ApplyWorker(c, s))
  {
    hide ToInt, ToU64, InRange, CountOk, AccessesOk, PlacesOk;
  }

  lemma HandlerAdds(c: Core)
    requires Good(c) && Enabled(c, Handle)
    requires Waiting(c.main) == -1 || Waiting(c.main) == |c.tasks| - 1
    ensures AddsUp(c, Handle, ApplyWorker(c, Handle))
  {
    hide ToInt, ToU64, InRange, CountOk, AccessesOk, PlacesOk;
  }

  lemma {:induction false} AskedRun(c: Core, steps: seq<Step>, d: Core)
    requires Good(c) && AskedOk(c) && Run(c, steps, d) && Sequential(steps)
    ensures Good(d) && AskedOk(d)
    decreases |steps|
  {
    hide Good, AskedOk, Enabled, Apply, Sequential;
    if steps != [] {
      SequentialTail(steps);
      StepKeeps(c, steps[0]);
      AskedStep(c, steps[0]);
      AskedRun(Apply(c, steps[0]), steps[1..], d);
    }
  }

  /** cycle_count between two calls, for any sum of the simulate arguments since the callbacks were set: it
      is the answer if and only if no step was left out and it fits in an int, or it is within 2^31 below
      2^64 and the steps left out are a multiple of 2^32. */
  lemma CycleCountExact(steps: seq<Step>, d: Core)
    requires Run(START, steps, d) && Sequential(steps)
    requires d.main.Await? && d.main.t < |d.tasks| && d.tasks[d.main.t].kind == GetCycles && IsSet(d, d.main.t)
    ensures var sum := Total(Requests(false, steps));
            d.tasks[d.main.t].value == sum <==> Survives(sum, d.missed)
    ensures d.steps + d.missed == Total(Requests(false, steps))
  {
    hide Run, Sequential, ToInt, ToU64, InRange, Survives, Total, Requests, Good, Kinds;
    StartGood();
    StartAsked();
    AskedRun(START, steps, d);
    TasksAreRequests(START, steps, d);
    AnswerFacts(d);
    assert Kinds(START.tasks) + Requests(false, steps) == Requests(false, steps);
    assert Kinds(d.tasks)[..|d.tasks|] == Kinds(d.tasks) by { SameLength(d.tasks); }
    CountThrough(d.steps, d.missed);
  }

  lemma AnswerFacts(d: Core)
    requires Good(d) && d.main.Await? && d.main.t < |d.tasks| && d.tasks[d.main.t].kind == GetCycles && IsSet(d, d.main.t)
    ensures Begun(d) == |d.tasks| && d.steps + d.missed == d.asked
    ensures d.tasks[d.main.t].value == ToU64(ToInt(d.steps))
  {
    hide ToInt, ToU64, InRange, AccessesOk;
  }

  lemma StartAsked()
    ensures AskedOk(START) && Kinds(START.tasks) == [] && !START.simStarted
  {
  }

  lemma CountThrough(steps: nat, missed: nat)
    ensures ToU64(ToInt(steps)) == steps + missed <==> Survives(steps + missed, missed)
  {
    IntRoundTrip(steps);
    var asked, top := steps + missed, 0xffff_ffff_0000_0000;
    if top + 0x8000_0000 <= asked < top + 0x1_0000_0000 {
      assert asked % 0x1_0000_0000 == asked - top;
      if missed % 0x1_0000_0000 == 0 {
        assert steps == asked - 0x1_0000_0000 * (missed / 0x1_0000_0000);
        assert steps % 0x1_0000_0000 == asked % 0x1_0000_0000;
      }
    }
  }

  /** Through int and back, a count comes out between 0 and 2^31, unchanged modulo 2^32, or within 2^31 below
      2^64. */
  lemma IntRoundTrip(x: nat)
    ensures x < 0x8000_0000 ==> ToInt(x) == x && ToU64(ToInt(x)) == x
    ensures var m := x % 0x1_0000_0000;
            ToU64(ToInt(x)) == if m < 0x8000_0000 then m else 0xffff_ffff_0000_0000 + m
  {
  }

  // ------------------------------------------------------------------ standstill

  /** The worker has ended simulate and notifies, between the test of the SystemC side's condition, which
      was false, and its going to sleep: nobody is woken. */
  predicate Missed(c: Core, s: Step) {
    s == Notified && c.main.Tested? && IsSet(c, c.main.t)
  }

  ghost predicate Misses(c: Core, steps: seq<Step>)
    decreases |steps|
  {
    steps != [] && Enabled(c, steps[0]) && (Missed(c, steps[0]) || Misses(Apply(c, steps[0]), steps[1..]))
  }

  /** While the SystemC side sleeps or is about to, with the promise set, its notification is still to come. */
  predicate Owes(c: Core) {
    (c.main.Tested? || c.main.Asleep?) && IsSet(c, c.main.t) ==> c.worker == Closing(true)
  }

  lemma OwesStep(c: Core, s: Step)
    requires Good(c) && Owes(c) && Enabled(c, s) && !s.SubmitInside?
    ensures Owes(Apply(c, s)) <==> !Missed(c, s)
  {
    hide InRange, ToInt, ToU64, CountOk, AccessesOk;
  }

  /** The worker is blocked on the memory access the SystemC side was serving when it made another call, and
      that call's task is queued behind it. */
  predicate Deadlocked(c: Core) {
    && c.main.Stuck? && c.main.inner < |c.tasks| && c.tasks[c.main.inner].sets == 0
    && c.taskQueue == [c.main.inner] && c.memQueue == []
    && Outstanding(c) && AccessOf(c.worker) == c.main.a
  }

  /** The SystemC side sleeps, or is about to, though its promise is set, and the worker is done. */
  predicate Overslept(c: Core) {
    && (c.main.Tested? || c.main.Asleep?) && IsSet(c, c.main.t)
    && c.worker == Idle && c.taskQueue == [] && c.memQueue == [] && !c.stop
  }

  /** One of them may still be about to stop. */
  predicate Unsettled(c: Core) {
    c.main.Tested? || c.worker.Announcing?
  }

  lemma DoomedStep(c: Core, s: Step)
    requires (Deadlocked(c) || Overslept(c)) && Enabled(c, s)
    ensures Unsettled(c) && !Unsettled(Apply(c, s))
    ensures if Deadlocked(c) then Deadlocked(Apply(c, s)) && s == NotifyAccess else Overslept(Apply(c, s)) && s == FallAsleep
  {
  }

  lemma DoomedMoves(c: Core)
    requires (Deadlocked(c) || Overslept(c)) && Unsettled(c)
    ensures Enabled(c, FallAsleep) || Enabled(c, NotifyAccess)
  {
  }

  lemma CallInside(c: Core, kind: Kind)
    requires Good(c) && Enabled(c, SubmitInside(kind))
    ensures Deadlocked(Apply(c, SubmitInside(kind)))
  {
    hide ToInt, ToU64, InRange, CountOk;
  }

  lemma MissedOversleeps(c: Core, s: Step)
    requires Good(c) && Enabled(c, s) && Missed(c, s)
    ensures Overslept(Apply(c, s))
  {
    hide ToInt, ToU64, InRange, CountOk;
  }

  /** As long as neither happens some step can be taken, up to the end of the destructor. */
  lemma Progress(c: Core) returns (s: Step)
    requires Good(c) && Owes(c) && c.main != Finished
    ensures Enabled(c, s)
  {
    hide ToInt, ToU64, InRange, CountOk;
    match c.main
    case Ready => s := CycleCount;
    case Await(t) =>
      if IsSet(c, t) {
        s := Answered;
      } else {
        s := WorkerProgress(c);
      }
    case Pushed(_) => s := RaiseFlag;
    case Check(_) => s := LoopTest;
    case Testing(_) => s := WakeUp;
    case Tested(_) => s := FallAsleep;
    case Asleep(_) => s := WorkerProgress(c);
    case Serve(_, _) => s := AccessDone;
    case Leaving(_) => s := Leave;
    case Joining =>
      if c.worker == Exited {
        s := Joined;
      } else {
        s := WorkerProgress(c);
      }
    case _ =>
  }

  /** What the worker can do next. */
  lemma WorkerProgress(c: Core) returns (s: Step)
    requires Good(c) && Owes(c)
    requires (c.main.Await? && !IsSet(c, c.main.t)) || c.main.Asleep? || (c.main == Joining && c.worker != Exited)
    ensures Enabled(c, s)
  {
    hide ToInt, ToU64, InRange, CountOk;
    if InSimulate(c.worker) {
      s := SimulateProgress(c);
    } else {
      s := if c.worker.Closing? then Notified else if c.worker.Handling? then Handle
           else if c.taskQueue != [] then PopTask else Exit;
    }
  }

  /** A step of the processor need not access memory. */
  lemma SimulateProgress(c: Core) returns (s: Step)
    requires Good(c) && InSimulate(c.worker) && !c.main.Tested? && !c.main.Serve?
    requires c.main.Asleep? || c.memQueue == []
    ensures Enabled(c, s)
  {
    hide ToInt, ToU64, InRange, CountOk, PlacesOk;
    match c.worker
    case Stepping(t, k) => s := if k < Cycles(c, t) then BeginStep else EndSimulate;
    case InStep(_, _) => s := EndStep;
    case Allowed(_, _, _) => s := PushAccess;
    case Announcing(_, _, _) => s := NotifyAccess;
    case Blocked(_, _, _) => s := Resume;
  }

  /** Any other call from inside a memory access ends in a deadlock: the promise it waits for is never set,
      nor that of the memory access, because no step of either thread can follow but the notification that
      the worker may still owe. */
  lemma CallInsideAccessDeadlocks(d: Core, kind: Kind, steps: seq<Step>, f: Core)
    requires Reachable(d) && Enabled(d, SubmitInside(kind))
    requires Run(Apply(d, SubmitInside(kind)), steps, f)
    ensures steps == [] || steps == [NotifyAccess]
    ensures f.main == Stuck(d.main.t, d.main.a, |d.tasks|) && !IsSet(f, |d.tasks|) && f.taskQueue == [|d.tasks|]
    ensures d.main.a < |f.accesses| && f.accesses[d.main.a].sets == 0 && AccessOf(f.worker) == d.main.a
  {
    hide Reachable, ToInt, ToU64, InRange, Good;
    ReachableGood(d);
    CallInside(d, kind);
    var c := Apply(d, SubmitInside(kind));
    if steps != [] {
      DoomedStep(c, steps[0]);
      assert steps[1..] == [];
    }
  }

  /** Over every run: both threads have come to a standstill, short of the end of the destructor, if and only
      if there has been such a call or a missed notification, and neither thread is just about to stop. */
  lemma DeadlockExactly(steps: seq<Step>, d: Core)
    requires Run(START, steps, d)
    ensures (forall s :: !Enabled(d, s)) && d.main != Finished <==>
              (!Sequential(steps) || Misses(START, steps)) && !Unsettled(d)
  {
    hide *;
    StartGood();
    StandstillOf(START, steps, d);
  }

  lemma {:induction false} StandstillOf(c: Core, steps: seq<Step>, d: Core)
    requires Good(c) && Owes(c) && Run(c, steps, d)
    ensures (forall s :: !Enabled(d, s)) && d.main != Finished <==>
              (!Sequential(steps) || Misses(c, steps)) && !Unsettled(d)
    decreases |steps|
  {
    hide Good, Enabled, Apply, Deadlocked, Overslept, Run, Owes, Missed;
    if steps == [] {
      Nowhere(c, d);
      if d.main != Finished {
        var s := Progress(d);
      }
    } else {
      FirstOfRun(c, steps, d);
      SequentialTail(steps);
      var e := Apply(c, steps[0]);
      if steps[0].SubmitInside? {
        CallInside(c, steps[0].kind);
        DoomedRun(e, steps[1..], d);
      } else if Missed(c, steps[0]) {
        MissedOversleeps(c, steps[0]);
        DoomedRun(e, steps[1..], d);
      } else {
        StepKeeps(c, steps[0]);
        OwesStep(c, steps[0]);
        StandstillOf(e, steps[1..], d);
      }
    }
  }

  lemma Nowhere(c: Core, d: Core)
    requires Run(c, [], d)
    ensures c == d
  {
  }

  lemma SequentialTail(steps: seq<Step>)
    requires steps != []
    ensures Sequential(steps) <==> !steps[0].SubmitInside? && Sequential(steps[1..])
  {
    assert steps == [steps[0]] + steps[1..];
  }

  lemma FirstOfRun(c: Core, steps: seq<Step>, d: Core)
    requires Run(c, steps, d) && steps != []
    ensures Enabled(c, steps[0]) && Run(Apply(c, steps[0]), steps[1..], d)
  {
  }

  /** After such a call or notification at most one more step is taken. */
  lemma DoomedRun(c: Core, steps: seq<Step>, d: Core)
    requires (Deadlocked(c) || Overslept(c)) && Run(c, steps, d)
    ensures |steps| <= 1 && (Deadlocked(d) || Overslept(d)) && d.main != Finished
    ensures (forall s :: !Enabled(d, s)) <==> !Unsettled(d)
  {
    hide Enabled, Apply, Deadlocked, Overslept;
    if steps != [] {
      DoomedStep(c, steps[0]);
      if steps[1..] != [] {
        DoomedStep(Apply(c, steps[0]), steps[1..][0]);
        assert false;
      }
    }
    NotFinished(d);
    if Unsettled(d) {
      DoomedMoves(d);
    }
    forall s | !Unsettled(d) ensures !Enabled(d, s) {
      if Enabled(d, s) {
        DoomedStep(d, s);
      }
    }
  }

  lemma NotFinished(c: Core)
    requires Deadlocked(c) || Overslept(c)
    ensures c.main != Finished
  {
  }

  /** The SystemC side is serving a memory access, of the first step of a first simulate. */
  function FirstAccess(n: nat): Core {
    Core([], [], [Task(Simulate(n), 0, 0)], [Access(0x1000, 0)], true, false, 0, Serve(0, 0), Blocked(0, 0, 0),
         1, n, 0, 0, false)
  }

  lemma StepThen(c: Core, s: Step, d: Core)
    requires Enabled(c, s) && Reaches(Apply(c, s), d) && !s.SubmitInside?
    ensures Reaches(c, d)
  {
    hide Enabled, Apply;
    var rest :| Run(Apply(c, s), rest, d) && Sequential(rest);
    assert ([s] + rest)[1..] == rest;
    assert Run(c, [s] + rest, d) && Sequential([s] + rest);
  }

  lemma Stays(c: Core)
    ensures Reaches(c, c)
  {
    assert Run(c, [], c) && Sequential([]);
  }

  /** The worker is inside the first step, and the SystemC side about to test its loop. */
  function FirstStep(n: nat): Core {
    Core([], [], [Task(Simulate(n), 0, 0)], [], true, false, 0, Check(0), InStep(0, 0), 1, n, 0, 0, false)
  }

  lemma AccessFollows(n: nat)
    ensures Reaches(FirstStep(n), FirstAccess(n))
  {
    hide Reaches;
    var c, d := FirstStep(n), FirstAccess(n);
    var c1 := c.(worker := Allowed(0, 0, 0x1000));
    var c2 := c.(worker := Announcing(0, 0, 0), accesses := [Access(0x1000, 0)], memQueue := [0]);
    var c3 := c2.(worker := Blocked(0, 0, 0));
    Stays(d);
    assert Apply(c3.(main := Testing(0)), WakeUp) == d;
    StepThen(c3.(main := Testing(0)), WakeUp, d);
    assert Apply(c3, LoopTest) == c3.(main := Testing(0));
    StepThen(c3, LoopTest, d);
    assert Apply(c2, NotifyAccess) == c3;
    StepThen(c2, NotifyAccess, d);
    assert Apply(c1, PushAccess) == c2;
    StepThen(c1, PushAccess, d);
    assert Apply(c, TryAccess(0x1000)) == c1;
    StepThen(c, TryAccess(0x1000), d);
  }

  /** The SystemC side has pushed a simulate and raised the flag. */
  function Announced(n: nat): Core {
    START.(tasks := [Task(Simulate(n), 0, 0)], taskQueue := [0], main := Check(0), simStarted := true)
  }

  lemma FirstStepFollows(n: nat, d: Core)
    requires n > 0 && Reaches(FirstStep(n), d)
    ensures Reaches(Announced(n), d)
  {
    hide Reaches, ToInt, ToU64;
    var c := Announced(n).(taskQueue := [], worker := Handling(0));
    var c1 := c.(worker := Stepping(0, 0), asked := n);
    assert Apply(c1, BeginStep) == FirstStep(n);
    StepThen(c1, BeginStep, d);
    assert Apply(c, Handle) == c1;
    StepThen(c, Handle, d);
    assert Apply(Announced(n), PopTask) == c;
    StepThen(Announced(n), PopTask, d);
  }

  lemma FromStart(n: nat, d: Core)
    requires n > 0 && Reaches(FirstStep(n), d)
    ensures Reachable(d)
  {
    hide Reaches;
    FirstStepFollows(n, d);
    var c := START.(tasks := [Task(Simulate(n), 0, 0)], taskQueue := [0], main := Pushed(0));
    assert Apply(c, RaiseFlag) == Announced(n);
    StepThen(c, RaiseFlag, d);
    assert Apply(START, Submit(Simulate(n))) == c;
    StepThen(START, Submit(Simulate(n)), d);
  }

  /** A memory access is reached. */
  lemma AccessIsReached(n: nat)
    requires n > 0
    ensures Reachable(FirstAccess(n)) && FirstAccess(n).main.Serve?
  {
    hide Reaches;
    AccessFollows(n);
    FromStart(n, FirstAccess(n));
  }

  /** And so is a simulate of one cycle that sleeps for ever, though its promise is set. */
  lemma OversleepingIsReached() returns (d: Core)
    ensures Reachable(d) && d.main == Asleep(0) && IsSet(d, 0) && forall s :: !Enabled(d, s)
  {
    hide Reaches;
    var c := FirstStep(1);
    var c1 := c.(main := Testing(0));
    var c2 := c.(main := Tested(0));
    var c3 := c2.(worker := Stepping(0, 1));
    d := OversleptAfter(c3);
    assert Apply(c2, EndStep) == c3;
    StepThen(c2, EndStep, d);
    assert Apply(c1, WakeUp) == c2;
    StepThen(c1, WakeUp, d);
    assert Apply(c, LoopTest) == c1;
    StepThen(c, LoopTest, d);
    FromStart(1, d);
  }

  lemma OversleptAfter(c: Core) returns (d: Core)
    requires c == FirstStep(1).(main := Tested(0), worker := Stepping(0, 1))
    ensures Reaches(c, d) && d.main == Asleep(0) && IsSet(d, 0) && forall s :: !Enabled(d, s)
  {
    hide Reaches;
    var c1 := Apply(c, EndSimulate);
    assert Missed(c1, Notified);
    var c2 := Apply(c1, Notified);
    d := Apply(c2, FallAsleep);
    Stays(d);
    StepThen(c2, FallAsleep, d);
    StepThen(c1, Notified, d);
    StepThen(c, EndSimulate, d);
    DoomedRunEnds(d);
  }

  lemma DoomedRunEnds(d: Core)
    requires Overslept(d) && !Unsettled(d)
    ensures forall s :: !Enabled(d, s)
  {
    forall s ensures !Enabled(d, s) {
      if Enabled(d, s) {
        DoomedStep(d, s);
      }
    }
  }
}
