/** The core and the Python object behind it. The short methods are the sections that a thread executes
    without interruption, and each takes one step of the handshake; the calls of the SystemC side and the
    loop of the worker are put together from them, and whatever the other thread does in between is given
    as a list of its steps for every gap. */
module HandshakeClasses {
  import opened Handshake

  /** The Python object: its counter, and the loop that steps the processor. */
  class PythonCpu {
    var steps: nat
    var callbacks: bool

    constructor ()
      ensures steps == 0 && !callbacks
    {
      steps, callbacks := 0, false;
    }

    method Reset()
      modifies `steps
      ensures steps == 0
    {
      steps := 0;
    }

    method SetCallbacks()
      modifies this
      ensures callbacks && steps == 0
    {
      callbacks := true;
      Reset();
    }

    method Count()
      modifies `steps
      ensures steps == old(steps) + 1
    {
      steps := steps + 1;
    }

    /** One step is counted whether or not it raises. */
    method Step(raises: bool) returns (ok: bool)
      modifies `steps
      ensures steps == old(steps) + 1 && ok == !raises
    {
      Count();
      ok := !raises;
    }

    /** Runs the steps until one raises; raises says which would. */
    method Simulate(n: nat, raises: seq<bool>) returns (ok: bool)
      requires |raises| == n
      modifies `steps
      ensures ok <==> true !in raises
      ensures ok ==> steps == old(steps) + n
      ensures !ok ==> exists k :: 0 <= k < n && raises[k] && true !in raises[..k] && steps == old(steps) + k + 1
    {
      var i := 0;
      while i < n
        invariant i <= n && steps == old(steps) + i && true !in raises[..i]
      {
        ok := Step(raises[i]);
        if !ok {
          return false;
        }
        assert raises[..i + 1] == raises[..i] + [false];
        i := i + 1;
      }
      assert raises[..n] == raises;
      return true;
    }
  }

  /** What one step of the processor does: the addresses it accesses, and whether it then raises. */
  datatype Instruction = Instruction(addresses: seq<nat>, raises: bool)

  class PydrofoilCore {
    const cpu: PythonCpu
    var taskQueue: seq<nat>
    var memtaskQueue: seq<nat>
    var tasks: seq<Task>
    var accesses: seq<Access>
    var simStarted: bool
    var stopWorker: bool
    var nCycles: int
    var mainAt: Main
    var workerAt: Worker
    /** History. */
    var asked: nat
    var missed: nat
    var before: nat
    var stale: bool
    /** The other thread: what it does in each of the coming gaps; it does nothing in the gaps after that. */
    var others: seq<seq<Step>>
    /** The processor: what its coming steps do; after that they do nothing. */
    var program: seq<Instruction>

    function View(): Core
      reads this, cpu
    {
      Core(taskQueue, memtaskQueue, tasks, accesses, simStarted, stopWorker, nCycles, mainAt, workerAt,
           cpu.steps, asked, missed, before, stale)
    }

    constructor ()
      ensures View() == START && fresh(cpu) && others == [] && program == []
    {
      cpu := new PythonCpu();
      taskQueue, memtaskQueue, tasks, accesses := [], [], [], [];
      simStarted, stopWorker, nCycles, mainAt, workerAt := false, false, 0, Ready, Idle;
      asked, missed, before, stale := 0, 0, 0, false;
      others, program := [], [];
    }

    // ------------------------------------------------------------ sections of the SystemC side

    method PushTask(kind: Kind) returns (t: nat)
      modifies `tasks, `taskQueue
      ensures View() == Push(old(View()), kind) && t == |old(tasks)|
    {
      t := |tasks|;
      tasks := tasks + [Task(kind, 0, 0)];
      taskQueue := taskQueue + [t];
    }

    /** A call as far as the wait for its result; simulate as far as the push. */
    method SubmitTask(kind: Kind)
      requires Enabled(View(), Submit(kind))
      modifies `tasks, `taskQueue, `mainAt, `stopWorker
      ensures View() == ApplyMain(old(View()), Submit(kind))
    {
      var t := PushTask(kind);
      if kind == FreeCpu {
        stopWorker := true;
      }
      mainAt := if kind.Simulate? then Pushed(t) else Await(t);
    }

    /** cycle_count up to its wait: answered at once while a simulate is running. */
    method AskCycles() returns (now: bool)
      requires Enabled(View(), CycleCount)
      modifies `tasks, `taskQueue, `mainAt
      ensures View() == ApplyMain(old(View()), CycleCount)
      ensures now <==> old(simStarted)
    {
      if simStarted {
        return true;
      }
      var t := PushTask(GetCycles);
      mainAt := Await(t);
      return false;
    }

    /** The test of the loop in simulate. */
    method TestDone()
      requires Enabled(View(), LoopTest)
      modifies `mainAt
      ensures View() == ApplyMain(old(View()), LoopTest)
    {
      if mainAt.t < |tasks| && tasks[mainAt.t].sets > 0 {
        mainAt := Leaving(mainAt.t);
      } else {
        mainAt := Testing(mainAt.t);
      }
    }

    /** The condition of the wait is tested under the lock, and a memory access taken if there is one. */
    method TakeAccess()
      requires Enabled(View(), WakeUp)
      modifies `mainAt, `memtaskQueue
      ensures View() == ApplyMain(old(View()), WakeUp)
    {
      if memtaskQueue != [] {
        mainAt := Serve(mainAt.t, memtaskQueue[0]);
        memtaskQueue := memtaskQueue[1..];
      } else if mainAt.t < |tasks| && tasks[mainAt.t].sets > 0 {
        mainAt := Check(mainAt.t);
      } else {
        mainAt := Tested(mainAt.t);
      }
    }

    /** The wait releases the lock and sleeps. */
    method GoToSleep()
      requires Enabled(View(), FallAsleep)
      modifies `mainAt
      ensures View() == ApplyMain(old(View()), FallAsleep)
    {
      mainAt := Asleep(mainAt.t);
    }

    /** The bus has answered. */
    method FinishAccess()
      requires Enabled(View(), AccessDone)
      modifies `mainAt, `accesses
      ensures View() == ApplyMain(old(View()), AccessDone)
    {
      var a := mainAt.a;
      accesses := accesses[a := accesses[a].(sets := accesses[a].sets + 1)];
      mainAt := Check(mainAt.t);
    }

    method TakeAnswer()
      requires Enabled(View(), Answered)
      modifies `mainAt
      ensures View() == ApplyMain(old(View()), Answered)
    {
      mainAt := if tasks[mainAt.t].kind == FreeCpu then Joining else Ready;
    }

    method RaiseStarted()
      requires Enabled(View(), RaiseFlag)
      modifies `simStarted, `mainAt
      ensures View() == ApplyMain(old(View()), RaiseFlag)
    {
      simStarted, mainAt := true, Check(mainAt.t);
    }

    method LeaveLoop()
      requires Enabled(View(), Leave)
      modifies `simStarted, `mainAt
      ensures View() == ApplyMain(old(View()), Leave)
    {
      simStarted, mainAt := false, Ready;
    }

    method JoinWorker()
      requires Enabled(View(), Joined)
      modifies `mainAt
      ensures View() == ApplyMain(old(View()), Joined)
    {
      mainAt := Finished;
    }

    /** Any step of the SystemC side, if it can be taken. */
    method TakeMainStep(s: Step)
      modifies `tasks, `taskQueue, `memtaskQueue, `accesses, `simStarted, `stopWorker, `mainAt
      ensures View() == if Takes(old(View()), s, true) then Apply(old(View()), s) else old(View())
    {
      hide ApplyMain, Enabled;
      if !Takes(View(), s, true) {
        return;
      }
      match s {
        case Submit(kind) => SubmitTask(kind);
        case CycleCount => var _ := AskCycles();
        case Answered => TakeAnswer();
        case RaiseFlag => RaiseStarted();
        case LoopTest => TestDone();
        case WakeUp => TakeAccess();
        case FallAsleep => GoToSleep();
        case AccessDone => FinishAccess();
        case Leave => LeaveLoop();
        case Joined => JoinWorker();
        case _ =>
      }
    }

    // ------------------------------------------------------------ sections of the worker

    /** One turn of python_worker_loop up to the handler: false when the worker is to exit. */
    method TakeTask() returns (more: bool)
      requires workerAt == Idle && (taskQueue != [] || stopWorker)
      modifies `workerAt, `taskQueue
      ensures more <==> old(taskQueue) != []
      ensures View() == if more then ApplyWorker(old(View()), PopTask) else ApplyWorker(old(View()), Exit)
    {
      if stopWorker && taskQueue == [] {
        workerAt := Exited;
        return false;
      }
      workerAt := Handling(taskQueue[0]);
      taskQueue := taskQueue[1..];
      return true;
    }

    method SetValue(t: nat, value: nat)
      requires t < |tasks|
      modifies `tasks
      ensures View() == SetPromise(old(View()), t, value)
    {
      tasks := tasks[t := tasks[t].(sets := tasks[t].sets + 1, value := value)];
    }

    /** Setting the callbacks resets the Python object. */
    method HandleSetCb(t: nat)
      requires workerAt == Handling(t) && t < |tasks| && tasks[t].kind == SetCb
      modifies `tasks, `workerAt, `asked, `missed, `stale, cpu
      ensures View() == HandleTask(old(View()), t)
    {
      cpu.SetCallbacks();
      asked, missed, stale := 0, 0, nCycles != 0;
      SetValue(t, 0);
      workerAt := Closing(false);
    }

    /** The count goes through an int. */
    method HandleGetCycles(t: nat)
      requires workerAt == Handling(t) && t < |tasks| && tasks[t].kind == GetCycles
      modifies `tasks, `workerAt, `nCycles, `stale
      ensures View() == HandleTask(old(View()), t)
    {
      hide ToInt, ToU64;
      nCycles := ToInt(cpu.steps);
      stale := false;
      SetValue(t, ToU64(nCycles));
      workerAt := Closing(false);
    }

    /** The handlers; Simulate as far as its first step. */
    method RunHandler()
      requires Enabled(View(), Handle)
      modifies `tasks, `workerAt, `nCycles, `asked, `missed, `before, `stale, cpu
      ensures View() == ApplyWorker(old(View()), Handle)
    {
      hide ToInt, ToU64, SetPromise;
      var t := workerAt.t;
      match tasks[t].kind {
        case SetCb => HandleSetCb(t);
        case GetCycles => HandleGetCycles(t);
        case Simulate(n) =>
          asked, before := asked + n, cpu.steps;
          workerAt := Stepping(t, 0);
        case _ =>
          SetValue(t, 0);
          workerAt := Closing(false);
      }
    }

    /** read_mem and write_mem up to the push: an address out of range, or a simulate that has not
        announced itself, is answered with 0 at once. */
    method MemoryCallback(address: nat) returns (pass: bool)
      requires Enabled(View(), TryAccess(address))
      modifies `workerAt
      ensures pass <==> InRange(address) && simStarted
      ensures workerAt == if pass then Allowed(old(workerAt).t, old(workerAt).k, address) else old(workerAt)
      ensures View() == ApplyWorker(old(View()), TryAccess(address))
    {
      if address < 0x8000_0000 && address > 0x1fff {
        return false;
      }
      if address > 0x8fff_ffff || address < 0x1000 {
        return false;
      }
      if !simStarted {
        return false;
      }
      workerAt := Allowed(workerAt.t, workerAt.k, address);
      return true;
    }

    method PushMemtask()
      requires Enabled(View(), PushAccess)
      modifies `accesses, `memtaskQueue, `workerAt
      ensures View() == ApplyWorker(old(View()), PushAccess)
      ensures workerAt == Announcing(old(workerAt).t, old(workerAt).k, |old(accesses)|)
      ensures |accesses| == |old(accesses)| + 1
    {
      var a := |accesses|;
      accesses := accesses + [Access(workerAt.address, 0)];
      memtaskQueue := memtaskQueue + [a];
      workerAt := Announcing(workerAt.t, workerAt.k, a);
    }

    /** notify_one of the memory accesses: the SystemC side is woken if it sleeps. */
    method NotifyOne()
      modifies `mainAt
      ensures mainAt == Rouse(old(mainAt))
    {
      if mainAt.Asleep? {
        mainAt := Testing(mainAt.t);
      }
    }

    method NotifyMemtask()
      requires Enabled(View(), NotifyAccess)
      modifies `mainAt, `workerAt
      ensures View() == ApplyWorker(old(View()), NotifyAccess)
      ensures workerAt == Worker.Blocked(old(workerAt).t, old(workerAt).k, old(workerAt).a)
    {
      NotifyOne();
      workerAt := Worker.Blocked(workerAt.t, workerAt.k, workerAt.a);
    }

    method BeginInstruction()
      requires Enabled(View(), BeginStep)
      modifies `workerAt, cpu`steps
      ensures View() == ApplyWorker(old(View()), BeginStep)
      ensures workerAt == InStep(old(workerAt).t, old(workerAt).k) && cpu.steps == old(cpu.steps) + 1
    {
      cpu.Count();
      workerAt := InStep(workerAt.t, workerAt.k);
    }

    /** A step that raises ends the loop of simulate. */
    method EndInstruction(raises: bool)
      requires Enabled(View(), if raises then RaiseInStep else EndStep)
      modifies `workerAt, `missed
      ensures View() == ApplyWorker(old(View()), if raises then RaiseInStep else EndStep)
      ensures workerAt == Stepping(old(workerAt).t, if raises then Length(old(workerAt).t) else old(workerAt).k + 1)
    {
      var t, k := workerAt.t, workerAt.k;
      if raises {
        var n := Length(t);
        missed := missed + n - (k + 1);
        workerAt := Stepping(t, n);
      } else {
        workerAt := Stepping(t, k + 1);
      }
    }

    /** The end of the Simulate handler. */
    method FinishSimulate()
      requires Enabled(View(), EndSimulate)
      modifies `tasks, `workerAt, `nCycles, `stale
      ensures View() == ApplyWorker(old(View()), EndSimulate) && workerAt == Closing(true)
      ensures |tasks| == |old(tasks)| && tasks[old(workerAt).t].sets > 0 && nCycles == ToInt(cpu.steps)
    {
      hide ToInt, ToU64;
      nCycles := ToInt(cpu.steps);
      stale := false;
      SetValue(workerAt.t, 0);
      workerAt := Closing(true);
    }

    method TakeResult()
      requires Enabled(View(), Resume)
      modifies `workerAt
      ensures View() == ApplyWorker(old(View()), Resume) && workerAt == InStep(old(workerAt).t, old(workerAt).k)
    {
      workerAt := InStep(workerAt.t, workerAt.k);
    }

    method GoIdle()
      requires Enabled(View(), Notified)
      modifies `workerAt, `mainAt
      ensures View() == ApplyWorker(old(View()), Notified) && workerAt == Idle
    {
      if workerAt.notify {
        NotifyOne();
      }
      workerAt := Idle;
    }

    function Length(t: nat): (n: nat)
      reads `tasks
    {
      if t < |tasks| && tasks[t].kind.Simulate? then tasks[t].kind.cycles else 0
    }

    /** Any step of the worker, if it can be taken. */
    method TakeWorkerStep(s: Step)
      modifies `tasks, `taskQueue, `memtaskQueue, `accesses, `workerAt, `mainAt, `nCycles,
               `asked, `missed, `before, `stale, cpu
      ensures View() == if Takes(old(View()), s, false) then Apply(old(View()), s) else old(View())
    {
      hide ApplyWorker, Enabled;
      if !Takes(View(), s, false) {
        return;
      }
      match s {
        case PopTask => Work(s);
        case Handle => RunHandler();
        case BeginStep => BeginInstruction();
        case TryAccess(address) => var _ := MemoryCallback(address);
        case PushAccess => PushMemtask();
        case NotifyAccess => NotifyMemtask();
        case Resume => TakeResult();
        case EndStep => EndInstruction(false);
        case RaiseInStep => EndInstruction(true);
        case EndSimulate => FinishSimulate();
        case Notified => GoIdle();
        case Exit => Work(s);
        case _ =>
      }
    }

    method Work(ghost s: Step)
      requires (s == PopTask || s == Exit) && Enabled(View(), s)
      modifies `workerAt, `taskQueue
      ensures View() == ApplyWorker(old(View()), s)
    {
      var _ := TakeTask();
    }

    // ------------------------------------------------------------ the other thread

    /** The next gap: what the other thread does in it. */
    ghost function NextTurn(): seq<Step>
      reads `others
    {
      if others == [] then [] else others[0]
    }

    /** The worker's turn. */
    method LetWorkerRun()
      modifies this, cpu
      ensures View() == Turn(old(View()), old(NextTurn()), false)
      ensures others == if old(others) == [] then [] else old(others)[1..]
    {
      hide Takes, Apply;
      if others == [] {
        return;
      }
      var steps := others[0];
      others := others[1..];
      var i := 0;
      while i < |steps|
        invariant 0 <= i <= |steps| && others == old(others)[1..]
        invariant Turn(View(), steps[i..], false) == Turn(old(View()), steps, false)
      {
        assert steps[i..][0] == steps[i] && steps[i..][1..] == steps[i + 1..];
        TakeWorkerStep(steps[i]);
        i := i + 1;
      }
    }

    /** The turn of the SystemC side. */
    method LetMainRun()
      modifies this, cpu
      ensures View() == Turn(old(View()), old(NextTurn()), true) && program == old(program)
      ensures others == if old(others) == [] then [] else old(others)[1..]
    {
      hide Takes, Apply;
      if others == [] {
        return;
      }
      var steps := others[0];
      others := others[1..];
      var i := 0;
      while i < |steps|
        invariant 0 <= i <= |steps| && others == old(others)[1..]
        invariant Turn(View(), steps[i..], true) == Turn(old(View()), steps, true) && program == old(program)
      {
        assert steps[i..][0] == steps[i] && steps[i..][1..] == steps[i + 1..];
        TakeMainStep(steps[i]);
        i := i + 1;
      }
    }

    // ------------------------------------------------------------ calls of the SystemC side

    /** Nothing is left over from a call: no task, no memory access, every promise set exactly once; and
        the call has pushed one task on top of the earlier ones. */
    ghost predicate Returned(earlier: seq<Task>, kind: Kind)
      reads this
    {
      && taskQueue == [] && memtaskQueue == [] && InService(workerAt) == -1
      && |tasks| == |earlier| + 1 && tasks[..|earlier|] == earlier && tasks[|earlier|].kind == kind
      && (forall i :: 0 <= i < |tasks| ==> tasks[i].sets == 1)
      && (forall i :: 0 <= i < |accesses| ==> accesses[i].sets == 1)
    }

    /** What holds while a call is under way. */
    ghost predicate Under(kind: Kind, earlier: seq<Task>, wanted: nat)
      reads this, cpu
    {
      Good(View()) && Calling(View(), kind, earlier, wanted)
    }

    method WorkerGap(ghost kind: Kind, ghost earlier: seq<Task>, ghost wanted: nat)
      requires Under(kind, earlier, wanted)
      modifies this, cpu
      ensures Under(kind, earlier, wanted) && (mainAt == old(mainAt) || mainAt == Rouse(old(mainAt)))
      ensures simStarted == old(simStarted)
      ensures others == if old(others) == [] then [] else old(others)[1..]
      ensures old(others) == [] ==> View() == old(View())
    {
      hide Good, Calling;
      WorkerTurn(View(), NextTurn(), kind, earlier, wanted);
      LetWorkerRun();
    }

    /** The wait for a promise while the worker runs; false if the gaps end first. */
    method AwaitTask(t: nat, ghost kind: Kind, ghost earlier: seq<Task>, ghost wanted: nat) returns (done: bool)
      requires mainAt == Await(t) && t == |earlier| && Under(kind, earlier, wanted)
      modifies this, cpu
      ensures mainAt == Await(t) && Under(kind, earlier, wanted)
      ensures done <==> tasks[t].sets > 0
      ensures !done ==> others == []
    {
      hide Good;
      while tasks[t].sets == 0 && others != []
        invariant mainAt == Await(t) && Under(kind, earlier, wanted)
        decreases |others|
      {
        WorkerGap(kind, earlier, wanted);
      }
      done := tasks[t].sets > 0;
    }

    /** set_pc, the register accesses, the setting of the callbacks, the first half of the destructor. */
    method Call(kind: Kind) returns (done: bool, value: nat)
      requires Good(View()) && Enabled(View(), Submit(kind)) && !kind.Simulate?
      modifies this, cpu
      ensures Good(View())
      ensures done ==> Returned(old(tasks), kind) && value == tasks[|old(tasks)|].value
      ensures done ==> mainAt == if kind == FreeCpu then Joining else Ready
      ensures done ==> if kind == SetCb then cpu.steps == 0 else cpu.steps + missed == old(asked)
      ensures !done ==> others == []
    {
      hide Good, ToInt, ToU64;
      var t := |tasks|;
      ghost var earlier, wanted := tasks, asked;
      CallBegins(View(), Submit(kind), kind);
      SubmitTask(kind);
      done := AwaitTask(t, kind, earlier, wanted);
      if !done {
        return false, 0;
      }
      CallServed(View(), kind, earlier, wanted);
      StepKeeps(View(), Answered);
      TakeAnswer();
      value := tasks[t].value;
    }

    /** The destructor: the last task, then the join. */
    method Destroy() returns (done: bool)
      requires Good(View()) && mainAt == Ready
      modifies this, cpu
      ensures Good(View())
      ensures done ==> mainAt == Finished && workerAt == Exited && taskQueue == []
      ensures done ==> forall i :: 0 <= i < |tasks| ==> tasks[i].sets == 1
      ensures !done ==> others == []
    {
      hide Good, ToInt, ToU64;
      var value;
      done, value := Call(FreeCpu);
      if !done {
        return;
      }
      while workerAt != Exited && others != []
        invariant Good(View()) && mainAt == Joining
        decreases |others|
      {
        WorkerTurn(View(), NextTurn(), FreeCpu, [], 0);
        LetWorkerRun();
      }
      if workerAt != Exited {
        return false;
      }
      StepKeeps(View(), Joined);
      JoinWorker();
      GoodFacts(View());
    }

    /** cycle_count. Between two calls the answer is the sum of the simulate arguments since the callbacks
        were set, if and only if no step was left out and the sum fits in an int, or the conversions meet it
        again; during a simulate it is what was last read, and nothing is queued. */
    method CycleCountCall() returns (done: bool, value: nat)
      requires Good(View()) && Enabled(View(), CycleCount)
      modifies this, cpu
      ensures Good(View())
      ensures old(simStarted) ==> done && View() == old(View()) && value == ToU64(nCycles)
      ensures !old(simStarted) && done ==> mainAt == Ready && Returned(old(tasks), GetCycles)
      ensures !old(simStarted) && done ==> (value == old(asked) <==> Survives(old(asked), missed))
      ensures !old(simStarted) && done ==> nCycles == ToInt(cpu.steps)
      ensures !done ==> others == []
    {
      hide Good, ToInt, ToU64;
      if simStarted {
        var _ := AskCycles();
        return true, ToU64(nCycles);
      }
      var t := |tasks|;
      ghost var earlier, wanted := tasks, asked;
      CallBegins(View(), CycleCount, GetCycles);
      var _ := AskCycles();
      done := AwaitTask(t, GetCycles, earlier, wanted);
      if !done {
        return false, 0;
      }
      CallServed(View(), GetCycles, earlier, wanted);
      CountAnswer(View(), earlier, wanted);
      StepKeeps(View(), Answered);
      TakeAnswer();
      value := tasks[t].value;
    }

    /** After the push: the flag is raised, which lets memory accesses through. */
    method Announce(t: nat, ghost kind: Kind, ghost earlier: seq<Task>, ghost wanted: nat)
      requires mainAt == Pushed(t) && Under(kind, earlier, wanted)
      modifies `simStarted, `mainAt
      ensures mainAt == Check(t) && simStarted && Under(kind, earlier, wanted)
    {
      hide Good, Calling;
      LoopStep(View(), RaiseFlag, kind, earlier, wanted);
      RaiseStarted();
    }

    /** The head of the loop of simulate. */
    method LoopHead(t: nat, ghost kind: Kind, ghost earlier: seq<Task>, ghost wanted: nat)
      requires mainAt == Check(t) && t == |earlier| && Under(kind, earlier, wanted)
      modifies this, cpu
      ensures Under(kind, earlier, wanted) && t < |tasks|
      ensures mainAt == if tasks[t].sets > 0 then Leaving(t) else Testing(t)
      ensures others == if old(others) == [] then [] else old(others)[1..]
      ensures old(others) == [] ==> memtaskQueue == old(memtaskQueue) && tasks == old(tasks)
    {
      hide Good;
      WorkerGap(kind, earlier, wanted);
      LoopStep(View(), LoopTest, kind, earlier, wanted);
      TestDone();
    }

    /** The wait of simulate, with a memory access or the promise as its outcome; false if the gaps end
        first. */
    method AwaitAccess(t: nat, ghost kind: Kind, ghost earlier: seq<Task>, ghost wanted: nat) returns (woken: bool)
      requires mainAt == Testing(t) && t == |earlier| && Under(kind, earlier, wanted)
      modifies this, cpu
      ensures Under(kind, earlier, wanted)
      ensures woken ==> mainAt == Check(t) || (mainAt.Serve? && mainAt.t == t)
      ensures woken && others == old(others) ==>
                tasks == old(tasks) && (tasks[t].sets > 0 || |memtaskQueue| < |old(memtaskQueue)|)
      ensures !woken ==> others == []
      ensures |others| < |old(others)| || others == old(others)
    {
      hide Good;
      TestWait(t, kind, earlier, wanted);
      while mainAt == Tested(t)
        invariant Under(kind, earlier, wanted)
        invariant mainAt == Tested(t) || mainAt == Check(t) || (mainAt.Serve? && mainAt.t == t)
        invariant others == old(others) && mainAt != Tested(t) ==>
                    tasks == old(tasks) && (tasks[t].sets > 0 || |memtaskQueue| < |old(memtaskQueue)|)
        invariant |others| < |old(others)| || others == old(others)
        decreases |others|
      {
        WorkerGap(kind, earlier, wanted);
        woken := SleepOn(t, kind, earlier, wanted);
        if !woken {
          return;
        }
        TestWait(t, kind, earlier, wanted);
      }
      woken := true;
    }

    /** The test of the condition. */
    method TestWait(t: nat, ghost kind: Kind, ghost earlier: seq<Task>, ghost wanted: nat)
      requires mainAt == Testing(t) && t == |earlier| && Under(kind, earlier, wanted)
      modifies `mainAt, `memtaskQueue
      ensures Under(kind, earlier, wanted)
      ensures mainAt == Tested(t) || mainAt == Check(t) || (mainAt.Serve? && mainAt.t == t)
      ensures mainAt != Tested(t) ==> tasks[t].sets > 0 || |memtaskQueue| < |old(memtaskQueue)|
    {
      hide Good;
      LoopStep(View(), WakeUp, kind, earlier, wanted);
      TakeAccess();
    }

    /** Asleep until notified; false if the gaps end first. */
    method SleepOn(t: nat, ghost kind: Kind, ghost earlier: seq<Task>, ghost wanted: nat) returns (woken: bool)
      requires mainAt == Tested(t) && t == |earlier| && Under(kind, earlier, wanted)
      modifies this, cpu
      ensures Under(kind, earlier, wanted)
      ensures woken ==> mainAt == Testing(t) && |others| < |old(others)|
      ensures !woken ==> mainAt == Asleep(t) && others == []
      ensures |others| < |old(others)| || others == old(others)
    {
      hide Good;
      LoopStep(View(), FallAsleep, kind, earlier, wanted);
      GoToSleep();
      while mainAt == Asleep(t) && others != []
        invariant Under(kind, earlier, wanted)
        invariant mainAt == Asleep(t) || (mainAt == Testing(t) && |others| < |old(others)|)
        invariant |others| < |old(others)| || others == old(others)
        decreases |others|
      {
        WorkerGap(kind, earlier, wanted);
      }
      woken := mainAt == Testing(t);
    }

    /** The bus serves a memory access, if that was the outcome of the wait. */
    method ServeAccess(t: nat, ghost kind: Kind, ghost earlier: seq<Task>, ghost wanted: nat)
      requires mainAt == Check(t) || (mainAt.Serve? && mainAt.t == t)
      requires t == |earlier| && Under(kind, earlier, wanted)
      modifies this, cpu
      ensures mainAt == Check(t) && Under(kind, earlier, wanted)
      ensures |others| < |old(others)| || others == old(others)
      ensures old(others) == [] ==> tasks == old(tasks) && memtaskQueue == old(memtaskQueue)
    {
      hide Good;
      if mainAt.Serve? {
        WorkerGap(kind, earlier, wanted);
        GoodFacts(View());
        LoopStep(View(), AccessDone, kind, earlier, wanted);
        FinishAccess();
      }
    }

    /** simulate: the push, the flag, and the loop that serves the memory accesses of the worker until the
        promise is set. On return every step asked for has been counted or left out after one that raised. */
    method Simulate(n: nat) returns (done: bool)
      requires Good(View()) && mainAt == Ready
      modifies this, cpu
      ensures Good(View())
      ensures done ==> mainAt == Ready && !simStarted && Returned(old(tasks), Kind.Simulate(n))
      ensures done ==> cpu.steps + missed == old(asked) + n && nCycles == ToInt(cpu.steps)
      ensures !done ==> others == []
    {
      hide Good, Calling, ToInt, ToU64, ApplyMain;
      var t := |tasks|;
      ghost var kind, earlier, wanted := Kind.Simulate(n), tasks, asked;
      StartCall(n);
      WorkerGap(kind, earlier, wanted);
      Announce(t, kind, earlier, wanted);
      LoopHead(t, kind, earlier, wanted);
      while mainAt.Testing?
        invariant Under(kind, earlier, wanted) && t < |tasks|
        invariant mainAt == if tasks[t].sets > 0 then Leaving(t) else Testing(t)
        decreases |others|, |memtaskQueue|
      {
        var woken := AwaitAccess(t, kind, earlier, wanted);
        if !woken {
          return false;
        }
        ServeAccess(t, kind, earlier, wanted);
        LoopHead(t, kind, earlier, wanted);
      }
      FinishCall(t, kind, earlier, wanted);
      done := true;
    }

    method StartCall(n: nat)
      requires Good(View()) && mainAt == Ready
      modifies `tasks, `taskQueue, `mainAt, `stopWorker
      ensures Under(Kind.Simulate(n), old(tasks), old(asked)) && mainAt == Pushed(|old(tasks)|)
    {
      hide Good;
      CallBegins(View(), Submit(Kind.Simulate(n)), Kind.Simulate(n));
      SubmitTask(Kind.Simulate(n));
    }

    method FinishCall(t: nat, ghost kind: Kind, ghost earlier: seq<Task>, ghost wanted: nat)
      requires mainAt == Leaving(t) && t == |earlier| && Under(kind, earlier, wanted) && kind.Simulate?
      requires t < |tasks| && tasks[t].sets > 0
      modifies `simStarted, `mainAt
      ensures Good(View()) && mainAt == Ready && !simStarted && Returned(earlier, kind)
      ensures cpu.steps + missed == wanted + kind.cycles && nCycles == ToInt(cpu.steps)
    {
      hide Good, ToInt, ToU64;
      CallServed(View(), kind, earlier, wanted);
      StepKeeps(View(), Leave);
      LeaveLoop();
    }

    // ------------------------------------------------------------ the worker

    method MainGap()
      requires Good(View())
      modifies this, cpu
      ensures Good(View()) && workerAt == old(workerAt) && cpu.steps == old(cpu.steps) && program == old(program)
      ensures old(tasks) <= tasks && |accesses| == |old(accesses)|
      ensures others == if old(others) == [] then [] else old(others)[1..]
      ensures old(others) == [] ==> View() == old(View())
    {
      hide Good;
      MainTurn(View(), NextTurn());
      LetMainRun();
    }

    /** The wait of read_mem and write_mem for the result; false if the gaps end first. */
    method AwaitResult(t: nat, k: nat, a: nat) returns (ok: bool)
      requires Good(View()) && workerAt == Worker.Blocked(t, k, a)
      modifies this, cpu
      ensures Good(View()) && old(tasks) <= tasks && cpu.steps == old(cpu.steps) && program == old(program)
      ensures ok ==> workerAt == InStep(t, k) && a < |accesses| && accesses[a].sets == 1
      ensures !ok ==> others == []
      ensures |others| <= |old(others)| && (old(others) == [] ==> taskQueue == old(taskQueue))
    {
      hide Good, ToInt, ToU64, InRange;
      GoodFacts(View());
      while accesses[a].sets == 0 && others != []
        invariant Good(View()) && workerAt == Worker.Blocked(t, k, a) && a < |accesses|
        invariant old(tasks) <= tasks && cpu.steps == old(cpu.steps) && program == old(program)
        invariant |others| <= |old(others)| && (old(others) == [] ==> taskQueue == old(taskQueue))
        decreases |others|
      {
        MainGap();
      }
      if accesses[a].sets == 0 {
        return false;
      }
      StepKeeps(View(), Resume);
      TakeResult();
      GoodFacts(View());
      ok := true;
    }

    /** One memory access from inside a step. */
    method AccessMemory(address: nat) returns (ok: bool)
      requires Good(View()) && workerAt.InStep?
      modifies this, cpu
      ensures Good(View()) && old(tasks) <= tasks && cpu.steps == old(cpu.steps) && program == old(program)
      ensures ok ==> workerAt == old(workerAt)
      ensures !ok ==> others == []
      ensures |others| <= |old(others)| && (old(others) == [] ==> taskQueue == old(taskQueue))
    {
      hide Good, Apply, ApplyMain, ApplyWorker, InRange;
      var t, k := workerAt.t, workerAt.k;
      var pass := TryCallback(address);
      if !pass {
        return true;
      }
      ok := AwaitMutex();
      if !ok {
        return;
      }
      var a := |accesses|;
      Queue();
      MainGap();
      AnnounceAccess();
      ok := AwaitResult(t, k, a);
    }

    method TryCallback(address: nat) returns (pass: bool)
      requires Good(View()) && workerAt.InStep?
      modifies `workerAt
      ensures Good(View())
      ensures workerAt == if pass then Allowed(old(workerAt).t, old(workerAt).k, address) else old(workerAt)
    {
      hide Good, ApplyMain, InRange;
      StepKeeps(View(), TryAccess(address));
      pass := MemoryCallback(address);
    }

    /** The mutex of the memory accesses is free unless the SystemC side is about to sleep; false if the gaps
        end first. */
    method AwaitMutex() returns (ok: bool)
      requires Good(View()) && workerAt.Allowed?
      modifies this, cpu
      ensures Good(View()) && workerAt == old(workerAt)
      ensures old(tasks) <= tasks && cpu.steps == old(cpu.steps) && program == old(program)
      ensures ok ==> !mainAt.Tested?
      ensures !ok ==> others == []
      ensures |others| <= |old(others)| && (old(others) == [] ==> taskQueue == old(taskQueue))
    {
      hide Good, InRange;
      MainGap();
      while mainAt.Tested? && others != []
        invariant Good(View()) && workerAt == old(workerAt)
        invariant old(tasks) <= tasks && cpu.steps == old(cpu.steps) && program == old(program)
        invariant |others| <= |old(others)| && (old(others) == [] ==> taskQueue == old(taskQueue))
        decreases |others|
      {
        MainGap();
      }
      ok := !mainAt.Tested?;
    }

    method Queue()
      requires Good(View()) && workerAt.Allowed? && !mainAt.Tested?
      modifies `accesses, `memtaskQueue, `workerAt
      ensures Good(View()) && workerAt == Announcing(old(workerAt).t, old(workerAt).k, |old(accesses)|)
      ensures |accesses| == |old(accesses)| + 1
    {
      hide Good, ApplyMain;
      StepKeeps(View(), PushAccess);
      PushMemtask();
    }

    method AnnounceAccess()
      requires Good(View()) && workerAt.Announcing?
      modifies `mainAt, `workerAt
      ensures Good(View()) && workerAt == Worker.Blocked(old(workerAt).t, old(workerAt).k, old(workerAt).a)
    {
      hide Good, ApplyMain;
      StepKeeps(View(), NotifyAccess);
      NotifyMemtask();
    }

    /** The memory accesses of one step. */
    method AccessAll(addresses: seq<nat>) returns (ok: bool)
      requires Good(View()) && workerAt.InStep?
      modifies this, cpu
      ensures Good(View()) && old(tasks) <= tasks && cpu.steps == old(cpu.steps)
      ensures ok ==> workerAt == old(workerAt)
      ensures !ok ==> others == []
      ensures |others| <= |old(others)| && (old(others) == [] ==> taskQueue == old(taskQueue))
    {
      hide Good;
      var j := 0;
      while j < |addresses|
        invariant 0 <= j <= |addresses|
        invariant Good(View()) && workerAt == old(workerAt)
        invariant old(tasks) <= tasks && cpu.steps == old(cpu.steps)
        invariant |others| <= |old(others)| && (old(others) == [] ==> taskQueue == old(taskQueue))
      {
        ok := AccessMemory(addresses[j]);
        if !ok {
          return;
        }
        j := j + 1;
      }
      ok := true;
    }

    /** One step of the processor with its memory accesses. */
    method RunInstruction(t: nat, k: nat) returns (ok: bool)
      requires Good(View()) && workerAt == Stepping(t, k) && k < Length(t)
      modifies this, cpu
      ensures Good(View()) && old(tasks) <= tasks && cpu.steps == old(cpu.steps) + 1
      ensures ok ==> workerAt.Stepping? && workerAt.t == t && k < workerAt.k <= Length(t)
      ensures !ok ==> others == []
      ensures |others| <= |old(others)| && (old(others) == [] ==> taskQueue == old(taskQueue))
    {
      hide Good, Apply, ApplyWorker, ApplyMain;
      var i := if program == [] then Instruction([], false) else program[0];
      program := if program == [] then [] else program[1..];
      StartInstruction(t, k);
      ok := AccessAll(i.addresses);
      if ok {
        CloseInstruction(t, k, i.raises);
      }
    }

    method StartInstruction(t: nat, k: nat)
      requires Good(View()) && workerAt == Stepping(t, k) && k < Length(t)
      modifies `workerAt, cpu`steps
      ensures Good(View()) && workerAt == InStep(t, k) && cpu.steps == old(cpu.steps) + 1
    {
      hide Good, ApplyMain;
      StepKeeps(View(), BeginStep);
      BeginInstruction();
    }

    method CloseInstruction(t: nat, k: nat, raises: bool)
      requires Good(View()) && workerAt == InStep(t, k) && k < Length(t)
      modifies `workerAt, `missed
      ensures Good(View()) && workerAt == Stepping(t, if raises then Length(t) else k + 1)
    {
      hide Good, ApplyMain;
      StepKeeps(View(), if raises then RaiseInStep else EndStep);
      EndInstruction(raises);
    }

    /** The Simulate handler from its first step on. When it is done its promise is set once, and so is that
        of every memory access made. */
    method RunSimulate(t: nat) returns (ok: bool)
      requires Good(View()) && workerAt == Stepping(t, 0)
      modifies this, cpu
      ensures Good(View()) && |old(tasks)| <= |tasks|
      ensures ok ==> workerAt == Closing(true) && t < |tasks| && tasks[t].sets == 1
      ensures ok ==> nCycles == ToInt(cpu.steps) && cpu.steps + missed == asked
      ensures ok ==> forall i :: 0 <= i < |accesses| ==> accesses[i].sets == 1
      ensures !ok ==> others == []
      ensures |others| <= |old(others)| && (old(others) == [] ==> taskQueue == old(taskQueue))
    {
      hide Good, ToInt, ToU64, ApplyWorker, ApplyMain;
      GoodFacts(View());
      while workerAt.k < Length(t)
        invariant Good(View()) && workerAt.Stepping? && workerAt.t == t < |tasks| && workerAt.k <= Length(t)
        invariant old(tasks) <= tasks
        invariant |others| <= |old(others)| && (old(others) == [] ==> taskQueue == old(taskQueue))
        decreases Length(t) - workerAt.k
      {
        ok := RunInstruction(t, workerAt.k);
        if !ok {
          return;
        }
      }
      StepKeeps(View(), EndSimulate);
      FinishSimulate();
      GoodFacts(View());
      ok := true;
    }

    /** A task from its handler to the end of it, with the promise set once. */
    method ServeTask(t: nat) returns (ok: bool)
      requires Good(View()) && workerAt == Handling(t)
      modifies this, cpu
      ensures Good(View())
      ensures ok ==> workerAt == Idle && t < |tasks| && tasks[t].sets == 1
      ensures !ok ==> others == []
      ensures |others| < |old(others)| || (others == old(others) == [] && (ok ==> taskQueue == old(taskQueue)))
    {
      hide Good, ToInt, ToU64, ApplyWorker, ApplyMain;
      StartTask(t);
      ok := true;
      if workerAt.Stepping? {
        ok := RunSimulate(t);
        if !ok {
          return;
        }
      }
      MainGap();
      StepKeeps(View(), Notified);
      GoIdle();
    }

    /** The handler; Simulate as far as its first step. */
    method StartTask(t: nat)
      requires Good(View()) && workerAt == Handling(t)
      modifies `tasks, `workerAt, `nCycles, `asked, `missed, `before, `stale, cpu
      ensures Good(View()) && (workerAt == Stepping(t, 0) || workerAt == Closing(false))
      ensures workerAt == Closing(false) ==> t < |tasks| && tasks[t].sets == 1
    {
      hide Good, ToInt, ToU64;
      GoodFacts(View());
      StepKeeps(View(), Handle);
      RunHandler();
      if workerAt.Closing? {
        GoodFacts(View());
      }
    }

    /** python_worker_loop: it exits only when it has been told to and its queue is empty, with the promise of
        every task set exactly once, and of every memory access. */
    method PythonWorkerLoop() returns (exited: bool)
      requires Good(View()) && workerAt == Idle
      modifies this, cpu
      ensures Good(View())
      ensures exited ==> workerAt == Exited && stopWorker && taskQueue == [] && memtaskQueue == []
      ensures exited ==> forall i :: 0 <= i < |tasks| ==> tasks[i].sets == 1
      ensures exited ==> forall i :: 0 <= i < |accesses| ==> accesses[i].sets == 1
      ensures !exited ==> others == []
    {
      hide Good, ToInt, ToU64;
      while true
        invariant Good(View()) && workerAt == Idle
        decreases |others|, |taskQueue|
      {
        var woken := AwaitWork();
        if !woken {
          return false;
        }
        StepKeeps(View(), if taskQueue != [] then PopTask else Exit);
        var more := TakeTask();
        if !more {
          GoodFacts(View());
          return true;
        }
        var ok := ServeTask(workerAt.t);
        if !ok {
          return false;
        }
      }
      exited := false;
    }

    /** The wait of the worker; false if the gaps end first. */
    method AwaitWork() returns (woken: bool)
      requires Good(View()) && workerAt == Idle
      modifies this, cpu
      ensures Good(View()) && workerAt == Idle
      ensures woken <==> taskQueue != [] || stopWorker
      ensures !woken ==> others == []
      ensures |others| <= |old(others)| && (|others| == |old(others)| ==> taskQueue == old(taskQueue))
    {
      hide Good;
      while taskQueue == [] && !stopWorker && others != []
        invariant Good(View()) && workerAt == Idle
        invariant |others| <= |old(others)| && (|others| == |old(others)| ==> taskQueue == old(taskQueue))
        decreases |others|
      {
        MainGap();
      }
      woken := taskQueue != [] || stopWorker;
    }
  }
}
