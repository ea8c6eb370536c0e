/** The condition-variable protocol of Worker: the worker thread in internalRoutine and VSyncWorker::routine,
    any number of threads that call controlVSync, the thread that ran initWorker, and one in exitWorker.
    Each step is one the scheduler can interleave; a spurious wake-up is a step like any other. */
module WorkerProtocol {
  /** Who holds mMutex. */
  datatype Owner = Nobody | Worker | Control(thread: nat) | Exiter | Initializer

  /** Where the worker thread is. */
  datatype WorkerPc =
    | Top            // about to lock in internalRoutine
    | CheckExit      // holds the lock, before shouldExit()
    | RoutineLock    // about to lock in routine
    | CheckEnabled   // holds the lock, before the test of mEnabled
    | WaitCheck      // holds the lock, before the first shouldExit() of the wait
    | Parked         // waits on mCond
    | Woken          // notified, or woken for no reason; about to lock again
    | Recheck        // holds the lock, before the second shouldExit()
    | ReadEnabled    // holds the lock, before copying mEnabled and unlocking
    | Work           // waits for the vertical blank and calls back, without the lock
    | Left           // internalRoutine returned

  /** Where a caller of controlVSync is. */
  datatype ControlPc = Idle | Locked(enable: bool) | Assigned(enable: bool) | Notified(enable: bool)

  /** Where the caller of exitWorker is. */
  datatype ExitPc = NotCalled | Holding | ExitSet | Unlocked | Joining | Joined

  datatype State = State(
    owner: Owner, worker: WorkerPc, controls: seq<ControlPc>, exiter: ExitPc,
    initializing: bool, exit: bool, initialized: bool, enabled: bool)

  datatype Action = RunWorker | WakeWorker | RunControl(thread: nat, enable: bool) | RunExit | RunInit

  /** The thread is created while initWorker holds the lock; mExit may still be set from an earlier run. */
  function Start(threads: nat, exit: bool, enabled: bool): (s: State)
    ensures |s.controls| == threads
  {
    State(Initializer, Top, seq(threads, _ => Idle), NotCalled, true, exit, false, enabled)
  }

  predicate HoldsLock(pc: WorkerPc) {
    pc == CheckExit || pc == CheckEnabled || pc == WaitCheck || pc == Recheck || pc == ReadEnabled
  }

  predicate WantsLock(pc: WorkerPc) {
    pc == Top || pc == RoutineLock || pc == Woken
  }

  /** The worker cannot move: it waits for the lock or on the condition, or is gone. */
  predicate Blocked(s: State) {
    (WantsLock(s.worker) && s.owner != Nobody) || s.worker == Parked || s.worker == Left
  }

  function WorkerStep(s: State): State {
    if Blocked(s) then s
    else match s.worker
      case Top => s.(worker := CheckExit, owner := Worker)
      case CheckExit => s.(worker := if s.exit then Left else RoutineLock, owner := Nobody)
      case RoutineLock => s.(worker := CheckEnabled, owner := Worker)
      case CheckEnabled => s.(worker := if s.enabled then ReadEnabled else WaitCheck)
      case WaitCheck => s.(worker := if s.exit then Top else Parked, owner := Nobody)
      case Woken => s.(worker := Recheck, owner := Worker)
      case Recheck => if s.exit then s.(worker := Top, owner := Nobody) else s.(worker := ReadEnabled)
      case ReadEnabled => s.(worker := if s.enabled then Work else Top, owner := Nobody)
      case Work => s.(worker := Top)
      case Parked => s
      case Left => s
  }

  /** notify_all */
  function Notify(pc: WorkerPc): WorkerPc {
    if pc == Parked then Woken else pc
  }

  /** controlVSync: lock, assign, signal, unlock. */
  function ControlStep(s: State, i: nat, enable: bool): State
    requires i < |s.controls|
  {
    match s.controls[i]
    case Idle => if s.owner != Nobody then s else s.(owner := Control(i), controls := s.controls[i := Locked(enable)])
    case Locked(e) => s.(enabled := e, controls := s.controls[i := Assigned(e)])
    case Assigned(e) => s.(worker := Notify(s.worker), controls := s.controls[i := Notified(e)])
    case Notified(_) => s.(owner := Nobody, controls := s.controls[i := Idle])
  }

  /** exitWorker: lock, set mExit, unlock, notify, join. */
  function ExitStep(s: State): State {
    match s.exiter
    case NotCalled => if s.owner != Nobody then s else s.(owner := Exiter, exiter := Holding)
    case Holding => s.(exit := true, exiter := ExitSet)
    case ExitSet => s.(owner := Nobody, exiter := if s.initialized then Unlocked else Joined)
    case Unlocked => s.(worker := Notify(s.worker), exiter := Joining)
    case Joining => if s.worker != Left then s else s.(exiter := Joined, initialized := false)
    case Joined => s
  }

  /** The end of initWorker. */
  function InitStep(s: State): State {
    if !s.initializing then s
    else s.(initialized := true, exit := false, initializing := false, owner := Nobody)
  }

  /** A step of some thread. A thread that is blocked stays where it is. */
  function Step(s: State, a: Action): (t: State)
    ensures |t.controls| == |s.controls|
  {
    match a
    case RunWorker => WorkerStep(s)
    case WakeWorker => s.(worker := Notify(s.worker))
    case RunControl(i, enable) => if i < |s.controls| then ControlStep(s, i, enable) else s
    case RunExit => ExitStep(s)
    case RunInit => InitStep(s)
  }

  function Run(s: State, schedule: seq<Action>): (t: State)
    ensures |t.controls| == |s.controls|
    decreases |schedule|
  {
    if schedule == [] then s else Run(Step(s, schedule[0]), schedule[1..])
  }

  /** Exactly the owner of the lock is between its lock and its unlock. */
  ghost predicate Exclusion(s: State) {
    && (s.owner == Worker <==> HoldsLock(s.worker))
    && (s.owner == Exiter <==> s.exiter == Holding || s.exiter == ExitSet)
    && (s.owner == Initializer <==> s.initializing)
    && (s.owner.Control? ==> s.owner.thread < |s.controls|)
    && (forall i :: 0 <= i < |s.controls| ==> (s.owner == Control(i) <==> s.controls[i] != Idle))
  }

  ghost predicate Inv(s: State) {
    && Exclusion(s)
    && (s.initializing ==> s.worker == Top && s.exiter == NotCalled && !s.initialized)
    && (!s.initializing ==> (s.exit <==> s.exiter != NotCalled && s.exiter != Holding))
    && (!s.initializing ==> (s.initialized <==> s.exiter != Joined))
    && (forall i :: 0 <= i < |s.controls| && (s.controls[i].Assigned? || s.controls[i].Notified?) ==>
          s.enabled == s.controls[i].enable)
    && (s.worker == WaitCheck ==> !s.enabled)
    && (s.worker == Left ==> s.exit)
    && (s.exiter == Joined ==> s.worker == Left)
    // no wake-up is lost
    && (s.exiter == Joining ==> s.worker != Parked)
    && (s.worker == Parked && s.enabled ==> s.owner.Control? && s.controls[s.owner.thread].Assigned?)
  }

  lemma WorkerKeeps(s: State)
    requires Inv(s)
    ensures Inv(WorkerStep(s)) && Inv(s.(worker := Notify(s.worker)))
  {
  }

  lemma ControlKeeps(s: State, i: nat, enable: bool)
    requires Inv(s) && i < |s.controls|
    ensures Inv(ControlStep(s, i, enable))
  {
  }

  lemma ExitKeeps(s: State)
    requires Inv(s)
    ensures Inv(ExitStep(s)) && Inv(InitStep(s))
  {
  }

  lemma StepKeeps(s: State, a: Action)
    requires Inv(s)
    ensures Inv(Step(s, a))
  {
    match a
    case RunWorker => WorkerKeeps(s);
    case WakeWorker => WorkerKeeps(s);
    case RunControl(i, enable) => if i < |s.controls| { ControlKeeps(s, i, enable); }
    case RunExit => ExitKeeps(s);
    case RunInit => ExitKeeps(s);
  }

  lemma {:induction false} RunKeeps(s: State, schedule: seq<Action>)
    requires Inv(s)
    ensures Inv(Run(s, schedule))
    decreases |schedule|
  {
    if schedule != [] {
      StepKeeps(s, schedule[0]);
      RunKeeps(Step(s, schedule[0]), schedule[1..]);
    }
  }

  /** Over every interleaving: once exitWorker has notified, the worker is not parked; and while vsync is
      enabled it is parked only between the assignment and the signal of a controlVSync. */
  lemma NoLostWakeup(threads: nat, exit: bool, enabled: bool, schedule: seq<Action>)
    ensures var s := Run(Start(threads, exit, enabled), schedule);
            && (s.exiter == Joining || s.exiter == Joined ==> s.worker != Parked)
            && (s.enabled && s.worker == Parked ==>
                  exists i :: 0 <= i < threads && s.owner == Control(i) && s.controls[i].Assigned?)
  {
    RunKeeps(Start(threads, exit, enabled), schedule);
  }

  /** When controlVSync(true) returns, vsync is enabled and the worker is not parked. */
  lemma EnabledOnReturn(threads: nat, exit: bool, enabled: bool, schedule: seq<Action>, i: nat, any: bool)
    requires i < threads
    ensures var s := Run(Start(threads, exit, enabled), schedule);
            s.controls[i] == Notified(true) ==>
              var t := Step(s, RunControl(i, any));
              t.controls[i] == Idle && t.owner == Nobody && t.enabled && t.worker != Parked
  {
    RunKeeps(Start(threads, exit, enabled), schedule);
  }

  /** join() returns only when the worker has left, and leaves the worker uninitialized. */
  lemma JoinedMeansLeft(threads: nat, exit: bool, enabled: bool, schedule: seq<Action>)
    ensures var s := Run(Start(threads, exit, enabled), schedule);
            s.exiter == Joined ==> s.worker == Left && !s.initialized
  {
    RunKeeps(Start(threads, exit, enabled), schedule);
  }

  /** How many steps of its own the worker needs, at most, to leave once mExit is set for good. */
  function Distance(pc: WorkerPc): nat {
    match pc
    case Left => 0
    case CheckExit => 1
    case Top => 2
    case Work => 3
    case WaitCheck => 3
    case Recheck => 3
    case ReadEnabled => 4
    case Woken => 4
    case CheckEnabled => 5
    case Parked => 5
    case RoutineLock => 6
  }

  /** The steps of a schedule in which the worker gets somewhere. */
  function Moves(s: State, schedule: seq<Action>): nat
    decreases |schedule|
  {
    if schedule == [] then 0
    else
      (if schedule[0] == RunWorker && !Blocked(s) then 1 else 0) + Moves(Step(s, schedule[0]), schedule[1..])
  }

  lemma ExitStepCounts(s: State, a: Action)
    requires Inv(s) && s.exiter in {Joining, Joined}
    ensures Step(s, a).exiter in {Joining, Joined}
    ensures if a == RunWorker && !Blocked(s) then Distance(Step(s, a).worker) < Distance(s.worker)
            else Step(s, a).worker == s.worker
  {
  }

  /** After the notify, no other thread sets the worker back, so six moves are enough for it to leave. */
  lemma {:induction false} LeavesWithinSixMoves(s: State, schedule: seq<Action>)
    requires Inv(s) && s.exiter in {Joining, Joined}
    ensures Distance(Run(s, schedule).worker) + Moves(s, schedule) <= Distance(s.worker) <= 6
    ensures Moves(s, schedule) == Distance(s.worker) ==> Run(s, schedule).worker == Left
    decreases |schedule|
  {
    if schedule != [] {
      ExitStepCounts(s, schedule[0]);
      StepKeeps(s, schedule[0]);
      LeavesWithinSixMoves(Step(s, schedule[0]), schedule[1..]);
    }
  }

  /** Then the worker is kept from moving only by a controlVSync, which frees the lock in three steps. */
  lemma OnlyControlBlocks(s: State, any: bool)
    requires Inv(s) && s.exiter == Joining && s.worker != Left && Blocked(s)
    ensures s.owner.Control? && s.owner.thread < |s.controls|
    ensures var a := RunControl(s.owner.thread, any);
            var one := Step(s, a); var two := Step(one, a); var three := Step(two, a);
            !Blocked(one) || !Blocked(two) || !Blocked(three)
  {
    hide Step, Blocked;
    BlockedByControl(s);
    var i := s.owner.thread;
    var one := Step(s, RunControl(i, any));
    ControlMoves(s, i, any);
    if !s.controls[i].Notified? {
      ControlMoves(one, i, any);
      if !one.controls[i].Notified? {
        ControlMoves(Step(one, RunControl(i, any)), i, any);
      }
    }
  }

  lemma BlockedByControl(s: State)
    requires Inv(s) && s.exiter == Joining && s.worker != Left && Blocked(s)
    ensures s.owner.Control? && HeldBy(s, s.owner.thread)
  {
  }

  /** A caller of controlVSync is what the worker waits for. */
  predicate HeldBy(s: State, i: nat) {
    s.owner == Control(i) && i < |s.controls| && s.controls[i] != Idle && WantsLock(s.worker)
  }

  lemma ControlMoves(s: State, i: nat, any: bool)
    requires HeldBy(s, i)
    ensures var t := Step(s, RunControl(i, any));
            if s.controls[i].Notified? then !Blocked(t)
            else HeldBy(t, i) && if s.controls[i].Locked? then t.controls[i].Assigned? else t.controls[i].Notified?
  {
  }

  /** How many steps bring the worker to the vertical blank when vsync is enabled. */
  function ToWork(pc: WorkerPc): nat {
    match pc
    case Work => 0
    case ReadEnabled => 1
    case CheckEnabled => 2
    case Recheck => 2
    case RoutineLock => 3
    case Woken => 3
    case CheckExit => 4
    case Top => 5
    case WaitCheck => 6
    case Parked => 6
    case Left => 6
  }

  function Alone(s: State, steps: nat): State
    decreases steps
  {
    if steps == 0 then s else Alone(WorkerStep(s), steps - 1)
  }

  /** Left to itself after a controlVSync(true), the worker is at the vertical blank in five steps. */
  lemma {:induction false} EnabledReachesWork(s: State)
    requires Inv(s) && s.enabled && !s.exit && s.owner in {Nobody, Worker}
    ensures ToWork(s.worker) <= 5 && Alone(s, ToWork(s.worker)).worker == Work
    decreases ToWork(s.worker)
  {
    WorkerKeeps(s);
    if s.worker != Work {
      EnabledReachesWork(WorkerStep(s));
    }
  }

  // ----- whole calls -----

  /** A controlVSync that runs to its end, whatever its later steps are called with: vsync is as asked for,
      the lock is free, and a worker that was asleep is awake. */
  lemma ControlReturns(s: State, i: nat, enable: bool, any: bool)
    requires i < |s.controls| && s.controls[i] == Idle && s.owner == Nobody
    ensures var t := Run(s, [RunControl(i, enable), RunControl(i, any), RunControl(i, any), RunControl(i, any)]);
            t == s.(enabled := enable, worker := if s.worker == Parked then Woken else s.worker)
  {
    hide Step;
    var a, b := RunControl(i, enable), RunControl(i, any);
    var one := s.(owner := Control(i), controls := s.controls[i := Locked(enable)]);
    var two := one.(enabled := enable, controls := s.controls[i := Assigned(enable)]);
    var three := two.(worker := Notify(s.worker), controls := s.controls[i := Notified(enable)]);
    ControlSteps(s, i, enable, any);
    RunFour(s, a, b, b, b);
    assert three.controls[i := Idle] == s.controls;
  }

  lemma ControlSteps(s: State, i: nat, enable: bool, any: bool)
    requires i < |s.controls| && s.controls[i] == Idle && s.owner == Nobody
    ensures var b := RunControl(i, any);
            var one := s.(owner := Control(i), controls := s.controls[i := Locked(enable)]);
            var two := one.(enabled := enable, controls := s.controls[i := Assigned(enable)]);
            var three := two.(worker := Notify(s.worker), controls := s.controls[i := Notified(enable)]);
            && Step(s, RunControl(i, enable)) == one && Step(one, b) == two && Step(two, b) == three
            && Step(three, b) == three.(owner := Nobody, controls := three.controls[i := Idle])
  {
  }

  lemma RunFour(s: State, a: Action, b: Action, c: Action, d: Action)
    ensures Run(s, [a, b, c, d]) == Step(Step(Step(Step(s, a), b), c), d)
  {
    hide Step;
    var one := Step(s, a);
    var two := Step(one, b);
    var three := Step(two, c);
    assert [d][1..] == [] && Run(three, [d]) == Step(three, d);
    assert [c, d][1..] == [d] && Run(two, [c, d]) == Run(three, [d]);
    assert [b, c, d][1..] == [c, d] && Run(one, [b, c, d]) == Run(two, [c, d]);
    assert [a, b, c, d][1..] == [b, c, d];
  }

  /** exitWorker up to its join: mExit is set, the worker is awake, and the lock is free. A worker that was
      not initialized is not waited for. When the worker has left, the join returns. */
  lemma ExitReturns(s: State)
    requires s.owner == Nobody
    ensures s.exiter == NotCalled && s.initialized ==>
              Run(s, [RunExit, RunExit, RunExit, RunExit])
              == s.(exit := true, exiter := Joining, worker := if s.worker == Parked then Woken else s.worker)
    ensures s.exiter == NotCalled && !s.initialized ==>
              Step(Step(Step(s, RunExit), RunExit), RunExit) == s.(exit := true, exiter := Joined)
    ensures s.exiter == Joining && s.worker == Left ==> Step(s, RunExit) == s.(exiter := Joined, initialized := false)
  {
    RunFour(s, RunExit, RunExit, RunExit, RunExit);
  }

  /** initWorker leaves a worker that may run, in no exit. */
  lemma InitReturns(threads: nat, exit: bool, enabled: bool)
    ensures var s := Step(Start(threads, exit, enabled), RunInit);
            && s.initialized && !s.initializing && !s.exit && s.owner == Nobody && s.worker == Top
            && s.exiter == NotCalled && s.enabled == enabled && forall i :: 0 <= i < threads ==> s.controls[i] == Idle
  {
  }

  /** A spurious wake-up is as good as a notification, and is all that happens in it. */
  lemma WokenForNoReason(s: State)
    ensures Step(s, WakeWorker) == s.(worker := if s.worker == Parked then Woken else s.worker)
  {
  }

  // ----- a disabled worker -----

  /** The step with which controlVSync(true) enables vsync. */
  predicate Enables(s: State, a: Action) {
    a.RunControl? && a.thread < |s.controls| && s.controls[a.thread] == Locked(true)
  }

  predicate AnyEnables(s: State, schedule: seq<Action>)
    decreases |schedule|
  {
    schedule != [] && (Enables(s, schedule[0]) || AnyEnables(Step(s, schedule[0]), schedule[1..]))
  }

  /** Some step brings the worker to the vertical blank. */
  predicate EntersWork(s: State, schedule: seq<Action>)
    decreases |schedule|
  {
    schedule != []
    && ((s.worker != Work && Step(s, schedule[0]).worker == Work) || EntersWork(Step(s, schedule[0]), schedule[1..]))
  }

  /** The worker waits for a blank only when it found vsync enabled, and nothing else enables it. */
  lemma WorkNeedsEnabled(s: State, a: Action)
    ensures s.worker != Work && Step(s, a).worker == Work ==> s.enabled && a == RunWorker
    ensures !s.enabled && Step(s, a).enabled ==> Enables(s, a)
  {
    if a != RunWorker {
      OthersDoNoWork(s, a);
    }
  }

  lemma OthersDoNoWork(s: State, a: Action)
    requires a != RunWorker
    ensures Step(s, a).worker == Work ==> s.worker == Work
    ensures !s.enabled && Step(s, a).enabled ==> Enables(s, a)
  {
    hide WorkerStep;
  }

  /** Over every interleaving, a disabled worker waits for no further blank before it is enabled again. */
  lemma {:induction false} NoWorkUntilEnabled(s: State, schedule: seq<Action>)
    requires !s.enabled && !AnyEnables(s, schedule)
    ensures !EntersWork(s, schedule)
    decreases |schedule|
  {
    hide Step;
    if schedule != [] {
      WorkNeedsEnabled(s, schedule[0]);
      NoWorkUntilEnabled(Step(s, schedule[0]), schedule[1..]);
    }
  }

  /** When controlVSync(false) returns, vsync is disabled, and whatever is interleaved later, the worker
      waits for no further blank before another controlVSync(true) has assigned. */
  lemma DisabledOnReturn(threads: nat, exit: bool, enabled: bool, schedule: seq<Action>, i: nat, any: bool,
                         later: seq<Action>)
    requires i < threads
    ensures var s := Run(Start(threads, exit, enabled), schedule);
            s.controls[i] == Notified(false) ==>
              var t := Step(s, RunControl(i, any));
              && t.controls[i] == Idle && t.owner == Nobody && !t.enabled
              && (!AnyEnables(t, later) ==> !EntersWork(t, later))
  {
    hide Run, AnyEnables, EntersWork;
    RunKeeps(Start(threads, exit, enabled), schedule);
    var s := Run(Start(threads, exit, enabled), schedule);
    if s.controls[i] == Notified(false) && !AnyEnables(Step(s, RunControl(i, any)), later) {
      NoWorkUntilEnabled(Step(s, RunControl(i, any)), later);
    }
  }

  /** How many steps park the worker when vsync is disabled. */
  function ToParked(pc: WorkerPc): nat {
    match pc
    case Parked => 0
    case WaitCheck => 1
    case CheckEnabled => 2
    case RoutineLock => 3
    case CheckExit => 4
    case Top => 5
    case ReadEnabled => 6
    case Work => 6
    case Recheck => 7
    case Woken => 8
    case Left => 9
  }

  /** Left to itself after a controlVSync(false), the worker sleeps on the condition in eight steps. */
  lemma {:induction false} DisabledParks(s: State)
    requires Inv(s) && !s.enabled && !s.exit && s.owner in {Nobody, Worker}
    ensures ToParked(s.worker) <= 8 && Alone(s, ToParked(s.worker)).worker == Parked
    decreases ToParked(s.worker)
  {
    WorkerKeeps(s);
    if s.worker != Parked {
      DisabledParks(WorkerStep(s));
    }
  }
}
