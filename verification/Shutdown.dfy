/** The permanent shutdown protocol (`shutdown` and `shutdown_inner`, lib/src/lib_core.rs): any number of
    callers, each of which may be cancelled while it waits, share one teardown task. */
module Shutdown {
  import opened Wrappers

  datatype Outcome = Succeeded | StopFailed | Crashed

  /** How far `shutdown_inner` has come. `Waiting` is before its drop guard exists. */
  datatype Phase =
    | Waiting
    | StopPass
    | StopEnded(clean: bool)
    | Cleared
    | LoopAborted
    | HandlesReleased
    | RuntimesTaken
    | Finished(outcome: Outcome)

  /** `passed`: its stop pass had no failure. `released`: it began to release the index handles. `taken`: it
      took the component runtimes out of the graph to drop them. */
  datatype Task = Task(phase: Phase, passed: bool, released: bool, taken: bool)

  datatype Call = Queued | Awaiting | Returned(ok: bool) | Cancelled

  datatype StartCall = InFlight | Rejected | Started

  /** `slot` is the guarded task slot and `lock` the call that holds it, `flag` is `is_shutdown`.
      `owned`, the runtimes at the start, and the counters record history only. */
  datatype State = State(
    flag: bool, running: bool, slot: Option<nat>, lock: Option<nat>,
    tasks: seq<Task>, calls: seq<Call>, starts: seq<StartCall>,
    runtimes: set<string>, owned: set<string>, joined: nat, completed: nat)

  datatype Step =
    | Invoke
    | Acquire(call: nat)
    | Join(call: nat)
    | Cancel(call: nat)
    | Advance(task: nat, clean: bool)
    | Crash(task: nat)
    | StartBegin
    | StartEnd(start: nat)

  function Initial(runtimes: set<string>): State {
    State(false, false, None, None, [], [], [], runtimes, runtimes, 0, 0)
  }

  predicate Live(t: Task) {
    !t.phase.Finished?
  }

  // ---------------------------------------------------------------- steps

  /** A call gets the lock and runs up to its next await, or returns at once. */
  function AcquireStep(s: State, c: nat): State
    requires c < |s.calls|
  {
    if s.slot.Some? then s.(lock := Some(c), calls := s.calls[c := Awaiting])
    else if s.flag then s.(calls := s.calls[c := Returned(true)])
    else s.(flag := true, tasks := s.tasks + [Task(Waiting, false, false, false)], slot := Some(|s.tasks|),
            lock := Some(c), calls := s.calls[c := Awaiting])
  }

  /** The awaited task is done: the call empties the slot and returns. */
  function JoinStep(s: State, c: nat, outcome: Outcome): State
    requires c < |s.calls|
  {
    s.(flag := if outcome.Crashed? then false else s.flag, slot := None, lock := None,
       calls := s.calls[c := Returned(outcome.Succeeded?)], joined := s.joined + 1)
  }

  /** One stretch of `shutdown_inner` between awaits. Only the end of the stop pass has a choice. */
  function AdvanceStep(s: State, t: nat, clean: bool): State
    requires t < |s.tasks|
  {
    var task := s.tasks[t];
    match task.phase
    case Waiting => s.(tasks := s.tasks[t := task.(phase := StopPass)])
    case StopPass => s.(tasks := s.tasks[t := task.(phase := StopEnded(clean), passed := clean)])
    case StopEnded(ok) =>
      if ok then s.(running := false, tasks := s.tasks[t := task.(phase := Cleared)])
      else s.(running := false, flag := false, tasks := s.tasks[t := task.(phase := Finished(StopFailed))])
    case Cleared => s.(tasks := s.tasks[t := task.(phase := LoopAborted)])
    case LoopAborted => s.(tasks := s.tasks[t := task.(phase := HandlesReleased, released := true)])
    case HandlesReleased => s.(runtimes := {}, tasks := s.tasks[t := task.(phase := RuntimesTaken, taken := true)])
    case RuntimesTaken => s.(completed := s.completed + 1, tasks := s.tasks[t := task.(phase := Finished(Succeeded))])
    case Finished(_) => s
  }

  /** A panic drops the guard, which re-arms the flag if it exists. */
  function CrashStep(s: State, t: nat): State
    requires t < |s.tasks|
  {
    s.(flag := if s.tasks[t].phase.Waiting? then s.flag else false,
       tasks := s.tasks[t := s.tasks[t].(phase := Finished(Crashed))])
  }

  /** The state after a step, or none if the step is not possible. */
  function Next(s: State, step: Step): Option<State> {
    match step
    case Invoke => Some(s.(calls := s.calls + [Queued]))
    case Acquire(c) =>
      if c < |s.calls| && s.calls[c].Queued? && s.lock.None? then Some(AcquireStep(s, c)) else None
    case Join(c) =>
      if c < |s.calls| && s.calls[c].Awaiting? && s.slot.Some? && s.slot.value < |s.tasks|
         && s.tasks[s.slot.value].phase.Finished?
      then Some(JoinStep(s, c, s.tasks[s.slot.value].phase.outcome)) else None
    case Cancel(c) =>
      if c < |s.calls| && s.calls[c].Queued? then Some(s.(calls := s.calls[c := Cancelled]))
      else if c < |s.calls| && s.calls[c].Awaiting? then Some(s.(lock := None, calls := s.calls[c := Cancelled]))
      else None
    case Advance(t, clean) => if t < |s.tasks| && Live(s.tasks[t]) then Some(AdvanceStep(s, t, clean)) else None
    case Crash(t) => if t < |s.tasks| && Live(s.tasks[t]) then Some(CrashStep(s, t)) else None
    case StartBegin => Some(s.(starts := s.starts + [if s.flag || s.running then Rejected else InFlight]))
    case StartEnd(i) =>
      if i < |s.starts| && s.starts[i].InFlight? then Some(s.(running := true, starts := s.starts[i := Started])) else None
  }

  function Run(s: State, steps: seq<Step>): Option<State> {
    if steps == [] then Some(s) else
    var before := Run(s, steps[..|steps| - 1]);
    if before.None? then None else Next(before.value, steps[|steps| - 1])
  }

  // ---------------------------------------------------------------- the invariant

  /** A task releases nothing before its stop pass ended clean, and nothing at all if it failed. */
  predicate TaskOk(t: Task) {
    match t.phase
    case Waiting => !t.passed && !t.released && !t.taken
    case StopPass => !t.passed && !t.released && !t.taken
    case StopEnded(ok) => t.passed == ok && !t.released && !t.taken
    case Cleared => t.passed && !t.released && !t.taken
    case LoopAborted => t.passed && !t.released && !t.taken
    case HandlesReleased => t.passed && t.released && !t.taken
    case RuntimesTaken => t.passed && t.released && t.taken
    case Finished(Succeeded) => t.passed && t.released && t.taken
    case Finished(StopFailed) => !t.passed && !t.released && !t.taken
    case Finished(Crashed) => (t.taken ==> t.released) && (t.released ==> t.passed)
  }

  ghost predicate Guarded(s: State) {
    && (forall c | 0 <= c < |s.calls| :: s.calls[c].Awaiting? <==> s.lock == Some(c))
    && (s.lock.Some? ==> s.lock.value < |s.calls| && s.slot.Some?)
    && (s.slot.Some? ==> s.slot.value == |s.tasks| - 1)
    && |s.tasks| == s.joined + (if s.slot.Some? then 1 else 0)
  }

  ghost predicate TasksOk(s: State) {
    && (forall t | 0 <= t < |s.tasks| :: TaskOk(s.tasks[t]))
    && (forall t | 0 <= t < |s.tasks| && Live(s.tasks[t]) :: s.slot == Some(t))
    && (forall t | 0 <= t < |s.tasks| && s.tasks[t].phase == Finished(Succeeded) :: t == |s.tasks| - 1 && s.completed == 1)
  }

  ghost predicate FlagOk(s: State) {
    && s.completed <= 1
    && (s.completed == 1 ==> s.flag && s.tasks != [] && s.tasks[|s.tasks| - 1].phase == Finished(Succeeded))
    && (s.slot.None? && s.flag ==> s.completed == 1)
    && (forall t | 0 <= t < |s.tasks| && Live(s.tasks[t]) :: s.flag)
    && (s.slot.Some? && s.slot.value < |s.tasks| && s.tasks[s.slot.value].phase == Finished(StopFailed) ==> !s.flag)
  }

  ghost predicate SomeTaken(s: State) {
    exists t | 0 <= t < |s.tasks| :: s.tasks[t].taken
  }

  /** The runtimes are in the graph until some teardown takes them. */
  ghost predicate RuntimesOk(s: State) {
    s.runtimes == if SomeTaken(s) then {} else s.owned
  }

  ghost predicate Inv(s: State) {
    && Guarded(s)
    && TasksOk(s)
    && FlagOk(s)
    && RuntimesOk(s)
    && (forall c | 0 <= c < |s.calls| && s.calls[c] == Returned(true) :: s.completed == 1)
  }

  /** The states the protocol can be in. */
  type Sound = s: State | Inv(s) witness Initial({})

  /** Steps that leave the teardown tasks, the slot and the flag alone need only keep the lock and the calls right. */
  lemma FrameKeepsInv(s: Sound, r: State)
    requires r == s.(calls := r.calls, lock := r.lock, starts := r.starts, running := r.running) && Guarded(r)
    requires forall c | 0 <= c < |r.calls| && r.calls[c] == Returned(true) :: s.completed == 1
    ensures Inv(r)
  {
    assert TasksOk(r);
    assert FlagOk(r);
    TakenUnchanged(s, r);
  }

  /** As long as no flag is raised, the runtimes stay where they are. */
  lemma TakenUnchanged(s: State, r: State)
    requires RuntimesOk(s) && r.runtimes == s.runtimes && r.owned == s.owned && |s.tasks| <= |r.tasks|
    requires forall t | 0 <= t < |r.tasks| :: r.tasks[t].taken <==> t < |s.tasks| && s.tasks[t].taken
    ensures RuntimesOk(r)
  {
    assert SomeTaken(s) <==> SomeTaken(r) by {
      if SomeTaken(s) {
        var t :| 0 <= t < |s.tasks| && s.tasks[t].taken;
        assert r.tasks[t].taken;
      }
    }
  }

  lemma SpawnKeepsInv(s: Sound, c: nat)
    requires c < |s.calls| && s.calls[c].Queued? && s.lock.None? && s.slot.None? && !s.flag
    ensures Inv(AcquireStep(s, c))
  {
    var r := AcquireStep(s, c);
    assert forall t | 0 <= t < |s.tasks| :: r.tasks[t] == s.tasks[t];
    assert TasksOk(r);
    assert FlagOk(r);
    TakenUnchanged(s, r);
  }

  lemma AcquireKeepsInv(s: Sound, c: nat)
    requires c < |s.calls| && s.calls[c].Queued? && s.lock.None?
    ensures Inv(AcquireStep(s, c))
  {
    if s.slot.None? && !s.flag {
      SpawnKeepsInv(s, c);
    } else {
      assert Guarded(AcquireStep(s, c));
      FrameKeepsInv(s, AcquireStep(s, c));
    }
  }

  lemma JoinKeepsInv(s: Sound, c: nat)
    requires Next(s, Join(c)).Some?
    ensures Inv(Next(s, Join(c)).value)
  {
    TakenUnchanged(s, Next(s, Join(c)).value);
  }

  lemma CancelKeepsGuarded(s: State, c: nat)
    requires Guarded(s) && Next(s, Cancel(c)).Some?
    ensures Guarded(Next(s, Cancel(c)).value)
  {
  }

  lemma CancelKeepsInv(s: Sound, c: nat)
    requires Next(s, Cancel(c)).Some?
    ensures Inv(Next(s, Cancel(c)).value)
  {
    CancelKeepsGuarded(s, c);
    FrameKeepsInv(s, Next(s, Cancel(c)).value);
  }

  lemma AdvanceKeepsTasks(s: Sound, t: nat, clean: bool)
    requires t < |s.tasks| && Live(s.tasks[t])
    ensures TasksOk(AdvanceStep(s, t, clean))
  {
    assert TaskOk(s.tasks[t]) && s.slot == Some(t);
  }

  lemma AdvanceKeepsFlag(s: Sound, t: nat, clean: bool)
    requires t < |s.tasks| && Live(s.tasks[t])
    ensures FlagOk(AdvanceStep(s, t, clean))
  {
    assert s.slot == Some(t);
  }

  lemma AdvanceKeepsRuntimes(s: Sound, t: nat, clean: bool)
    requires t < |s.tasks| && Live(s.tasks[t])
    ensures RuntimesOk(AdvanceStep(s, t, clean))
  {
    var r := AdvanceStep(s, t, clean);
    if s.tasks[t].phase.HandlesReleased? {
      assert r.tasks[t].taken;
    } else {
      TakenUnchanged(s, r);
    }
  }

  lemma AdvanceKeepsCalls(s: Sound, t: nat, clean: bool)
    requires t < |s.tasks| && Live(s.tasks[t])
    ensures Guarded(AdvanceStep(s, t, clean)) && AdvanceStep(s, t, clean).calls == s.calls
    ensures AdvanceStep(s, t, clean).completed >= s.completed
  {
  }

  lemma AdvanceKeepsInv(s: Sound, t: nat, clean: bool)
    requires t < |s.tasks| && Live(s.tasks[t])
    ensures Inv(AdvanceStep(s, t, clean))
  {
    AdvanceKeepsTasks(s, t, clean);
    AdvanceKeepsFlag(s, t, clean);
    AdvanceKeepsRuntimes(s, t, clean);
    AdvanceKeepsCalls(s, t, clean);
  }

  lemma CrashKeepsInv(s: Sound, t: nat)
    requires t < |s.tasks| && Live(s.tasks[t])
    ensures Inv(CrashStep(s, t))
  {
    var r := CrashStep(s, t);
    assert TaskOk(s.tasks[t]) && s.slot == Some(t);
    assert Guarded(r);
    assert TasksOk(r);
    assert FlagOk(r);
    TakenUnchanged(s, r);
  }

  lemma OtherStepsKeepInv(s: Sound, step: Step)
    requires (step.Invoke? || step.StartBegin? || step.StartEnd?) && Next(s, step).Some?
    ensures Inv(Next(s, step).value)
  {
    assert Guarded(Next(s, step).value);
    FrameKeepsInv(s, Next(s, step).value);
  }

  lemma StepKeepsOwned(s: State, step: Step)
    requires Next(s, step).Some?
    ensures Next(s, step).value.owned == s.owned
  {
  }

  lemma StepKeepsInv(s: Sound, step: Step)
    requires Next(s, step).Some?
    ensures Inv(Next(s, step).value)
  {
    match step
    case Acquire(c) => AcquireKeepsInv(s, c);
    case Join(c) => JoinKeepsInv(s, c);
    case Cancel(c) => CancelKeepsInv(s, c);
    case Advance(t, clean) => AdvanceKeepsInv(s, t, clean);
    case Crash(t) => CrashKeepsInv(s, t);
    case _ => OtherStepsKeepInv(s, step);
  }

  /** The invariant holds in every state of every run. */
  lemma {:induction false} RunKeepsInv(s: Sound, steps: seq<Step>)
    requires Run(s, steps).Some?
    ensures Inv(Run(s, steps).value)
    ensures Run(s, steps).value.owned == s.owned
    decreases |steps|
  {
    if steps != [] {
      RunKeepsInv(s, steps[..|steps| - 1]);
      StepKeepsInv(Run(s, steps[..|steps| - 1]).value, steps[|steps| - 1]);
      StepKeepsOwned(Run(s, steps[..|steps| - 1]).value, steps[|steps| - 1]);
    }
  }

  // ---------------------------------------------------------------- safety over whole runs

  /** In every interleaving of callers, cancellations, crashes and starts: at most one teardown task is live;
      an empty slot with the flag set means teardown completed; the runtimes are all in the graph or, once a
      teardown has taken them, all gone; a task takes and releases only after a clean stop pass, and a failed
      one nothing; every spawned task is joined exactly once; and a call returns Ok only after completion. */
  lemma ShutdownIsSafe(owned: set<string>, steps: seq<Step>)
    requires Run(Initial(owned), steps).Some?
    ensures var s := Run(Initial(owned), steps).value;
            && (forall t, u | 0 <= t < |s.tasks| && 0 <= u < |s.tasks| && Live(s.tasks[t]) && Live(s.tasks[u]) :: t == u)
            && (s.slot.None? && s.flag ==> s.completed == 1)
            && s.completed <= 1 && (s.completed == 1 ==> s.flag && SomeTaken(s))
            && s.runtimes == (if SomeTaken(s) then {} else owned)
            && (forall t | 0 <= t < |s.tasks| :: (s.tasks[t].taken ==> s.tasks[t].released) && (s.tasks[t].released ==> s.tasks[t].passed))
            && (forall t | 0 <= t < |s.tasks| && s.tasks[t].phase == Finished(StopFailed) :: !s.tasks[t].released && !s.tasks[t].taken)
            && |s.tasks| == s.joined + (if s.slot.Some? then 1 else 0)
            && (forall c | 0 <= c < |s.calls| && s.calls[c] == Returned(true) :: s.completed == 1)
  {
    RunKeepsInv(Initial(owned), steps);
    TasksAreSafe(Run(Initial(owned), steps).value);
    OneIsLive(Run(Initial(owned), steps).value);
  }

  lemma TasksAreSafe(s: Sound)
    ensures forall t | 0 <= t < |s.tasks| :: (s.tasks[t].taken ==> s.tasks[t].released) && (s.tasks[t].released ==> s.tasks[t].passed)
    ensures forall t | 0 <= t < |s.tasks| && s.tasks[t].phase == Finished(StopFailed) :: !s.tasks[t].released && !s.tasks[t].taken
    ensures s.completed == 1 ==> SomeTaken(s)
  {
    assert forall t | 0 <= t < |s.tasks| :: TaskOk(s.tasks[t]);
    if s.completed == 1 { assert s.tasks[|s.tasks| - 1].taken; }
  }

  lemma OneIsLive(s: Sound)
    ensures forall t, u | 0 <= t < |s.tasks| && 0 <= u < |s.tasks| && Live(s.tasks[t]) && Live(s.tasks[u]) :: t == u
  {
  }

  /** A teardown that released the handles or took the runtimes is followed by another only if it crashed. */
  lemma EarlierReleaseCrashed(s: Sound, t: nat, u: nat)
    requires t < u < |s.tasks| && s.tasks[t].released
    ensures s.tasks[t].phase == Finished(Crashed)
  {
    assert TaskOk(s.tasks[t]);
    assert s.slot.Some? ==> s.slot.value == |s.tasks| - 1;
  }

  ghost predicate CrashedAfterTaking(s: State) {
    exists t | 0 <= t < |s.tasks| :: s.tasks[t] == Task(Finished(Crashed), true, true, true)
  }

  /** Between attempts, teardown not completed, the runtimes are still owned unless a teardown crashed after
      taking them, and then none is left. */
  lemma OwnershipRetained(s: Sound)
    requires s.slot.None? && s.completed == 0
    ensures s.runtimes == if CrashedAfterTaking(s) then {} else s.owned
  {
    forall t | 0 <= t < |s.tasks| && s.tasks[t].taken
      ensures s.tasks[t] == Task(Finished(Crashed), true, true, true)
    {
      assert TaskOk(s.tasks[t]);
    }
  }

  /** A teardown stays in the slot until a call joins it: whatever happens in between, cancellation of its caller
      included, no new task is spawned. */
  lemma {:induction false} TaskIsJoinedNotRespawned(s: Sound, steps: seq<Step>)
    requires s.slot.Some? && Run(s, steps).Some?
    requires forall step | step in steps :: !step.Join?
    ensures var r := Run(s, steps).value;
            r.slot == s.slot && |r.tasks| == |s.tasks| && r.joined == s.joined
    decreases |steps|
  {
    if steps != [] {
      var init := steps[..|steps| - 1];
      assert forall step | step in init :: step in steps;
      assert steps[|steps| - 1] in steps;
      TaskIsJoinedNotRespawned(s, init);
    }
  }

  /** While teardown has not completed, an empty slot means the next call starts a new attempt, with the
      runtimes that are left. */
  lemma FailureCanBeRetried(s: Sound, c: nat)
    requires s.completed == 0 && s.slot.None? && Next(s, Acquire(c)).Some?
    ensures var r := Next(s, Acquire(c)).value;
            && |r.tasks| == |s.tasks| + 1 && r.slot == Some(|s.tasks|) && r.calls[c] == Awaiting && r.flag
            && r.tasks[|s.tasks|] == Task(Waiting, false, false, false) && r.runtimes == s.runtimes
            && (SomeTaken(r) <==> SomeTaken(s))
  {
    var r := Next(s, Acquire(c)).value;
    assert forall t | 0 <= t < |s.tasks| :: r.tasks[t] == s.tasks[t];
  }

  lemma CompletedStep(s: Sound, step: Step)
    requires s.completed == 1 && Next(s, step).Some?
    ensures var r := Next(s, step).value;
            && r.completed == 1 && |r.tasks| == |s.tasks| && |s.starts| <= |r.starts|
            && (forall i | 0 <= i < |s.starts| && s.starts[i].Rejected? :: r.starts[i].Rejected?)
            && (forall i | |s.starts| <= i < |r.starts| :: r.starts[i].Rejected?)
  {
  }

  /** Once teardown has completed, it stays completed, nothing is spawned again, and every start that begins
      later is rejected. */
  lemma {:induction false} CompletionIsFinal(s: Sound, steps: seq<Step>)
    requires s.completed == 1 && Run(s, steps).Some?
    ensures var r := Run(s, steps).value;
            && r.completed == 1 && r.flag && r.runtimes == {} && |r.tasks| == |s.tasks|
            && |s.starts| <= |r.starts| && (forall i | |s.starts| <= i < |r.starts| :: r.starts[i].Rejected?)
    decreases |steps|
  {
    RunKeepsInv(s, steps);
    if steps != [] {
      var init := steps[..|steps| - 1];
      CompletionIsFinal(s, init);
      RunKeepsInv(s, init);
      CompletedStep(Run(s, init).value, steps[|steps| - 1]);
    }
  }

  // ---------------------------------------------------------------- repeated calls

  /** Nobody is shutting down and teardown has not completed. */
  ghost predicate Ready(s: Sound) {
    s.lock.None? && s.slot.None? && s.completed == 0
  }

  /** The steps of a call up to its join. */
  function CallBody(c: nat, t: nat, clean: bool): seq<Step> {
    var stops := [Advance(t, clean), Advance(t, clean), Advance(t, clean)];
    [Invoke, Acquire(c)] + stops + if clean then stops + [Advance(t, clean)] else []
  }

  /** The steps of one undisturbed call, the `c`-th, and of its teardown, the `t`-th. */
  function CallSteps(c: nat, t: nat, clean: bool): seq<Step> {
    CallBody(c, t, clean) + [Join(c)]
  }

  /** From `s`, one undisturbed call whose stop pass is clean or not leads to `r`. */
  ghost predicate CallTo(s: State, clean: bool, r: State) {
    Run(s, CallSteps(|s.calls|, |s.tasks|, clean)) == Some(r)
  }

  lemma {:induction false} RunConcat(s: State, a: seq<Step>, b: seq<Step>)
    ensures Run(s, a + b) == if Run(s, a).Some? then Run(Run(s, a).value, b) else None
    decreases |b|
  {
    if b == [] {
      assert a + b == a;
    } else {
      RunConcat(s, a, b[..|b| - 1]);
      assert (a + b)[..|a + b| - 1] == a + b[..|b| - 1];
    }
  }

  lemma RunOne(s: State, step: Step)
    ensures Run(s, [step]) == Next(s, step)
  {
    assert [step][..0] == [];
  }

  lemma RunTwo(s: State, x: Step, y: Step, mid: State)
    requires Next(s, x) == Some(mid)
    ensures Run(s, [x, y]) == Next(mid, y)
  {
    RunOne(s, x);
    assert [x, y][..1] == [x];
  }

  lemma RunThree(s: State, x: Step, y: Step, z: Step, mid: State, mid': State)
    requires Next(s, x) == Some(mid) && Next(mid, y) == Some(mid')
    ensures Run(s, [x, y, z]) == Next(mid', z)
  {
    RunTwo(s, x, y, mid);
    assert [x, y, z][..2] == [x, y];
  }

  /** The call spawns its task and waits for it. */
  lemma CallSpawns(s: Sound) returns (r: State)
    requires Ready(s)
    ensures Run(s, [Invoke, Acquire(|s.calls|)]) == Some(r)
    ensures r == s.(flag := true, tasks := s.tasks + [Task(Waiting, false, false, false)], slot := Some(|s.tasks|),
                    lock := Some(|s.calls|), calls := s.calls + [Awaiting])
  {
    RunTwo(s, Invoke, Acquire(|s.calls|), s.(calls := s.calls + [Queued]));
    r := Next(s.(calls := s.calls + [Queued]), Acquire(|s.calls|)).value;
    assert (s.calls + [Queued])[|s.calls| := Awaiting] == s.calls + [Awaiting];
  }

  /** Three advances take a teardown through its stop pass. */
  lemma TaskStops(s: State, t: nat, clean: bool) returns (r: State)
    requires t < |s.tasks| && s.tasks[t] == Task(Waiting, false, false, false)
    ensures Run(s, [Advance(t, clean), Advance(t, clean), Advance(t, clean)]) == Some(r)
    ensures r == s.(running := false, flag := if clean then s.flag else false,
                    tasks := s.tasks[t := Task(if clean then Cleared else Finished(StopFailed), clean, false, false)])
  {
    var s1 := AdvanceStep(s, t, clean);
    var s2 := AdvanceStep(s1, t, clean);
    RunThree(s, Advance(t, clean), Advance(t, clean), Advance(t, clean), s1, s2);
    r := AdvanceStep(s2, t, clean);
    assert s2.tasks == s.tasks[t := Task(StopEnded(clean), clean, false, false)];
    assert r.tasks == s.tasks[t := r.tasks[t]];
  }

  /** Three more release the handles and take the runtimes. */
  lemma TaskTakes(s: State, t: nat) returns (r: State)
    requires t < |s.tasks| && s.tasks[t] == Task(Cleared, true, false, false)
    ensures Run(s, [Advance(t, true), Advance(t, true), Advance(t, true)]) == Some(r)
    ensures r == s.(runtimes := {}, tasks := s.tasks[t := Task(RuntimesTaken, true, true, true)])
  {
    var s1 := AdvanceStep(s, t, true);
    var s2 := AdvanceStep(s1, t, true);
    RunThree(s, Advance(t, true), Advance(t, true), Advance(t, true), s1, s2);
    r := AdvanceStep(s2, t, true);
    assert s2.tasks == s.tasks[t := Task(HandlesReleased, true, true, false)];
    assert r.tasks == s.tasks[t := r.tasks[t]];
  }

  /** And one completes. */
  lemma TaskCompletes(s: State, t: nat) returns (r: State)
    requires t < |s.tasks| && s.tasks[t] == Task(Cleared, true, false, false)
    ensures Run(s, [Advance(t, true), Advance(t, true), Advance(t, true)] + [Advance(t, true)]) == Some(r)
    ensures r == s.(runtimes := {}, completed := s.completed + 1,
                    tasks := s.tasks[t := Task(Finished(Succeeded), true, true, true)])
  {
    var mid := TaskTakes(s, t);
    RunConcat(s, [Advance(t, true), Advance(t, true), Advance(t, true)], [Advance(t, true)]);
    RunOne(mid, Advance(t, true));
    r := AdvanceStep(mid, t, true);
  }

  lemma CallRuns(s: Sound, clean: bool) returns (done: State)
    requires Ready(s)
    ensures Run(s, CallBody(|s.calls|, |s.tasks|, clean)) == Some(done)
    ensures done.calls == s.calls + [Awaiting] && done.slot == Some(|s.tasks|)
    ensures |done.tasks| == |s.tasks| + 1 && done.tasks[..|s.tasks|] == s.tasks
    ensures done.tasks[|s.tasks|].phase == Finished(if clean then Succeeded else StopFailed)
    ensures done.completed == if clean then 1 else 0
  {
    var c, t := |s.calls|, |s.tasks|;
    var opening, stops := [Invoke, Acquire(c)], [Advance(t, clean), Advance(t, clean), Advance(t, clean)];
    done := CallSpawns(s);
    RunConcat(s, opening, stops);
    done := TaskStops(done, t, clean);
    if clean {
      RunConcat(s, opening + stops, stops + [Advance(t, true)]);
      done := TaskCompletes(done, t);
    } else {
      assert opening + stops + [] == opening + stops;
    }
  }

  /** An undisturbed call succeeds exactly when its stop pass is clean; otherwise it leaves things ready for
      another call. */
  lemma CallCompletes(s: Sound, clean: bool) returns (r: Sound)
    requires Ready(s)
    ensures CallTo(s, clean, r)
    ensures r.calls == s.calls + [Returned(clean)] && r.owned == s.owned
    ensures |r.tasks| == |s.tasks| + 1 && r.tasks[..|s.tasks|] == s.tasks
    ensures if clean then r.completed == 1 && r.runtimes == {} else Ready(r)
  {
    var done := CallRuns(s, clean);
    var c := |s.calls|;
    RunConcat(s, CallBody(c, |s.tasks|, clean), [Join(c)]);
    RunOne(done, Join(c));
    var last := JoinStep(done, c, if clean then Succeeded else StopFailed);
    assert last.calls == s.calls + [Returned(clean)];
    RunKeepsInv(s, CallSteps(c, |s.tasks|, clean));
    r := last;
  }

  // ---------------------------------------------------------------- repeated releases

  /** Unless teardown has completed, a crash of the live teardown and a join lead to a state ready for another
      call, in which everything released or taken before still is. */
  lemma Settle(s: Sound) returns (steps: seq<Step>, r: Sound)
    requires s.completed == 0
    ensures Run(s, steps) == Some(r) && Ready(r) && SameMarks(s, r)
  {
    if s.slot.None? {
      steps, r := [], s;
    } else {
      var ended, mid := CrashLive(s);
      var joined;
      joined, r := JoinFinished(mid);
      steps := ended + joined;
      RunConcat(s, ended, joined);
    }
  }

  /** The same teardowns have released and taken. */
  ghost predicate SameMarks(s: State, r: State) {
    && |s.tasks| == |r.tasks| && r.runtimes == s.runtimes
    && (forall t | 0 <= t < |s.tasks| :: r.tasks[t].released == s.tasks[t].released && r.tasks[t].taken == s.tasks[t].taken)
  }

  lemma CrashLive(s: Sound) returns (steps: seq<Step>, r: Sound)
    requires s.completed == 0 && s.slot.Some?
    ensures Run(s, steps) == Some(r) && r.completed == 0 && r.slot == s.slot && SameMarks(s, r)
    ensures r.tasks[s.slot.value].phase.Finished?
  {
    var t := s.slot.value;
    if Live(s.tasks[t]) {
      steps := [Crash(t)];
      RunOne(s, Crash(t));
      CrashKeepsInv(s, t);
      r := CrashStep(s, t);
    } else {
      steps, r := [], s;
    }
  }

  /** A finished teardown can be joined, by the call that waits for it or by a new one. */
  lemma JoinFinished(s: Sound) returns (steps: seq<Step>, r: Sound)
    requires s.completed == 0 && s.slot.Some? && s.tasks[s.slot.value].phase.Finished?
    ensures Run(s, steps) == Some(r) && Ready(r) && r.tasks == s.tasks && r.runtimes == s.runtimes
    ensures forall step | step in steps :: step.Invoke? || step.Acquire? || step.Join?
  {
    if s.lock.Some? {
      steps := [Join(s.lock.value)];
      RunOne(s, Join(s.lock.value));
      JoinKeepsInv(s, s.lock.value);
      r := Next(s, Join(s.lock.value)).value;
    } else {
      var c := |s.calls|;
      var queued := s.(calls := s.calls + [Queued]);
      var waiting := AcquireStep(queued, c);
      RunThree(s, Invoke, Acquire(c), Join(c), queued, waiting);
      steps := [Invoke, Acquire(c), Join(c)];
      RunKeepsInv(s, steps);
      r := Next(waiting, Join(c)).value;
    }
  }

  /** The run leads from `s` to a state in which a teardown after the `t`-th has released the handles. */
  ghost predicate ReleasedAgain(s: State, t: nat, steps: seq<Step>) {
    && Run(s, steps).Some?
    && exists u | t < u < |Run(s, steps).value.tasks| :: Run(s, steps).value.tasks[u].released
  }

  /** And to one in which a later teardown has taken the runtimes. */
  ghost predicate TakenAgain(s: State, t: nat, steps: seq<Step>) {
    && Run(s, steps).Some?
    && exists u | t < u < |Run(s, steps).value.tasks| :: Run(s, steps).value.tasks[u].taken
  }

  lemma CallReleases(s: Sound) returns (steps: seq<Step>, r: Sound)
    requires Ready(s)
    ensures Run(s, steps) == Some(r) && |r.tasks| == |s.tasks| + 1
    ensures r.tasks[|s.tasks|].released && r.tasks[|s.tasks|].taken
  {
    steps := CallSteps(|s.calls|, |s.tasks|, true);
    r := CallCompletes(s, true);
    assert TaskOk(r.tasks[|s.tasks|]);
  }

  lemma CanReleaseAgain(s: Sound, t: nat) returns (steps: seq<Step>)
    requires t < |s.tasks| && s.tasks[t].released && s.tasks[t].phase != Finished(Succeeded)
    ensures ReleasedAgain(s, t, steps) && TakenAgain(s, t, steps)
  {
    if s.completed == 1 {
      steps := [];
      assert s.tasks[|s.tasks| - 1].released && s.tasks[|s.tasks| - 1].taken by { assert TaskOk(s.tasks[|s.tasks| - 1]); }
    } else {
      var first, mid := Settle(s);
      var second, r := CallReleases(mid);
      steps := first + second;
      RunConcat(s, first, second);
    }
  }

  /** Exactly when the handles are released, or the runtimes taken, more than once: after a teardown has begun to
      release, some run has a later one do so again if and only if the first has not completed. */
  lemma HandlesReleasedOnce(s: Sound, t: nat)
    requires t < |s.tasks| && s.tasks[t].released
    ensures (exists steps :: ReleasedAgain(s, t, steps)) <==> s.tasks[t].phase != Finished(Succeeded)
    ensures (exists steps :: TakenAgain(s, t, steps)) <==> s.tasks[t].phase != Finished(Succeeded)
  {
    if s.tasks[t].phase != Finished(Succeeded) {
      var steps := CanReleaseAgain(s, t);
    } else {
      forall steps
        ensures !ReleasedAgain(s, t, steps) && !TakenAgain(s, t, steps)
      {
        if Run(s, steps).Some? { CompletionIsFinal(s, steps); }
      }
    }
  }

  lemma TakingBody(s: Sound) returns (steps: seq<Step>, r: Sound)
    requires Ready(s)
    ensures Run(s, steps) == Some(r) && r.completed == 0
    ensures r.tasks == s.tasks + [Task(RuntimesTaken, true, true, true)]
  {
    var c, t := |s.calls|, |s.tasks|;
    var opening, stops := [Invoke, Acquire(c)], [Advance(t, true), Advance(t, true), Advance(t, true)];
    var mid := CallSpawns(s);
    mid := TaskStops(mid, t, true);
    RunConcat(s, opening, stops);
    mid := TaskTakes(mid, t);
    RunConcat(s, opening + stops, stops);
    steps := opening + stops + stops;
    RunKeepsInv(s, steps);
    r := mid;
  }

  /** The run that breaks ownership: a teardown crashes while it drops the runtimes. No runtime is left, teardown
      has not completed, and the next call starts another one. */
  lemma CrashLosesRuntimes(s: Sound) returns (steps: seq<Step>, r: Sound)
    requires Ready(s)
    ensures Run(s, steps) == Some(r) && Ready(r) && r.runtimes == {} && |r.tasks| == |s.tasks| + 1
    ensures r.tasks[|s.tasks|] == Task(Finished(Crashed), true, true, true)
  {
    var body, mid := TakingBody(s);
    var ending;
    ending, r := Settle(mid);
    steps := body + ending;
    RunConcat(s, body, ending);
    TakenIsLost(r, |s.tasks|);
  }

  lemma TakenIsLost(s: Sound, t: nat)
    requires s.slot.None? && s.completed == 0 && t < |s.tasks| && s.tasks[t].taken
    ensures s.runtimes == {} && s.tasks[t] == Task(Finished(Crashed), true, true, true)
  {
    assert TaskOk(s.tasks[t]);
  }

  // ---------------------------------------------------------------- callers that wait, and callers that leave

  function PhaseRank(phase: Phase): nat {
    match phase
    case Waiting => 8
    case StopPass => 7
    case StopEnded(_) => 6
    case Cleared => 5
    case LoopAborted => 4
    case HandlesReleased => 3
    case RuntimesTaken => 2
    case Finished(_) => 1
  }

  lemma AdvanceGetsOn(s: State, t: nat, clean: bool)
    requires t < |s.tasks| && Live(s.tasks[t])
    ensures var r := AdvanceStep(s, t, clean);
            && r.slot == s.slot && r.lock == s.lock && r.calls == s.calls && |r.tasks| == |s.tasks|
            && PhaseRank(r.tasks[t].phase) < PhaseRank(s.tasks[t].phase)
  {
    match s.tasks[t].phase
    case Waiting =>
    case StopPass =>
    case StopEnded(_) =>
    case Cleared =>
    case LoopAborted =>
    case HandlesReleased =>
    case RuntimesTaken =>
  }

  /** The teardown in the slot can run to its end by itself. */
  lemma {:induction false} TaskCanFinish(s: Sound, t: nat, clean: bool) returns (steps: seq<Step>, r: Sound)
    requires s.slot == Some(t)
    ensures Run(s, steps) == Some(r) && forall step | step in steps :: step == Advance(t, clean)
    ensures r.slot == s.slot && r.lock == s.lock && r.calls == s.calls && |r.tasks| == |s.tasks| && r.tasks[t].phase.Finished?
    decreases PhaseRank(s.tasks[t].phase)
  {
    if !Live(s.tasks[t]) {
      steps, r := [], s;
    } else {
      AdvanceKeepsInv(s, t, clean);
      AdvanceGetsOn(s, t, clean);
      var next: Sound := AdvanceStep(s, t, clean);
      var rest;
      rest, r := TaskCanFinish(next, t, clean);
      RunOne(s, Advance(t, clean));
      RunConcat(s, [Advance(t, clean)], rest);
      steps := [Advance(t, clean)] + rest;
    }
  }

  /** A waiting call can return, with the outcome of the teardown it waits for. */
  lemma WaitingCallReturns(s: Sound, c: nat, clean: bool) returns (steps: seq<Step>, r: Sound)
    requires c < |s.calls| && s.calls[c].Awaiting?
    ensures Run(s, steps) == Some(r) && forall step | step in steps :: !step.Cancel? && !step.Crash?
    ensures s.slot.Some? && |r.tasks| == |s.tasks| && r.tasks[s.slot.value].phase.Finished?
    ensures r.calls == s.calls[c := Returned(r.tasks[s.slot.value].phase.outcome.Succeeded?)] && r.lock.None? && r.slot.None?
  {
    var t := s.slot.value;
    var first, mid := TaskCanFinish(s, t, clean);
    steps := first + [Join(c)];
    RunConcat(s, first, [Join(c)]);
    RunOne(mid, Join(c));
    JoinKeepsInv(mid, c);
    r := Next(mid, Join(c)).value;
  }

  /** No call is stuck: whatever has happened, a call that has neither returned nor been cancelled can still return. */
  lemma NoCallIsStuck(s: Sound, c: nat) returns (steps: seq<Step>, r: Sound)
    requires c < |s.calls| && (s.calls[c].Queued? || s.calls[c].Awaiting?)
    ensures Run(s, steps) == Some(r) && forall step | step in steps :: !step.Cancel? && !step.Crash?
    ensures |r.calls| == |s.calls| && r.calls[c].Returned?
  {
    if s.calls[c].Awaiting? {
      steps, r := WaitingCallReturns(s, c, true);
    } else {
      var first, mid := LockGetsFree(s);
      var rest;
      rest, r := QueuedCallReturns(mid, c);
      RunConcat(s, first, rest);
      steps := first + rest;
    }
  }

  lemma LockGetsFree(s: Sound) returns (steps: seq<Step>, r: Sound)
    ensures Run(s, steps) == Some(r) && forall step | step in steps :: !step.Cancel? && !step.Crash?
    ensures r.lock.None? && |r.calls| == |s.calls| && forall c | 0 <= c < |s.calls| && s.calls[c].Queued? :: r.calls[c].Queued?
  {
    if s.lock.None? {
      steps, r := [], s;
    } else {
      steps, r := WaitingCallReturns(s, s.lock.value, true);
    }
  }

  lemma QueuedCallReturns(s: Sound, c: nat) returns (steps: seq<Step>, r: Sound)
    requires s.lock.None? && c < |s.calls| && s.calls[c].Queued?
    ensures Run(s, steps) == Some(r) && forall step | step in steps :: !step.Cancel? && !step.Crash?
    ensures |r.calls| == |s.calls| && r.calls[c].Returned?
  {
    AcquireKeepsInv(s, c);
    var mid: Sound := AcquireStep(s, c);
    RunOne(s, Acquire(c));
    if mid.calls[c].Returned? {
      steps, r := [Acquire(c)], mid;
    } else {
      var rest;
      rest, r := WaitingCallReturns(mid, c, true);
      RunConcat(s, [Acquire(c)], rest);
      steps := [Acquire(c)] + rest;
    }
  }

  /** Cancelling a caller at its await is always possible. It frees the lock and touches nothing else: the teardown stays
      in the slot. A caller that still queues for the lock can leave too. */
  lemma CancelLeavesTeardown(s: Sound, c: nat)
    requires c < |s.calls| && (s.calls[c].Awaiting? || s.calls[c].Queued?)
    ensures Next(s, Cancel(c)) == Some(s.(lock := if s.calls[c].Awaiting? then None else s.lock, calls := s.calls[c := Cancelled]))
    ensures s.calls[c].Awaiting? ==> s.slot.Some? && s.lock == Some(c)
  {
  }

  /** The next caller takes over: after the waiting call was cancelled, a new one gets the lock, waits for the same
      teardown, the `t`-th, and returns its outcome, and no other is spawned. */
  lemma CancelledCallIsReplaced(s: Sound, c: nat, clean: bool) returns (t: nat, steps: seq<Step>, r: Sound)
    requires c < |s.calls| && s.calls[c].Awaiting?
    ensures s.slot == Some(t) && |r.tasks| == |s.tasks| && r.tasks[t].phase.Finished?
    ensures Run(s, [Cancel(c), Invoke, Acquire(|s.calls|)] + steps) == Some(r)
    ensures r.calls == s.calls[c := Cancelled] + [Returned(r.tasks[t].phase.outcome.Succeeded?)] && r.joined == s.joined + 1
  {
    t := s.slot.value;
    var d := |s.calls|;
    var left := s.(lock := None, calls := s.calls[c := Cancelled]);
    var queued := left.(calls := left.calls + [Queued]);
    var opening := [Cancel(c), Invoke, Acquire(d)];
    RunThree(s, Cancel(c), Invoke, Acquire(d), left, queued);
    RunKeepsInv(s, opening);
    var waiting: Sound := AcquireStep(queued, d);
    assert waiting.calls == s.calls[c := Cancelled] + [Awaiting];
    steps, r := WaitingCallReturns(waiting, d, clean);
    RunConcat(s, opening, steps);
    RunKeepsInv(s, opening + steps);
  }

  /** A panic before the drop guard exists keeps the server shut down until it is joined; a later one does not. */
  lemma StartAfterCrash(s: Sound, t: nat)
    requires t < |s.tasks| && Live(s.tasks[t]) && !s.running
    ensures Run(s, [Crash(t), StartBegin]).Some?
    ensures Run(s, [Crash(t), StartBegin]).value.starts == s.starts + [if s.tasks[t].phase == Waiting then Rejected else InFlight]
  {
    RunTwo(s, Crash(t), StartBegin, CrashStep(s, t));
  }

  /** A start goes through exactly when the server is neither shut down nor running, and then sets it running. */
  lemma StartIsExact(s: State)
    ensures Run(s, [StartBegin, StartEnd(|s.starts|)]) ==
            if !s.flag && !s.running then Some(s.(running := true, starts := s.starts + [Started])) else None
  {
    var begun := Next(s, StartBegin).value;
    RunTwo(s, StartBegin, StartEnd(|s.starts|), begun);
    if !s.flag && !s.running {
      assert begun.starts[|s.starts| := Started] == s.starts + [Started];
    }
  }
}
