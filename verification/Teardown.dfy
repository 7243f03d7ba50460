/** Retrying shutdown until it succeeds: the protocol together with the stop passes it makes. */
module Teardown {
  import opened Wrappers
  import opened Sequences
  import opened Lifecycle
  import opened Shutdown

  /** The `i`-th undisturbed call in a row, when the components fail their stops as the world says. */
  ghost function CallRelation(w: World, order: seq<string>, late: nat -> set<string>): (nat, Sound, Sound) -> bool {
    (i: nat, a: Sound, b: Sound) => CallTo(a, !FailsAt(w, order, late, i), b)
  }

  /** `states` are the states between such calls. */
  ghost predicate RepeatedCalls(states: seq<Sound>, w: World, order: seq<string>, late: nat -> set<string>) {
    Chain(states, CallRelation(w, order, late))
  }

  function FailedCalls(n: nat): seq<Call> {
    seq(n, i => Returned(false))
  }

  lemma FailedCallsSnoc(calls: seq<Call>, n: nat)
    ensures calls + FailedCalls(n + 1) == calls + FailedCalls(n) + [Returned(false)]
  {
  }

  /** One more call after those so far. */
  lemma CallAgain(states: seq<Sound>, w: World, order: seq<string>, late: nat -> set<string>) returns (longer: seq<Sound>)
    requires states != [] && RepeatedCalls(states, w, order, late) && Ready(states[|states| - 1])
    ensures |longer| == |states| + 1 && longer[0] == states[0] && RepeatedCalls(longer, w, order, late)
    ensures var before, after := states[|states| - 1], longer[|states|];
            var clean := !FailsAt(w, order, late, |states| - 1);
            && after.calls == before.calls + [Returned(clean)]
            && if clean then after.completed == 1 && after.runtimes == {} else Ready(after)
  {
    var clean := !FailsAt(w, order, late, |states| - 1);
    var after := CallCompletes(states[|states| - 1], clean);
    ChainSnoc(states, after, CallRelation(w, order, late));
    longer := states + [after];
  }

  lemma {:induction false} FailingCalls(s: Sound, w: World, order: seq<string>, late: nat -> set<string>, n: nat)
    returns (states: seq<Sound>)
    requires Ready(s) && forall j: nat | j < n :: FailsAt(w, order, late, j)
    ensures |states| == n + 1 && states[0] == s && RepeatedCalls(states, w, order, late)
    ensures Ready(states[n]) && states[n].calls == s.calls + FailedCalls(n)
  {
    if n == 0 {
      states := [s];
      assert s.calls + FailedCalls(0) == s.calls;
    } else {
      var before := FailingCalls(s, w, order, late, n - 1);
      assert FailsAt(w, order, late, n - 1);
      states := CallAgain(before, w, order, late);
      FailedCallsSnoc(s.calls, n - 1);
    }
  }

  /** If the stops fail finitely often, repeated shutdown calls return an error at most as many times as
      there are failures left and then succeed, with everything stopped and all runtimes released. */
  lemma ShutdownConverges(s: Sound, w: World, order: seq<string>, late: nat -> set<string>)
    returns (k: nat, states: seq<Sound>)
    requires Ready(s) && Distinct(order) && AllPresent(w, order)
    ensures k <= Faults(w, order)
    ensures |states| == k + 2 && states[0] == s && RepeatedCalls(states, w, order, late)
    ensures states[k + 1].calls == s.calls + FailedCalls(k) + [Returned(true)]
    ensures states[k + 1].completed == 1 && states[k + 1].runtimes == {}
    ensures AllStopped(After(w, order, late, k + 1), order)
  {
    k := RetryConverges(w, order, late);
    var before := FailingCalls(s, w, order, late, k);
    states := CallAgain(before, w, order, late);
  }

  // ---------------------------------------------------------------- every schedule

  /** A step without a panic in which the stop pass of the `t`-th teardown fails as `fails` says. */
  ghost predicate Follows(s: State, step: Step, fails: nat -> bool) {
    && !step.Crash?
    && (step.Advance? && step.task < |s.tasks| && s.tasks[step.task].phase.StopPass? ==> step.clean == !fails(step.task))
  }

  /** A run of such steps: any callers, cancellations and starts, in any interleaving. */
  ghost predicate Schedule(s: State, steps: seq<Step>, fails: nat -> bool)
    decreases |steps|
  {
    && Run(s, steps).Some?
    && (steps != [] ==>
          var init := steps[..|steps| - 1];
          Schedule(s, init, fails) && Follows(Run(s, init).value, steps[|steps| - 1], fails))
  }

  /** What the outcome of its stop pass allows a teardown to be doing. */
  predicate PhaseFits(phase: Phase, fails: bool) {
    match phase
    case Waiting => true
    case StopPass => true
    case StopEnded(clean) => clean == !fails
    case Finished(StopFailed) => fails
    case Finished(Crashed) => false
    case _ => !fails
  }

  /** Since `s`, no teardown but new ones have moved, and those as their stop passes allow. */
  ghost predicate Fits(s: State, r: State, fails: nat -> bool) {
    && |s.tasks| <= |r.tasks|
    && (forall t | 0 <= t < |s.tasks| :: r.tasks[t] == s.tasks[t])
    && (forall t | |s.tasks| <= t < |r.tasks| :: PhaseFits(r.tasks[t].phase, fails(t)))
  }

  lemma StepFits(s: Sound, r: State, step: Step, fails: nat -> bool)
    requires Ready(s) && Fits(s, r, fails) && Next(r, step).Some? && Follows(r, step, fails)
    ensures Fits(s, Next(r, step).value, fails)
  {
    if step.Advance? { AdvanceFits(s, r, step.task, step.clean, fails); }
  }

  lemma AdvanceFits(s: Sound, r: State, t: nat, clean: bool, fails: nat -> bool)
    requires Ready(s) && Fits(s, r, fails) && t < |r.tasks| && Live(r.tasks[t])
    requires r.tasks[t].phase.StopPass? ==> clean == !fails(t)
    ensures Fits(s, AdvanceStep(r, t, clean), fails)
  {
    assert forall u | 0 <= u < |s.tasks| :: !Live(r.tasks[u]);
    assert |s.tasks| <= t;
    assert PhaseFits(r.tasks[t].phase, fails(t));
    var next := AdvanceStep(r, t, clean);
    assert PhaseFits(next.tasks[t].phase, fails(t));
    assert forall u | 0 <= u < |r.tasks| && u != t :: next.tasks[u] == r.tasks[u];
  }

  lemma {:induction false} ScheduleFits(s: Sound, steps: seq<Step>, fails: nat -> bool)
    requires Ready(s) && Schedule(s, steps, fails)
    ensures Fits(s, Run(s, steps).value, fails) && Inv(Run(s, steps).value)
    decreases |steps|
  {
    RunKeepsInv(s, steps);
    if steps != [] {
      var init := steps[..|steps| - 1];
      ScheduleFits(s, init, fails);
      StepFits(s, Run(s, init).value, steps[|steps| - 1], fails);
    }
  }

  /** From the `base`-th on, the stop passes fail up to the `last`-th, which is clean. */
  ghost predicate FirstClean(fails: nat -> bool, base: nat, last: nat) {
    base <= last && !fails(last) && forall t: nat | base <= t < last :: fails(t)
  }

  /** Of the teardowns since `s`, those that have ended failed, except the `last`-th, which succeeded. */
  ghost predicate EndedSince(s: State, r: State, last: nat) {
    forall t | |s.tasks| <= t < |r.tasks| && r.tasks[t].phase.Finished? ::
      r.tasks[t].phase.outcome == if t < last then StopFailed else Succeeded
  }

  /** No teardown follows one whose stop pass is clean, and all before have failed. */
  lemma FitsBound(s: Sound, r: Sound, fails: nat -> bool, last: nat)
    requires Ready(s) && Fits(s, r, fails) && FirstClean(fails, |s.tasks|, last)
    ensures |r.tasks| <= last + 1 && EndedSince(s, r, last)
  {
    if last < |r.tasks| { assert PhaseFits(r.tasks[last].phase, fails(last)); }
    forall t | |s.tasks| <= t < |r.tasks| && r.tasks[t].phase.Finished?
      ensures r.tasks[t].phase.outcome == if t < last then StopFailed else Succeeded
    {
      assert PhaseFits(r.tasks[t].phase, fails(t));
    }
  }

  // ---------------------------------------------------------------- returned calls

  /** Since `s`, every join of a failed teardown has returned an error to one call. */
  ghost predicate ErrorsCounted(s: State, r: State) {
    multiset(r.calls)[Returned(false)] + (if r.completed == 1 && r.slot.None? then 1 else 0)
    == multiset(s.calls)[Returned(false)] + r.joined - s.joined
  }

  lemma CallUpdated(calls: seq<Call>, c: nat, call: Call)
    requires c < |calls| && calls[c] != Returned(false)
    ensures multiset(calls[c := call])[Returned(false)]
            == multiset(calls)[Returned(false)] + if call == Returned(false) then 1 else 0
  {
  }

  lemma AcquireCounted(s: State, r: Sound, c: nat)
    requires ErrorsCounted(s, r) && Next(r, Acquire(c)).Some?
    ensures ErrorsCounted(s, Next(r, Acquire(c)).value)
  {
    CallUpdated(r.calls, c, Awaiting);
    CallUpdated(r.calls, c, Returned(true));
  }

  lemma OtherStepCounted(s: State, r: Sound, step: Step)
    requires ErrorsCounted(s, r) && Next(r, step).Some? && !step.Join? && !step.Advance? && !step.Acquire?
    ensures ErrorsCounted(s, Next(r, step).value)
  {
    if step.Cancel? {
      CallUpdated(r.calls, step.call, Cancelled);
    } else if step.Invoke? {
      assert multiset(r.calls + [Queued]) == multiset(r.calls) + multiset{Queued};
    }
  }

  lemma AdvanceCounted(s: State, r: Sound, t: nat, clean: bool)
    requires ErrorsCounted(s, r) && t < |r.tasks| && Live(r.tasks[t])
    ensures ErrorsCounted(s, AdvanceStep(r, t, clean))
  {
    assert r.slot == Some(t);
  }

  lemma JoinCounted(s: State, r: Sound, c: nat)
    requires ErrorsCounted(s, r) && Next(r, Join(c)).Some?
    ensures ErrorsCounted(s, Next(r, Join(c)).value)
  {
    var outcome := r.tasks[r.slot.value].phase.outcome;
    CallUpdated(r.calls, c, Returned(outcome.Succeeded?));
    assert outcome.Succeeded? <==> r.completed == 1;
  }

  lemma {:induction false} ScheduleCounted(s: Sound, steps: seq<Step>)
    requires Ready(s) && Run(s, steps).Some?
    ensures ErrorsCounted(s, Run(s, steps).value)
    decreases |steps|
  {
    if steps != [] {
      var init, step := steps[..|steps| - 1], steps[|steps| - 1];
      ScheduleCounted(s, init);
      RunKeepsInv(s, init);
      var r: Sound := Run(s, init).value;
      match step
      case Acquire(c) => AcquireCounted(s, r, c);
      case Join(c) => JoinCounted(s, r, c);
      case Advance(t, clean) => AdvanceCounted(s, r, t, clean);
      case _ => OtherStepCounted(s, r, step);
    }
  }

  // ---------------------------------------------------------------- progress

  lemma {:induction false} ScheduleConcat(s: State, a: seq<Step>, b: seq<Step>, fails: nat -> bool)
    requires Schedule(s, a, fails) && Schedule(Run(s, a).value, b, fails)
    ensures Schedule(s, a + b, fails) && Run(s, a + b) == Run(Run(s, a).value, b)
    decreases |b|
  {
    RunConcat(s, a, b);
    if b == [] {
      assert a + b == a;
    } else {
      var init, last := b[..|b| - 1], b[|b| - 1];
      ScheduleConcat(s, a, init, fails);
      SplitLast(b);
      Assoc(a, init, [last]);
      ScheduleSnoc(s, a + init, last, fails);
    }
  }

  lemma ScheduleSnoc(s: State, steps: seq<Step>, step: Step, fails: nat -> bool)
    requires Schedule(s, steps, fails) && Follows(Run(s, steps).value, step, fails) && Run(s, steps + [step]).Some?
    ensures Schedule(s, steps + [step], fails)
  {
    InitOfSnoc(steps, step);
  }

  /** Steps that only call and join follow every schedule. */
  lemma {:induction false} CallsFollow(s: State, steps: seq<Step>, fails: nat -> bool)
    requires Run(s, steps).Some? && forall step | step in steps :: step.Invoke? || step.Acquire? || step.Join?
    ensures Schedule(s, steps, fails)
    decreases |steps|
  {
    if steps != [] {
      assert steps[|steps| - 1] in steps && forall step | step in steps[..|steps| - 1] :: step in steps;
      CallsFollow(s, steps[..|steps| - 1], fails);
    }
  }

  function Rank(s: State): nat {
    if s.slot.Some? && s.slot.value < |s.tasks| then PhaseRank(s.tasks[s.slot.value].phase) else 0
  }

  /** `next` can be reached along the schedule. */
  ghost predicate Leads(r: State, steps: seq<Step>, fails: nat -> bool, next: State) {
    Schedule(r, steps, fails) && Run(r, steps) == Some(next)
  }

  lemma SpawnNext(r: Sound, fails: nat -> bool) returns (steps: seq<Step>, next: Sound)
    requires Ready(r)
    ensures Leads(r, steps, fails, next) && next.tasks == r.tasks + [Task(Waiting, false, false, false)]
  {
    steps := [Invoke, Acquire(|r.calls|)];
    var spawned := CallSpawns(r);
    RunKeepsInv(r, steps);
    CallsFollow(r, steps, fails);
    next := spawned;
  }

  lemma AdvanceRank(r: State, t: nat, clean: bool)
    requires r.slot == Some(t) && t < |r.tasks| && Live(r.tasks[t])
    ensures |AdvanceStep(r, t, clean).tasks| == |r.tasks| && Rank(AdvanceStep(r, t, clean)) < Rank(r)
  {
    AdvanceGetsOn(r, t, clean);
  }

  lemma AdvanceNext(r: Sound, fails: nat -> bool) returns (steps: seq<Step>, next: Sound)
    requires r.slot.Some? && Live(r.tasks[r.slot.value])
    ensures Leads(r, steps, fails, next) && next == AdvanceStep(r, r.slot.value, !fails(r.slot.value))
  {
    var t := r.slot.value;
    steps := [Advance(t, !fails(t))];
    RunOne(r, steps[0]);
    AdvanceKeepsInv(r, t, !fails(t));
    next := AdvanceStep(r, t, !fails(t));
    assert steps[..0] == [] && Schedule(r, steps[..0], fails);
  }

  /** One stretch nearer to completion: spawn a teardown, advance the live one, or join the finished one. */
  lemma Progress(s: Sound, r: Sound, fails: nat -> bool) returns (steps: seq<Step>, next: Sound)
    requires Ready(s) && Fits(s, r, fails) && r.completed == 0
    ensures Leads(r, steps, fails, next) && Fits(s, next, fails)
    ensures |next.tasks| == |r.tasks| + 1 || (|next.tasks| == |r.tasks| && Rank(next) < Rank(r))
  {
    if r.slot.None? {
      steps, next := SpawnNext(r, fails);
    } else if Live(r.tasks[r.slot.value]) {
      steps, next := AdvanceNext(r, fails);
      AdvanceFits(s, r, r.slot.value, !fails(r.slot.value), fails);
      AdvanceRank(r, r.slot.value, !fails(r.slot.value));
    } else {
      steps, next := JoinFinished(r);
      CallsFollow(r, steps, fails);
      assert Rank(next) == 0 < Rank(r);
    }
  }

  /** Wherever a schedule has led, teardown can still complete along one. */
  lemma {:induction false} CanComplete(s: Sound, r: Sound, fails: nat -> bool, last: nat) returns (steps: seq<Step>, end: Sound)
    requires Ready(s) && Fits(s, r, fails) && FirstClean(fails, |s.tasks|, last)
    ensures Leads(r, steps, fails, end) && end.completed == 1
    decreases last + 1 - |r.tasks|, Rank(r)
  {
    FitsBound(s, r, fails, last);
    if r.completed == 1 {
      steps, end := [], r;
    } else {
      var first, next := Progress(s, r, fails);
      FitsBound(s, next, fails, last);
      var rest;
      rest, end := CanComplete(s, next, fails, last);
      ScheduleConcat(r, first, rest, fails);
      steps := first + rest;
    }
  }

  // ---------------------------------------------------------------- convergence of every schedule

  /** The stop passes of the teardowns after `base` others end as they do in a world. */
  ghost predicate FailsLike(fails: nat -> bool, w: World, order: seq<string>, late: nat -> set<string>, base: nat) {
    forall t: nat | t >= base :: fails(t) == FailsAt(w, order, late, t - base)
  }

  ghost predicate CompletesWith(r: State, last: nat) {
    r.completed == 1 <==> |r.tasks| == last + 1 && !Live(r.tasks[last])
  }

  /** At most the teardowns up to the `last`-th are spawned; those before it can only fail and it can only succeed,
      and with it teardown completes; no more calls than there are failing teardowns return an error. */
  ghost predicate Bounded(s: State, r: State, last: nat) {
    && |r.tasks| <= last + 1
    && EndedSince(s, r, last)
    && CompletesWith(r, last)
    && multiset(r.calls)[Returned(false)] <= multiset(s.calls)[Returned(false)] + last - |s.tasks|
  }

  /** Whatever the callers do, cancel included, and however the steps interleave: if no teardown panics, at most
      `faults + 1` teardowns are spawned, all but the last fail, at most `faults` calls return an error, the last
      teardown can only succeed, and from wherever the schedule has led it still can. */
  lemma EveryScheduleConverges(s: Sound, steps: seq<Step>, fails: nat -> bool, w: World, order: seq<string>,
                               late: nat -> set<string>)
    returns (last: nat, r: Sound, more: seq<Step>, end: Sound)
    requires Ready(s) && Distinct(order) && AllPresent(w, order)
    requires Schedule(s, steps, fails) && FailsLike(fails, w, order, late, |s.tasks|)
    ensures |s.tasks| <= last <= |s.tasks| + Faults(w, order)
    ensures Run(s, steps) == Some(r) && Bounded(s, r, last)
    ensures Leads(s, steps + more, fails, end) && end.completed == 1
  {
    last := PassesConverge(fails, w, order, late, |s.tasks|);
    r := ScheduleBounded(s, steps, fails, last);
    more, end := ScheduleEnds(s, steps, fails, last);
  }

  lemma PassesConverge(fails: nat -> bool, w: World, order: seq<string>, late: nat -> set<string>, base: nat) returns (last: nat)
    requires Distinct(order) && AllPresent(w, order) && FailsLike(fails, w, order, late, base)
    ensures last <= base + Faults(w, order) && FirstClean(fails, base, last)
  {
    var k := RetryConverges(w, order, late);
    last := base + k;
    forall t: nat | base <= t < last
      ensures fails(t)
    {
      assert FailsAt(w, order, late, t - base);
    }
  }

  lemma ScheduleEnds(s: Sound, steps: seq<Step>, fails: nat -> bool, last: nat) returns (more: seq<Step>, end: Sound)
    requires Ready(s) && Schedule(s, steps, fails) && FirstClean(fails, |s.tasks|, last)
    ensures Leads(s, steps + more, fails, end) && end.completed == 1
  {
    ScheduleFits(s, steps, fails);
    more, end := CanComplete(s, Run(s, steps).value, fails, last);
    ScheduleConcat(s, steps, more, fails);
  }

  lemma ScheduleBounded(s: Sound, steps: seq<Step>, fails: nat -> bool, last: nat) returns (r: Sound)
    requires Ready(s) && Schedule(s, steps, fails) && FirstClean(fails, |s.tasks|, last)
    ensures Run(s, steps) == Some(r) && Bounded(s, r, last)
  {
    ScheduleFits(s, steps, fails);
    r := Run(s, steps).value;
    FitsBound(s, r, fails, last);
    CompletedWhenLast(s, r, fails, last);
    ScheduleCounted(s, steps);
  }

  lemma CompletedWhenLast(s: Sound, r: Sound, fails: nat -> bool, last: nat)
    requires Ready(s) && Fits(s, r, fails) && FirstClean(fails, |s.tasks|, last)
    ensures CompletesWith(r, last)
  {
    FitsBound(s, r, fails, last);
    if r.tasks != [] && |r.tasks| <= |s.tasks| { assert r.tasks[|r.tasks| - 1] == s.tasks[|r.tasks| - 1]; }
  }

  // ---------------------------------------------------------------- after the runtimes are lost

  /** If every stop pass fails, teardown never completes. */
  lemma NeverCompletes(s: Sound, steps: seq<Step>, fails: nat -> bool)
    requires Ready(s) && Schedule(s, steps, fails) && forall t: nat | t >= |s.tasks| :: fails(t)
    ensures Run(s, steps).value.completed == 0
  {
    ScheduleFits(s, steps, fails);
    var r: Sound := Run(s, steps).value;
    if r.tasks != [] {
      var last := |r.tasks| - 1;
      assert if last < |s.tasks| then r.tasks[last] == s.tasks[last] else PhaseFits(r.tasks[last].phase, fails(last));
    }
  }

  ghost predicate CompletesLater(s: State, fails: nat -> bool) {
    exists steps :: Schedule(s, steps, fails) && Run(s, steps).value.completed == 1
  }

  lemma CompletesUnlessAllFail(s: Sound, fails: nat -> bool, always: bool)
    requires Ready(s) && forall t: nat | t >= |s.tasks| :: fails(t) == always
    ensures CompletesLater(s, fails) <==> !always
  {
    if always {
      forall steps | Schedule(s, steps, fails)
        ensures Run(s, steps).value.completed == 0
      {
        NeverCompletes(s, steps, fails);
      }
    } else {
      var steps, end := CanComplete(s, s, fails, |s.tasks|);
    }
  }

  /** Exactly when teardown can still complete after one has panicked while dropping the runtimes: if and only if
      no component was left due for a stop. */
  lemma LostRuntimesExact(s: Sound, w: World, order: seq<string>, late: set<string>, later: nat -> set<string>)
    returns (steps: seq<Step>, r: Sound)
    requires Ready(s) && Pass(w, order, late, |order|).1 == 0
    ensures Run(s, steps) == Some(r) && Ready(r) && r.runtimes == {}
    ensures var left := DropRuntimes(Pass(w, order, late, |order|).0);
            forall fails | FailsLike(fails, left, order, later, |r.tasks|) :: CompletesLater(r, fails) <==> !SomeDue(left, order)
  {
    steps, r := CrashLosesRuntimes(s);
    var left := DropRuntimes(Pass(w, order, late, |order|).0);
    forall fails | FailsLike(fails, left, order, later, |r.tasks|)
      ensures CompletesLater(r, fails) <==> !SomeDue(left, order)
    {
      WithoutRuntimesExact(r, fails, left, order, later);
    }
  }

  lemma WithoutRuntimesExact(s: Sound, fails: nat -> bool, w: World, order: seq<string>, late: nat -> set<string>)
    requires Ready(s) && NonePresent(w, order) && FailsLike(fails, w, order, late, |s.tasks|)
    ensures CompletesLater(s, fails) <==> !SomeDue(w, order)
  {
    forall t: nat | t >= |s.tasks|
      ensures fails(t) == SomeDue(w, order)
    {
      RetryWithoutRuntimes(w, order, late, t - |s.tasks|);
    }
    CompletesUnlessAllFail(s, fails, SomeDue(w, order));
  }

  /** A reaction in Error whose stop is reported late is such a component: shutdown never completes. */
  lemma LateReactionBlocksShutdown(s: Sound, w: World, order: seq<string>, late: set<string>, later: nat -> set<string>, id: string)
    returns (steps: seq<Step>, r: Sound)
    requires Ready(s) && Distinct(order) && Pass(w, order, late, |order|).1 == 0
    requires id in order && id in w && id in late && w[id] == Component(Reaction, Error, 0, true)
    ensures Run(s, steps) == Some(r) && Ready(r) && r.runtimes == {}
    ensures forall fails | FailsLike(fails, DropRuntimes(Pass(w, order, late, |order|).0), order, later, |r.tasks|) ::
              !CompletesLater(r, fails)
  {
    LateReactionStaysDue(w, order, late, id);
    steps, r := LostRuntimesExact(s, w, order, late, later);
  }
}
