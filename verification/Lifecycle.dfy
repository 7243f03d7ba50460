/** Stopping components (lib/src/lifecycle.rs): which components a stop pass attempts, in which order, what
    it reports, and why repeating it converges. */
module Lifecycle {
  import opened Wrappers
  import opened Sequences

  datatype ComponentKind = Instance | Source | Query | Reaction | BootstrapProvider | IdentityProvider

  datatype ComponentStatus = Added | Starting | Running | Stopping | Stopped | Removed | Reconfiguring | Error

  /** The component lifecycle state machine (`is_valid_transition`). */
  predicate IsValidTransition(kind: ComponentKind, from: ComponentStatus, to: ComponentStatus) {
    match (from, to)
    case (Error, Stopping) => kind.Query? || kind.Source?
    case (Added, Starting) => true
    case (Added, Stopped) => true
    case (Stopped, Starting) => true
    case (Starting, Running) => true
    case (Starting, Error) => true
    case (Starting, Stopped) => true
    case (Starting, Stopping) => true
    case (Running, Stopping) => true
    case (Running, Stopped) => true
    case (Running, Error) => true
    case (Stopping, Stopped) => true
    case (Stopping, Error) => true
    case (Error, Starting) => true
    case (Error, Stopped) => true
    case (Added, Reconfiguring) => true
    case (Stopped, Reconfiguring) => true
    case (Running, Reconfiguring) => true
    case (Error, Reconfiguring) => true
    case (Reconfiguring, Stopped) => true
    case (Reconfiguring, Starting) => true
    case (Reconfiguring, Error) => true
    case _ => false
  }

  /** The same state machine read by target: from where each status can be entered. `Added` and `Removed` cannot. */
  lemma TransitionsByTarget(kind: ComponentKind, from: ComponentStatus, to: ComponentStatus)
    ensures IsValidTransition(kind, from, to) <==>
            match to
            case Added => false
            case Starting => from in {Added, Stopped, Error, Reconfiguring}
            case Running => from == Starting
            case Stopping => from in {Starting, Running} || (from == Error && kind in {Query, Source})
            case Stopped => from in {Added, Starting, Running, Stopping, Error, Reconfiguring}
            case Removed => false
            case Reconfiguring => from in {Added, Stopped, Running, Error}
            case Error => from in {Starting, Running, Stopping, Reconfiguring}
  {
  }

  predicate Stoppable(kind: ComponentKind) {
    kind.Source? || kind.Query? || kind.Reaction?
  }

  /** A component whose live status makes the pass call its manager. */
  predicate Eligible(kind: ComponentKind, live: Option<ComponentStatus>, permanent: bool) {
    && Stoppable(kind)
    && live.Some?
    && (live.value.Starting? || live.value.Running? || (live.value.Error? && (permanent || !kind.Reaction?)))
  }

  // ---------------------------------------------------------------- one pass, in any environment

  /** The turns at which an attempt is made. */
  function Turns(order: seq<(string, ComponentKind)>, permanent: bool, live: nat -> Option<ComponentStatus>, n: nat): seq<nat>
    requires n <= |order|
  {
    if n == 0 then [] else
    Turns(order, permanent, live, n - 1) + (if Eligible(order[n - 1].1, live(n - 1), permanent) then [n - 1] else [])
  }

  /** The attempts that failed, with their messages, in order. */
  function Failures(order: seq<(string, ComponentKind)>, attempts: seq<nat>, outcome: nat -> Option<string>):
    seq<(string, string)>
    requires forall a | 0 <= a < |attempts| :: attempts[a] < |order|
  {
    if attempts == [] then [] else
    var last := attempts[|attempts| - 1];
    Failures(order, attempts[..|attempts| - 1], outcome)
    + (if outcome(last).Some? then [(order[last].0, outcome(last).value)] else [])
  }

  /** `stop_components`. Between iterations the environment may do anything: `live(i)` is the status that
      the i-th component is found in at its turn, `outcome(i)` the error of its stop, if any. */
  method StopComponents(order: seq<(string, ComponentKind)>, permanent: bool,
                        live: nat -> Option<ComponentStatus>, outcome: nat -> Option<string>)
    returns (attempts: seq<nat>, result: Result<(), seq<(string, string)>>)
    ensures attempts == Turns(order, permanent, live, |order|)
    ensures forall a | 0 <= a < |attempts| :: attempts[a] < |order|
    ensures result == var failures := Failures(order, attempts, outcome);
                      if failures == [] then Ok(()) else Err(failures)
  {
    attempts := [];
    var failures: seq<(string, string)> := [];
    for i := 0 to |order|
      invariant attempts == Turns(order, permanent, live, i)
      invariant forall a | 0 <= a < |attempts| :: attempts[a] < |order|
      invariant failures == Failures(order, attempts, outcome)
    {
      var (id, kind) := order[i];
      var liveStatus := live(i);
      if liveStatus.None? {
        continue;
      }
      var retryFailedReaction := permanent && kind.Reaction? && liveStatus.value.Error?;
      if !retryFailedReaction && !IsValidTransition(kind, liveStatus.value, Stopping) {
        continue;
      }
      if !Stoppable(kind) {
        continue;
      }
      assert (attempts + [i])[..|attempts|] == attempts;
      attempts := attempts + [i];
      if outcome(i).Some? {
        failures := failures + [(id, outcome(i).value)];
      }
    }
    result := if failures == [] then Ok(()) else Err(failures);
  }

  /** Each component eligible at its turn is attempted exactly once, whatever failed before, and no other. */
  lemma {:induction false} ExhaustiveStop(order: seq<(string, ComponentKind)>, permanent: bool,
                                          live: nat -> Option<ComponentStatus>, n: nat)
    requires n <= |order|
    ensures var ts := Turns(order, permanent, live, n);
            && (forall i :: i in ts <==> 0 <= i < n && Eligible(order[i].1, live(i), permanent))
            && (forall a, b | 0 <= a < b < |ts| :: ts[a] < ts[b])
  {
    if n > 0 {
      ExhaustiveStop(order, permanent, live, n - 1);
      var before, ts := Turns(order, permanent, live, n - 1), Turns(order, permanent, live, n);
      assert forall a | 0 <= a < |before| :: before[a] in before;
      if Eligible(order[n - 1].1, live(n - 1), permanent) {
        assert ts == before + [n - 1];
      } else {
        assert ts == before;
      }
    }
  }

  /** Which turns are taken, in terms of the lifecycle: those of sources, queries and reactions that are still there and
      may go to Stopping, and in a permanent pass those of reactions in Error. */
  lemma TurnsAreExact(order: seq<(string, ComponentKind)>, permanent: bool, live: nat -> Option<ComponentStatus>, i: nat)
    ensures i in Turns(order, permanent, live, |order|) <==>
            && i < |order| && order[i].1 in {Source, Query, Reaction} && live(i).Some?
            && (IsValidTransition(order[i].1, live(i).value, Stopping) || (permanent && order[i].1 == Reaction && live(i) == Some(Error)))
  {
    ExhaustiveStop(order, permanent, live, |order|);
  }

  /** A permanent pass attempts what an ordinary pass attempts, and the reactions in Error. */
  lemma PermanentAddsFailedReactions(order: seq<(string, ComponentKind)>, live: nat -> Option<ComponentStatus>, i: nat)
    ensures i in Turns(order, true, live, |order|) <==>
            || i in Turns(order, false, live, |order|)
            || (i < |order| && order[i].1.Reaction? && live(i) == Some(Error))
  {
    ExhaustiveStop(order, true, live, |order|);
    ExhaustiveStop(order, false, live, |order|);
  }

  /** The positions of the failed attempts, in order and without repetition. */
  ghost predicate FailedAt(attempts: seq<nat>, outcome: nat -> Option<string>, at: seq<nat>) {
    && (forall m, n | 0 <= m < n < |at| :: at[m] < at[n])
    && (forall a: nat :: a in at <==> a < |attempts| && outcome(attempts[a]).Some?)
  }

  /** The `m`-th failure reported is that of the attempt at position `at[m]`. */
  ghost predicate Reports(order: seq<(string, ComponentKind)>, attempts: seq<nat>, outcome: nat -> Option<string>,
                          at: seq<nat>, failures: seq<(string, string)>)
    requires forall a | 0 <= a < |attempts| :: attempts[a] < |order|
  {
    && |at| == |failures|
    && forall m | 0 <= m < |at| :: at[m] < |attempts| && outcome(attempts[at[m]]).Some?
                                  && failures[m] == (order[attempts[at[m]]].0, outcome(attempts[at[m]]).value)
  }

  lemma FailedAtSnoc(attempts: seq<nat>, last: nat, outcome: nat -> Option<string>, at: seq<nat>)
    requires FailedAt(attempts, outcome, at)
    ensures FailedAt(attempts + [last], outcome, if outcome(last).Some? then at + [|attempts|] else at)
  {
    var longer := if outcome(last).Some? then at + [|attempts|] else at;
    assert forall a: nat :: a in longer <==> a in at || (a == |attempts| && outcome(last).Some?);
    forall m, n | 0 <= m < n < |longer|
      ensures longer[m] < longer[n]
    {
      assert at[m] in at;
    }
  }

  /** The result is Ok exactly when no attempt failed, and the error lists exactly the failed attempts, each once
      and in the order of the attempts. */
  lemma FailuresAreExact(order: seq<(string, ComponentKind)>, attempts: seq<nat>, outcome: nat -> Option<string>)
    returns (at: seq<nat>)
    requires forall a | 0 <= a < |attempts| :: attempts[a] < |order|
    ensures FailedAt(attempts, outcome, at) && Reports(order, attempts, outcome, at, Failures(order, attempts, outcome))
    ensures Failures(order, attempts, outcome) == [] <==> forall a | 0 <= a < |attempts| :: outcome(attempts[a]).None?
  {
    at := ReportedFailures(order, attempts, outcome);
    if at == [] {
      forall a | 0 <= a < |attempts|
        ensures outcome(attempts[a]).None?
      {
        assert (a as nat) !in at;
      }
    } else {
      assert at[0] in at;
    }
  }

  lemma ReportsSnoc(order: seq<(string, ComponentKind)>, attempts: seq<nat>, last: nat, outcome: nat -> Option<string>,
                    at: seq<nat>, failures: seq<(string, string)>)
    requires last < |order| && forall a | 0 <= a < |attempts| :: attempts[a] < |order|
    requires Reports(order, attempts, outcome, at, failures)
    ensures var longer := attempts + [last];
            if outcome(last).None? then Reports(order, longer, outcome, at, failures)
            else Reports(order, longer, outcome, at + [|attempts|], failures + [(order[last].0, outcome(last).value)])
  {
  }

  lemma {:induction false} ReportedFailures(order: seq<(string, ComponentKind)>, attempts: seq<nat>, outcome: nat -> Option<string>)
    returns (at: seq<nat>)
    requires forall a | 0 <= a < |attempts| :: attempts[a] < |order|
    ensures FailedAt(attempts, outcome, at) && Reports(order, attempts, outcome, at, Failures(order, attempts, outcome))
    decreases |attempts|
  {
    at := [];
    if attempts != [] {
      var init, last := attempts[..|attempts| - 1], attempts[|attempts| - 1];
      SplitLast(attempts);
      at := ReportedFailures(order, init, outcome);
      FailuresSnoc(order, init, last, outcome);
      FailedAtSnoc(init, last, outcome, at);
      ReportsSnoc(order, init, last, outcome, at, Failures(order, init, outcome));
      if outcome(last).Some? { at := at + [|init|]; }
    }
  }

  // ---------------------------------------------------------------- order

  /** `u` feeds `v`: `v` depends on `u`. */
  type Feeds = set<(string, string)>

  function Reverse<T>(s: seq<T>): seq<T> {
    seq(|s|, i requires 0 <= i < |s| => s[|s| - 1 - i])
  }

  /** The contract of the topological sort: sources of an edge come before its targets. */
  ghost predicate Topological(order: seq<(string, ComponentKind)>, feeds: Feeds) {
    forall i, j | 0 <= i < |order| && 0 <= j < |order| && (order[i].0, order[j].0) in feeds :: i < j
  }

  /** The order used when no topological order exists. */
  function KindOrder(reactions: seq<string>, queries: seq<string>, sources: seq<string>): seq<(string, ComponentKind)> {
    seq(|reactions|, i requires 0 <= i < |reactions| => (reactions[i], Reaction))
    + seq(|queries|, i requires 0 <= i < |queries| => (queries[i], Query))
    + seq(|sources|, i requires 0 <= i < |sources| => (sources[i], Source))
  }

  /** Every edge goes from a source to a query or from a query to a reaction, and no id is of two kinds. */
  ghost predicate KindedFeeds(feeds: Feeds, reactions: seq<string>, queries: seq<string>, sources: seq<string>) {
    && (forall e | e in feeds :: (e.0 in sources && e.1 in queries) || (e.0 in queries && e.1 in reactions))
    && (forall x :: !(x in reactions && x in queries) && !(x in queries && x in sources) && !(x in reactions && x in sources))
  }

  /** No attempt is made before the attempts on the components that depend on it. */
  ghost predicate DependentsFirst(order: seq<(string, ComponentKind)>, attempts: seq<nat>, feeds: Feeds) {
    forall a, b | 0 <= a < |attempts| && 0 <= b < |attempts| && attempts[a] < |order| && attempts[b] < |order|
      && (order[attempts[a]].0, order[attempts[b]].0) in feeds :: b < a
  }

  lemma StopOrderFollowsTopology(sorted: seq<(string, ComponentKind)>, feeds: Feeds, permanent: bool,
                                 live: nat -> Option<ComponentStatus>)
    requires Topological(sorted, feeds)
    ensures DependentsFirst(Reverse(sorted), Turns(Reverse(sorted), permanent, live, |sorted|), feeds)
  {
    var order := Reverse(sorted);
    var ts := Turns(order, permanent, live, |order|);
    ExhaustiveStop(order, permanent, live, |order|);
    forall a, b | 0 <= a < |ts| && 0 <= b < |ts| && ts[a] < |order| && ts[b] < |order|
      && (order[ts[a]].0, order[ts[b]].0) in feeds
      ensures b < a
    {
      var i, j := |sorted| - 1 - ts[a], |sorted| - 1 - ts[b];
      assert (sorted[i].0, sorted[j].0) in feeds;
    }
  }

  lemma StopOrderFollowsKinds(reactions: seq<string>, queries: seq<string>, sources: seq<string>, feeds: Feeds,
                              permanent: bool, live: nat -> Option<ComponentStatus>)
    requires KindedFeeds(feeds, reactions, queries, sources)
    ensures var order := KindOrder(reactions, queries, sources);
            DependentsFirst(order, Turns(order, permanent, live, |order|), feeds)
  {
    var order := KindOrder(reactions, queries, sources);
    var ts := Turns(order, permanent, live, |order|);
    ExhaustiveStop(order, permanent, live, |order|);
    forall a, b | 0 <= a < |ts| && 0 <= b < |ts| && ts[a] < |order| && ts[b] < |order|
      && (order[ts[a]].0, order[ts[b]].0) in feeds
      ensures b < a
    {
      KindPosition(reactions, queries, sources, ts[a]);
      KindPosition(reactions, queries, sources, ts[b]);
    }
  }

  lemma {:induction false} TaggedCount(ids: seq<string>, kind: ComponentKind, id: string, other: ComponentKind)
    ensures var tagged := seq(|ids|, i requires 0 <= i < |ids| => (ids[i], kind));
            multiset(tagged)[(id, other)] == if kind == other then multiset(ids)[id] else 0
    decreases |ids|
  {
    var tagged := seq(|ids|, i requires 0 <= i < |ids| => (ids[i], kind));
    if ids != [] {
      var init := ids[..|ids| - 1];
      TaggedCount(init, kind, id, other);
      SplitLast(ids);
      assert tagged == seq(|init|, i requires 0 <= i < |init| => (init[i], kind)) + [(ids[|ids| - 1], kind)];
    }
  }

  /** The fallback order lists every reaction, query and source as often as it was listed, and nothing else. */
  lemma KindOrderListsAll(reactions: seq<string>, queries: seq<string>, sources: seq<string>, id: string, kind: ComponentKind)
    ensures multiset(KindOrder(reactions, queries, sources))[(id, kind)] ==
            match kind
            case Reaction => multiset(reactions)[id]
            case Query => multiset(queries)[id]
            case Source => multiset(sources)[id]
            case _ => 0
  {
    TaggedCount(reactions, Reaction, id, kind);
    TaggedCount(queries, Query, id, kind);
    TaggedCount(sources, Source, id, kind);
  }

  lemma KindPosition(reactions: seq<string>, queries: seq<string>, sources: seq<string>, i: nat)
    requires i < |KindOrder(reactions, queries, sources)|
    ensures var id := KindOrder(reactions, queries, sources)[i].0;
            && (i < |reactions| ==> id in reactions)
            && (|reactions| <= i < |reactions| + |queries| ==> id in queries)
            && (|reactions| + |queries| <= i ==> id in sources)
  {
  }

  // ---------------------------------------------------------------- repeated permanent passes

  /** A component whose stop will still fail `faults` times, and whose runtime is `present` in the graph. */
  datatype Component = Component(kind: ComponentKind, status: ComponentStatus, faults: nat, present: bool)

  type World = map<string, Component>

  predicate StopFails(c: Component) {
    !c.present || c.faults > 0
  }

  /** Without a runtime the manager reports an error and changes nothing. A failed stop leaves the component in
      Error. A successful one leaves it Stopped, or, while its own report is `late`, in the state the manager
      put it in. */
  function StopOne(c: Component, late: bool): Component {
    if !c.present then c
    else if c.faults > 0 then c.(status := Error, faults := c.faults - 1)
    else if !late then c.(status := Stopped)
    else if c.kind.Reaction? && c.status.Error? then c
    else c.(status := Stopping)
  }

  predicate Due(w: World, id: string) {
    id in w && Eligible(w[id].kind, Some(w[id].status), true)
  }

  /** The world after a permanent pass over the first `n` components, and how many stops failed. */
  function Pass(w: World, order: seq<string>, late: set<string>, n: nat): (World, nat)
    requires n <= |order|
  {
    if n == 0 then (w, 0) else
    var (v, failed) := Pass(w, order, late, n - 1);
    var id := order[n - 1];
    if !Due(v, id) then (v, failed)
    else (v[id := StopOne(v[id], id in late)], failed + if StopFails(v[id]) then 1 else 0)
  }

  predicate AllPresent(w: World, order: seq<string>) {
    forall id | id in order && id in w :: w[id].present
  }

  predicate Distinct(order: seq<string>) {
    forall i, j | 0 <= i < j < |order| :: order[i] != order[j]
  }

  function Faults(w: World, order: seq<string>): nat {
    if order == [] then 0 else
    Faults(w, order[..|order| - 1])
    + var id := order[|order| - 1]; if id in w then w[id].faults else 0
  }

  lemma {:induction false} FaultsElsewhere(w: World, order: seq<string>, id: string, c: Component)
    requires id !in order
    ensures Faults(w[id := c], order) == Faults(w, order)
    decreases |order|
  {
    if order != [] {
      assert forall x | x in order[..|order| - 1] :: x in order;
      FaultsElsewhere(w, order[..|order| - 1], id, c);
    }
  }

  lemma {:induction false} FaultsAt(w: World, order: seq<string>, i: nat, c: Component)
    requires Distinct(order) && i < |order| && order[i] in w
    ensures Faults(w[order[i] := c], order) == Faults(w, order) - w[order[i]].faults + c.faults
    decreases |order|
  {
    var init := order[..|order| - 1];
    if i == |order| - 1 {
      FaultsElsewhere(w, init, order[i], c);
    } else {
      FaultsAt(w, init, i, c);
      assert order[|order| - 1] != order[i];
    }
  }

  lemma {:induction false} PassKeepsKeys(w: World, order: seq<string>, late: set<string>, n: nat)
    requires n <= |order|
    ensures Pass(w, order, late, n).0.Keys == w.Keys
  {
    if n > 0 { PassKeepsKeys(w, order, late, n - 1); }
  }

  /** While the runtimes are there, every failed stop uses up a fault, and nothing else changes the count. */
  lemma {:induction false} PassUsesFaults(w: World, order: seq<string>, late: set<string>, n: nat)
    requires n <= |order| && Distinct(order) && AllPresent(w, order)
    ensures var (v, failed) := Pass(w, order, late, n);
            Faults(w, order) == Faults(v, order) + failed && AllPresent(v, order)
  {
    if n > 0 {
      PassUsesFaults(w, order, late, n - 1);
      var (v, failed) := Pass(w, order, late, n - 1);
      if Due(v, order[n - 1]) { FaultsAt(v, order, n - 1, StopOne(v[order[n - 1]], order[n - 1] in late)); }
    }
  }

  /** What a pass does to one component depends on that component only. */
  lemma {:induction false} PassAt(w: World, order: seq<string>, late: set<string>, n: nat, id: string)
    requires n <= |order| && Distinct(order) && id in w
    ensures var (v, failed) := Pass(w, order, late, n);
            && id in v
            && (id in order[..n] ==> v[id] == if Due(w, id) then StopOne(w[id], id in late) else w[id])
            && (id !in order[..n] ==> v[id] == w[id])
            && (id in order[..n] && Due(w, id) && StopFails(w[id]) ==> failed > 0)
  {
    if n > 0 {
      PassAt(w, order, late, n - 1, id);
      assert order[..n] == order[..n - 1] + [order[n - 1]];
      if id in order[..n - 1] {
        var i :| 0 <= i < n - 1 && order[i] == id;
        assert order[i] != order[n - 1];
      }
    }
  }

  /** A component that is not starting, running or failed is left alone, and the pass fails as often as without it. */
  lemma {:induction false} QuietIsLeftAlone(w: World, order: seq<string>, late: set<string>, n: nat, id: string)
    requires n <= |order| && id in w && w[id].status in {Added, Stopping, Stopped, Removed, Reconfiguring}
    ensures var (v, failed) := Pass(w, order, late, n);
            && id in v && v[id] == w[id]
            && Pass(w - {id}, order, late, n) == (v - {id}, failed)
  {
    if n > 0 {
      QuietIsLeftAlone(w, order, late, n - 1, id);
      var v, x := Pass(w, order, late, n - 1).0, order[n - 1];
      if Due(v, x) {
        assert x != id && (v - {id})[x := StopOne(v[x], x in late)] == v[x := StopOne(v[x], x in late)] - {id};
      }
    }
  }

  /** A component whose stop failed is in Error, and due again. */
  lemma FailedStopIsDueAgain(w: World, order: seq<string>, late: set<string>, id: string)
    requires Distinct(order) && id in order && Due(w, id) && w[id].present && w[id].faults > 0
    ensures var v := Pass(w, order, late, |order|).0;
            id in v && v[id] == w[id].(status := Error, faults := w[id].faults - 1) && Due(v, id)
  {
    PassAt(w, order, late, |order|, id);
    assert order[..|order|] == order;
  }

  function Kinded(w: World, order: seq<string>): seq<(string, ComponentKind)> {
    seq(|order|, i requires 0 <= i < |order| => (order[i], if order[i] in w then w[order[i]].kind else Instance))
  }

  /** The component as the pass finds it at turn `i`. */
  function FoundAt(w: World, order: seq<string>, late: set<string>, i: nat): Option<Component> {
    if i >= |order| then None else
    var v := Pass(w, order, late, i).0;
    if order[i] in v then Some(v[order[i]]) else None
  }

  function LiveIn(w: World, order: seq<string>, late: set<string>): nat -> Option<ComponentStatus> {
    (i: nat) => var c := FoundAt(w, order, late, i); if c.Some? then Some(c.value.status) else None
  }

  function OutcomeIn(w: World, order: seq<string>, late: set<string>): nat -> Option<string> {
    (i: nat) => var c := FoundAt(w, order, late, i); if c.Some? && StopFails(c.value) then Some("stop failed") else None
  }

  /** At each turn the loop attempts what the pass finds due, and fails when the pass counts a failure. */
  lemma TurnAgrees(w: World, order: seq<string>, late: set<string>, i: nat)
    requires i < |order| && Distinct(order)
    ensures var v := Pass(w, order, late, i).0;
            && (Eligible(Kinded(w, order)[i].1, LiveIn(w, order, late)(i), true) <==> Due(v, order[i]))
            && (Due(v, order[i]) ==> (OutcomeIn(w, order, late)(i).Some? <==> StopFails(v[order[i]])))
  {
    PassKeepsKeys(w, order, late, i);
    if order[i] in w { PassAt(w, order, late, i, order[i]); }
  }

  lemma FailuresSnoc(order: seq<(string, ComponentKind)>, attempts: seq<nat>, i: nat, outcome: nat -> Option<string>)
    requires (forall a | 0 <= a < |attempts| :: attempts[a] < |order|) && i < |order|
    ensures Failures(order, attempts + [i], outcome)
            == if outcome(i).Some? then Failures(order, attempts, outcome) + [(order[i].0, outcome(i).value)]
               else Failures(order, attempts, outcome)
  {
    InitOfSnoc(attempts, i);
    assert Failures(order, attempts, outcome) + [] == Failures(order, attempts, outcome);
  }

  lemma {:induction false} TurnsBound(order: seq<(string, ComponentKind)>, permanent: bool, live: nat -> Option<ComponentStatus>, n: nat)
    requires n <= |order|
    ensures forall a | 0 <= a < |Turns(order, permanent, live, n)| :: Turns(order, permanent, live, n)[a] < n
  {
    if n > 0 { TurnsBound(order, permanent, live, n - 1); }
  }

  /** How many stops fail in the loop over the first `n` components. */
  ghost function LoopFailures(w: World, order: seq<string>, late: set<string>, n: nat): nat
    requires n <= |order|
  {
    var turns := Turns(Kinded(w, order), true, LiveIn(w, order, late), n);
    TurnsBound(Kinded(w, order), true, LiveIn(w, order, late), n);
    |Failures(Kinded(w, order), turns, OutcomeIn(w, order, late))|
  }

  lemma TurnsStep(w: World, order: seq<string>, late: set<string>, n: nat)
    requires 0 < n <= |order| && Distinct(order)
    ensures var kinded, live := Kinded(w, order), LiveIn(w, order, late);
            Turns(kinded, true, live, n) == Turns(kinded, true, live, n - 1)
              + if Due(Pass(w, order, late, n - 1).0, order[n - 1]) then [n - 1] else []
  {
    TurnAgrees(w, order, late, n - 1);
  }

  lemma LoopFailuresStep(w: World, order: seq<string>, late: set<string>, n: nat)
    requires 0 < n <= |order| && Distinct(order)
    ensures var v := Pass(w, order, late, n - 1).0;
            LoopFailures(w, order, late, n) == LoopFailures(w, order, late, n - 1)
              + if Due(v, order[n - 1]) && StopFails(v[order[n - 1]]) then 1 else 0
  {
    var kinded, live := Kinded(w, order), LiveIn(w, order, late);
    var turns := Turns(kinded, true, live, n - 1);
    TurnAgrees(w, order, late, n - 1);
    TurnsStep(w, order, late, n);
    TurnsBound(kinded, true, live, n - 1);
    if Due(Pass(w, order, late, n - 1).0, order[n - 1]) {
      FailuresSnoc(kinded, turns, n - 1, OutcomeIn(w, order, late));
    } else {
      assert turns + [] == turns;
    }
  }

  /** The pass is `StopComponents` in the environment it creates: it fails as often as the loop does. */
  lemma {:induction false} PassIsStopComponents(w: World, order: seq<string>, late: set<string>, n: nat)
    requires n <= |order| && Distinct(order)
    ensures LoopFailures(w, order, late, n) == Pass(w, order, late, n).1
  {
    if n > 0 {
      PassIsStopComponents(w, order, late, n - 1);
      LoopFailuresStep(w, order, late, n);
    }
  }

  /** Nothing is left starting or running, no source or query in Error, and a reaction in Error only while
      the report of its successful stop is late. */
  ghost predicate AllStopped(w: World, order: seq<string>) {
    forall id | id in order && id in w && Stoppable(w[id].kind) ::
      !w[id].status.Starting? && !w[id].status.Running? && (w[id].status.Error? ==> w[id].kind.Reaction? && w[id].faults == 0)
  }

  lemma CleanPassStopsAll(w: World, order: seq<string>, late: set<string>)
    requires Distinct(order) && Pass(w, order, late, |order|).1 == 0
    ensures AllStopped(Pass(w, order, late, |order|).0, order)
  {
    var v := Pass(w, order, late, |order|).0;
    PassKeepsKeys(w, order, late, |order|);
    forall id | id in order && id in v && Stoppable(v[id].kind)
      ensures !v[id].status.Starting? && !v[id].status.Running?
      ensures v[id].status.Error? ==> v[id].kind.Reaction? && v[id].faults == 0
    {
      PassAt(w, order, late, |order|, id);
      assert order[..|order|] == order;
    }
  }

  /** The world before the (k+1)-th pass. Reports may be late differently in every pass. */
  function After(w: World, order: seq<string>, late: nat -> set<string>, k: nat): World {
    if k == 0 then w else Pass(After(w, order, late, k - 1), order, late(k - 1), |order|).0
  }

  ghost predicate FailsAt(w: World, order: seq<string>, late: nat -> set<string>, k: nat) {
    Pass(After(w, order, late, k), order, late(k), |order|).1 > 0
  }

  lemma {:induction false} FailingPassesUseFaults(w: World, order: seq<string>, late: nat -> set<string>, k: nat)
    requires Distinct(order) && AllPresent(w, order) && forall j: nat | j < k :: FailsAt(w, order, late, j)
    ensures Faults(After(w, order, late, k), order) + k <= Faults(w, order) && AllPresent(After(w, order, late, k), order)
  {
    if k > 0 {
      FailingPassesUseFaults(w, order, late, k - 1);
      assert FailsAt(w, order, late, k - 1);
      PassUsesFaults(After(w, order, late, k - 1), order, late(k - 1), |order|);
    }
  }

  /** If every component's stop fails finitely often, some pass among the first `faults + 1` is clean, and it
      leaves everything stopped. */
  lemma {:induction false} RetryConverges(w: World, order: seq<string>, late: nat -> set<string>) returns (k: nat)
    requires Distinct(order) && AllPresent(w, order)
    ensures k <= Faults(w, order) && !FailsAt(w, order, late, k)
    ensures forall j: nat | j < k :: FailsAt(w, order, late, j)
    ensures AllStopped(After(w, order, late, k + 1), order)
  {
    k := 0;
    while FailsAt(w, order, late, k)
      invariant k <= Faults(w, order)
      invariant forall j: nat | j < k :: FailsAt(w, order, late, j)
      decreases Faults(w, order) - k
    {
      FailingPassesUseFaults(w, order, late, k + 1);
      k := k + 1;
    }
    CleanPassStopsAll(After(w, order, late, k), order, late(k));
  }

  // ---------------------------------------------------------------- passes after the runtimes are gone

  function DropRuntimes(w: World): World {
    map id | id in w :: w[id].(present := false)
  }

  predicate NonePresent(w: World, order: seq<string>) {
    forall id | id in order && id in w :: !w[id].present
  }

  predicate SomeDue(w: World, order: seq<string>) {
    exists id | id in order :: Due(w, id)
  }

  /** Without runtimes a pass changes nothing, and it is clean only if nothing is due. */
  lemma {:induction false} PassWithoutRuntimes(w: World, order: seq<string>, late: set<string>, n: nat)
    requires n <= |order| && NonePresent(w, order)
    ensures Pass(w, order, late, n).0 == w
    ensures Pass(w, order, late, n).1 == 0 <==> !SomeDue(w, order[..n])
  {
    if n > 0 {
      PassWithoutRuntimes(w, order, late, n - 1);
      assert order[..n] == order[..n - 1] + [order[n - 1]];
    }
  }

  /** So either no pass ever fails again, or every pass does. */
  lemma {:induction false} RetryWithoutRuntimes(w: World, order: seq<string>, late: nat -> set<string>, k: nat)
    requires NonePresent(w, order)
    ensures After(w, order, late, k) == w
    ensures FailsAt(w, order, late, k) <==> SomeDue(w, order)
  {
    if k > 0 {
      RetryWithoutRuntimes(w, order, late, k - 1);
      PassWithoutRuntimes(w, order, late(k - 1), |order|);
    }
    PassWithoutRuntimes(w, order, late(k), |order|);
    assert order[..|order|] == order;
  }

  /** A reaction in Error whose successful stop is reported late is due again after the pass. */
  lemma LateReactionStaysDue(w: World, order: seq<string>, late: set<string>, id: string)
    requires Distinct(order) && id in order && id in w && id in late
    requires w[id] == Component(Reaction, Error, 0, true)
    ensures SomeDue(DropRuntimes(Pass(w, order, late, |order|).0), order)
  {
    PassAt(w, order, late, |order|, id);
    assert order[..|order|] == order;
    assert Due(DropRuntimes(Pass(w, order, late, |order|).0), id);
  }
}
