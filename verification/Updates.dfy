/** The graph update loop (`new` in lib/src/lib_core.rs, `apply_update` in lib/src/component_graph/graph.rs):
    status updates drained from a channel in batches. */
module Updates {
  import opened Wrappers
  import opened Sequences
  import opened Lifecycle

  datatype Node = Node(kind: ComponentKind, status: ComponentStatus)

  type Graph = map<string, Node>

  datatype Update = Update(id: string, status: ComponentStatus)

  datatype Event = Event(id: string, kind: ComponentKind, status: ComponentStatus)

  predicate Accepted(g: Graph, u: Update) {
    u.id in g && g[u.id].status != u.status && IsValidTransition(g[u.id].kind, g[u.id].status, u.status)
  }

  /** Unknown components, repeated states and invalid transitions are skipped; the root emits no event. */
  function ApplyUpdate(g: Graph, u: Update): (Graph, Option<Event>) {
    if !Accepted(g, u) then (g, None)
    else (g[u.id := g[u.id].(status := u.status)],
          if g[u.id].kind.Instance? then None else Some(Event(u.id, g[u.id].kind, u.status)))
  }

  /** An update changes the graph exactly when the component is known and may go to the new status. It then changes that
      status only, and is reported with the component's kind unless the component is the root. */
  lemma UpdateIsExact(g: Graph, u: Update)
    ensures var (h, event) := ApplyUpdate(g, u);
            && (h != g <==> u.id in g && IsValidTransition(g[u.id].kind, g[u.id].status, u.status))
            && h.Keys == g.Keys
            && (forall id | id in g && id != u.id :: h[id] == g[id])
            && (h != g ==> h[u.id] == Node(g[u.id].kind, u.status))
            && event == if h != g && g[u.id].kind != Instance then Some(Event(u.id, g[u.id].kind, u.status)) else None
  {
    var (h, _) := ApplyUpdate(g, u);
    if Accepted(g, u) { assert h[u.id] != g[u.id]; }
  }

  function EventSeq(e: Option<Event>): seq<Event> {
    if e.Some? then [e.value] else []
  }

  /** The updates applied one at a time. */
  function ApplyUpdates(g: Graph, us: seq<Update>): (Graph, seq<Event>) {
    if us == [] then (g, []) else
    var (h, events) := ApplyUpdates(g, us[..|us| - 1]);
    var (k, event) := ApplyUpdate(h, us[|us| - 1]);
    (k, events + EventSeq(event))
  }

  /** One batch under the write lock. */
  method ApplyBatch(graph: Graph, batch: seq<Update>) returns (after: Graph, events: seq<Event>)
    ensures (after, events) == ApplyUpdates(graph, batch)
  {
    after, events := graph, [];
    for i := 0 to |batch|
      invariant (after, events) == ApplyUpdates(graph, batch[..i])
    {
      assert batch[..i + 1][..i] == batch[..i];
      var (next, event) := ApplyUpdate(after, batch[i]);
      after := next;
      assert events + [] == events;
      if event.Some? {
        events := events + [event.value];
      }
    }
    assert batch[..|batch|] == batch;
  }

  lemma {:induction false} ApplyConcat(g: Graph, a: seq<Update>, b: seq<Update>)
    ensures var (h, events) := ApplyUpdates(g, a);
            var (k, more) := ApplyUpdates(h, b);
            ApplyUpdates(g, a + b) == (k, events + more)
    decreases |b|
  {
    if b == [] {
      assert a + b == a;
      assert ApplyUpdates(g, a).1 + [] == ApplyUpdates(g, a).1;
    } else {
      var init, last := b[..|b| - 1], b[|b| - 1];
      ApplyConcat(g, a, init);
      assert (a + b)[..|a + b| - 1] == a + init;
      var (h, events) := ApplyUpdates(g, a);
      var (k, more) := ApplyUpdates(h, init);
      assert events + more + EventSeq(ApplyUpdate(k, last).1) == events + (more + EventSeq(ApplyUpdate(k, last).1));
    }
  }

  // ---------------------------------------------------------------- the loop and its senders

  /** `sent` and `applied` record history only. */
  datatype LoopState = LoopState(
    queue: seq<Update>, batch: seq<Update>, graph: Graph, events: seq<Event>, sent: seq<Update>, applied: seq<Update>)

  datatype LoopStep = Send(update: Update) | Receive | Commit

  /** Senders append to the channel at any time. The loop moves updates from the channel to its batch and, at
      any point it chooses to stop draining, commits the batch. */
  function LoopNext(s: LoopState, step: LoopStep): LoopState {
    match step
    case Send(u) => s.(queue := s.queue + [u], sent := s.sent + [u])
    case Receive => if s.queue == [] then s else s.(queue := s.queue[1..], batch := s.batch + [s.queue[0]])
    case Commit =>
      var (graph, events) := ApplyUpdates(s.graph, s.batch);
      s.(batch := [], graph := graph, events := s.events + events, applied := s.applied + s.batch)
  }

  function LoopRun(s: LoopState, steps: seq<LoopStep>): LoopState {
    if steps == [] then s else LoopNext(LoopRun(s, steps[..|steps| - 1]), steps[|steps| - 1])
  }

  function LoopStart(g: Graph): LoopState {
    LoopState([], [], g, [], [], [])
  }

  /** No update is lost, repeated or overtaken, and the graph and the events are those of the applied ones. */
  ghost predicate LoopInv(g: Graph, s: LoopState) {
    s.sent == s.applied + s.batch + s.queue && (s.graph, s.events) == ApplyUpdates(g, s.applied)
  }

  lemma MoveAcross(a: seq<Update>, b: seq<Update>, q: seq<Update>)
    requires q != []
    ensures a + b + q == a + (b + [q[0]]) + q[1..]
  {
  }

  lemma LoopStepKeepsInv(g: Graph, s: LoopState, step: LoopStep)
    requires LoopInv(g, s)
    ensures LoopInv(g, LoopNext(s, step))
  {
    match step
    case Send(u) => Assoc(s.applied + s.batch, s.queue, [u]);
    case Receive =>
      if s.queue != [] { MoveAcross(s.applied, s.batch, s.queue); }
    case Commit =>
      ApplyConcat(g, s.applied, s.batch);
      assert s.applied + s.batch + [] == s.applied + s.batch;
  }

  /** Batching refines one-at-a-time: however senders and loop interleave and wherever batches are cut,
      the graph and the events are those of the updates applied singly in the order sent. */
  lemma {:induction false} BatchingRefinesSingles(g: Graph, steps: seq<LoopStep>)
    ensures var s := LoopRun(LoopStart(g), steps);
            && LoopInv(g, s)
            && (s.batch == [] && s.queue == [] ==> (s.graph, s.events) == ApplyUpdates(g, s.sent))
    decreases |steps|
  {
    if steps != [] {
      BatchingRefinesSingles(g, steps[..|steps| - 1]);
      LoopStepKeepsInv(g, LoopRun(LoopStart(g), steps[..|steps| - 1]), steps[|steps| - 1]);
    }
    var s := LoopRun(LoopStart(g), steps);
    assert s.batch == [] && s.queue == [] ==> s.sent == s.applied;
  }

  // ---------------------------------------------------------------- the event history

  /** The statuses the events report for one component. */
  function Trace(events: seq<Event>, id: string): seq<ComponentStatus> {
    if events == [] then [] else
    Trace(events[..|events| - 1], id) + (if events[|events| - 1].id == id then [events[|events| - 1].status] else [])
  }

  function StatusAfter(start: ComponentStatus, trace: seq<ComponentStatus>): ComponentStatus {
    if trace == [] then start else trace[|trace| - 1]
  }

  function Before(start: ComponentStatus, trace: seq<ComponentStatus>, i: nat): ComponentStatus
    requires i < |trace|
  {
    if i == 0 then start else trace[i - 1]
  }

  /** Every reported status follows from the one before by a valid transition. */
  ghost predicate LegalPath(kind: ComponentKind, start: ComponentStatus, trace: seq<ComponentStatus>) {
    forall i | 0 <= i < |trace| :: IsValidTransition(kind, Before(start, trace, i), trace[i])
  }

  lemma TraceSnoc(events: seq<Event>, e: Option<Event>, id: string)
    ensures Trace(events + EventSeq(e), id)
            == Trace(events, id) + Reported(e, id)
  {
    if e.Some? {
      assert (events + [e.value])[..|events + [e.value]| - 1] == events;
    } else {
      assert events + [] == events;
    }
  }

  lemma LegalSnoc(kind: ComponentKind, start: ComponentStatus, trace: seq<ComponentStatus>, status: ComponentStatus)
    requires LegalPath(kind, start, trace) && IsValidTransition(kind, StatusAfter(start, trace), status)
    ensures LegalPath(kind, start, trace + [status])
  {
    var longer := trace + [status];
    forall i | 0 <= i < |longer|
      ensures IsValidTransition(kind, Before(start, longer, i), longer[i])
    {
      if i < |trace| { assert Before(start, longer, i) == Before(start, trace, i); }
    }
  }

  /** The trace leads from the first state of a component to the current one, legally and within its kind. */
  ghost predicate Tracks(first: Node, now: Node, trace: seq<ComponentStatus>) {
    && now.kind == first.kind
    && now.status == StatusAfter(first.status, trace)
    && LegalPath(first.kind, first.status, trace)
  }

  /** What an event adds to the trace of a component. */
  function Reported(e: Option<Event>, id: string): seq<ComponentStatus> {
    if e.Some? && e.value.id == id then [e.value.status] else []
  }

  lemma UpdateKeepsTrack(first: Node, g: Graph, u: Update, id: string, trace: seq<ComponentStatus>)
    requires !first.kind.Instance? && id in g && Tracks(first, g[id], trace)
    ensures var (h, event) := ApplyUpdate(g, u);
            id in h && Tracks(first, h[id], trace + Reported(event, id))
  {
    if u.id == id && Accepted(g, u) {
      LegalSnoc(first.kind, first.status, trace, u.status);
    } else {
      assert trace + [] == trace;
    }
  }

  /** Whatever updates arrive, the events of a component trace a legal path of its lifecycle from its first
      status to its current one, and its kind never changes. */
  lemma {:induction false} EventsTraceLifecycle(g: Graph, us: seq<Update>, id: string)
    requires id in g && !g[id].kind.Instance?
    ensures var (h, events) := ApplyUpdates(g, us);
            id in h && Tracks(g[id], h[id], Trace(events, id))
    decreases |us|
  {
    if us != [] {
      var init, last := us[..|us| - 1], us[|us| - 1];
      EventsTraceLifecycle(g, init, id);
      var (h, events) := ApplyUpdates(g, init);
      UpdateKeepsTrack(g[id], h, last, id, Trace(events, id));
      TraceSnoc(events, ApplyUpdate(h, last).1, id);
    }
  }
}
