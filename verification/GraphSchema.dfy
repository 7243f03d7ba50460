/** What the steps of schema inspection contribute to the graph schema, and what any sequence of them leaves in it. */
module GraphSchemas {
  import opened Wrappers
  import opened Sequences
  import opened Schema

  // ---------------------------------------------------------------- facts and what they amount to

  datatype Key = Node(labelName: string) | Relation(labelName: string)

  /** One elementary contribution to the schema. */
  datatype Fact =
    | Seen(key: Key, source: string)
    | Queried(key: Key, query: string)
    | Ends(key: Key, from: Option<string>, to: Option<string>)
    | HasProperty(key: Key, property: PropertySchema)
    | NoSchema(source: string)

  datatype Entry = Entry(sources: set<string>, queriedBy: set<string>, from: Option<string>, to: Option<string>,
                         properties: map<string, Info>)

  datatype Model = Model(entries: map<Key, Entry>, withoutSchema: set<string>)

  const NO_ENTRY: Entry := Entry({}, {}, None, None, map[])
  const NO_MODEL: Model := Model(map[], {})

  ghost function EntryAt(m: Model, k: Key): Entry {
    if k in m.entries then m.entries[k] else NO_ENTRY
  }

  ghost function ApplyTo(e: Entry, f: Fact): Entry {
    match f
    case Seen(_, s) => e.(sources := e.sources + {s})
    case Queried(_, q) => e.(queriedBy := e.queriedBy + {q})
    case Ends(_, a, b) => e.(from := OrElse(e.from, a), to := OrElse(e.to, b))
    case HasProperty(_, p) => e.(properties := MergeOne(e.properties, p))
    case NoSchema(_) => e
  }

  ghost function Apply(m: Model, f: Fact): Model {
    if f.NoSchema? then m.(withoutSchema := m.withoutSchema + {f.source})
    else m.(entries := m.entries[f.key := ApplyTo(EntryAt(m, f.key), f)])
  }

  ghost function ApplyAll(m: Model, fs: seq<Fact>): Model {
    if fs == [] then m else Apply(ApplyAll(m, fs[..|fs| - 1]), fs[|fs| - 1])
  }

  lemma {:induction false} ApplyAllConcat(m: Model, a: seq<Fact>, b: seq<Fact>)
    ensures ApplyAll(m, a + b) == ApplyAll(ApplyAll(m, a), b)
    decreases |b|
  {
    if b == [] {
      assert a + b == a;
    } else {
      ApplyAllConcat(m, a, b[..|b| - 1]);
      assert (a + b)[..|a + b| - 1] == a + b[..|b| - 1];
    }
  }

  // ---------------------------------------------------------------- first value wins

  /** The places that hold at most one value, where the first known value stays. */
  datatype Slot =
    | FromOf(key: Key)
    | ToOf(key: Key)
    | TypeOf(key: Key, name: string)
    | DescriptionOf(key: Key, name: string)

  datatype Content = Text(text: string) | Type(dataType: PropertyType)

  function AsText(o: Option<string>): Option<Content> {
    if o.Some? then Some(Text(o.value)) else None
  }

  function AsType(o: Option<PropertyType>): Option<Content> {
    if o.Some? then Some(Type(o.value)) else None
  }

  /** What a fact offers for a slot. */
  function Offer(f: Fact, s: Slot): Option<Content> {
    match (f, s)
    case (Ends(k, a, _), FromOf(l)) => if k == l then AsText(a) else None
    case (Ends(k, _, b), ToOf(l)) => if k == l then AsText(b) else None
    case (HasProperty(k, p), TypeOf(l, n)) => if k == l && p.name == n then AsType(p.dataType) else None
    case (HasProperty(k, p), DescriptionOf(l, n)) => if k == l && p.name == n then AsText(p.description) else None
    case _ => None
  }

  ghost function First(fs: seq<Fact>, s: Slot): Option<Content> {
    if fs == [] then None else OrElse(First(fs[..|fs| - 1], s), Offer(fs[|fs| - 1], s))
  }

  function Stored(e: Entry, s: Slot): Option<Content> {
    match s
    case FromOf(_) => AsText(e.from)
    case ToOf(_) => AsText(e.to)
    case TypeOf(_, n) => if n in e.properties then AsType(e.properties[n].dataType) else None
    case DescriptionOf(_, n) => if n in e.properties then AsText(e.properties[n].description) else None
  }

  predicate Names(fs: seq<Fact>, k: Key) {
    exists f | f in fs :: !f.NoSchema? && f.key == k
  }

  /** The model says exactly what the facts say: who reported and who queried each label, which
      properties it has, and for every slot the first value offered. */
  ghost predicate Describes(m: Model, fs: seq<Fact>) {
    && (forall k :: k in m.entries <==> Names(fs, k))
    && (forall k, s | k in m.entries :: s in m.entries[k].sources <==> Seen(k, s) in fs)
    && (forall k, q | k in m.entries :: q in m.entries[k].queriedBy <==> Queried(k, q) in fs)
    && (forall k, n | k in m.entries :: n in m.entries[k].properties <==> HasNamed(fs, k, n))
    && (forall s: Slot | s.key in m.entries :: Stored(m.entries[s.key], s) == First(fs, s))
    && (forall s :: s in m.withoutSchema <==> NoSchema(s) in fs)
  }

  predicate HasNamed(fs: seq<Fact>, k: Key, n: string) {
    exists f | f in fs :: f.HasProperty? && f.key == k && f.property.name == n
  }

  lemma MemberSnoc(fs: seq<Fact>, f: Fact, k: Key, n: string)
    ensures forall g :: g in fs + [f] <==> g in fs || g == f
    ensures Names(fs + [f], k) <==> Names(fs, k) || (!f.NoSchema? && f.key == k)
    ensures HasNamed(fs + [f], k, n) <==> HasNamed(fs, k, n) || (f.HasProperty? && f.key == k && f.property.name == n)
  {
    assert forall g :: g in fs + [f] <==> g in fs || g == f;
  }

  lemma {:induction false} FirstUnnamed(fs: seq<Fact>, s: Slot)
    requires !Names(fs, s.key)
    ensures First(fs, s) == None
    decreases |fs|
  {
    if fs != [] {
      var init, last := fs[..|fs| - 1], fs[|fs| - 1];
      assert last in fs && forall f | f in init :: f in fs;
      FirstUnnamed(init, s);
    }
  }

  lemma FirstSnoc(fs: seq<Fact>, f: Fact, s: Slot)
    ensures First(fs + [f], s) == OrElse(First(fs, s), Offer(f, s))
  {
    assert (fs + [f])[..|fs + [f]| - 1] == fs;
  }

  /** One fact changes one entry as its offers say. */
  lemma StoredStep(e: Entry, f: Fact, s: Slot)
    requires !f.NoSchema? && s.key == f.key
    ensures Stored(ApplyTo(e, f), s) == OrElse(Stored(e, s), Offer(f, s))
  {
  }

  lemma OtherKeys(m: Model, fs: seq<Fact>, f: Fact, s: Slot)
    requires Describes(m, fs) && s.key in m.entries && (f.NoSchema? || f.key != s.key)
    ensures Stored(m.entries[s.key], s) == First(fs + [f], s)
  {
    FirstSnoc(fs, f, s);
  }

  lemma OwnKey(m: Model, fs: seq<Fact>, f: Fact, s: Slot)
    requires Describes(m, fs) && !f.NoSchema? && f.key == s.key
    ensures Stored(ApplyTo(EntryAt(m, f.key), f), s) == First(fs + [f], s)
  {
    FirstSnoc(fs, f, s);
    StoredStep(EntryAt(m, f.key), f, s);
    if f.key !in m.entries { FirstUnnamed(fs, s); }
  }

  lemma DescribesStep(m: Model, fs: seq<Fact>, f: Fact)
    requires Describes(m, fs)
    ensures Describes(Apply(m, f), fs + [f])
  {
    var after, gs := Apply(m, f), fs + [f];
    forall k: Key, n: string
      ensures k in after.entries <==> Names(gs, k)
      ensures k in after.entries ==> (n in after.entries[k].properties <==> HasNamed(gs, k, n))
      ensures k in after.entries ==> (n in after.entries[k].sources <==> Seen(k, n) in gs)
      ensures k in after.entries ==> (n in after.entries[k].queriedBy <==> Queried(k, n) in gs)
      ensures n in after.withoutSchema <==> NoSchema(n) in gs
    {
      MemberSnoc(fs, f, k, n);
    }
    forall s: Slot | s.key in after.entries
      ensures Stored(after.entries[s.key], s) == First(gs, s)
    {
      if f.NoSchema? || f.key != s.key { OtherKeys(m, fs, f, s); } else { OwnKey(m, fs, f, s); }
    }
  }

  /** Whatever the sequence of merges, marks and records, the outcome says what the facts say. */
  lemma {:induction false} OutcomeDescribes(fs: seq<Fact>)
    ensures Describes(ApplyAll(NO_MODEL, fs), fs)
    decreases |fs|
  {
    if fs != [] {
      OutcomeDescribes(fs[..|fs| - 1]);
      DescribesStep(ApplyAll(NO_MODEL, fs[..|fs| - 1]), fs[..|fs| - 1], fs[|fs| - 1]);
      assert fs == fs[..|fs| - 1] + [fs[|fs| - 1]];
    }
  }

  lemma InfoByStored(k: Key, a: Entry, b: Entry, n: string)
    requires n in a.properties && n in b.properties
    requires Stored(a, TypeOf(k, n)) == Stored(b, TypeOf(k, n))
    requires Stored(a, DescriptionOf(k, n)) == Stored(b, DescriptionOf(k, n))
    ensures a.properties[n] == b.properties[n]
  {
  }

  /** A description by equal facts with equal first values is the same model. */
  lemma DescriptionIsUnique(m: Model, n: Model, fs: seq<Fact>, gs: seq<Fact>)
    requires Describes(m, fs) && Describes(n, gs) && SameFacts(fs, gs)
    requires forall s: Slot :: First(fs, s) == First(gs, s)
    ensures m == n
  {
    assert forall k :: Names(fs, k) == Names(gs, k);
    assert forall k, x :: HasNamed(fs, k, x) == HasNamed(gs, k, x);
    assert m.entries.Keys == n.entries.Keys;
    forall k | k in m.entries
      ensures m.entries[k] == n.entries[k]
    {
      var a, b := m.entries[k], n.entries[k];
      assert a.sources == b.sources && a.queriedBy == b.queriedBy;
      assert Stored(a, FromOf(k)) == Stored(b, FromOf(k)) && Stored(a, ToOf(k)) == Stored(b, ToOf(k));
      assert a.properties.Keys == b.properties.Keys;
      forall x | x in a.properties
        ensures a.properties[x] == b.properties[x]
      {
        assert FromOf(k).key == k;
        assert Stored(a, TypeOf(k, x)) == Stored(b, TypeOf(k, x));
        assert Stored(a, DescriptionOf(k, x)) == Stored(b, DescriptionOf(k, x));
        InfoByStored(k, a, b, x);
      }
      assert a.properties == b.properties;
    }
    assert m.withoutSchema == n.withoutSchema;
  }

  // ---------------------------------------------------------------- order independence

  ghost predicate SameFacts(fs: seq<Fact>, gs: seq<Fact>) {
    forall f :: f in fs <==> f in gs
  }

  lemma {:induction false} FirstIsOffered(fs: seq<Fact>, s: Slot) returns (f: Fact)
    ensures First(fs, s).Some? ==> f in fs && Offer(f, s) == First(fs, s)
    ensures First(fs, s).None? ==> forall g | g in fs :: Offer(g, s).None?
    decreases |fs|
  {
    f := NoSchema("");
    if fs != [] {
      var init, last := fs[..|fs| - 1], fs[|fs| - 1];
      SplitLast(fs);
      f := FirstIsOffered(init, s);
      if First(init, s).None? { f := last; }
    }
  }

  lemma {:induction false} FirstConcat(a: seq<Fact>, b: seq<Fact>, s: Slot)
    ensures First(a + b, s) == OrElse(First(a, s), First(b, s))
    decreases |b|
  {
    if b == [] {
      assert a + b == a;
    } else {
      FirstConcat(a, b[..|b| - 1], s);
      assert (a + b)[..|a + b| - 1] == a + b[..|b| - 1];
    }
  }

  /** The facts of several steps, one step after the other. */
  function Flatten(groups: seq<seq<Fact>>): seq<Fact> {
    if groups == [] then [] else Flatten(groups[..|groups| - 1]) + groups[|groups| - 1]
  }

  /** No two steps begin by saying different things about one slot. Within a step the first value counts. */
  ghost predicate Agree(groups: seq<seq<Fact>>) {
    forall g, h, s: Slot | g in groups && h in groups && First(g, s).Some? && First(h, s).Some? :: First(g, s) == First(h, s)
  }

  lemma {:induction false} FlattenMember(groups: seq<seq<Fact>>, f: Fact)
    ensures f in Flatten(groups) <==> exists g | g in groups :: f in g
    decreases |groups|
  {
    if groups != [] {
      FlattenMember(groups[..|groups| - 1], f);
      SplitLast(groups);
    }
  }

  /** The first value is the first value of some step, if any step has one. */
  lemma {:induction false} FirstOfFlatten(groups: seq<seq<Fact>>, s: Slot) returns (g: seq<Fact>)
    ensures First(Flatten(groups), s).Some? ==> g in groups && First(g, s) == First(Flatten(groups), s)
    ensures First(Flatten(groups), s).None? ==> forall h | h in groups :: First(h, s).None?
    decreases |groups|
  {
    g := [];
    if groups != [] {
      var init, last := groups[..|groups| - 1], groups[|groups| - 1];
      SplitLast(groups);
      FirstConcat(Flatten(init), last, s);
      g := FirstOfFlatten(init, s);
      if First(Flatten(init), s).None? { g := last; }
    }
  }

  lemma FlattenSnoc(gs: seq<seq<Fact>>, g: seq<Fact>)
    ensures Flatten(gs + [g]) == Flatten(gs) + g
  {
    InitOfSnoc(gs, g);
  }

  lemma {:induction false} FlattenConcat(a: seq<seq<Fact>>, b: seq<seq<Fact>>)
    ensures Flatten(a + b) == Flatten(a) + Flatten(b)
    decreases |b|
  {
    if b == [] {
      assert a + b == a;
    } else {
      var init, last := b[..|b| - 1], b[|b| - 1];
      FlattenConcat(a, init);
      assert (a + b)[..|a + b| - 1] == a + init;
      Assoc(Flatten(a), Flatten(init), last);
    }
  }

  /** A step put in front decides. */
  lemma FirstOfFront(g: seq<Fact>, groups: seq<seq<Fact>>, s: Slot)
    requires First(g, s).Some?
    ensures First(Flatten([g] + groups), s) == First(g, s)
  {
    FlattenConcat([g], groups);
    assert [g][..0] == [] && Flatten([g]) == [] + g == g;
    FirstConcat(g, Flatten(groups), s);
  }

  /** Equal outcomes hold equal first values. */
  lemma OutcomeShowsFirst(fs: seq<Fact>, gs: seq<Fact>, s: Slot)
    requires ApplyAll(NO_MODEL, fs) == ApplyAll(NO_MODEL, gs) && Names(fs, s.key)
    ensures First(fs, s) == First(gs, s)
  {
    OutcomeDescribes(fs);
    OutcomeDescribes(gs);
    assert s.key in ApplyAll(NO_MODEL, fs).entries;
  }

  lemma FirstNames(fs: seq<Fact>, s: Slot)
    requires First(fs, s).Some?
    ensures Names(fs, s.key)
  {
    var f := FirstIsOffered(fs, s);
  }

  ghost predicate SameGroups(gs: seq<seq<Fact>>, hs: seq<seq<Fact>>) {
    forall g :: g in gs <==> g in hs
  }

  /** Steps that agree give one outcome, in any order and however often repeated. */
  lemma AgreeingSteps(gs: seq<seq<Fact>>, hs: seq<seq<Fact>>)
    requires Agree(gs) && SameGroups(gs, hs)
    ensures ApplyAll(NO_MODEL, Flatten(gs)) == ApplyAll(NO_MODEL, Flatten(hs))
  {
    var fs, fs' := Flatten(gs), Flatten(hs);
    OutcomeDescribes(fs);
    OutcomeDescribes(fs');
    forall s: Slot
      ensures First(fs, s) == First(fs', s)
    {
      var g := FirstOfFlatten(gs, s);
      var h := FirstOfFlatten(hs, s);
    }
    forall f
      ensures f in fs <==> f in fs'
    {
      FlattenMember(gs, f);
      FlattenMember(hs, f);
    }
    DescriptionIsUnique(ApplyAll(NO_MODEL, fs), ApplyAll(NO_MODEL, fs'), fs, fs');
  }

  function MoveFirst<T>(xs: seq<T>, i: nat): seq<T>
    requires i < |xs|
  {
    [xs[i]] + (xs[..i] + xs[i + 1..])
  }

  lemma MoveFirstPermutes<T>(xs: seq<T>, i: nat)
    requires i < |xs|
    ensures multiset(MoveFirst(xs, i)) == multiset(xs)
  {
    assert xs == xs[..i] + [xs[i]] + xs[i + 1..];
  }

  /** Two steps that disagree give different outcomes when each in turn goes first, whatever follows. */
  lemma DisagreeingSteps(g: seq<Fact>, h: seq<Fact>, gs: seq<seq<Fact>>, hs: seq<seq<Fact>>, s: Slot)
    requires First(g, s).Some? && First(h, s).Some? && First(g, s) != First(h, s)
    ensures ApplyAll(NO_MODEL, Flatten([g] + gs)) != ApplyAll(NO_MODEL, Flatten([h] + hs))
  {
    FirstOfFront(g, gs, s);
    FirstOfFront(h, hs, s);
    if ApplyAll(NO_MODEL, Flatten([g] + gs)) == ApplyAll(NO_MODEL, Flatten([h] + hs)) {
      FirstNames(Flatten([g] + gs), s);
      OutcomeShowsFirst(Flatten([g] + gs), Flatten([h] + hs), s);
    }
  }

  lemma SameMembers<T>(xs: seq<T>, ys: seq<T>, x: T)
    requires multiset(xs) == multiset(ys)
    ensures x in xs <==> x in ys
  {
    assert x in xs <==> x in multiset(xs);
    assert x in ys <==> x in multiset(ys);
  }

  /** Merging a list of steps gives the same schema in every order if and only if no two of them disagree on the
      type or description of a property or on an end of a relation. */
  lemma OrderIndependence(groups: seq<seq<Fact>>)
    ensures Agree(groups) <==>
            forall perm | multiset(perm) == multiset(groups) ::
              ApplyAll(NO_MODEL, Flatten(perm)) == ApplyAll(NO_MODEL, Flatten(groups))
  {
    if Agree(groups) {
      forall perm | multiset(perm) == multiset(groups)
        ensures ApplyAll(NO_MODEL, Flatten(perm)) == ApplyAll(NO_MODEL, Flatten(groups))
      {
        forall g
          ensures g in groups <==> g in perm
        {
          SameMembers(groups, perm, g);
        }
        AgreeingSteps(groups, perm);
      }
    } else {
      var i, j, s := Disagreement(groups);
      MoveFirstPermutes(groups, i);
      MoveFirstPermutes(groups, j);
      DisagreeingSteps(groups[i], groups[j], groups[..i] + groups[i + 1..], groups[..j] + groups[j + 1..], s);
    }
  }

  lemma Disagreement(groups: seq<seq<Fact>>) returns (i: nat, j: nat, s: Slot)
    requires !Agree(groups)
    ensures i < |groups| && j < |groups|
    ensures First(groups[i], s).Some? && First(groups[j], s).Some? && First(groups[i], s) != First(groups[j], s)
  {
    var g, h, slot: Slot :| g in groups && h in groups && First(g, slot).Some? && First(h, slot).Some? && First(g, slot) != First(h, slot);
    i :| i < |groups| && groups[i] == g;
    j :| j < |groups| && groups[j] == h;
    s := slot;
  }

  /** Facts already merged change nothing, whether or not the sources agree. */
  lemma MergingAgainChangesNothing(fs: seq<Fact>, again: seq<Fact>)
    requires forall f | f in again :: f in fs
    ensures ApplyAll(ApplyAll(NO_MODEL, fs), again) == ApplyAll(NO_MODEL, fs)
  {
    ApplyAllConcat(NO_MODEL, fs, again);
    OutcomeDescribes(fs);
    OutcomeDescribes(fs + again);
    forall s: Slot
      ensures First(fs + again, s) == First(fs, s)
    {
      FirstOfRepeat(fs, again, s);
    }
    assert SameFacts(fs + again, fs);
    DescriptionIsUnique(ApplyAll(NO_MODEL, fs + again), ApplyAll(NO_MODEL, fs), fs + again, fs);
  }

  lemma {:induction false} FirstOfRepeat(fs: seq<Fact>, again: seq<Fact>, s: Slot)
    requires forall f | f in again :: f in fs
    ensures First(fs + again, s) == First(fs, s)
    decreases |again|
  {
    if again == [] {
      assert fs + again == fs;
    } else {
      var init, last := again[..|again| - 1], again[|again| - 1];
      assert last in again;
      FirstOfRepeat(fs, init, s);
      assert fs + again == (fs + init) + [last];
      FirstSnoc(fs + init, last, s);
      var f := FirstIsOffered(fs, s);
    }
  }
}
