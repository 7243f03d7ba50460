/** What the graph schema says, in terms of what the sources and queries list and of nothing else. */
module Listings {
  import opened Wrappers
  import opened Sequences
  import opened Schema
  import opened GraphSchemas
  import opened Contributions

  // ---------------------------------------------------------------- what is listed

  /** A schema mentions a node label or a relation label. */
  predicate Mentions(schema: SourceSchema, k: Key) {
    match k
    case Node(l) => exists n | n in schema.nodes :: n.labelName == l
    case Relation(l) => exists r | r in schema.relations :: r.labelName == l
  }

  /** A schema lists a property under a label. */
  predicate Declares(schema: SourceSchema, k: Key, p: PropertySchema) {
    match k
    case Node(l) => exists n | n in schema.nodes :: n.labelName == l && p in n.properties
    case Relation(l) => exists r | r in schema.relations :: r.labelName == l && p in r.properties
  }

  predicate Lists(s: (string, Report), id: string, k: Key) {
    s.0 == id && s.1.Described? && Mentions(s.1.schema, k)
  }

  /** A listed source, other than the component graph itself, mentions the label. */
  predicate SourceLists(ss: seq<(string, Report)>, id: string, k: Key) {
    id != COMPONENT_GRAPH_SOURCE_ID && exists s | s in ss :: Lists(s, id, k)
  }

  ghost predicate ListsProperty(s: (string, Report), k: Key, name: string) {
    s.0 != COMPONENT_GRAPH_SOURCE_ID && s.1.Described? && exists p | Declares(s.1.schema, k, p) :: p.name == name
  }

  ghost predicate SomeListsProperty(ss: seq<(string, Report)>, k: Key, name: string) {
    exists s | s in ss :: ListsProperty(s, k, name)
  }

  predicate Uses(labels: QueryLabels, k: Key) {
    match k
    case Node(l) => l in labels.nodeLabels
    case Relation(l) => l in labels.relationLabels
  }

  predicate QueryUses(qs: seq<(string, QueryLabels)>, query: string, k: Key) {
    exists q | q in qs :: q.0 == query && Uses(q.1, k)
  }

  /** A listed source, other than the component graph itself, that failed, had no schema or an empty one. */
  predicate HasNoSchema(ss: seq<(string, Report)>, id: string) {
    id != COMPONENT_GRAPH_SOURCE_ID
    && exists s | s in ss :: s.0 == id && !(s.1.Described? && (s.1.schema.nodes != [] || s.1.schema.relations != []))
  }

  // ---------------------------------------------------------------- what is said first

  function PropertyTold(p: PropertySchema, s: Slot): Option<Content> {
    match s
    case TypeOf(_, name) => if p.name == name then AsType(p.dataType) else None
    case DescriptionOf(_, name) => if p.name == name then AsText(p.description) else None
    case _ => None
  }

  function PropertiesTold(ps: seq<PropertySchema>, s: Slot): Option<Content> {
    if ps == [] then None else OrElse(PropertiesTold(ps[..|ps| - 1], s), PropertyTold(ps[|ps| - 1], s))
  }

  function NodesTold(ns: seq<NodeSchema>, s: Slot): Option<Content> {
    if ns == [] then None else
    var last := ns[|ns| - 1];
    OrElse(NodesTold(ns[..|ns| - 1], s), if s.key == Node(last.labelName) then PropertiesTold(last.properties, s) else None)
  }

  function RelationTold(r: RelationSchema, s: Slot): Option<Content> {
    match s
    case FromOf(_) => AsText(r.from)
    case ToOf(_) => AsText(r.to)
    case _ => PropertiesTold(r.properties, s)
  }

  function RelationsTold(rs: seq<RelationSchema>, s: Slot): Option<Content> {
    if rs == [] then None else
    var last := rs[|rs| - 1];
    OrElse(RelationsTold(rs[..|rs| - 1], s), if s.key == Relation(last.labelName) then RelationTold(last, s) else None)
  }

  function ReportTold(report: (string, Report), s: Slot): Option<Content> {
    if report.0 == COMPONENT_GRAPH_SOURCE_ID || !report.1.Described? then None
    else OrElse(NodesTold(report.1.schema.nodes, s), RelationsTold(report.1.schema.relations, s))
  }

  /** The first known value for a type, description, from or to, in the order of listing. */
  function Told(ss: seq<(string, Report)>, s: Slot): Option<Content> {
    if ss == [] then None else OrElse(Told(ss[..|ss| - 1], s), ReportTold(ss[|ss| - 1], s))
  }

  // ---------------------------------------------------------------- which facts there are

  lemma {:induction false} NodeFactMember(source: string, ns: seq<NodeSchema>, f: Fact)
    ensures f in AllNodeFacts(source, ns) <==> exists n | n in ns :: f in NodeFacts(source, n)
    decreases |ns|
  {
    if ns != [] {
      NodeFactMember(source, ns[..|ns| - 1], f);
      SplitLast(ns);
    }
  }

  lemma {:induction false} RelationFactMember(source: string, rs: seq<RelationSchema>, f: Fact)
    ensures f in AllRelationFacts(source, rs) <==> exists r | r in rs :: f in RelationFacts(source, r)
    decreases |rs|
  {
    if rs != [] {
      RelationFactMember(source, rs[..|rs| - 1], f);
      SplitLast(rs);
    }
  }

  lemma PropertyFactMember(k: Key, ps: seq<PropertySchema>, f: Fact)
    ensures f in PropertyFacts(k, ps) <==> f.HasProperty? && f.key == k && f.property in ps
  {
    var fs := PropertyFacts(k, ps);
    assert forall i | 0 <= i < |ps| :: fs[i] == HasProperty(k, ps[i]);
    if f.HasProperty? && f.key == k && f.property in ps {
      var i :| 0 <= i < |ps| && ps[i] == f.property;
      assert fs[i] == f;
    }
  }

  /** The facts of a schema, by kind. */
  lemma SeenInSchema(source: string, schema: SourceSchema, k: Key, id: string)
    ensures Seen(k, id) in SchemaFacts(source, schema) <==> id == source && Mentions(schema, k)
  {
    NodeFactMember(source, schema.nodes, Seen(k, id));
    RelationFactMember(source, schema.relations, Seen(k, id));
    forall n | n in schema.nodes
      ensures Seen(k, id) in NodeFacts(source, n) <==> k == Node(n.labelName) && id == source
    {
      PropertyFactMember(Node(n.labelName), n.properties, Seen(k, id));
    }
    forall r | r in schema.relations
      ensures Seen(k, id) in RelationFacts(source, r) <==> k == Relation(r.labelName) && id == source
    {
      PropertyFactMember(Relation(r.labelName), r.properties, Seen(k, id));
    }
  }

  lemma PropertyInSchema(source: string, schema: SourceSchema, k: Key, p: PropertySchema)
    ensures HasProperty(k, p) in SchemaFacts(source, schema) <==> Declares(schema, k, p)
  {
    NodeFactMember(source, schema.nodes, HasProperty(k, p));
    RelationFactMember(source, schema.relations, HasProperty(k, p));
    forall n | n in schema.nodes
      ensures HasProperty(k, p) in NodeFacts(source, n) <==> k == Node(n.labelName) && p in n.properties
    {
      PropertyFactMember(Node(n.labelName), n.properties, HasProperty(k, p));
    }
    forall r | r in schema.relations
      ensures HasProperty(k, p) in RelationFacts(source, r) <==> k == Relation(r.labelName) && p in r.properties
    {
      PropertyFactMember(Relation(r.labelName), r.properties, HasProperty(k, p));
    }
  }

  lemma OthersInSchema(source: string, schema: SourceSchema, f: Fact)
    requires f.NoSchema? || f.Queried?
    ensures f !in SchemaFacts(source, schema)
  {
    NodeFactMember(source, schema.nodes, f);
    RelationFactMember(source, schema.relations, f);
    forall n | n in schema.nodes
      ensures f !in NodeFacts(source, n)
    {
      PropertyFactMember(Node(n.labelName), n.properties, f);
    }
    forall r | r in schema.relations
      ensures f !in RelationFacts(source, r)
    {
      PropertyFactMember(Relation(r.labelName), r.properties, f);
    }
  }

  lemma EndsInSchema(source: string, schema: SourceSchema, k: Key, a: Option<string>, b: Option<string>)
    requires Ends(k, a, b) in SchemaFacts(source, schema)
    ensures Mentions(schema, k)
  {
    NodeFactMember(source, schema.nodes, Ends(k, a, b));
    RelationFactMember(source, schema.relations, Ends(k, a, b));
    forall n | n in schema.nodes
      ensures Ends(k, a, b) !in NodeFacts(source, n)
    {
      PropertyFactMember(Node(n.labelName), n.properties, Ends(k, a, b));
    }
    forall r | r in schema.relations
      ensures Ends(k, a, b) in RelationFacts(source, r) ==> k == Relation(r.labelName)
    {
      PropertyFactMember(Relation(r.labelName), r.properties, Ends(k, a, b));
    }
  }

  lemma {:induction false} SourceFactMember(ss: seq<(string, Report)>, f: Fact)
    ensures f in AllSourceFacts(ss) <==> exists s | s in ss :: f in SourceFacts(s)
    decreases |ss|
  {
    if ss != [] {
      SourceFactMember(ss[..|ss| - 1], f);
      SplitLast(ss);
    }
  }

  lemma {:induction false} QueryFactMember(qs: seq<(string, QueryLabels)>, f: Fact)
    ensures f in AllQueryFacts(qs) <==> exists q | q in qs :: f in QueryFacts(q)
    decreases |qs|
  {
    if qs != [] {
      QueryFactMember(qs[..|qs| - 1], f);
      SplitLast(qs);
    }
  }

  lemma QueriedByOne(q: (string, QueryLabels), f: Fact)
    ensures f in QueryFacts(q) <==> f.Queried? && f.query == q.0 && Uses(q.1, f.key)
  {
    var ns, rs := NodeKeys(q.1.nodeLabels), RelationKeys(q.1.relationLabels);
    var a, b := QueriedFacts(ns, q.0), QueriedFacts(rs, q.0);
    assert forall i | 0 <= i < |a| :: a[i] == Queried(Node(q.1.nodeLabels[i]), q.0);
    assert forall i | 0 <= i < |b| :: b[i] == Queried(Relation(q.1.relationLabels[i]), q.0);
    if f.Queried? && f.query == q.0 && Uses(q.1, f.key) {
      if f.key.Node? {
        var i :| 0 <= i < |q.1.nodeLabels| && q.1.nodeLabels[i] == f.key.labelName;
        assert a[i] == f;
      } else {
        var i :| 0 <= i < |q.1.relationLabels| && q.1.relationLabels[i] == f.key.labelName;
        assert b[i] == f;
      }
    }
  }

  // ---------------------------------------------------------------- the facts of a whole inspection

  lemma QueriesSay(qs: seq<(string, QueryLabels)>, f: Fact)
    ensures f in AllQueryFacts(qs) <==> f.Queried? && QueryUses(qs, f.query, f.key)
  {
    QueryFactMember(qs, f);
    forall q | q in qs
      ensures f in QueryFacts(q) <==> f.Queried? && f.query == q.0 && Uses(q.1, f.key)
    {
      QueriedByOne(q, f);
    }
  }

  lemma SeenIsListed(ss: seq<(string, Report)>, qs: seq<(string, QueryLabels)>, k: Key, id: string)
    ensures Seen(k, id) in InspectionFacts(ss, qs) <==> SourceLists(ss, id, k)
  {
    QueriesSay(qs, Seen(k, id));
    SourceFactMember(ss, Seen(k, id));
    forall s | s in ss
      ensures Seen(k, id) in SourceFacts(s) <==> id != COMPONENT_GRAPH_SOURCE_ID && Lists(s, id, k)
    {
      if s.1.Described? { SeenInSchema(s.0, s.1.schema, k, id); }
    }
  }

  lemma QueriedIsUsed(ss: seq<(string, Report)>, qs: seq<(string, QueryLabels)>, k: Key, query: string)
    ensures Queried(k, query) in InspectionFacts(ss, qs) <==> QueryUses(qs, query, k)
  {
    QueriesSay(qs, Queried(k, query));
    SourceFactMember(ss, Queried(k, query));
    forall s | s in ss
      ensures Queried(k, query) !in SourceFacts(s)
    {
      if s.1.Described? { OthersInSchema(s.0, s.1.schema, Queried(k, query)); }
    }
  }

  lemma NoSchemaIsRecorded(ss: seq<(string, Report)>, qs: seq<(string, QueryLabels)>, id: string)
    ensures NoSchema(id) in InspectionFacts(ss, qs) <==> HasNoSchema(ss, id)
  {
    QueriesSay(qs, NoSchema(id));
    SourceFactMember(ss, NoSchema(id));
    forall s | s in ss
      ensures NoSchema(id) in SourceFacts(s) <==>
              && id != COMPONENT_GRAPH_SOURCE_ID && s.0 == id
              && !(s.1.Described? && (s.1.schema.nodes != [] || s.1.schema.relations != []))
    {
      if s.1.Described? { OthersInSchema(s.0, s.1.schema, NoSchema(id)); }
    }
  }

  lemma PropertyIsDeclared(ss: seq<(string, Report)>, qs: seq<(string, QueryLabels)>, k: Key, p: PropertySchema)
    ensures HasProperty(k, p) in InspectionFacts(ss, qs) <==>
            exists s | s in ss :: s.0 != COMPONENT_GRAPH_SOURCE_ID && s.1.Described? && Declares(s.1.schema, k, p)
  {
    QueriesSay(qs, HasProperty(k, p));
    SourceFactMember(ss, HasProperty(k, p));
    forall s | s in ss
      ensures HasProperty(k, p) in SourceFacts(s) <==>
              s.0 != COMPONENT_GRAPH_SOURCE_ID && s.1.Described? && Declares(s.1.schema, k, p)
    {
      if s.1.Described? { PropertyInSchema(s.0, s.1.schema, k, p); }
    }
  }

  lemma NamedIsListed(ss: seq<(string, Report)>, qs: seq<(string, QueryLabels)>, k: Key, name: string)
    ensures HasNamed(InspectionFacts(ss, qs), k, name) <==> SomeListsProperty(ss, k, name)
  {
    var fs := InspectionFacts(ss, qs);
    if HasNamed(fs, k, name) {
      var f :| f in fs && f.HasProperty? && f.key == k && f.property.name == name;
      assert f == HasProperty(k, f.property);
      PropertyIsDeclared(ss, qs, k, f.property);
      var s :| s in ss && s.0 != COMPONENT_GRAPH_SOURCE_ID && s.1.Described? && Declares(s.1.schema, k, f.property);
      assert ListsProperty(s, k, name);
    }
    if SomeListsProperty(ss, k, name) {
      var s :| s in ss && ListsProperty(s, k, name);
      var p :| Declares(s.1.schema, k, p) && p.name == name;
      PropertyIsDeclared(ss, qs, k, p);
      assert HasProperty(k, p) in fs;
    }
  }

  /** A label is in the schema if some source or query mentions it. */
  lemma KeyIsListed(ss: seq<(string, Report)>, qs: seq<(string, QueryLabels)>, k: Key)
    ensures GraphSchemas.Names(InspectionFacts(ss, qs), k) <==> (exists id :: SourceLists(ss, id, k)) || (exists q :: QueryUses(qs, q, k))
  {
    var fs := InspectionFacts(ss, qs);
    if GraphSchemas.Names(fs, k) {
      var f :| f in fs && !f.NoSchema? && f.key == k;
      FactNamesKey(ss, qs, f);
    }
    if id :| SourceLists(ss, id, k) {
      SeenIsListed(ss, qs, k, id);
      assert Seen(k, id) in fs;
    }
    if q :| QueryUses(qs, q, k) {
      QueriedIsUsed(ss, qs, k, q);
      assert Queried(k, q) in fs;
    }
  }

  lemma FactNamesKey(ss: seq<(string, Report)>, qs: seq<(string, QueryLabels)>, f: Fact)
    requires f in InspectionFacts(ss, qs) && !f.NoSchema?
    ensures (exists id :: SourceLists(ss, id, f.key)) || (exists q :: QueryUses(qs, q, f.key))
  {
    QueriesSay(qs, f);
    if f in AllSourceFacts(ss) {
      SourceFactMember(ss, f);
      var s :| s in ss && f in SourceFacts(s);
      SchemaFactNamesKey(s.0, s.1.schema, f);
      assert Lists(s, s.0, f.key) && SourceLists(ss, s.0, f.key);
    }
  }

  lemma SchemaFactNamesKey(source: string, schema: SourceSchema, f: Fact)
    requires f in SchemaFacts(source, schema)
    ensures !f.NoSchema? && Mentions(schema, f.key)
  {
    match f
    case Seen(k, id) => SeenInSchema(source, schema, k, id);
    case Ends(k, a, b) => EndsInSchema(source, schema, k, a, b);
    case HasProperty(k, p) => PropertyInSchema(source, schema, k, p);
    case Queried(_, _) => OthersInSchema(source, schema, f);
    case NoSchema(_) => OthersInSchema(source, schema, f);
  }

  // ---------------------------------------------------------------- the first values

  lemma {:induction false} PropertiesSayFirst(k: Key, ps: seq<PropertySchema>, s: Slot)
    ensures First(PropertyFacts(k, ps), s) == if s.key == k then PropertiesTold(ps, s) else None
    decreases |ps|
  {
    if ps != [] {
      PropertiesSayFirst(k, ps[..|ps| - 1], s);
      assert PropertyFacts(k, ps)[..|ps| - 1] == PropertyFacts(k, ps[..|ps| - 1]);
    }
  }

  lemma FirstOfOne(f: Fact, s: Slot)
    ensures First([f], s) == Offer(f, s)
  {
    assert [f][..0] == [];
  }

  lemma {:induction false} NodesSayFirst(source: string, ns: seq<NodeSchema>, s: Slot)
    ensures First(AllNodeFacts(source, ns), s) == NodesTold(ns, s)
    decreases |ns|
  {
    if ns != [] {
      var init, last := ns[..|ns| - 1], ns[|ns| - 1];
      NodesSayFirst(source, init, s);
      FirstConcat(AllNodeFacts(source, init), NodeFacts(source, last), s);
      FirstConcat([Seen(Node(last.labelName), source)], PropertyFacts(Node(last.labelName), last.properties), s);
      FirstOfOne(Seen(Node(last.labelName), source), s);
      PropertiesSayFirst(Node(last.labelName), last.properties, s);
    }
  }

  lemma RelationSaysFirst(source: string, r: RelationSchema, s: Slot)
    ensures First(RelationFacts(source, r), s) == if s.key == Relation(r.labelName) then RelationTold(r, s) else None
  {
    var k := Relation(r.labelName);
    var ends := Ends(k, r.from, r.to);
    assert [Seen(k, source), ends] == [Seen(k, source)] + [ends];
    FirstConcat([Seen(k, source), ends], PropertyFacts(k, r.properties), s);
    FirstConcat([Seen(k, source)], [ends], s);
    FirstOfOne(Seen(k, source), s);
    FirstOfOne(ends, s);
    PropertiesSayFirst(k, r.properties, s);
    if s.FromOf? || s.ToOf? { EndsNotInProperties(r.properties, s); }
  }

  lemma {:induction false} EndsNotInProperties(ps: seq<PropertySchema>, s: Slot)
    requires s.FromOf? || s.ToOf?
    ensures PropertiesTold(ps, s).None?
    decreases |ps|
  {
    if ps != [] { EndsNotInProperties(ps[..|ps| - 1], s); }
  }

  lemma {:induction false} RelationsSayFirst(source: string, rs: seq<RelationSchema>, s: Slot)
    ensures First(AllRelationFacts(source, rs), s) == RelationsTold(rs, s)
    decreases |rs|
  {
    if rs != [] {
      var init, last := rs[..|rs| - 1], rs[|rs| - 1];
      RelationsSayFirst(source, init, s);
      FirstConcat(AllRelationFacts(source, init), RelationFacts(source, last), s);
      RelationSaysFirst(source, last, s);
    }
  }

  lemma ReportSaysFirst(report: (string, Report), s: Slot)
    ensures First(SourceFacts(report), s) == ReportTold(report, s)
  {
    FirstOfOne(NoSchema(report.0), s);
    if report.1.Described? {
      var schema := report.1.schema;
      FirstConcat(AllNodeFacts(report.0, schema.nodes), AllRelationFacts(report.0, schema.relations), s);
      NodesSayFirst(report.0, schema.nodes, s);
      RelationsSayFirst(report.0, schema.relations, s);
    }
  }

  lemma {:induction false} SourcesSayFirst(ss: seq<(string, Report)>, s: Slot)
    ensures First(AllSourceFacts(ss), s) == Told(ss, s)
    decreases |ss|
  {
    if ss != [] {
      SourcesSayFirst(ss[..|ss| - 1], s);
      FirstConcat(AllSourceFacts(ss[..|ss| - 1]), SourceFacts(ss[|ss| - 1]), s);
      ReportSaysFirst(ss[|ss| - 1], s);
    }
  }

  lemma InspectionSaysFirst(ss: seq<(string, Report)>, qs: seq<(string, QueryLabels)>, s: Slot)
    ensures First(InspectionFacts(ss, qs), s) == Told(ss, s)
  {
    FirstConcat(AllSourceFacts(ss), AllQueryFacts(qs), s);
    SourcesSayFirst(ss, s);
    var f := FirstIsOffered(AllQueryFacts(qs), s);
    QueriesSay(qs, f);
  }

  // ---------------------------------------------------------------- the entries

  /** An entry says what is listed under its label. */
  ghost predicate EntryReflects(e: Entry, k: Key, ss: seq<(string, Report)>, qs: seq<(string, QueryLabels)>) {
    && (forall id :: id in e.sources <==> SourceLists(ss, id, k))
    && (forall q :: q in e.queriedBy <==> QueryUses(qs, q, k))
    && (forall name :: name in e.properties <==> SomeListsProperty(ss, k, name))
    && (forall s: Slot | s.key == k :: Stored(e, s) == Told(ss, s))
  }

  /** The outcome of an inspection: which labels there are, and what each entry says. */
  lemma InspectionReflects(m: Model, ss: seq<(string, Report)>, qs: seq<(string, QueryLabels)>, k: Key)
    requires m == ApplyAll(NO_MODEL, InspectionFacts(ss, qs))
    ensures k in m.entries <==> (exists id :: SourceLists(ss, id, k)) || (exists q :: QueryUses(qs, q, k))
    ensures k in m.entries ==> EntryReflects(m.entries[k], k, ss, qs)
    ensures forall id :: id in m.withoutSchema <==> HasNoSchema(ss, id)
  {
    var fs := InspectionFacts(ss, qs);
    OutcomeDescribes(fs);
    KeyIsListed(ss, qs, k);
    forall id ensures NoSchema(id) in fs <==> HasNoSchema(ss, id) { NoSchemaIsRecorded(ss, qs, id); }
    if k in m.entries { EntryIsReflected(m, ss, qs, k); }
  }

  lemma EntryIsReflected(m: Model, ss: seq<(string, Report)>, qs: seq<(string, QueryLabels)>, k: Key)
    requires Describes(m, InspectionFacts(ss, qs)) && k in m.entries
    ensures EntryReflects(m.entries[k], k, ss, qs)
  {
    var e := m.entries[k];
    forall id ensures id in e.sources <==> SourceLists(ss, id, k) { SeenIsListed(ss, qs, k, id); }
    forall q ensures q in e.queriedBy <==> QueryUses(qs, q, k) { QueriedIsUsed(ss, qs, k, q); }
    forall name ensures name in e.properties <==> SomeListsProperty(ss, k, name) { NamedIsListed(ss, qs, k, name); }
    forall s: Slot | s.key == k ensures Stored(e, s) == Told(ss, s) { InspectionSaysFirst(ss, qs, s); }
  }
}
