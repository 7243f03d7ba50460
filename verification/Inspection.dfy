/** The schema object that inspection fills (lib/src/schema.rs, lib/src/inspection.rs). */
module Inspection {
  import opened Wrappers
  import opened Sequences
  import opened Schema
  import opened GraphSchemas
  import opened Contributions
  import opened Listings

  // ---------------------------------------------------------------- the model of the maps

  ghost function NodeEntry(n: GraphNodeSchema): Entry
  {
    Entry(n.sources, n.queriedBy, None, None, View(n.properties))
  }

  ghost function RelationEntry(r: GraphRelationSchema): Entry
  {
    Entry(r.sources, r.queriedBy, r.from, r.to, View(r.properties))
  }

  ghost function ModelOf(nodes: map<string, GraphNodeSchema>, relations: map<string, GraphRelationSchema>,
                         without: set<string>): Model
  {
    Model(map k: Key | k in (set l | l in nodes :: Node(l)) + (set l | l in relations :: Relation(l)) ::
            if k.Node? then NodeEntry(nodes[k.labelName]) else RelationEntry(relations[k.labelName]),
          without)
  }

  lemma ModelKeys(nodes: map<string, GraphNodeSchema>, relations: map<string, GraphRelationSchema>, without: set<string>, k: Key)
    ensures var m := ModelOf(nodes, relations, without);
            && (k in m.entries <==> if k.Node? then k.labelName in nodes else k.labelName in relations)
            && (k in m.entries && k.Node? ==> m.entries[k] == NodeEntry(nodes[k.labelName]))
            && (k in m.entries && k.Relation? ==> m.entries[k] == RelationEntry(relations[k.labelName]))
  {
  }

  lemma NodeUpdateAt(nodes: map<string, GraphNodeSchema>, relations: map<string, GraphRelationSchema>, without: set<string>,
                     l: string, n: GraphNodeSchema, k: Key)
    ensures var before, after := ModelOf(nodes, relations, without).entries, ModelOf(nodes[l := n], relations, without).entries;
            && (k in after <==> k in before || k == Node(l))
            && (k in after ==> after[k] == if k == Node(l) then NodeEntry(n) else before[k])
  {
    ModelKeys(nodes, relations, without, k);
    ModelKeys(nodes[l := n], relations, without, k);
  }

  lemma NodeUpdate(nodes: map<string, GraphNodeSchema>, relations: map<string, GraphRelationSchema>, without: set<string>,
                   l: string, n: GraphNodeSchema)
    ensures ModelOf(nodes[l := n], relations, without)
            == Model(ModelOf(nodes, relations, without).entries[Node(l) := NodeEntry(n)], without)
  {
    var before, after := ModelOf(nodes, relations, without), ModelOf(nodes[l := n], relations, without);
    forall k: Key
      ensures k in after.entries <==> k in before.entries || k == Node(l)
      ensures k in after.entries ==> after.entries[k] == if k == Node(l) then NodeEntry(n) else before.entries[k]
    {
      NodeUpdateAt(nodes, relations, without, l, n, k);
    }
    MapUpdated(before.entries, after.entries, Node(l), NodeEntry(n));
  }

  lemma RelationUpdateAt(nodes: map<string, GraphNodeSchema>, relations: map<string, GraphRelationSchema>, without: set<string>,
                     l: string, r: GraphRelationSchema, k: Key)
    ensures var before, after := ModelOf(nodes, relations, without).entries, ModelOf(nodes, relations[l := r], without).entries;
            && (k in after <==> k in before || k == Relation(l))
            && (k in after ==> after[k] == if k == Relation(l) then RelationEntry(r) else before[k])
  {
    ModelKeys(nodes, relations, without, k);
    ModelKeys(nodes, relations[l := r], without, k);
  }

  lemma RelationUpdate(nodes: map<string, GraphNodeSchema>, relations: map<string, GraphRelationSchema>, without: set<string>,
                   l: string, r: GraphRelationSchema)
    ensures ModelOf(nodes, relations[l := r], without)
            == Model(ModelOf(nodes, relations, without).entries[Relation(l) := RelationEntry(r)], without)
  {
    var before, after := ModelOf(nodes, relations, without), ModelOf(nodes, relations[l := r], without);
    forall k: Key
      ensures k in after.entries <==> k in before.entries || k == Relation(l)
      ensures k in after.entries ==> after.entries[k] == if k == Relation(l) then RelationEntry(r) else before.entries[k]
    {
      RelationUpdateAt(nodes, relations, without, l, r, k);
    }
    MapUpdated(before.entries, after.entries, Relation(l), RelationEntry(r));
  }

  /** Merging a property list is merging its properties one by one. */
  lemma {:induction false} ApplyProperties(m: Model, k: Key, ps: seq<PropertySchema>)
    requires k in m.entries
    ensures ApplyAll(m, PropertyFacts(k, ps))
            == m.(entries := m.entries[k := m.entries[k].(properties := MergeAll(m.entries[k].properties, ps))])
    decreases |ps|
  {
    var fs := PropertyFacts(k, ps);
    if ps == [] {
      assert m.entries[k := m.entries[k]] == m.entries;
    } else {
      assert fs[..|fs| - 1] == PropertyFacts(k, ps[..|ps| - 1]);
      ApplyProperties(m, k, ps[..|ps| - 1]);
    }
  }

  lemma ApplyNode(m: Model, source: string, n: NodeSchema)
    ensures var k, e := Node(n.labelName), EntryAt(m, Node(n.labelName));
            ApplyAll(m, NodeFacts(source, n)) == m.(entries := m.entries[k :=
              e.(sources := e.sources + {source}, properties := MergeAll(e.properties, n.properties))])
  {
    var k, e := Node(n.labelName), EntryAt(m, Node(n.labelName));
    var seen := e.(sources := e.sources + {source});
    ApplyAllConcat(m, [Seen(k, source)], PropertyFacts(k, n.properties));
    ApplyOne(m, Seen(k, source));
    ApplyProperties(m.(entries := m.entries[k := seen]), k, n.properties);
    Overwrite(m.entries, k, seen, seen.(properties := MergeAll(e.properties, n.properties)));
  }

  lemma ApplyOne(m: Model, f: Fact)
    ensures ApplyAll(m, [f]) == Apply(m, f)
  {
    assert [f][..0] == [];
  }

  lemma ApplyTwo(m: Model, f: Fact, g: Fact)
    ensures ApplyAll(m, [f, g]) == Apply(Apply(m, f), g)
  {
    ApplyOne(m, f);
    assert [f, g][..1] == [f];
  }

  lemma ApplySeenEnds(m: Model, k: Key, source: string, from: Option<string>, to: Option<string>)
    ensures var e := EntryAt(m, k);
            ApplyAll(m, [Seen(k, source), Ends(k, from, to)])
            == m.(entries := m.entries[k := e.(sources := e.sources + {source}, from := OrElse(e.from, from), to := OrElse(e.to, to))])
  {
    var e := EntryAt(m, k);
    var seen := e.(sources := e.sources + {source});
    ApplyTwo(m, Seen(k, source), Ends(k, from, to));
    Overwrite(m.entries, k, seen, seen.(from := OrElse(e.from, from), to := OrElse(e.to, to)));
  }

  lemma ApplyRelation(m: Model, source: string, r: RelationSchema)
    ensures var k, e := Relation(r.labelName), EntryAt(m, Relation(r.labelName));
            ApplyAll(m, RelationFacts(source, r)) == m.(entries := m.entries[k :=
              Entry(e.sources + {source}, e.queriedBy, OrElse(e.from, r.from), OrElse(e.to, r.to),
                    MergeAll(e.properties, r.properties))])
  {
    var k, e := Relation(r.labelName), EntryAt(m, Relation(r.labelName));
    var ended := e.(sources := e.sources + {source}, from := OrElse(e.from, r.from), to := OrElse(e.to, r.to));
    ApplyAllConcat(m, [Seen(k, source), Ends(k, r.from, r.to)], PropertyFacts(k, r.properties));
    ApplySeenEnds(m, k, source, r.from, r.to);
    ApplyProperties(m.(entries := m.entries[k := ended]), k, r.properties);
    Overwrite(m.entries, k, ended, ended.(properties := MergeAll(e.properties, r.properties)));
  }

  lemma NodeKeysSnoc(labels: seq<string>, i: nat)
    requires i < |labels|
    ensures NodeKeys(labels[..i + 1]) == NodeKeys(labels[..i]) + [Node(labels[i])]
    ensures RelationKeys(labels[..i + 1]) == RelationKeys(labels[..i]) + [Relation(labels[i])]
  {
  }

  lemma QueriedFactsSnoc(m: Model, keys: seq<Key>, k: Key, query: string)
    ensures ApplyAll(m, QueriedFacts(keys + [k], query)) == Apply(ApplyAll(m, QueriedFacts(keys, query)), Queried(k, query))
  {
    var fs := QueriedFacts(keys + [k], query);
    assert fs[..|fs| - 1] == QueriedFacts(keys, query);
  }

  // ---------------------------------------------------------------- the object

  class GraphSchema {
    var nodes: map<string, GraphNodeSchema>
    var relations: map<string, GraphRelationSchema>
    var sourcesWithoutSchema: set<string>

    ghost function Model(): Model
      reads this
    {
      ModelOf(nodes, relations, sourcesWithoutSchema)
    }

    constructor ()
      ensures Model() == NO_MODEL
    {
      nodes, relations, sourcesWithoutSchema := map[], map[], {};
    }

    method MergeNode(source: string, node: NodeSchema)
      modifies this
      ensures Model() == ApplyAll(old(Model()), NodeFacts(source, node))
    {
      ghost var before := Model();
      var l := node.labelName;
      ModelKeys(nodes, relations, sourcesWithoutSchema, Node(l));
      ApplyNode(before, source, node);
      var entry := if l in nodes then nodes[l] else GraphNodeSchema({}, {}, []);
      assert l !in nodes ==> View([]) == map[];
      var merged := MergeProperties(entry.properties, node.properties);
      var updated := GraphNodeSchema(entry.sources + {source}, entry.queriedBy, merged);
      NodeUpdate(nodes, relations, sourcesWithoutSchema, l, updated);
      nodes := nodes[l := updated];
    }

    method MergeRelation(source: string, relation: RelationSchema)
      modifies this
      ensures Model() == ApplyAll(old(Model()), RelationFacts(source, relation))
    {
      ghost var before := Model();
      var l := relation.labelName;
      ModelKeys(nodes, relations, sourcesWithoutSchema, Relation(l));
      ApplyRelation(before, source, relation);
      var entry := if l in relations then relations[l] else GraphRelationSchema({}, {}, None, None, []);
      assert l !in relations ==> View([]) == map[];
      var from := if entry.from.None? then relation.from else entry.from;
      var to := if entry.to.None? then relation.to else entry.to;
      var merged := MergeProperties(entry.properties, relation.properties);
      var updated := GraphRelationSchema(entry.sources + {source}, entry.queriedBy, from, to, merged);
      RelationUpdate(nodes, relations, sourcesWithoutSchema, l, updated);
      relations := relations[l := updated];
    }

    method MergeNodes(source: string, all: seq<NodeSchema>)
      modifies this
      ensures Model() == ApplyAll(old(Model()), AllNodeFacts(source, all))
    {
      ghost var before := Model();
      for i := 0 to |all|
        invariant Model() == ApplyAll(before, AllNodeFacts(source, all[..i]))
      {
        MergeNode(source, all[i]);
        assert all[..i + 1][..i] == all[..i];
        ApplyAllConcat(before, AllNodeFacts(source, all[..i]), NodeFacts(source, all[i]));
      }
      assert all[..|all|] == all;
    }

    method MergeRelations(source: string, all: seq<RelationSchema>)
      modifies this
      ensures Model() == ApplyAll(old(Model()), AllRelationFacts(source, all))
    {
      ghost var before := Model();
      for i := 0 to |all|
        invariant Model() == ApplyAll(before, AllRelationFacts(source, all[..i]))
      {
        MergeRelation(source, all[i]);
        assert all[..i + 1][..i] == all[..i];
        ApplyAllConcat(before, AllRelationFacts(source, all[..i]), RelationFacts(source, all[i]));
      }
      assert all[..|all|] == all;
    }

    method MergeSourceSchema(source: string, schema: SourceSchema)
      modifies this
      ensures Model() == ApplyAll(old(Model()), SchemaFacts(source, schema))
    {
      ApplyAllConcat(Model(), AllNodeFacts(source, schema.nodes), AllRelationFacts(source, schema.relations));
      MergeNodes(source, schema.nodes);
      MergeRelations(source, schema.relations);
    }

    method MarkQueriedNode(l: string, query: string)
      modifies this
      ensures Model() == Apply(old(Model()), Queried(Node(l), query))
    {
      ModelKeys(nodes, relations, sourcesWithoutSchema, Node(l));
      var entry := if l in nodes then nodes[l] else GraphNodeSchema({}, {}, []);
      assert l !in nodes ==> View([]) == map[];
      var updated := entry.(queriedBy := entry.queriedBy + {query});
      NodeUpdate(nodes, relations, sourcesWithoutSchema, l, updated);
      nodes := nodes[l := updated];
    }

    method MarkQueriedNodes(labels: seq<string>, query: string)
      modifies this
      ensures Model() == ApplyAll(old(Model()), QueriedFacts(NodeKeys(labels), query))
    {
      ghost var before := Model();
      for i := 0 to |labels|
        invariant Model() == ApplyAll(before, QueriedFacts(NodeKeys(labels[..i]), query))
      {
        QueriedFactsSnoc(before, NodeKeys(labels[..i]), Node(labels[i]), query);
        NodeKeysSnoc(labels, i);
        MarkQueriedNode(labels[i], query);
      }
      assert labels[..|labels|] == labels;
    }

    method MarkQueriedRelation(l: string, query: string)
      modifies this
      ensures Model() == Apply(old(Model()), Queried(Relation(l), query))
    {
      ModelKeys(nodes, relations, sourcesWithoutSchema, Relation(l));
      var entry := if l in relations then relations[l] else GraphRelationSchema({}, {}, None, None, []);
      assert l !in relations ==> View([]) == map[];
      var updated := entry.(queriedBy := entry.queriedBy + {query});
      RelationUpdate(nodes, relations, sourcesWithoutSchema, l, updated);
      relations := relations[l := updated];
    }

    method MarkQueriedRelations(labels: seq<string>, query: string)
      modifies this
      ensures Model() == ApplyAll(old(Model()), QueriedFacts(RelationKeys(labels), query))
    {
      ghost var before := Model();
      for i := 0 to |labels|
        invariant Model() == ApplyAll(before, QueriedFacts(RelationKeys(labels[..i]), query))
      {
        QueriedFactsSnoc(before, RelationKeys(labels[..i]), Relation(labels[i]), query);
        NodeKeysSnoc(labels, i);
        MarkQueriedRelation(labels[i], query);
      }
      assert labels[..|labels|] == labels;
    }

    method RecordSourceWithoutSchema(source: string)
      modifies this
      ensures Model() == ApplyAll(old(Model()), [NoSchema(source)])
    {
      assert [NoSchema(source)][..0] == [];
      sourcesWithoutSchema := sourcesWithoutSchema + {source};
    }
  }

  /** A property list has the listed names, each with the first known type and description. */
  ghost predicate PropertiesReflect(ps: PropertyList, k: Key, ss: seq<(string, Report)>) {
    && (forall name :: (exists p | p in ps :: p.name == name) <==> SomeListsProperty(ss, k, name))
    && (forall p | p in ps ::
          AsType(p.dataType) == Told(ss, TypeOf(k, p.name)) && AsText(p.description) == Told(ss, DescriptionOf(k, p.name)))
  }

  ghost predicate NodeReflects(n: GraphNodeSchema, l: string, ss: seq<(string, Report)>, qs: seq<(string, QueryLabels)>) {
    && (forall id :: id in n.sources <==> SourceLists(ss, id, Node(l)))
    && (forall q :: q in n.queriedBy <==> QueryUses(qs, q, Node(l)))
    && PropertiesReflect(n.properties, Node(l), ss)
  }

  ghost predicate RelationReflects(r: GraphRelationSchema, l: string, ss: seq<(string, Report)>, qs: seq<(string, QueryLabels)>) {
    && (forall id :: id in r.sources <==> SourceLists(ss, id, Relation(l)))
    && (forall q :: q in r.queriedBy <==> QueryUses(qs, q, Relation(l)))
    && PropertiesReflect(r.properties, Relation(l), ss)
    && AsText(r.from) == Told(ss, FromOf(Relation(l))) && AsText(r.to) == Told(ss, ToOf(Relation(l)))
  }

  ghost predicate Mentioned(k: Key, ss: seq<(string, Report)>, qs: seq<(string, QueryLabels)>) {
    (exists id :: SourceLists(ss, id, k)) || (exists q :: QueryUses(qs, q, k))
  }

  /** What the fields of a schema object say, in terms of the two lists: which sources have no schema, which labels there
      are, who lists and who queries each, and what it looks like. */
  ghost predicate Reflects(nodes: map<string, GraphNodeSchema>, relations: map<string, GraphRelationSchema>,
                           without: set<string>, ss: seq<(string, Report)>, qs: seq<(string, QueryLabels)>)
  {
    && (forall id :: id in without <==> HasNoSchema(ss, id))
    && (forall l :: l in nodes <==> Mentioned(Node(l), ss, qs))
    && (forall l | l in nodes :: NodeReflects(nodes[l], l, ss, qs))
    && (forall l :: l in relations <==> Mentioned(Relation(l), ss, qs))
    && (forall l | l in relations :: RelationReflects(relations[l], l, ss, qs))
  }

  lemma PropertiesAreReflected(ps: PropertyList, e: Entry, k: Key, ss: seq<(string, Report)>, qs: seq<(string, QueryLabels)>)
    requires EntryReflects(e, k, ss, qs) && e.properties == View(ps)
    ensures PropertiesReflect(ps, k, ss)
  {
    forall p | p in ps
      ensures AsType(p.dataType) == Told(ss, TypeOf(k, p.name)) && AsText(p.description) == Told(ss, DescriptionOf(k, p.name))
    {
      assert View(ps)[p.name] == Info(p.dataType, p.description);
      assert Stored(e, TypeOf(k, p.name)) == Told(ss, TypeOf(k, p.name));
      assert Stored(e, DescriptionOf(k, p.name)) == Told(ss, DescriptionOf(k, p.name));
    }
    forall name
      ensures (exists p | p in ps :: p.name == name) <==> name in View(ps)
    {
    }
  }

  lemma NodeIsReflected(nodes: map<string, GraphNodeSchema>, relations: map<string, GraphRelationSchema>,
                        without: set<string>, ss: seq<(string, Report)>, qs: seq<(string, QueryLabels)>, l: string)
    requires ModelOf(nodes, relations, without) == ApplyAll(NO_MODEL, InspectionFacts(ss, qs))
    ensures l in nodes <==> Mentioned(Node(l), ss, qs)
    ensures l in nodes ==> NodeReflects(nodes[l], l, ss, qs)
  {
    ModelKeys(nodes, relations, without, Node(l));
    InspectionReflects(ModelOf(nodes, relations, without), ss, qs, Node(l));
    if l in nodes { PropertiesAreReflected(nodes[l].properties, NodeEntry(nodes[l]), Node(l), ss, qs); }
  }

  lemma RelationIsReflected(nodes: map<string, GraphNodeSchema>, relations: map<string, GraphRelationSchema>,
                            without: set<string>, ss: seq<(string, Report)>, qs: seq<(string, QueryLabels)>, l: string)
    requires ModelOf(nodes, relations, without) == ApplyAll(NO_MODEL, InspectionFacts(ss, qs))
    ensures l in relations <==> Mentioned(Relation(l), ss, qs)
    ensures l in relations ==> RelationReflects(relations[l], l, ss, qs)
  {
    ModelKeys(nodes, relations, without, Relation(l));
    InspectionReflects(ModelOf(nodes, relations, without), ss, qs, Relation(l));
    if l in relations {
      var e := RelationEntry(relations[l]);
      PropertiesAreReflected(relations[l].properties, e, Relation(l), ss, qs);
      assert Stored(e, FromOf(Relation(l))) == Told(ss, FromOf(Relation(l))) && Stored(e, ToOf(Relation(l))) == Told(ss, ToOf(Relation(l)));
    }
  }

  lemma ModelReflects(nodes: map<string, GraphNodeSchema>, relations: map<string, GraphRelationSchema>,
                      without: set<string>, ss: seq<(string, Report)>, qs: seq<(string, QueryLabels)>)
    requires ModelOf(nodes, relations, without) == ApplyAll(NO_MODEL, InspectionFacts(ss, qs))
    ensures Reflects(nodes, relations, without, ss, qs)
  {
    forall l
      ensures l in nodes <==> Mentioned(Node(l), ss, qs)
      ensures l in nodes ==> NodeReflects(nodes[l], l, ss, qs)
      ensures l in relations <==> Mentioned(Relation(l), ss, qs)
      ensures l in relations ==> RelationReflects(relations[l], l, ss, qs)
    {
      NodeIsReflected(nodes, relations, without, ss, qs, l);
      RelationIsReflected(nodes, relations, without, ss, qs, l);
    }
    InspectionReflects(ModelOf(nodes, relations, without), ss, qs, Node(""));
  }

  /** `get_graph_schema`: the fold over sources and queries. */
  method GetGraphSchema(sources: seq<(string, Report)>, queries: seq<(string, QueryLabels)>) returns (schema: GraphSchema)
    ensures fresh(schema)
    ensures schema.Model() == ApplyAll(NO_MODEL, InspectionFacts(sources, queries))
    ensures Reflects(schema.nodes, schema.relations, schema.sourcesWithoutSchema, sources, queries)
  {
    schema := new GraphSchema();
    for i := 0 to |sources|
      invariant fresh(schema)
      invariant schema.Model() == ApplyAll(NO_MODEL, AllSourceFacts(sources[..i]))
    {
      assert sources[..i + 1][..i] == sources[..i];
      ApplyAllConcat(NO_MODEL, AllSourceFacts(sources[..i]), SourceFacts(sources[i]));
      var (id, report) := sources[i];
      if id == COMPONENT_GRAPH_SOURCE_ID {
        continue;
      }
      match report {
        case Described(s) =>
          if s.nodes == [] && s.relations == [] {
            schema.RecordSourceWithoutSchema(id);
          } else {
            schema.MergeSourceSchema(id, s);
          }
        case Undescribed => schema.RecordSourceWithoutSchema(id);
        case Failed => schema.RecordSourceWithoutSchema(id);
      }
    }
    assert sources[..|sources|] == sources;
    ghost var mid := schema.Model();
    for i := 0 to |queries|
      invariant fresh(schema)
      invariant schema.Model() == ApplyAll(mid, AllQueryFacts(queries[..i]))
    {
      assert queries[..i + 1][..i] == queries[..i];
      ApplyAllConcat(mid, AllQueryFacts(queries[..i]), QueryFacts(queries[i]));
      var (id, labels) := queries[i];
      ghost var before := schema.Model();
      ApplyAllConcat(before, QueriedFacts(NodeKeys(labels.nodeLabels), id), QueriedFacts(RelationKeys(labels.relationLabels), id));
      schema.MarkQueriedNodes(labels.nodeLabels, id);
      schema.MarkQueriedRelations(labels.relationLabels, id);
    }
    assert queries[..|queries|] == queries;
    ApplyAllConcat(NO_MODEL, AllSourceFacts(sources), AllQueryFacts(queries));
    ModelReflects(schema.nodes, schema.relations, schema.sourcesWithoutSchema, sources, queries);
  }

  // ---------------------------------------------------------------- identical results

  /** Two schemas with the same model are identical, down to the order of every property list. */
  lemma ModelDeterminesSchema(nodes: map<string, GraphNodeSchema>, relations: map<string, GraphRelationSchema>,
                              nodes': map<string, GraphNodeSchema>, relations': map<string, GraphRelationSchema>,
                              without: set<string>, without': set<string>)
    requires ModelOf(nodes, relations, without) == ModelOf(nodes', relations', without')
    ensures nodes == nodes' && relations == relations' && without == without'
  {
    var m := ModelOf(nodes, relations, without);
    forall l: string
      ensures l in nodes <==> l in nodes'
      ensures l in nodes ==> nodes[l] == nodes'[l]
    {
      ModelKeys(nodes, relations, without, Node(l));
      ModelKeys(nodes', relations', without', Node(l));
      if l in nodes { SortedUnique(nodes[l].properties, nodes'[l].properties); }
    }
    forall l: string
      ensures l in relations <==> l in relations'
      ensures l in relations ==> relations[l] == relations'[l]
    {
      ModelKeys(nodes, relations, without, Relation(l));
      ModelKeys(nodes', relations', without', Relation(l));
      if l in relations { SortedUnique(relations[l].properties, relations'[l].properties); }
    }
  }

  // ---------------------------------------------------------------- the order of listing

  function SourceGroups(ss: seq<(string, Report)>): seq<seq<Fact>> {
    seq(|ss|, i requires 0 <= i < |ss| => SourceFacts(ss[i]))
  }

  function QueryGroups(qs: seq<(string, QueryLabels)>): seq<seq<Fact>> {
    seq(|qs|, i requires 0 <= i < |qs| => QueryFacts(qs[i]))
  }

  lemma SourceGroupsSnoc(ss: seq<(string, Report)>)
    requires ss != []
    ensures SourceGroups(ss) == SourceGroups(ss[..|ss| - 1]) + [SourceFacts(ss[|ss| - 1])]
  {
  }

  lemma QueryGroupsSnoc(qs: seq<(string, QueryLabels)>)
    requires qs != []
    ensures QueryGroups(qs) == QueryGroups(qs[..|qs| - 1]) + [QueryFacts(qs[|qs| - 1])]
  {
  }

  lemma {:induction false} SourcesFlatten(ss: seq<(string, Report)>)
    ensures AllSourceFacts(ss) == Flatten(SourceGroups(ss))
    decreases |ss|
  {
    if ss != [] {
      SourcesFlatten(ss[..|ss| - 1]);
      SourceGroupsSnoc(ss);
      FlattenSnoc(SourceGroups(ss[..|ss| - 1]), SourceFacts(ss[|ss| - 1]));
    }
  }

  lemma {:induction false} QueriesFlatten(qs: seq<(string, QueryLabels)>)
    ensures AllQueryFacts(qs) == Flatten(QueryGroups(qs))
    decreases |qs|
  {
    if qs != [] {
      QueriesFlatten(qs[..|qs| - 1]);
      QueryGroupsSnoc(qs);
      FlattenSnoc(QueryGroups(qs[..|qs| - 1]), QueryFacts(qs[|qs| - 1]));
    }
  }

  /** Inspection is the steps of the sources followed by those of the queries. */
  lemma InspectionFlattens(ss: seq<(string, Report)>, qs: seq<(string, QueryLabels)>)
    ensures InspectionFacts(ss, qs) == Flatten(SourceGroups(ss) + QueryGroups(qs))
  {
    SourcesFlatten(ss);
    QueriesFlatten(qs);
    FlattenConcat(SourceGroups(ss), QueryGroups(qs));
  }

  /** The schema inspection finds. */
  ghost function Inspected(ss: seq<(string, Report)>, qs: seq<(string, QueryLabels)>): Model {
    ApplyAll(NO_MODEL, InspectionFacts(ss, qs))
  }

  /** No two sources give different first values for the same slot. */
  ghost predicate SourcesAgree(ss: seq<(string, Report)>) {
    forall a, b, s: Slot | a in ss && b in ss && First(SourceFacts(a), s).Some? && First(SourceFacts(b), s).Some? ::
      First(SourceFacts(a), s) == First(SourceFacts(b), s)
  }

  lemma QueriesOfferNothing(q: (string, QueryLabels), s: Slot)
    ensures First(QueryFacts(q), s).None?
  {
    var f := FirstIsOffered(QueryFacts(q), s);
  }

  lemma GroupMembers(ss: seq<(string, Report)>, qs: seq<(string, QueryLabels)>, g: seq<Fact>)
    ensures g in SourceGroups(ss) + QueryGroups(qs) <==>
            (exists a | a in ss :: g == SourceFacts(a)) || (exists q | q in qs :: g == QueryFacts(q))
  {
    var sources, queries := SourceGroups(ss), QueryGroups(qs);
    forall a | a in ss
      ensures SourceFacts(a) in sources
    {
      var i :| 0 <= i < |ss| && ss[i] == a;
      assert sources[i] == SourceFacts(a);
    }
    forall q | q in qs
      ensures QueryFacts(q) in queries
    {
      var i :| 0 <= i < |qs| && qs[i] == q;
      assert queries[i] == QueryFacts(q);
    }
    assert g in sources + queries <==> g in sources || g in queries;
  }

  lemma SourcesDecide(ss: seq<(string, Report)>, qs: seq<(string, QueryLabels)>)
    requires SourcesAgree(ss)
    ensures Agree(SourceGroups(ss) + QueryGroups(qs))
  {
    var groups := SourceGroups(ss) + QueryGroups(qs);
    forall g, s: Slot | g in groups && First(g, s).Some?
      ensures exists a | a in ss :: g == SourceFacts(a)
    {
      GroupMembers(ss, qs, g);
      forall q | q in qs
        ensures First(QueryFacts(q), s).None?
      {
        QueriesOfferNothing(q, s);
      }
    }
  }

  lemma SameListing(ss: seq<(string, Report)>, ss': seq<(string, Report)>,
                    qs: seq<(string, QueryLabels)>, qs': seq<(string, QueryLabels)>)
    requires multiset(ss) == multiset(ss') && multiset(qs) == multiset(qs') && SourcesAgree(ss)
    ensures Inspected(ss, qs) == Inspected(ss', qs')
  {
    InspectionFlattens(ss, qs);
    InspectionFlattens(ss', qs');
    forall a ensures a in ss <==> a in ss' { SameMembers(ss, ss', a); }
    forall q ensures q in qs <==> q in qs' { SameMembers(qs, qs', q); }
    forall g
      ensures g in SourceGroups(ss) + QueryGroups(qs) <==> g in SourceGroups(ss') + QueryGroups(qs')
    {
      GroupMembers(ss, qs, g);
      GroupMembers(ss', qs', g);
    }
    SourcesDecide(ss, qs);
    AgreeingSteps(SourceGroups(ss) + QueryGroups(qs), SourceGroups(ss') + QueryGroups(qs'));
  }

  lemma FirstListed(a: (string, Report), ss: seq<(string, Report)>, qs: seq<(string, QueryLabels)>)
    ensures InspectionFacts([a] + ss, qs) == Flatten([SourceFacts(a)] + (SourceGroups(ss) + QueryGroups(qs)))
  {
    InspectionFlattens([a] + ss, qs);
    assert SourceGroups([a] + ss) == [SourceFacts(a)] + SourceGroups(ss);
    Assoc([SourceFacts(a)], SourceGroups(ss), QueryGroups(qs));
  }

  /** Two contradicting sources, each listed first in turn. */
  lemma FirstListedDecides(a: (string, Report), b: (string, Report), ss: seq<(string, Report)>, ss': seq<(string, Report)>,
                           qs: seq<(string, QueryLabels)>, s: Slot)
    requires First(SourceFacts(a), s).Some? && First(SourceFacts(b), s).Some?
    requires First(SourceFacts(a), s) != First(SourceFacts(b), s)
    ensures Inspected([a] + ss, qs) != Inspected([b] + ss', qs)
  {
    FirstListed(a, ss, qs);
    FirstListed(b, ss', qs);
    DisagreeingSteps(SourceFacts(a), SourceFacts(b), SourceGroups(ss) + QueryGroups(qs), SourceGroups(ss') + QueryGroups(qs), s);
  }

  /** Inspection gives the same schema whatever order the sources and queries are listed in if and only if no two
      sources give different first values for a type, a description, a from or a to. */
  lemma ListingOrderIsIrrelevant(ss: seq<(string, Report)>, qs: seq<(string, QueryLabels)>)
    ensures SourcesAgree(ss) <==>
            forall ss', qs' | multiset(ss) == multiset(ss') && multiset(qs) == multiset(qs') ::
              Inspected(ss', qs') == Inspected(ss, qs)
  {
    if SourcesAgree(ss) {
      forall ss', qs' | multiset(ss) == multiset(ss') && multiset(qs) == multiset(qs')
        ensures Inspected(ss', qs') == Inspected(ss, qs)
      {
        SameListing(ss, ss', qs, qs');
      }
    } else {
      var i, j, s := Contradiction(ss);
      MoveFirstPermutes(ss, i);
      MoveFirstPermutes(ss, j);
      FirstListedDecides(ss[i], ss[j], ss[..i] + ss[i + 1..], ss[..j] + ss[j + 1..], qs, s);
      assert Inspected(MoveFirst(ss, i), qs) != Inspected(ss, qs) || Inspected(MoveFirst(ss, j), qs) != Inspected(ss, qs);
    }
  }

  lemma Contradiction(ss: seq<(string, Report)>) returns (i: nat, j: nat, s: Slot)
    requires !SourcesAgree(ss)
    ensures i < |ss| && j < |ss| && First(SourceFacts(ss[i]), s).Some? && First(SourceFacts(ss[j]), s).Some?
    ensures First(SourceFacts(ss[i]), s) != First(SourceFacts(ss[j]), s)
  {
    var a, b, slot: Slot :| a in ss && b in ss && First(SourceFacts(a), slot).Some? && First(SourceFacts(b), slot).Some?
                           && First(SourceFacts(a), slot) != First(SourceFacts(b), slot);
    i :| i < |ss| && ss[i] == a;
    j :| j < |ss| && ss[j] == b;
    s := slot;
  }

  // ---------------------------------------------------------------- examples

  /** A source that reports one label L with a property p, once per given type. */
  function Reporting(source: string, types: seq<PropertyType>): (string, Report) {
    (source, Described(SourceSchema([NodeSchema("L", seq(|types|, i requires 0 <= i < |types| =>
      PropertySchema("p", Some(types[i]), None)))], [])))
  }

  lemma {:induction false} TypesTold(ps: seq<PropertySchema>, types: seq<PropertyType>, s: Slot)
    requires |ps| == |types| && forall i | 0 <= i < |ps| :: ps[i] == PropertySchema("p", Some(types[i]), None)
    ensures PropertiesTold(ps, s) ==
            if types != [] && s.TypeOf? && s.name == "p" then Some(Type(types[0])) else None
    decreases |ps|
  {
    if ps != [] { TypesTold(ps[..|ps| - 1], types[..|types| - 1], s); }
  }

  lemma ReportedType(source: string, types: seq<PropertyType>)
    requires source != COMPONENT_GRAPH_SOURCE_ID && types != []
    ensures First(SourceFacts(Reporting(source, types)), TypeOf(Node("L"), "p")) == Some(Type(types[0]))
    ensures forall s: Slot | s != TypeOf(Node("L"), "p") :: First(SourceFacts(Reporting(source, types)), s).None?
  {
    forall s: Slot
      ensures First(SourceFacts(Reporting(source, types)), s) == if s == TypeOf(Node("L"), "p") then Some(Type(types[0])) else None
    {
      ReportedSlot(source, types, s);
    }
  }

  lemma ReportedSlot(source: string, types: seq<PropertyType>, s: Slot)
    requires source != COMPONENT_GRAPH_SOURCE_ID && types != []
    ensures First(SourceFacts(Reporting(source, types)), s) == if s == TypeOf(Node("L"), "p") then Some(Type(types[0])) else None
  {
    var nodes := Reporting(source, types).1.schema.nodes;
    ReportSaysFirst(Reporting(source, types), s);
    TypesTold(nodes[0].properties, types, s);
    assert nodes[..0] == [] && NodesTold(nodes[..0], s) == None;
  }

  /** Source a says p is a string, source b that it is an integer: the order of listing decides. */
  lemma ContradictingSources()
    ensures var a, b := Reporting("a", [StringType]), Reporting("b", [IntegerType]);
            Inspected([a, b], []) != Inspected([b, a], [])
  {
    var a, b := Reporting("a", [StringType]), Reporting("b", [IntegerType]);
    ReportedType("a", [StringType]);
    ReportedType("b", [IntegerType]);
    FirstListedDecides(a, b, [b], [a], [], TypeOf(Node("L"), "p"));
    assert [a] + [b] == [a, b] && [b] + [a] == [b, a];
  }

  /** A source that contradicts only itself does no harm. */
  lemma SelfContradictingSource()
    ensures SourcesAgree([Reporting("a", [StringType, IntegerType]), Reporting("b", [StringType])])
  {
    var a, b := Reporting("a", [StringType, IntegerType]), Reporting("b", [StringType]);
    ReportedType("a", [StringType, IntegerType]);
    ReportedType("b", [StringType]);
    forall x, s: Slot | x in [a, b] && First(SourceFacts(x), s).Some?
      ensures First(SourceFacts(x), s) == Some(Type(StringType))
    {
      assert x == a || x == b;
    }
  }
}
