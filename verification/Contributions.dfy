/** What inspection is told by sources and queries, and the facts that each step of it contributes
    (lib/src/schema.rs, lib/src/inspection.rs). */
module Contributions {
  import opened Schema
  import opened GraphSchemas

  const COMPONENT_GRAPH_SOURCE_ID: string := "__component_graph__"

  // ---------------------------------------------------------------- the facts each step contributes

  function PropertyFacts(k: Key, ps: seq<PropertySchema>): seq<Fact> {
    seq(|ps|, i requires 0 <= i < |ps| => HasProperty(k, ps[i]))
  }

  function NodeFacts(source: string, n: NodeSchema): seq<Fact> {
    [Seen(Node(n.labelName), source)] + PropertyFacts(Node(n.labelName), n.properties)
  }

  function RelationFacts(source: string, r: RelationSchema): seq<Fact> {
    [Seen(Relation(r.labelName), source), Ends(Relation(r.labelName), r.from, r.to)]
    + PropertyFacts(Relation(r.labelName), r.properties)
  }

  function AllNodeFacts(source: string, ns: seq<NodeSchema>): seq<Fact> {
    if ns == [] then [] else AllNodeFacts(source, ns[..|ns| - 1]) + NodeFacts(source, ns[|ns| - 1])
  }

  function AllRelationFacts(source: string, rs: seq<RelationSchema>): seq<Fact> {
    if rs == [] then [] else AllRelationFacts(source, rs[..|rs| - 1]) + RelationFacts(source, rs[|rs| - 1])
  }

  function SchemaFacts(source: string, schema: SourceSchema): seq<Fact> {
    AllNodeFacts(source, schema.nodes) + AllRelationFacts(source, schema.relations)
  }

  function QueriedFacts(keys: seq<Key>, query: string): seq<Fact> {
    seq(|keys|, i requires 0 <= i < |keys| => Queried(keys[i], query))
  }

  function NodeKeys(labels: seq<string>): seq<Key> {
    seq(|labels|, i requires 0 <= i < |labels| => Node(labels[i]))
  }

  function RelationKeys(labels: seq<string>): seq<Key> {
    seq(|labels|, i requires 0 <= i < |labels| => Relation(labels[i]))
  }

  /** What a source answers when asked for its schema. */
  datatype Report = Described(schema: SourceSchema) | Undescribed | Failed

  datatype QueryLabels = QueryLabels(nodeLabels: seq<string>, relationLabels: seq<string>)

  function SourceFacts(s: (string, Report)): seq<Fact> {
    if s.0 == COMPONENT_GRAPH_SOURCE_ID then []
    else if s.1.Described? && (s.1.schema.nodes != [] || s.1.schema.relations != []) then SchemaFacts(s.0, s.1.schema)
    else [NoSchema(s.0)]
  }

  function QueryFacts(q: (string, QueryLabels)): seq<Fact> {
    QueriedFacts(NodeKeys(q.1.nodeLabels), q.0) + QueriedFacts(RelationKeys(q.1.relationLabels), q.0)
  }

  function AllSourceFacts(ss: seq<(string, Report)>): seq<Fact> {
    if ss == [] then [] else AllSourceFacts(ss[..|ss| - 1]) + SourceFacts(ss[|ss| - 1])
  }

  function AllQueryFacts(qs: seq<(string, QueryLabels)>): seq<Fact> {
    if qs == [] then [] else AllQueryFacts(qs[..|qs| - 1]) + QueryFacts(qs[|qs| - 1])
  }

  function InspectionFacts(ss: seq<(string, Report)>, qs: seq<(string, QueryLabels)>): seq<Fact> {
    AllSourceFacts(ss) + AllQueryFacts(qs)
  }
}
