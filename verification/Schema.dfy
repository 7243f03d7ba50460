/** The merged graph schema (lib/src/schema.rs) and its assembly (lib/src/inspection.rs). */
module Schema {
  import opened Wrappers

  datatype PropertyType = StringType | IntegerType | FloatType | BooleanType | TimestampType | JsonType

  datatype PropertySchema = PropertySchema(name: string, dataType: Option<PropertyType>, description: Option<string>)

  datatype NodeSchema = NodeSchema(labelName: string, properties: seq<PropertySchema>)

  datatype RelationSchema = RelationSchema(
    labelName: string, from: Option<string>, to: Option<string>, properties: seq<PropertySchema>)

  datatype SourceSchema = SourceSchema(nodes: seq<NodeSchema>, relations: seq<RelationSchema>)

  function OrElse<T>(a: Option<T>, b: Option<T>): Option<T> {
    if a.Some? then a else b
  }

  // ---------------------------------------------------------------- order on names

  predicate Less(a: string, b: string) {
    b != [] && (a == [] || a[0] < b[0] || (a[0] == b[0] && Less(a[1..], b[1..])))
  }

  lemma {:induction false} LessIrreflexive(a: string)
    ensures !Less(a, a)
  {
    if a != [] { LessIrreflexive(a[1..]); }
  }

  lemma {:induction false} LessTransitive(a: string, b: string, c: string)
    requires Less(a, b) && Less(b, c)
    ensures Less(a, c)
  {
    if a != [] && a[0] == b[0] && b[0] == c[0] { LessTransitive(a[1..], b[1..], c[1..]); }
  }

  lemma {:induction false} LessTotal(a: string, b: string)
    ensures Less(a, b) || a == b || Less(b, a)
  {
    if a != [] && b != [] && a[0] == b[0] {
      LessTotal(a[1..], b[1..]);
      assert a == [a[0]] + a[1..] && b == [b[0]] + b[1..];
    }
  }

  /** The first character that differs decides, and a proper prefix comes first. */
  lemma {:induction false} LessDecides(a: string, b: string, k: nat)
    requires k <= |a| && k < |b| && a[..k] == b[..k] && (k == |a| || a[k] != b[k])
    ensures Less(a, b) <==> k == |a| || a[k] < b[k]
    decreases k
  {
    if k > 0 {
      assert a[0] == a[..k][0] == b[..k][0] == b[0];
      assert a[1..][..k - 1] == a[..k][1..] == b[..k][1..] == b[1..][..k - 1];
      LessDecides(a[1..], b[1..], k - 1);
    }
  }

  // ---------------------------------------------------------------- property lists

  predicate Sorted(ps: seq<PropertySchema>) {
    forall i, j | 0 <= i < j < |ps| :: Less(ps[i].name, ps[j].name)
  }

  predicate Distinct(ps: seq<PropertySchema>) {
    forall i, j | 0 <= i < j < |ps| :: ps[i].name != ps[j].name
  }

  /** The property list of a label: strictly sorted by name, so without repeated names. */
  type PropertyList = ps: seq<PropertySchema> | Sorted(ps) && Distinct(ps)

  datatype GraphNodeSchema = GraphNodeSchema(
    sources: set<string>, queriedBy: set<string>, properties: PropertyList)

  datatype GraphRelationSchema = GraphRelationSchema(
    sources: set<string>, queriedBy: set<string>, from: Option<string>, to: Option<string>,
    properties: PropertyList)

  lemma SortedIsDistinct(ps: seq<PropertySchema>)
    requires Sorted(ps)
    ensures Distinct(ps)
  {
    forall i, j | 0 <= i < j < |ps|
      ensures ps[i].name != ps[j].name
    {
      LessIrreflexive(ps[i].name);
    }
  }

  datatype Info = Info(dataType: Option<PropertyType>, description: Option<string>)

  function Names(ps: seq<PropertySchema>): set<string> {
    set p | p in ps :: p.name
  }

  /** What a list says about each name. */
  ghost function View(ps: seq<PropertySchema>): map<string, Info>
    requires Distinct(ps)
  {
    map p | p in ps :: p.name := Info(p.dataType, p.description)
  }

  ghost function InfoAt(view: map<string, Info>, name: string): Info {
    if name in view then view[name] else Info(None, None)
  }

  /** Only what is still unknown is taken from the incoming property. */
  ghost function MergeOne(view: map<string, Info>, p: PropertySchema): map<string, Info> {
    var known := InfoAt(view, p.name);
    view[p.name := Info(OrElse(known.dataType, p.dataType), OrElse(known.description, p.description))]
  }

  ghost function MergeAll(view: map<string, Info>, ps: seq<PropertySchema>): map<string, Info> {
    if ps == [] then view else MergeOne(MergeAll(view, ps[..|ps| - 1]), ps[|ps| - 1])
  }

  /** Sorting by name. The names are distinct, so the library's stable sort gives this list. */
  function Insert(p: PropertySchema, ps: seq<PropertySchema>): seq<PropertySchema> {
    if ps == [] || Less(p.name, ps[0].name) then [p] + ps else [ps[0]] + Insert(p, ps[1..])
  }

  function Sort(ps: seq<PropertySchema>): seq<PropertySchema> {
    if ps == [] then [] else Insert(ps[0], Sort(ps[1..]))
  }

  lemma {:induction false} InsertMember(p: PropertySchema, ps: seq<PropertySchema>, q: PropertySchema)
    ensures q in Insert(p, ps) <==> q == p || q in ps
  {
    if ps != [] && !Less(p.name, ps[0].name) {
      InsertMember(p, ps[1..], q);
      assert q in ps <==> q == ps[0] || q in ps[1..];
    }
  }

  lemma {:induction false} InsertSorted(p: PropertySchema, ps: seq<PropertySchema>)
    requires Sorted(ps) && p.name !in Names(ps)
    ensures Sorted(Insert(p, ps))
  {
    if ps != [] {
      var first, rest := ps[0], ps[1..];
      assert first in ps && forall q | q in rest :: q in ps;
      LessTotal(p.name, first.name);
      if Less(p.name, first.name) {
        forall i | 0 <= i < |ps|
          ensures Less(p.name, ps[i].name)
        {
          if i > 0 { LessTransitive(p.name, first.name, ps[i].name); }
        }
      } else {
        InsertSorted(p, rest);
        forall i | 0 <= i < |Insert(p, rest)|
          ensures Less(first.name, Insert(p, rest)[i].name)
        {
          InsertMember(p, rest, Insert(p, rest)[i]);
        }
      }
    }
  }

  lemma {:induction false} SortFacts(ps: seq<PropertySchema>)
    requires Distinct(ps)
    ensures Sorted(Sort(ps))
    ensures forall q :: q in Sort(ps) <==> q in ps
  {
    if ps != [] {
      SortFacts(ps[1..]);
      assert forall q :: q in ps <==> q == ps[0] || q in ps[1..];
      forall q: PropertySchema
        ensures q in Sort(ps) <==> q in ps
      {
        InsertMember(ps[0], Sort(ps[1..]), q);
      }
      InsertSorted(ps[0], Sort(ps[1..]));
    }
  }

  lemma SortView(ps: seq<PropertySchema>)
    requires Distinct(ps)
    ensures Sorted(Sort(ps)) && Distinct(Sort(ps)) && View(Sort(ps)) == View(ps)
  {
    SortFacts(ps);
    SortedIsDistinct(Sort(ps));
  }

  /** A sorted list is determined by what it says about each name. */
  lemma {:induction false} SortedUnique(a: PropertyList, b: PropertyList)
    requires View(a) == View(b)
    ensures a == b
    decreases |a|
  {
    SameElements(a, b);
    if a != [] {
      assert a[0] in b;
      assert b[0] in a;
      SameHead(a, b);
      forall q: PropertySchema
        ensures q in a[1..] <==> q in b[1..]
      {
        LessIrreflexive(a[0].name);
        assert q in a <==> q == a[0] || q in a[1..];
        assert q in b <==> q == b[0] || q in b[1..];
      }
      SortedUnique(a[1..], b[1..]);
    }
  }

  lemma SameElements(a: seq<PropertySchema>, b: seq<PropertySchema>)
    requires Distinct(a) && Distinct(b) && View(a) == View(b)
    ensures forall q :: q in a <==> q in b
    ensures a == [] <==> b == []
  {
    if a != [] { assert a[0].name in View(b); }
    if b != [] { assert b[0].name in View(a); }
    forall q: PropertySchema
      ensures q in a ==> q in b
      ensures q in b ==> q in a
    {
      if q in a { assert q.name in View(b); }
      if q in b { assert q.name in View(a); }
    }
  }

  lemma SameHead(a: seq<PropertySchema>, b: seq<PropertySchema>)
    requires Sorted(a) && Sorted(b) && a != [] && b != [] && a[0] in b && b[0] in a
    ensures a[0] == b[0]
  {
    var i :| 0 <= i < |b| && b[i] == a[0];
    var j :| 0 <= j < |a| && a[j] == b[0];
    if i > 0 && j > 0 {
      LessTransitive(a[0].name, b[0].name, a[0].name);
      LessIrreflexive(a[0].name);
    }
  }

  lemma UpdateView(ps: seq<PropertySchema>, j: nat, p: PropertySchema)
    requires Distinct(ps) && j < |ps| && p.name == ps[j].name
    ensures Distinct(ps[j := p]) && View(ps[j := p]) == View(ps)[p.name := Info(p.dataType, p.description)]
  {
    var after := ps[j := p];
    forall q | q in after
      ensures q == p || (q in ps && q.name != p.name)
    {
      var i :| 0 <= i < |after| && after[i] == q;
    }
    forall q | q in ps
      ensures q == ps[j] || (q in after && q.name != p.name)
    {
      var i :| 0 <= i < |ps| && ps[i] == q;
      assert i != j ==> after[i] == q;
    }
    assert after[j] == p && ps[j] in ps;
  }

  lemma PushView(ps: seq<PropertySchema>, p: PropertySchema)
    requires Distinct(ps) && p.name !in Names(ps)
    ensures Distinct(ps + [p]) && View(ps + [p]) == View(ps)[p.name := Info(p.dataType, p.description)]
  {
    forall i | 0 <= i < |ps|
      ensures ps[i].name != p.name
    {
      assert ps[i] in ps;
    }
    assert forall q :: q in ps + [p] <==> q in ps || q == p;
  }

  method FindByName(ps: seq<PropertySchema>, name: string) returns (j: nat)
    ensures j <= |ps|
    ensures j < |ps| ==> ps[j].name == name
    ensures j == |ps| ==> name !in Names(ps)
  {
    j := 0;
    while j < |ps| && ps[j].name != name
      invariant j <= |ps|
      invariant forall i | 0 <= i < j :: ps[i].name != name
    {
      j := j + 1;
    }
  }

  /** `merge_properties`: the list stays strictly sorted, and each name keeps its first known type and
      description, also when the incoming list repeats a name. */
  method MergeProperties(target: PropertyList, incoming: seq<PropertySchema>) returns (merged: PropertyList)
    ensures View(merged) == MergeAll(View(target), incoming)
  {
    var list: seq<PropertySchema> := target;
    for i := 0 to |incoming|
      invariant Distinct(list)
      invariant View(list) == MergeAll(View(target), incoming[..i])
    {
      assert incoming[..i + 1][..i] == incoming[..i];
      var property := incoming[i];
      var j := FindByName(list, property.name);
      if j < |list| {
        var existing := list[j];
        assert existing in list;
        var dataType := if existing.dataType.None? then property.dataType else existing.dataType;
        var description := if existing.description.None? then property.description else existing.description;
        UpdateView(list, j, PropertySchema(existing.name, dataType, description));
        list := list[j := PropertySchema(existing.name, dataType, description)];
      } else {
        PushView(list, property);
        list := list + [property];
      }
    }
    assert incoming[..|incoming|] == incoming;
    SortView(list);
    merged := Sort(list);
  }
}
