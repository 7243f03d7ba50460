/** The GQL lowering pass: from parsed clauses to the flat list of query parts
    (query-gql/src/lib.rs). Each pass is written as the source writes it, as a method
    with its loops, and proved equal to a recursive function; the properties of the pass are proved
    about those functions. */
module Lowering {
  import opened Wrappers
  import opened Ast
  import opened Aggregates

  datatype Statement =
    | Let(bindings: seq<(string, Expression)>)
    | Yield(items: seq<(Expression, Option<string>)>)
    | Filter(condition: Expression)

  datatype LoweringError =
    | MissingGroupByKey
    | UnaliasedComplexExpression(expr: Expression)
    | IdentifierNotInScope(id: string)

  /** What follows the MATCH clauses, or a NEXT: statements, RETURN and an optional GROUP BY. */
  datatype Segment = Segment(statements: seq<Statement>, returned: seq<Expression>, groupBy: Option<seq<Expression>>)

  datatype SurfaceQuery = SurfaceQuery(
    groups: seq<(seq<MatchClause>, seq<Expression>)>, first: Segment, next: seq<Segment>)

  /** The parts emitted for some statements and the scope after them. */
  datatype Lowered = Lowered(parts: seq<QueryPart>, scope: seq<Expression>)

  // ---------------------------------------------------------------- specification functions

  function Keys(items: seq<Expression>, names: set<string>): seq<Expression> {
    if items == [] then [] else
    var init, last := Keys(items[..|items| - 1], names), items[|items| - 1];
    if HasAggregate(last, names) then init else init + [last]
  }

  function Aggs(items: seq<Expression>, names: set<string>): seq<Expression> {
    if items == [] then [] else
    var init, last := Aggs(items[..|items| - 1], names), items[|items| - 1];
    if HasAggregate(last, names) then init + [last] else init
  }

  function IntoProjection(items: seq<Expression>, names: set<string>): Projection {
    if Aggs(items, names) == [] then Item(Keys(items, names))
    else GroupBy(Keys(items, names), Aggs(items, names))
  }

  function LetItems(bindings: seq<(string, Expression)>): seq<Expression> {
    seq(|bindings|, i requires 0 <= i < |bindings| => Alias(bindings[i].1, bindings[i].0))
  }

  function LetScope(bindings: seq<(string, Expression)>): seq<Expression> {
    seq(|bindings|, i requires 0 <= i < |bindings| => Identifier(bindings[i].0))
  }

  /** The projection item for one YIELD item, or why it is rejected. */
  function YieldItem(item: (Expression, Option<string>), scope: seq<Expression>): Result<Expression, LoweringError> {
    match item
    case (e, Some(alias)) => Ok(Alias(e, alias))
    case (Identifier(id), None) => if Identifier(id) in scope then Ok(Identifier(id)) else Err(IdentifierNotInScope(id))
    case (e, None) => Err(UnaliasedComplexExpression(e))
  }

  function YieldItems(items: seq<(Expression, Option<string>)>, scope: seq<Expression>):
    Result<seq<Expression>, LoweringError>
  {
    if items == [] then Ok([]) else
    var init :- YieldItems(items[..|items| - 1], scope);
    var last :- YieldItem(items[|items| - 1], scope);
    Ok(init + [last])
  }

  /** Converts `x + 1 AS sum` to `sum`, and leaves an unaliased expression alone. */
  function ToAliasIdent(e: Expression): Expression {
    if e.Alias? then Identifier(e.alias) else e
  }

  function ToAliasIdents(es: seq<Expression>): seq<Expression> {
    seq(|es|, i requires 0 <= i < |es| => ToAliasIdent(es[i]))
  }

  function LowerStatement(matches: seq<MatchClause>, wheres: seq<Expression>, st: Statement,
                          scope: seq<Expression>, names: set<string>): Result<Lowered, LoweringError>
  {
    match st
    case Let(bindings) =>
      Ok(Lowered([QueryPart(matches, wheres, IntoProjection(scope + LetItems(bindings), names))],
                 scope + LetScope(bindings)))
    case Yield(items) =>
      var projection :- YieldItems(items, scope);
      Ok(Lowered([QueryPart(matches, wheres, IntoProjection(projection, names))], ToAliasIdents(projection)))
    case Filter(condition) =>
      var pending := if matches == [] && wheres == [] then []
                     else [QueryPart(matches, wheres, IntoProjection(scope, names))];
      Ok(Lowered(pending + [QueryPart([], [condition], IntoProjection(scope, names))], scope))
  }

  function LowerStatements(matches: seq<MatchClause>, wheres: seq<Expression>, sts: seq<Statement>,
                           scope: seq<Expression>, names: set<string>): Result<Lowered, LoweringError>
    decreases |sts|
  {
    if sts == [] then Ok(Lowered([], scope)) else
    var head :- LowerStatement(matches, wheres, sts[0], scope, names);
    var rest :- LowerStatements([], [], sts[1..], head.scope, names);
    Ok(Lowered(head.parts + rest.parts, rest.scope))
  }

  predicate MatchesGroupByKey(e: Expression, key: Expression) {
    || e == key
    || (e.Function? && key.Function? && e.name == key.name && e.args == key.args)
    || (e.Alias? && key.Identifier? && e.alias == key.name)
  }

  predicate AllKeysReturned(keys: seq<Expression>, returned: seq<Expression>) {
    forall k | k in keys :: exists e | e in returned :: MatchesGroupByKey(e, k)
  }

  predicate SomeReturnUngrouped(keys: seq<Expression>, returned: seq<Expression>) {
    exists e | e in returned :: forall k | k in keys :: !MatchesGroupByKey(e, k)
  }

  /** The first RETURN item that matches the key, or the key itself. */
  function FullKey(returned: seq<Expression>, key: Expression): Expression {
    if returned == [] then key
    else if MatchesGroupByKey(returned[0], key) then returned[0]
    else FullKey(returned[1..], key)
  }

  function FullKeys(returned: seq<Expression>, keys: seq<Expression>): seq<Expression> {
    seq(|keys|, i requires 0 <= i < |keys| => FullKey(returned, keys[i]))
  }

  function GroupAllKeys(matches: seq<MatchClause>, wheres: seq<Expression>, grouping: seq<Expression>,
                        aggregates: seq<Expression>, returned: seq<Expression>): seq<QueryPart>
  {
    var initial := if aggregates == [] then Item(grouping) else GroupBy(grouping, aggregates);
    [QueryPart(matches, wheres, initial), QueryPart([], [], Item(ToAliasIdents(returned)))]
  }

  function ExplicitGroupBy(matches: seq<MatchClause>, wheres: seq<Expression>, returned: seq<Expression>,
                           keys: seq<Expression>, names: set<string>): Result<seq<QueryPart>, LoweringError>
  {
    if SomeReturnUngrouped(keys, Keys(returned, names)) then Err(MissingGroupByKey)
    else if AllKeysReturned(keys, Keys(returned, names)) then
      Ok([QueryPart(matches, wheres, IntoProjection(returned, names))])
    else Ok(GroupAllKeys(matches, wheres, FullKeys(returned, keys), Aggs(returned, names), returned))
  }

  function LowerReturn(matches: seq<MatchClause>, wheres: seq<Expression>, seg: Segment, names: set<string>):
    Result<seq<QueryPart>, LoweringError>
  {
    match seg.groupBy
    case Some(keys) => ExplicitGroupBy(matches, wheres, seg.returned, keys, names)
    case None => Ok([QueryPart(matches, wheres, IntoProjection(seg.returned, names))])
  }

  function LowerSegment(matches: seq<MatchClause>, wheres: seq<Expression>, seg: Segment,
                        scope: seq<Expression>, names: set<string>): Result<seq<QueryPart>, LoweringError>
  {
    if seg.statements == [] then LowerReturn(matches, wheres, seg, names) else
    var lowered :- LowerStatements(matches, wheres, seg.statements, scope, names);
    var final :- LowerReturn([], [], seg, names);
    Ok(lowered.parts + final)
  }

  function AllMatches(groups: seq<(seq<MatchClause>, seq<Expression>)>): seq<MatchClause> {
    if groups == [] then [] else AllMatches(groups[..|groups| - 1]) + groups[|groups| - 1].0
  }

  function AllWheres(groups: seq<(seq<MatchClause>, seq<Expression>)>): seq<Expression> {
    if groups == [] then [] else AllWheres(groups[..|groups| - 1]) + groups[|groups| - 1].1
  }

  function NodeNames(clause: MatchClause): seq<Option<string>> {
    [clause.start.name] + seq(|clause.path|, i requires 0 <= i < |clause.path| => clause.path[i].1.name)
  }

  function AddNames(scope: seq<Expression>, added: seq<Option<string>>): seq<Expression> {
    if added == [] then scope else
    var init, last := AddNames(scope, added[..|added| - 1]), added[|added| - 1];
    if last.None? || Identifier(last.value) in init then init else init + [Identifier(last.value)]
  }

  /** The node variables of the MATCH clauses, each once, in order of first appearance. */
  function StartingScope(clauses: seq<MatchClause>): seq<Expression> {
    if clauses == [] then [] else
    AddNames(StartingScope(clauses[..|clauses| - 1]), NodeNames(clauses[|clauses| - 1]))
  }

  function ScopeItem(e: Expression): Result<Expression, LoweringError> {
    match e
    case Alias(_, alias) => Ok(Identifier(alias))
    case Identifier(id) => Ok(Identifier(id))
    case _ => Err(UnaliasedComplexExpression(e))
  }

  function ScopeItems(es: seq<Expression>): Result<seq<Expression>, LoweringError> {
    if es == [] then Ok([]) else
    var init :- ScopeItems(es[..|es| - 1]);
    var last :- ScopeItem(es[|es| - 1]);
    Ok(init + [last])
  }

  function OutputItems(p: Projection): seq<Expression> {
    match p
    case Item(items) => items
    case GroupBy(grouping, aggregates) => grouping + aggregates
  }

  function LowerNext(parts: seq<QueryPart>, next: seq<Segment>, names: set<string>):
    Result<seq<QueryPart>, LoweringError>
    requires parts != []
    decreases |next|
  {
    if next == [] then Ok(parts) else
    var scope :- ScopeItems(OutputItems(parts[|parts| - 1].projection));
    var more :- LowerSegment([], [], next[0], scope, names);
    LowerNext(parts + more, next[1..], names)
  }

  function LowerQuery(q: SurfaceQuery, names: set<string>): Result<seq<QueryPart>, LoweringError> {
    var matches, wheres := AllMatches(q.groups), AllWheres(q.groups);
    var parts :- LowerSegment(matches, wheres, q.first, StartingScope(matches), names);
    if parts == [] then Ok(parts) else LowerNext(parts, q.next, names)
  }

  // ---------------------------------------------------------------- the pass itself

  method IntoProjectionClause(items: seq<Expression>, names: set<string>) returns (p: Projection)
    ensures p == IntoProjection(items, names)
  {
    var keys: seq<Expression>, aggs: seq<Expression> := [], [];
    for i := 0 to |items|
      invariant keys == Keys(items[..i], names)
      invariant aggs == Aggs(items[..i], names)
    {
      assert items[..i + 1][..i] == items[..i];
      var isAgg := ContainsAggregatingFunction(items[i], names);
      if isAgg {
        aggs := aggs + [items[i]];
      } else {
        keys := keys + [items[i]];
      }
    }
    assert items[..|items|] == items;
    if aggs == [] {
      p := Item(keys);
    } else {
      p := GroupBy(keys, aggs);
    }
  }

  method GetScopeFromProjection(p: Projection) returns (r: Result<seq<Expression>, LoweringError>)
    ensures r == ScopeItems(OutputItems(p))
  {
    var items := match p case Item(es) => es case GroupBy(g, a) => g + a;
    var result: seq<Expression> := [];
    for i := 0 to |items|
      invariant ScopeItems(items[..i]) == Ok(result)
    {
      assert items[..i + 1][..i] == items[..i];
      var item := ScopeItem(items[i]);
      if item.Err? {
        ScopeItemsStopAtError(items, i + 1);
        return Err(item.error);
      }
      result := result + [item.value];
    }
    assert items[..|items|] == items;
    r := Ok(result);
  }

  lemma {:induction false} ScopeItemsStopAtError(es: seq<Expression>, n: nat)
    requires n <= |es| && ScopeItems(es[..n]).Err?
    ensures ScopeItems(es) == ScopeItems(es[..n])
    decreases |es| - n
  {
    if n == |es| {
      assert es[..n] == es;
    } else {
      assert es[..n + 1][..n] == es[..n];
      ScopeItemsStopAtError(es, n + 1);
    }
  }

  lemma {:induction false} YieldItemsStopAtError(items: seq<(Expression, Option<string>)>, n: nat, scope: seq<Expression>)
    requires n <= |items| && YieldItems(items[..n], scope).Err?
    ensures YieldItems(items, scope) == YieldItems(items[..n], scope)
    decreases |items| - n
  {
    if n == |items| {
      assert items[..n] == items;
    } else {
      assert items[..n + 1][..n] == items[..n];
      YieldItemsStopAtError(items, n + 1, scope);
    }
  }

  /** `seen` holds the names already in scope. */
  ghost predicate Tracks(seen: set<string>, scope: seq<Expression>) {
    forall x :: x in seen <==> Identifier(x) in scope
  }

  method AddNodeNames(nodes: seq<Option<string>>, scope: seq<Expression>, seen: set<string>)
    returns (newScope: seq<Expression>, newSeen: set<string>)
    requires Tracks(seen, scope)
    ensures newScope == AddNames(scope, nodes) && Tracks(newSeen, newScope)
  {
    newScope, newSeen := scope, seen;
    for j := 0 to |nodes|
      invariant newScope == AddNames(scope, nodes[..j])
      invariant Tracks(newSeen, newScope)
    {
      assert nodes[..j + 1][..j] == nodes[..j];
      if nodes[j].Some? && nodes[j].value !in newSeen {
        newSeen := newSeen + {nodes[j].value};
        newScope := newScope + [Identifier(nodes[j].value)];
      }
    }
    assert nodes[..|nodes|] == nodes;
  }

  method GetStartingScope(clauses: seq<MatchClause>) returns (scope: seq<Expression>)
    ensures scope == StartingScope(clauses)
  {
    scope := [];
    var seen: set<string> := {};
    for i := 0 to |clauses|
      invariant scope == StartingScope(clauses[..i])
      invariant Tracks(seen, scope)
    {
      assert clauses[..i + 1][..i] == clauses[..i];
      scope, seen := AddNodeNames(NodeNames(clauses[i]), scope, seen);
    }
    assert clauses[..|clauses|] == clauses;
  }

  /** The LET arm: every binding is projected over the old scope and then joins it. */
  method ProjectLet(bindings: seq<(string, Expression)>, scope: seq<Expression>)
    returns (projection: seq<Expression>, newScope: seq<Expression>)
    ensures projection == scope + LetItems(bindings)
    ensures newScope == scope + LetScope(bindings)
  {
    projection, newScope := scope, scope;
    for i := 0 to |bindings|
      invariant projection == scope + LetItems(bindings[..i])
      invariant newScope == scope + LetScope(bindings[..i])
    {
      projection := projection + [Alias(bindings[i].1, bindings[i].0)];
      newScope := newScope + [Identifier(bindings[i].0)];
    }
    assert bindings[..|bindings|] == bindings;
  }

  /** The YIELD arm: the projection, or the error of the first rejected item. */
  method ProjectYield(items: seq<(Expression, Option<string>)>, scope: seq<Expression>)
    returns (projection: Result<seq<Expression>, LoweringError>, newScope: seq<Expression>)
    ensures projection == YieldItems(items, scope)
    ensures projection.Ok? ==> newScope == ToAliasIdents(projection.value)
  {
    var done: seq<Expression> := [];
    newScope := [];
    for i := 0 to |items|
      invariant YieldItems(items[..i], scope) == Ok(done)
      invariant newScope == ToAliasIdents(done)
    {
      assert items[..i + 1][..i] == items[..i];
      var item := YieldItem(items[i], scope);
      if item.Err? {
        YieldItemsStopAtError(items, i + 1, scope);
        projection := Err(item.error);
        return;
      }
      done := done + [item.value];
      newScope := newScope + [ToAliasIdent(item.value)];
    }
    assert items[..|items|] == items;
    projection := Ok(done);
  }

  /** What is still to come after `parts` have been emitted. */
  ghost predicate Continues(spec: Result<Lowered, LoweringError>, parts: seq<QueryPart>,
                            rest: Result<Lowered, LoweringError>)
  {
    spec == if rest.Ok? then Ok(Lowered(parts + rest.value.parts, rest.value.scope)) else rest
  }

  lemma ContinueStep(spec: Result<Lowered, LoweringError>, parts: seq<QueryPart>,
                     matches: seq<MatchClause>, wheres: seq<Expression>, sts: seq<Statement>,
                     scope: seq<Expression>, names: set<string>)
    requires sts != []
    requires Continues(spec, parts, LowerStatements(matches, wheres, sts, scope, names))
    ensures var head := LowerStatement(matches, wheres, sts[0], scope, names);
            if head.Err? then spec == Err(head.error)
            else Continues(spec, parts + head.value.parts, LowerStatements([], [], sts[1..], head.value.scope, names))
  {
    var head := LowerStatement(matches, wheres, sts[0], scope, names);
    if head.Ok? {
      var rest := LowerStatements([], [], sts[1..], head.value.scope, names);
      if rest.Ok? {
        assert (parts + head.value.parts) + rest.value.parts == parts + (head.value.parts + rest.value.parts);
      }
    }
  }

  method BuildPartsForStatements(matches: seq<MatchClause>, wheres: seq<Expression>, statements: seq<Statement>,
                                 startingScope: seq<Expression>, names: set<string>)
    returns (r: Result<seq<QueryPart>, LoweringError>)
    ensures var spec := LowerStatements(matches, wheres, statements, startingScope, names);
            r == if spec.Ok? then Ok(spec.value.parts) else Err(spec.error)
  {
    var matchClauses, whereClauses, scope := matches, wheres, startingScope;
    var parts: seq<QueryPart> := [];
    ghost var spec := LowerStatements(matches, wheres, statements, startingScope, names);
    assert statements[0..] == statements;
    assert spec.Ok? ==> [] + spec.value.parts == spec.value.parts;
    for n := 0 to |statements|
      invariant Continues(spec, parts, LowerStatements(matchClauses, whereClauses, statements[n..], scope, names))
    {
      ContinueStep(spec, parts, matchClauses, whereClauses, statements[n..], scope, names);
      assert statements[n..][0] == statements[n] && statements[n..][1..] == statements[n + 1..];
      var matchClause, whereClause := matchClauses, whereClauses;
      matchClauses, whereClauses := [], [];
      match statements[n] {
        case Let(bindings) =>
          var projection, newScope := ProjectLet(bindings, scope);
          scope := newScope;
          var p := IntoProjectionClause(projection, names);
          parts := parts + [QueryPart(matchClause, whereClause, p)];
        case Yield(items) =>
          var projection, newScope := ProjectYield(items, scope);
          if projection.Err? {
            return Err(projection.error);
          }
          scope := newScope;
          var p := IntoProjectionClause(projection.value, names);
          parts := parts + [QueryPart(matchClause, whereClause, p)];
        case Filter(condition) =>
          var p := IntoProjectionClause(scope, names);
          ghost var before := parts;
          if matchClause != [] || whereClause != [] {
            parts := parts + [QueryPart(matchClause, whereClause, p)];
          }
          parts := parts + [QueryPart([], [condition], p)];
          assert parts == before + LowerStatement(matchClause, whereClause, statements[n], scope, names).value.parts;
      }
    }
    assert statements[|statements|..] == [];
    assert parts + [] == parts;
    r := Ok(parts);
  }

  method HandleExplicitGroupBy(matches: seq<MatchClause>, wheres: seq<Expression>, returned: seq<Expression>,
                               keys: seq<Expression>, names: set<string>)
    returns (r: Result<seq<QueryPart>, LoweringError>)
    ensures r == ExplicitGroupBy(matches, wheres, returned, keys, names)
  {
    var nonAggs: seq<Expression>, aggs: seq<Expression> := [], [];
    for i := 0 to |returned|
      invariant nonAggs == Keys(returned[..i], names)
      invariant aggs == Aggs(returned[..i], names)
    {
      assert returned[..i + 1][..i] == returned[..i];
      var isAgg := ContainsAggregatingFunction(returned[i], names);
      if isAgg {
        aggs := aggs + [returned[i]];
      } else {
        nonAggs := nonAggs + [returned[i]];
      }
    }
    assert returned[..|returned|] == returned;
    if SomeReturnUngrouped(keys, nonAggs) {
      return Err(MissingGroupByKey);
    }
    if AllKeysReturned(keys, nonAggs) {
      var p := IntoProjectionClause(returned, names);
      return Ok([QueryPart(matches, wheres, p)]);
    }
    return Ok(GroupAllKeys(matches, wheres, FullKeys(returned, keys), aggs, returned));
  }

  /** `initialScope` is `None` for the segment after the MATCH clauses. */
  method BuildQueryParts(groups: seq<(seq<MatchClause>, seq<Expression>)>, seg: Segment,
                         initialScope: Option<seq<Expression>>, names: set<string>)
    returns (r: Result<seq<QueryPart>, LoweringError>)
    ensures r == LowerSegment(AllMatches(groups), AllWheres(groups), seg,
                              if initialScope.Some? then initialScope.value else StartingScope(AllMatches(groups)), names)
  {
    var matchClauses: seq<MatchClause>, whereClauses: seq<Expression> := [], [];
    for i := 0 to |groups|
      invariant matchClauses == AllMatches(groups[..i])
      invariant whereClauses == AllWheres(groups[..i])
    {
      assert groups[..i + 1][..i] == groups[..i];
      matchClauses := matchClauses + groups[i].0;
      whereClauses := whereClauses + groups[i].1;
    }
    assert groups[..|groups|] == groups;
    var queryParts: seq<QueryPart> := [];
    if seg.statements != [] {
      var scope;
      match initialScope {
        case Some(s) => scope := s;
        case None => scope := GetStartingScope(matchClauses);
      }
      var emitted := BuildPartsForStatements(matchClauses, whereClauses, seg.statements, scope, names);
      if emitted.Err? {
        return Err(emitted.error);
      }
      queryParts := emitted.value;
      matchClauses, whereClauses := [], [];
    }
    var final;
    match seg.groupBy {
      case Some(keys) => final := HandleExplicitGroupBy(matchClauses, whereClauses, seg.returned, keys, names);
      case None =>
        var p := IntoProjectionClause(seg.returned, names);
        final := Ok([QueryPart(matchClauses, whereClauses, p)]);
    }
    if final.Err? {
      return final;
    }
    assert seg.statements == [] ==> queryParts + final.value == final.value;
    return Ok(queryParts + final.value);
  }

  lemma SegmentEmitsPart(matches: seq<MatchClause>, wheres: seq<Expression>, seg: Segment,
                         scope: seq<Expression>, names: set<string>)
    requires LowerSegment(matches, wheres, seg, scope, names).Ok?
    ensures LowerSegment(matches, wheres, seg, scope, names).value != []
  {
  }

  /** The NEXT loop of rule `query`. */
  method BuildQuery(q: SurfaceQuery, names: set<string>) returns (r: Result<seq<QueryPart>, LoweringError>)
    ensures r == LowerQuery(q, names)
  {
    var first := BuildQueryParts(q.groups, q.first, None, names);
    if first.Err? {
      return first;
    }
    var matches := AllMatches(q.groups);
    SegmentEmitsPart(matches, AllWheres(q.groups), q.first, StartingScope(matches), names);
    var allParts := first.value;
    for i := 0 to |q.next|
      invariant allParts != []
      invariant LowerQuery(q, names) == LowerNext(allParts, q.next[i..], names)
    {
      assert q.next[i..][0] == q.next[i] && q.next[i..][1..] == q.next[i + 1..];
      var scope := GetScopeFromProjection(allParts[|allParts| - 1].projection);
      if scope.Err? {
        return Err(scope.error);
      }
      var nextParts := BuildQueryParts([], q.next[i], Some(scope.value), names);
      if nextParts.Err? {
        return nextParts;
      }
      allParts := allParts + nextParts.value;
    }
    return Ok(allParts);
  }
}
