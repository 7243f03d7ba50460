/** Whole queries: MATCH groups, statements, RETURN, GROUP BY and NEXT together. */
module Query {
  import opened Wrappers
  import opened Sequences
  import opened Ast
  import opened Aggregates
  import opened Lowering
  import opened Engine
  import opened Direct
  import opened Projections
  import opened Statements
  import opened GroupBy

  // ---------------------------------------------------------------- MATCH groups

  function PatternsVars(cs: seq<MatchClause>): set<string> {
    set c, x | c in cs && x in PatternVars(c) :: x
  }

  /** Each WHERE mentions only variables bound by the MATCH clauses before it. */
  predicate WheresBound(groups: seq<(seq<MatchClause>, seq<Expression>)>) {
    forall i | 0 <= i < |groups| :: ExprVars(groups[i].1) <= PatternsVars(AllMatches(groups[..i + 1]))
  }

  lemma {:induction false} SelectConcat(a: seq<Row>, b: seq<Row>, keep: Row -> bool)
    ensures Select(a + b, keep) == Select(a, keep) + Select(b, keep)
    decreases |a|
  {
    if a == [] {
      assert a + b == b;
    } else {
      SplitFirst(a);
      Assoc([a[0]], a[1..], b);
      SelectConcat(a[1..], b, keep);
      SelectCons(a[0], a[1..] + b, keep);
      SelectCons(a[0], a[1..], keep);
      if keep(a[0]) { Assoc([a[0]], Select(a[1..], keep), Select(b, keep)); }
    }
  }

  lemma {:induction false} SelectNone(rows: seq<Row>, p: Row -> bool)
    requires forall r | r in rows :: !p(r)
    ensures Select(rows, p) == []
  {
    if rows != [] {
      assert rows[0] in rows && forall r | r in rows[1..] :: r in rows;
      SelectNone(rows[1..], p);
    }
  }

  /** A condition on bound variables cannot tell a row from its extensions. */
  lemma KeepMatches(eng: LawfulEngine, conditions: seq<Expression>, c: MatchClause, r: Row)
    requires LawfulMatch(eng) && ExprVars(conditions) <= r.Keys
    ensures Keep(eng, conditions, eng.matchClause(c, r)) == if Passes(eng, conditions)(r) then eng.matchClause(c, r) else []
  {
    var found, p := eng.matchClause(c, r), Passes(eng, conditions);
    forall s | s in found
      ensures p(s) == p(r)
    {
      var i: nat :| i < |found| && found[i] == s;
      assert Extends(r, eng.matchClause(c, r)[i]);
      assert SameOn(ExprVars(conditions), s, r);
      forall e | e in conditions
        ensures eng.eval(e, s) == eng.eval(e, r)
      {
        assert FreeVars(e) <= ExprVars(conditions);
        EvalSame(eng, ExprVars(conditions), e, s, r);
      }
    }
    if p(r) { SelectAll(found, p); } else { SelectNone(found, p); }
  }

  lemma {:induction false} KeepMatchRows(eng: LawfulEngine, conditions: seq<Expression>, c: MatchClause, rows: seq<Row>)
    requires LawfulMatch(eng) && AllBind(ExprVars(conditions), rows)
    ensures Keep(eng, conditions, MatchRows(eng, c, rows)) == MatchRows(eng, c, Keep(eng, conditions, rows))
  {
    if rows != [] {
      var r, rest := rows[0], rows[1..];
      assert rows == [r] + rest && r in rows && forall s | s in rest :: s in rows;
      KeepMatchRows(eng, conditions, c, rest);
      KeepMatches(eng, conditions, c, r);
      SelectConcat(eng.matchClause(c, r), MatchRows(eng, c, rest), Passes(eng, conditions));
      SelectCons(r, rest, Passes(eng, conditions));
      assert ([r] + Keep(eng, conditions, rest))[1..] == Keep(eng, conditions, rest);
    }
  }

  lemma {:induction false} MatchRowsBind(eng: Engine, c: MatchClause, vars: set<string>, rows: seq<Row>)
    requires LawfulMatch(eng) && AllBind(vars, rows)
    ensures AllBind(vars + PatternVars(c), MatchRows(eng, c, rows))
  {
    if rows != [] {
      var r, rest := rows[0], rows[1..];
      assert r in rows && forall s | s in rest :: s in rows;
      MatchRowsBind(eng, c, vars, rest);
      forall s | s in eng.matchClause(c, r)
        ensures vars + PatternVars(c) <= s.Keys
      {
        var i: nat :| i < |eng.matchClause(c, r)| && eng.matchClause(c, r)[i] == s;
        assert Extends(r, eng.matchClause(c, r)[i]);
      }
    }
  }

  lemma PatternsVarsConcat(a: seq<MatchClause>, b: seq<MatchClause>)
    ensures PatternsVars(a + b) == PatternsVars(a) + PatternsVars(b)
  {
    assert forall c :: c in a + b <==> c in a || c in b;
  }

  lemma {:induction false} ExtendBinds(eng: Engine, cs: seq<MatchClause>, vars: set<string>, rows: seq<Row>)
    requires LawfulMatch(eng) && AllBind(vars, rows)
    ensures AllBind(vars + PatternsVars(cs), Extend(eng, cs, rows))
    decreases |cs|
  {
    if cs != [] {
      var init, last := cs[..|cs| - 1], cs[|cs| - 1];
      ExtendBinds(eng, init, vars, rows);
      MatchRowsBind(eng, last, vars + PatternsVars(init), Extend(eng, init, rows));
      PatternsVarsSnoc(init, last);
      SplitLast(cs);
    }
  }

  lemma PatternsVarsSnoc(cs: seq<MatchClause>, c: MatchClause)
    ensures PatternsVars(cs + [c]) == PatternsVars(cs) + PatternVars(c)
  {
    assert forall x :: x in cs + [c] <==> x in cs || x == c;
  }

  lemma {:induction false} KeepExtend(eng: LawfulEngine, conditions: seq<Expression>, cs: seq<MatchClause>, rows: seq<Row>)
    requires LawfulMatch(eng) && AllBind(ExprVars(conditions), rows)
    ensures Keep(eng, conditions, Extend(eng, cs, rows)) == Extend(eng, cs, Keep(eng, conditions, rows))
    decreases |cs|
  {
    if cs != [] {
      var init, last := cs[..|cs| - 1], cs[|cs| - 1];
      KeepExtend(eng, conditions, init, rows);
      ExtendBinds(eng, init, ExprVars(conditions), rows);
      KeepMatchRows(eng, conditions, last, Extend(eng, init, rows));
    }
  }

  lemma {:induction false} ExtendConcat(eng: Engine, a: seq<MatchClause>, b: seq<MatchClause>, rows: seq<Row>)
    ensures Extend(eng, a + b, rows) == Extend(eng, b, Extend(eng, a, rows))
    decreases |b|
  {
    if b == [] {
      assert a + b == a;
    } else {
      ExtendConcat(eng, a, b[..|b| - 1], rows);
      assert (a + b)[..|a + b| - 1] == a + b[..|b| - 1];
    }
  }

  lemma {:induction false} AllWheresBound(groups: seq<(seq<MatchClause>, seq<Expression>)>)
    requires WheresBound(groups)
    ensures ExprVars(AllWheres(groups)) <= PatternsVars(AllMatches(groups))
    decreases |groups|
  {
    if groups != [] {
      var init, last := groups[..|groups| - 1], groups[|groups| - 1];
      WheresBoundInit(groups);
      AllWheresBound(init);
      PatternsVarsConcat(AllMatches(init), last.0);
      assert groups[..|groups|] == groups;
      assert forall e :: e in AllWheres(groups) <==> e in AllWheres(init) || e in last.1;
    }
  }

  lemma WheresBoundInit(groups: seq<(seq<MatchClause>, seq<Expression>)>)
    requires WheresBound(groups) && groups != []
    ensures WheresBound(groups[..|groups| - 1])
  {
    var init := groups[..|groups| - 1];
    forall i | 0 <= i < |init|
      ensures ExprVars(init[i].1) <= PatternsVars(AllMatches(init[..i + 1]))
    {
      assert init[..i + 1] == groups[..i + 1];
    }
  }

  /** Flattening the MATCH..WHERE groups into one part, all patterns first and all conditions after,
      keeps their meaning. */
  lemma {:induction false} FlatteningPreservesMeaning(eng: LawfulEngine, groups: seq<(seq<MatchClause>, seq<Expression>)>)
    requires LawfulMatch(eng) && WheresBound(groups)
    ensures Matched(eng, AllMatches(groups), AllWheres(groups), [map[]]) == DirectMatch(eng, groups)
    decreases |groups|
  {
    if groups == [] {
      KeepNothing(eng, [map[]]);
    } else {
      var init, last := groups[..|groups| - 1], groups[|groups| - 1];
      var before := Extend(eng, AllMatches(init), [map[]]);
      WheresBoundInit(groups);
      FlatteningPreservesMeaning(eng, init);
      ExtendConcat(eng, AllMatches(init), last.0, [map[]]);
      KeepConcat(eng, AllWheres(init), last.1, Extend(eng, last.0, before));
      AllWheresBound(init);
      ExtendBinds(eng, AllMatches(init), {}, [map[]]);
      assert AllBind(ExprVars(AllWheres(init)), before);
      KeepExtend(eng, AllWheres(init), last.0, before);
    }
  }

  // ---------------------------------------------------------------- scopes

  predicate NoRepeats(scope: seq<Expression>) {
    forall i, j | 0 <= i < j < |scope| :: scope[i] != scope[j]
  }

  lemma {:induction false} AddNamesScope(scope: seq<Expression>, added: seq<Option<string>>)
    requires IsScope(scope) && NoRepeats(scope)
    ensures IsScope(AddNames(scope, added)) && NoRepeats(AddNames(scope, added))
    ensures ColumnNames(AddNames(scope, added)) == ColumnNames(scope) + NamesOf(added)
    decreases |added|
  {
    if added != [] {
      var init, last := added[..|added| - 1], added[|added| - 1];
      SplitLast(added);
      AddNamesScope(scope, init);
      var before := AddNames(scope, init);
      NamesOfSnoc(init, last);
      if last.Some? {
        ColumnNamesSnoc(before, Identifier(last.value));
        assert Identifier(last.value) in before ==> ColumnName(Identifier(last.value)) in ColumnNames(before);
      }
    }
  }

  lemma NamesOfSnoc(os: seq<Option<string>>, o: Option<string>)
    ensures NamesOf(os + [o]) == NamesOf(os) + if o.Some? then {o.value} else {}
  {
    assert forall x :: x in os + [o] <==> x in os || x == o;
  }

  /** The node variables of the patterns. */
  function NodeVars(cs: seq<MatchClause>): set<string> {
    set c, x | c in cs && x in NamesOf(NodeNames(c)) :: x
  }

  lemma NodeVarsSnoc(cs: seq<MatchClause>, c: MatchClause)
    ensures NodeVars(cs + [c]) == NodeVars(cs) + NamesOf(NodeNames(c))
  {
    assert forall x :: x in cs + [c] <==> x in cs || x == c;
  }

  /** The starting scope names exactly the node variables, each once; relationship variables are left out. */
  lemma {:induction false} StartingScopeIsNodes(cs: seq<MatchClause>)
    ensures IsScope(StartingScope(cs)) && NoRepeats(StartingScope(cs))
    ensures ColumnNames(StartingScope(cs)) == NodeVars(cs)
    decreases |cs|
  {
    if cs != [] {
      var init, last := cs[..|cs| - 1], cs[|cs| - 1];
      StartingScopeIsNodes(init);
      AddNamesScope(StartingScope(init), NodeNames(last));
      SplitLast(cs);
      NodeVarsSnoc(init, last);
    }
  }

  /** A pattern names a node `x`, at its start or along its path. */
  predicate NamesNode(c: MatchClause, x: string) {
    c.start.name == Some(x) || exists i | 0 <= i < |c.path| :: c.path[i].1.name == Some(x)
  }

  predicate NamesRelationship(c: MatchClause, x: string) {
    exists i | 0 <= i < |c.path| :: c.path[i].0.name == Some(x)
  }

  lemma PatternNames(c: MatchClause, x: string)
    ensures x in NamesOf(NodeNames(c)) <==> NamesNode(c, x)
    ensures x in PatternVars(c) <==> NamesNode(c, x) || NamesRelationship(c, x)
  {
    var rels := seq(|c.path|, i requires 0 <= i < |c.path| => c.path[i].0.name);
    var nodes := seq(|c.path|, i requires 0 <= i < |c.path| => c.path[i].1.name);
    assert forall i | 0 <= i < |c.path| :: rels[i] == c.path[i].0.name && nodes[i] == c.path[i].1.name;
    assert NodeNames(c) == [c.start.name] + nodes;
    assert forall o :: o in NodeNames(c) <==> o == c.start.name || o in nodes;
  }

  /** What MATCH binds, and what of it the scope leaves out, in terms of the patterns. */
  lemma MatchBinds(cs: seq<MatchClause>, x: string)
    ensures x in ColumnNames(StartingScope(cs)) <==> exists c | c in cs :: NamesNode(c, x)
    ensures x in PatternsVars(cs) <==> exists c | c in cs :: NamesNode(c, x) || NamesRelationship(c, x)
  {
    StartingScopeIsNodes(cs);
    forall c | c in cs
      ensures x in NamesOf(NodeNames(c)) <==> NamesNode(c, x)
      ensures x in PatternVars(c) <==> NamesNode(c, x) || NamesRelationship(c, x)
    {
      PatternNames(c, x);
    }
  }

  lemma {:induction false} AddNamesExtends(scope: seq<Expression>, added: seq<Option<string>>)
    ensures scope <= AddNames(scope, added)
    decreases |added|
  {
    if added != [] { AddNamesExtends(scope, added[..|added| - 1]); }
  }

  /** Further patterns come behind: the scope is in order of first appearance. */
  lemma {:induction false} StartingScopeIsInOrder(cs: seq<MatchClause>, n: nat)
    requires n <= |cs|
    ensures StartingScope(cs[..n]) <= StartingScope(cs)
    decreases |cs|
  {
    if n < |cs| {
      var init := cs[..|cs| - 1];
      StartingScopeIsInOrder(init, n);
      assert init[..n] == cs[..n];
      AddNamesExtends(StartingScope(init), NodeNames(cs[|cs| - 1]));
    } else {
      assert cs[..n] == cs;
    }
  }

  lemma NodeNamesBound(c: MatchClause)
    ensures NamesOf(NodeNames(c)) <= PatternVars(c)
  {
    var nodes := seq(|c.path|, i requires 0 <= i < |c.path| => c.path[i].1.name);
    assert NodeNames(c) == [c.start.name] + nodes;
    assert forall o :: o in NodeNames(c) <==> o in [c.start.name] || o in nodes;
  }

  lemma NodeVarsBound(cs: seq<MatchClause>)
    ensures NodeVars(cs) <= PatternsVars(cs)
  {
    forall c | c in cs
      ensures NamesOf(NodeNames(c)) <= PatternVars(c)
    {
      NodeNamesBound(c);
    }
  }

  lemma ScopeItemsSnoc(es: seq<Expression>, e: Expression)
    requires ScopeItems(es).Ok? && ScopeItem(e).Ok?
    requires IsScope(ScopeItems(es).value) && ColumnNames(ScopeItems(es).value) == ColumnNames(es)
    ensures var scope := ScopeItems(es).value + [ScopeItem(e).value];
            IsScope(scope) && ColumnNames(scope) == ColumnNames(es + [e])
  {
    ColumnNamesSnoc(es, e);
    ColumnNamesSnoc(ScopeItems(es).value, ScopeItem(e).value);
  }

  lemma {:induction false} ScopeItemsNames(es: seq<Expression>)
    requires ScopeItems(es).Ok?
    ensures IsScope(ScopeItems(es).value) && ColumnNames(ScopeItems(es).value) == ColumnNames(es)
    decreases |es|
  {
    if es != [] {
      ScopeItemsNames(es[..|es| - 1]);
      ScopeItemsSnoc(es[..|es| - 1], es[|es| - 1]);
      SplitLast(es);
    }
  }

  // ---------------------------------------------------------------- segments

  function ReturnVars(seg: Segment): set<string> {
    ColumnVars(ReturnColumns(seg.returned))
    + (if seg.groupBy.Some? then ExprVars(ResolveKeys(seg.returned, seg.groupBy.value)) else {})
  }

  /** What a segment must satisfy for its parts to mean what it says. Its rows bind the `visible` names; the `hidden` ones
      among them are lost once a part has projected the rows. */
  predicate SegmentScoped(pending: bool, seg: Segment, visible: set<string>, hidden: set<string>, names: set<string>) {
    && WellScoped(seg.statements, visible, hidden, names, true, pending)
    && ReturnScoped(seg, names)
    && (if seg.statements == [] then seg.groupBy.Some? ==> ReturnVars(seg) <= visible
        else ReturnVars(seg) <= NamesAfterAll(seg.statements, visible) - LostAfterAll(seg.statements, hidden, true))
  }

  predicate ReturnScoped(seg: Segment, names: set<string>) {
    match seg.groupBy
    case None => NoAggregateShadowed(ReturnColumns(seg.returned), names)
    case Some(keys) => DistinctNames(seg.returned) && FaithfulGroupBy(seg.returned, keys, names)
  }

  lemma ReturnedVars(returned: seq<Expression>)
    ensures ExprVars(returned) == ColumnVars(ReturnColumns(returned))
  {
    var cols := ReturnColumns(returned);
    forall i | 0 <= i < |returned|
      ensures FreeVars(cols[i].expr) == FreeVars(returned[i]) && cols[i] in cols && returned[i] in returned
    {
      ReturnColumnFacts(returned[i], {});
    }
  }

  /** RETURN with or without GROUP BY, on the rows that reach it. */
  lemma ReturnPreservesMeaning(eng: LawfulEngine, names: set<string>, matches: seq<MatchClause>, wheres: seq<Expression>,
                               seg: Segment, rows: seq<Row>)
    requires LowerReturn(matches, wheres, seg, names).Ok? && ReturnScoped(seg, names)
    requires seg.groupBy.Some? ==> AllBind(ExprVars(Keys(seg.returned, names)), Matched(eng, matches, wheres, rows))
    ensures RunParts(eng, LowerReturn(matches, wheres, seg, names).value, rows)
            == DirectProject(eng, Found(names), ReturnColumns(seg.returned), ResolvedGroupBy(seg), Matched(eng, matches, wheres, rows))
  {
    match seg.groupBy
    case None => ImplicitGrouping(eng, names, seg.returned, Matched(eng, matches, wheres, rows));
    case Some(keys) => GroupByPreservesMeaning(eng, matches, wheres, seg.returned, keys, names, rows);
  }

  lemma SegmentPreservesMeaning(eng: LawfulEngine, names: set<string>, matches: seq<MatchClause>, wheres: seq<Expression>,
                                seg: Segment, scope: seq<Expression>, visible: set<string>, hidden: set<string>, rows: seq<Row>)
    requires LowerSegment(matches, wheres, seg, scope, names).Ok?
    requires CoversKept(scope, visible, hidden) && SegmentScoped(matches != [] || wheres != [], seg, visible, hidden, names)
    requires AllBind(visible, Matched(eng, matches, wheres, rows))
    ensures RunParts(eng, LowerSegment(matches, wheres, seg, scope, names).value, rows)
            == DirectSegment(eng, Found(names), seg, Matched(eng, matches, wheres, rows))
  {
    var start := Matched(eng, matches, wheres, rows);
    ReturnedVars(seg.returned);
    KeyVars(seg.returned, names);
    if seg.statements == [] {
      ReturnPreservesMeaning(eng, names, matches, wheres, seg, rows);
    } else {
      assert Corresponds(scope, visible, hidden, true, start, start);
      StatementsPreserveMeaning(eng, names, matches, wheres, seg.statements, scope, visible, hidden, true, rows, start);
      var lowered := LowerStatements(matches, wheres, seg.statements, scope, names).value;
      var low, dir := RunParts(eng, lowered.parts, rows), DirectStatements(eng, Found(names), seg.statements, start);
      var vars := NamesAfterAll(seg.statements, visible) - LostAfterAll(seg.statements, hidden, true);
      KeepNothing(eng, low);
      forall r | r in low
        ensures vars <= r.Keys
      {
        var i :| 0 <= i < |low| && low[i] == r;
        assert SameOn(vars, low[i], dir[i]) && vars <= dir[i].Keys;
      }
      ReturnPreservesMeaning(eng, names, [], [], seg, low);
      RunPartsConcat(eng, lowered.parts, LowerReturn([], [], seg, names).value, rows);
      ProjectSame(eng, names, vars, ReturnColumns(seg.returned), ResolvedGroupBy(seg), low, dir);
    }
  }

  // ---------------------------------------------------------------- NEXT and whole queries

  function ReturnNames(seg: Segment): set<string> {
    OutputNames(ReturnColumns(seg.returned))
  }

  /** Each segment sees what the one before returns, and nothing is hidden. */
  predicate NextScoped(visible: set<string>, next: seq<Segment>, names: set<string>)
    decreases |next|
  {
    if next == [] then true else
    SegmentScoped(false, next[0], visible, {}, names) && NextScoped(ReturnNames(next[0]), next[1..], names)
  }

  /** The variables that the scope of the lowering leaves out: those of relationships. */
  function HiddenVars(cs: seq<MatchClause>): set<string> {
    PatternsVars(cs) - NodeVars(cs)
  }

  predicate Pending(q: SurfaceQuery) {
    AllMatches(q.groups) != [] || AllWheres(q.groups) != []
  }

  /** What a query must satisfy, in terms of its clauses only: each clause reads names that are bound there, and once a
      part has projected the rows no FILTER, GROUP BY or RETURN reads a relationship variable or what was computed from
      a lost one. */
  predicate QueryScoped(q: SurfaceQuery, names: set<string>) {
    var matches := AllMatches(q.groups);
    && WheresBound(q.groups)
    && SegmentScoped(Pending(q), q.first, PatternsVars(matches), HiddenVars(matches), names)
    && NextScoped(ReturnNames(q.first), q.next, names)
  }

  function LastOutput(parts: seq<QueryPart>): seq<Expression>
    requires parts != []
  {
    OutputItems(parts[|parts| - 1].projection)
  }

  /** The last part of a segment outputs what the segment returns. */
  lemma SegmentOutput(matches: seq<MatchClause>, wheres: seq<Expression>, seg: Segment, scope: seq<Expression>,
                      names: set<string>)
    requires LowerSegment(matches, wheres, seg, scope, names).Ok?
    ensures var parts := LowerSegment(matches, wheres, seg, scope, names).value;
            parts != [] && ColumnNames(LastOutput(parts)) == ReturnNames(seg)
  {
    ReturnColumnNames(seg.returned);
    ProjectionNames(seg.returned, names);
    AliasIdentNames(seg.returned);
  }

  lemma RunLast(eng: Engine, parts: seq<QueryPart>, rows: seq<Row>)
    requires parts != []
    ensures RunParts(eng, parts, rows)
            == RunPart(eng, parts[|parts| - 1], RunParts(eng, parts[..|parts| - 1], rows))
  {
    assert parts == parts[..|parts| - 1] + [parts[|parts| - 1]];
    RunPartsConcat(eng, parts[..|parts| - 1], [parts[|parts| - 1]], rows);
  }

  /** After a NEXT the scope names exactly the columns of the rows. */
  lemma NextRowsBind(eng: Engine, parts: seq<QueryPart>, rows: seq<Row>)
    requires parts != [] && ScopeItems(LastOutput(parts)).Ok?
    ensures var scope := ScopeItems(LastOutput(parts)).value;
            && IsScope(scope) && ColumnNames(scope) == ColumnNames(LastOutput(parts))
            && AllBind(ColumnNames(scope), RunParts(eng, parts, rows))
  {
    var last := parts[|parts| - 1];
    var before := RunParts(eng, parts[..|parts| - 1], rows);
    var seen := Keep(eng, last.wheres, Extend(eng, last.matches, before));
    ScopeItemsNames(OutputItems(last.projection));
    RunLast(eng, parts, rows);
    var out := RunProjection(eng, last.projection, seen);
    forall r | r in out
      ensures ColumnNames(OutputItems(last.projection)) <= r.Keys
    {
      var i: nat :| i < |out| && out[i] == r;
      ProjectionRowKeys(eng, last.projection, seen, i);
    }
  }

  /** NEXT is composition: running the one list of parts is running each segment, directly, on the
      output of the one before. */
  lemma {:induction false} NextPreservesMeaning(eng: LawfulEngine, names: set<string>, parts: seq<QueryPart>,
                                                next: seq<Segment>, rows: seq<Row>)
    requires parts != [] && LowerNext(parts, next, names).Ok? && NextScoped(ColumnNames(LastOutput(parts)), next, names)
    ensures RunParts(eng, LowerNext(parts, next, names).value, rows)
            == DirectSegments(eng, Found(names), next, RunParts(eng, parts, rows))
    decreases |next|
  {
    if next != [] {
      var scope := ScopeItems(LastOutput(parts)).value;
      var more := LowerSegment([], [], next[0], scope, names).value;
      var mid := RunParts(eng, parts, rows);
      NextRowsBind(eng, parts, rows);
      KeepNothing(eng, mid);
      SegmentPreservesMeaning(eng, names, [], [], next[0], scope, ColumnNames(scope), {}, mid);
      SegmentOutput([], [], next[0], scope, names);
      RunPartsConcat(eng, parts, more, rows);
      NextPreservesMeaning(eng, names, parts + more, next[1..], rows);
    }
  }

  lemma KeepBindsAll(eng: Engine, conditions: seq<Expression>, vars: set<string>, rows: seq<Row>)
    requires AllBind(vars, rows)
    ensures AllBind(vars, Keep(eng, conditions, rows))
  {
    forall r | r in Keep(eng, conditions, rows)
      ensures vars <= r.Keys
    {
      SelectMember(rows, Passes(eng, conditions), r);
    }
  }

  // ---------------------------------------------------------------- what counts as an aggregate

  /** The search finds every aggregate of these columns. */
  predicate ColumnsInPlainSight(cols: seq<Column>, names: set<string>) {
    forall c | c in cols :: HasAggregate(c.expr, names) <==> Occurs(c.expr, names)
  }

  predicate SegmentInPlainSight(seg: Segment, names: set<string>) {
    && ColumnsInPlainSight(ReturnColumns(seg.returned), names)
    && forall st | st in seg.statements && st.Yield? :: ColumnsInPlainSight(YieldColumns(st.items), names)
  }

  predicate InPlainSight(q: SurfaceQuery, names: set<string>) {
    forall seg | seg in [q.first] + q.next :: SegmentInPlainSight(seg, names)
  }

  lemma {:induction false} RowInPlainSight(eng: Engine, names: set<string>, cols: seq<Column>, g: seq<Row>)
    requires ColumnsInPlainSight(cols, names)
    ensures g != [] ==> DirectRow(eng, Found(names), cols, g) == DirectRow(eng, Occurring(names), cols, g)
    ensures PlainExprs(cols, Found(names)) == PlainExprs(cols, Occurring(names))
    decreases |cols|
  {
    if cols != [] {
      assert cols[|cols| - 1] in cols && forall c | c in cols[..|cols| - 1] :: c in cols;
      RowInPlainSight(eng, names, cols[..|cols| - 1], g);
    }
  }

  lemma ProjectInPlainSight(eng: Engine, names: set<string>, cols: seq<Column>, keys: Option<seq<Expression>>, rows: seq<Row>)
    requires ColumnsInPlainSight(cols, names)
    ensures DirectProject(eng, Found(names), cols, keys, rows) == DirectProject(eng, Occurring(names), cols, keys, rows)
  {
    forall g: seq<Row>
      ensures g != [] ==> DirectRow(eng, Found(names), cols, g) == DirectRow(eng, Occurring(names), cols, g)
      ensures PlainExprs(cols, Found(names)) == PlainExprs(cols, Occurring(names))
    {
      RowInPlainSight(eng, names, cols, g);
    }
    assert PlainExprs(cols, Found(names)) == PlainExprs(cols, Occurring(names)) by { RowInPlainSight(eng, names, cols, []); }
    assert forall ks: seq<Expression> :: DirectGrouped(eng, Found(names), cols, ks, rows) == DirectGrouped(eng, Occurring(names), cols, ks, rows);
  }

  lemma {:induction false} StatementsInPlainSight(eng: Engine, names: set<string>, sts: seq<Statement>, rows: seq<Row>)
    requires forall st | st in sts && st.Yield? :: ColumnsInPlainSight(YieldColumns(st.items), names)
    ensures DirectStatements(eng, Found(names), sts, rows) == DirectStatements(eng, Occurring(names), sts, rows)
    decreases |sts|
  {
    if sts != [] {
      assert sts[0] in sts && forall st | st in sts[1..] :: st in sts;
      if sts[0].Yield? { ProjectInPlainSight(eng, names, YieldColumns(sts[0].items), None, rows); }
      StatementsInPlainSight(eng, names, sts[1..], DirectStatement(eng, Found(names), sts[0], rows));
    }
  }

  /** Where the search finds every aggregate, it makes no difference to the meaning. */
  lemma {:induction false} SegmentsInPlainSight(eng: Engine, names: set<string>, segs: seq<Segment>, rows: seq<Row>)
    requires forall seg | seg in segs :: SegmentInPlainSight(seg, names)
    ensures DirectSegments(eng, Found(names), segs, rows) == DirectSegments(eng, Occurring(names), segs, rows)
    decreases |segs|
  {
    if segs != [] {
      var seg := segs[0];
      assert seg in segs && forall s | s in segs[1..] :: s in segs;
      StatementsInPlainSight(eng, names, seg.statements, rows);
      ProjectInPlainSight(eng, names, ReturnColumns(seg.returned), ResolvedGroupBy(seg), DirectStatements(eng, Found(names), seg.statements, rows));
      SegmentsInPlainSight(eng, names, segs[1..], DirectSegment(eng, Found(names), seg, rows));
    }
  }

  // ---------------------------------------------------------------- the main theorem

  /** The lowering pass preserves meaning: for every accepted, well-scoped query and every engine, running
      the emitted parts from the empty row gives the rows of the direct, clause-by-clause semantics. */
  lemma LoweringPreservesMeaning(eng: LawfulEngine, names: set<string>, q: SurfaceQuery)
    requires LawfulMatch(eng) && QueryScoped(q, names) && LowerQuery(q, names).Ok?
    ensures RunParts(eng, LowerQuery(q, names).value, [map[]]) == DirectQuery(eng, Found(names), q)
    ensures InPlainSight(q, names) ==> RunParts(eng, LowerQuery(q, names).value, [map[]]) == DirectQuery(eng, Occurring(names), q)
  {
    var matches, wheres := AllMatches(q.groups), AllWheres(q.groups);
    var scope := StartingScope(matches);
    var parts := LowerSegment(matches, wheres, q.first, scope, names).value;
    SegmentOutput(matches, wheres, q.first, scope, names);
    StartingScopeIsNodes(matches);
    NodeVarsBound(matches);
    ExtendBinds(eng, matches, {}, [map[]]);
    KeepBindsAll(eng, wheres, PatternsVars(matches), Extend(eng, matches, [map[]]));
    SegmentPreservesMeaning(eng, names, matches, wheres, q.first, scope, PatternsVars(matches), HiddenVars(matches), [map[]]);
    FlatteningPreservesMeaning(eng, q.groups);
    NextPreservesMeaning(eng, names, parts, q.next, [map[]]);
    assert ([q.first] + q.next)[1..] == q.next;
    if InPlainSight(q, names) { SegmentsInPlainSight(eng, names, [q.first] + q.next, DirectMatch(eng, q.groups)); }
  }
}
