/** Relationship variables after the first LET or FILTER: the scope of the lowering holds node variables only, so the
    parts lose them. Exactly when a query keeps its meaning all the same. */
module LostVariables {
  import opened Wrappers
  import opened Sequences
  import opened Ast
  import opened Aggregates
  import opened Lowering
  import opened Engine
  import opened Direct
  import opened Projections
  import opened Statements
  import opened GroupBy
  import opened Query

  // ---------------------------------------------------------------- an engine that shows what is lost

  predicate IsTrue(r: Row, x: string) {
    x in r && r[x] == Bool(true)
  }

  predicate AllTrue(vars: set<string>, r: Row) {
    forall x | x in vars :: IsTrue(r, x)
  }

  function TruthEval(e: Expression, r: Row): Value {
    var c := Core(e);
    if !c.Identifier? then Bool(AllTrue(FreeVars(c), r))
    else if c.name in r then r[c.name] else Null
  }

  predicate TruthAggregate(e: Expression, g: seq<Row>) {
    forall i | 0 <= i < |g| :: AllTrue(FreeVars(e), g[i])
  }

  /** An engine in which an expression is true if all its variables are. Every pattern matches once and binds its
      variables to true. */
  function TruthEngine(): Engine {
    Engine((e, r) => TruthEval(e, r), (e, g) => Bool(TruthAggregate(e, g)), (c, r) => BindPattern(c, r))
  }

  lemma Truth(e: Expression, r: Row)
    ensures TruthEval(e, r) == Bool(true) <==> AllTrue(FreeVars(e), r)
  {
    CoreFreeVars(e);
    if Core(e).Identifier? {
      assert FreeVars(Core(e)) == {Core(e).name};
    }
  }

  lemma TruthIsLocal(e: Expression, r: Row, s: Row)
    requires SameOn(FreeVars(e), r, s)
    ensures TruthEval(e, r) == TruthEval(e, s)
  {
    CoreFreeVars(e);
    var c := Core(e);
    if c.Identifier? {
      assert c.name in FreeVars(c);
    } else {
      assert AllTrue(FreeVars(c), r) == AllTrue(FreeVars(c), s);
    }
  }

  lemma TruthOfGroups(e: Expression, g: seq<Row>, h: seq<Row>)
    requires SameRows(FreeVars(e), g, h)
    ensures TruthAggregate(e, g) == TruthAggregate(e, h)
  {
    forall i | 0 <= i < |g|
      ensures AllTrue(FreeVars(e), g[i]) == AllTrue(FreeVars(e), h[i])
    {
      assert SameOn(FreeVars(e), g[i], h[i]);
    }
  }

  lemma TruthIgnoresPosition(f: string, args: seq<Expression>, p: nat, r: Row)
    ensures TruthEval(Function(f, args, p), r) == TruthEval(Function(f, args, 0), r)
  {
    assert Core(Function(f, args, p)) == Core(Function(f, args, 0));
  }

  lemma TruthOfAlias(e: Expression, a: string, g: seq<Row>)
    ensures TruthAggregate(Alias(e, a), g) == TruthAggregate(e, g)
  {
    AliasFreeVars(e, a);
  }

  lemma TruthIsLawful()
    ensures LawfulEval(TruthEngine()) && LawfulMatch(TruthEngine())
  {
    BindPatternIsLawful(TruthEngine());
    forall e: Expression, r: Row, s: Row | SameOn(FreeVars(e), r, s)
      ensures TruthEval(e, r) == TruthEval(e, s)
    {
      TruthIsLocal(e, r, s);
    }
    forall e: Expression, g: seq<Row>, h: seq<Row> | SameRows(FreeVars(e), g, h)
      ensures TruthAggregate(e, g) == TruthAggregate(e, h)
    {
      TruthOfGroups(e, g, h);
    }
    forall f: string, args: seq<Expression>, p: nat, r: Row
      ensures TruthEval(Function(f, args, p), r) == TruthEval(Function(f, args, 0), r)
    {
      TruthIgnoresPosition(f, args, p, r);
    }
    forall e: Expression, a: string, g: seq<Row>
      ensures TruthAggregate(Alias(e, a), g) == TruthAggregate(e, g)
    {
      TruthOfAlias(e, a, g);
    }
  }

  // ---------------------------------------------------------------- the row MATCH leaves

  lemma TrueRowJoin(a: set<string>, b: set<string>)
    ensures TrueRow(a) + TrueRow(b) == TrueRow(b + a)
  {
  }

  lemma TruthMatchesOne(c: MatchClause, vars: set<string>)
    ensures MatchRows(TruthEngine(), c, [TrueRow(vars)]) == [TrueRow(vars + PatternVars(c))]
  {
    var rows := [TrueRow(vars)];
    TrueRowJoin(PatternVars(c), vars);
    assert rows[1..] == [] && MatchRows(TruthEngine(), c, rows[1..]) == [];
    assert TruthEngine().matchClause(c, rows[0]) == [TrueRow(PatternVars(c)) + TrueRow(vars)];
  }

  lemma {:induction false} TruthMatches(cs: seq<MatchClause>)
    ensures Extend(TruthEngine(), cs, [map[]]) == [TrueRow(PatternsVars(cs))]
    decreases |cs|
  {
    if cs != [] {
      var init, last := cs[..|cs| - 1], cs[|cs| - 1];
      TruthMatches(init);
      TruthMatchesOne(last, PatternsVars(init));
      SplitLast(cs);
      PatternsVarsSnoc(init, last);
    }
  }

  lemma KeepOne(eng: Engine, conditions: seq<Expression>, r: Row)
    ensures Keep(eng, conditions, [r]) == if Passes(eng, conditions)(r) then [r] else []
  {
    assert [r] == [r] + [];
    SelectCons(r, [], Passes(eng, conditions));
  }

  /** A condition keeps a row of the engine if its variables are true there. */
  lemma KeepTrue(conditions: seq<Expression>, r: Row)
    ensures Keep(TruthEngine(), conditions, [r]) == if AllTrue(ExprVars(conditions), r) then [r] else []
  {
    KeepOne(TruthEngine(), conditions, r);
    forall c | c in conditions
      ensures TruthEngine().eval(c, r) == Bool(true) <==> AllTrue(FreeVars(c), r)
    {
      Truth(c, r);
    }
    assert AllTrue(ExprVars(conditions), r) <==> forall c | c in conditions :: AllTrue(FreeVars(c), r);
  }

  lemma TruthMatched(matches: seq<MatchClause>, wheres: seq<Expression>)
    requires ExprVars(wheres) <= PatternsVars(matches)
    ensures Matched(TruthEngine(), matches, wheres, [map[]]) == [TrueRow(PatternsVars(matches))]
  {
    TruthMatches(matches);
    KeepTrue(wheres, TrueRow(PatternsVars(matches)));
  }

  // ---------------------------------------------------------------- the rows that columns show

  /** Of the names `vars`, the row has exactly those true that are not lost. */
  ghost predicate Shows(r: Row, vars: set<string>, lost: set<string>) {
    forall x | x in vars :: IsTrue(r, x) <==> x !in lost
  }

  lemma ShownValue(how: Recognition, c: Column, vars: set<string>, lost: set<string>, r: Row)
    requires Shows(r, vars, lost) && FreeVars(c.expr) <= vars
    ensures ColumnValue(TruthEngine(), how, c, [r]) == Bool(true) <==> FreeVars(c.expr) !! lost
  {
    Truth(c.expr, r);
    assert [r][0] == r;
    assert TruthAggregate(c.expr, [r]) == AllTrue(FreeVars(c.expr), r);
    assert AllTrue(FreeVars(c.expr), r) <==> FreeVars(c.expr) !! lost;
  }

  /** A row that shows what is lost is projected to one that shows which columns depend on it. */
  lemma {:induction false} ShownRow(how: Recognition, cols: seq<Column>, vars: set<string>, lost: set<string>, r: Row)
    requires Shows(r, vars, lost) && ColumnVars(cols) <= vars
    ensures DirectRow(TruthEngine(), how, cols, [r]).Keys == OutputNames(cols)
    ensures Shows(DirectRow(TruthEngine(), how, cols, [r]), OutputNames(cols), LostColumns(cols, lost))
    decreases |cols|
  {
    if cols != [] {
      ColumnVarsInit(cols);
      ShownRow(how, cols[..|cols| - 1], vars, lost, r);
      ShownValue(how, cols[|cols| - 1], vars, lost, r);
    }
  }

  lemma {:induction false} NothingLost(cols: seq<Column>)
    ensures LostColumns(cols, {}) == {}
    decreases |cols|
  {
    if cols != [] { NothingLost(cols[..|cols| - 1]); }
  }

  lemma TrueColumns(how: Recognition, cols: seq<Column>, vars: set<string>)
    requires ColumnVars(cols) <= vars
    ensures DirectRow(TruthEngine(), how, cols, [TrueRow(vars)]) == TrueRow(OutputNames(cols))
  {
    ShownRow(how, cols, vars, {}, TrueRow(vars));
    NothingLost(cols);
  }

  /** One row is one group, whatever it is grouped by. */
  lemma ProjectOne(eng: Engine, how: Recognition, cols: seq<Column>, keys: Option<seq<Expression>>, r: Row)
    ensures DirectProject(eng, how, cols, keys, [r]) == [DirectRow(eng, how, cols, [r])]
  {
    if keys.Some? {
      GroupsOfCopies(eng, keys.value, r);
    } else {
      GroupsOfCopies(eng, PlainExprs(cols, how), r);
    }
  }

  // ---------------------------------------------------------------- what a segment reads

  /** A statement reads only names that are bound there. */
  predicate StatementBound(st: Statement, visible: set<string>, names: set<string>) {
    match st
    case Let(bs) => ColumnVars(LetColumns(bs)) <= visible && forall b | b in bs :: !HasAggregate(b.1, names)
    case Yield(items) => ColumnVars(YieldColumns(items)) <= visible && NoAggregateShadowed(YieldColumns(items), names)
    case Filter(c) => FreeVars(c) <= visible
  }

  predicate StatementsBound(sts: seq<Statement>, visible: set<string>, names: set<string>)
    decreases |sts|
  {
    sts == [] || (StatementBound(sts[0], visible, names) && StatementsBound(sts[1..], NamesAfter(sts[0], visible), names))
  }

  predicate ReadsLostName(st: Statement, lost: set<string>) {
    st.Filter? && !(FreeVars(st.condition) !! lost)
  }

  predicate FilterReadsLost(sts: seq<Statement>, lost: set<string>, unprojected: bool)
    decreases |sts|
  {
    sts != [] && (ReadsLostName(sts[0], lost) || FilterReadsLost(sts[1..], LostAfter(sts[0], lost, unprojected), false))
  }

  /** No YIELD with aggregates groups by a lost name. */
  predicate YieldsGroupKept(sts: seq<Statement>, lost: set<string>, names: set<string>, unprojected: bool)
    decreases |sts|
  {
    sts == [] ||
    (&& (sts[0].Yield? ==> KeysKept(YieldColumns(sts[0].items), Gone(lost, unprojected), names))
     && YieldsGroupKept(sts[1..], LostAfter(sts[0], lost, unprojected), names, false))
  }

  /** The names that are lost when RETURN is reached. */
  function FinalLost(seg: Segment, hidden: set<string>): set<string> {
    if seg.statements == [] then {} else LostAfterAll(seg.statements, hidden, true)
  }

  predicate SegmentBound(seg: Segment, visible: set<string>, names: set<string>) {
    && StatementsBound(seg.statements, visible, names)
    && ReturnVars(seg) <= NamesAfterAll(seg.statements, visible)
    && ReturnScoped(seg, names) && DistinctNames(seg.returned)
  }

  /** Neither a YIELD with aggregates nor GROUP BY groups by a lost name. */
  predicate GroupingKept(seg: Segment, hidden: set<string>, names: set<string>) {
    && YieldsGroupKept(seg.statements, hidden, names, true)
    && (seg.groupBy.Some? ==>
          ExprVars(ResolveKeys(seg.returned, seg.groupBy.value)) + ExprVars(Keys(seg.returned, names)) !! FinalLost(seg, hidden))
  }

  /** A FILTER or RETURN reads a lost name. */
  predicate ReadsLost(seg: Segment, hidden: set<string>) {
    seg.statements != [] && (FilterReadsLost(seg.statements, hidden, true) || !(ReturnVars(seg) !! FinalLost(seg, hidden)))
  }

  // ---------------------------------------------------------------- nothing lost is read: the meaning is kept

  lemma {:induction false} ScopedWithoutLoss(sts: seq<Statement>, visible: set<string>, lost: set<string>, names: set<string>,
                                             unprojected: bool, pending: bool)
    requires StatementsBound(sts, visible, names) && YieldsGroupKept(sts, lost, names, unprojected)
    requires !FilterReadsLost(sts, lost, unprojected)
    ensures WellScoped(sts, visible, lost, names, unprojected, pending)
    decreases |sts|
  {
    if sts != [] {
      ScopedWithoutLoss(sts[1..], NamesAfter(sts[0], visible), LostAfter(sts[0], lost, unprojected), names, false, false);
    }
  }

  // ---------------------------------------------------------------- a lost name is read: the engine shows it

  /** How a row of the parts stands at a point where the direct row has all visible names true. */
  ghost predicate Shown(scope: seq<Expression>, visible: set<string>, lost: set<string>, unprojected: bool, l: Row) {
    && CoversKept(scope, visible, lost) && ColumnNames(scope) <= l.Keys
    && Shows(l, visible, Gone(lost, unprojected))
    && (unprojected ==> lost !! ColumnNames(scope))
  }

  /** Projecting the scope drops what is lost. */
  lemma ScopeShows(scope: seq<Expression>, visible: set<string>, lost: set<string>, unprojected: bool, l: Row)
    requires Shown(scope, visible, lost, unprojected, l)
    ensures Shown(scope, visible, lost, false, Restrict(l, ColumnNames(scope)))
  {
    var mid := Restrict(l, ColumnNames(scope));
    forall x | x in visible
      ensures IsTrue(mid, x) <==> x !in lost
    {
      assert IsTrue(l, x) <==> x !in Gone(lost, unprojected);
    }
  }

  lemma LetShows(names: set<string>, scope: seq<Expression>, visible: set<string>, lost: set<string>, unprojected: bool,
                 bs: seq<(string, Expression)>, l: Row) returns (out: Row)
    requires Shown(scope, visible, lost, unprojected, l) && StatementBound(Let(bs), visible, names)
    ensures RunProjection(TruthEngine(), IntoProjection(scope + LetItems(bs), names), [l]) == [out]
    ensures Shown(scope + LetScope(bs), NamesAfter(Let(bs), visible), LostAfter(Let(bs), lost, unprojected), false, out)
  {
    var cols, gone := LetColumns(bs), Gone(lost, unprojected);
    var before, added := Restrict(l, ColumnNames(scope)), DirectRow(TruthEngine(), Found(names), cols, [l]);
    out := before + added;
    LetProjects(names, scope, bs, l);
    ShownRow(Found(names), cols, visible, gone, l);
    ScopeShows(scope, visible, lost, unprojected, l);
    LostAreOutput(cols, gone);
    JoinShows(before, added, visible, lost, OutputNames(cols), LostColumns(cols, gone));
    ColumnNamesConcat(scope, LetScope(bs));
    LetScopeNames(bs);
  }

  lemma LetProjects(names: set<string>, scope: seq<Expression>, bs: seq<(string, Expression)>, l: Row)
    requires IsScope(scope) && ColumnNames(scope) <= l.Keys && forall b | b in bs :: !HasAggregate(b.1, names)
    ensures RunProjection(TruthEngine(), IntoProjection(scope + LetItems(bs), names), [l])
            == [Restrict(l, ColumnNames(scope)) + DirectRow(TruthEngine(), Found(names), LetColumns(bs), [l])]
  {
    TruthIsLawful();
    LetHasNoAggregates(scope, bs, names);
    ColumnsConcat(TruthEngine(), scope, LetItems(bs), l);
    ColumnsOfScope(TruthEngine(), scope, l);
    LetBindings(TruthEngine(), bs, l);
    BindingsRow(TruthEngine(), names, bs, l);
  }

  lemma JoinShows(a: Row, b: Row, visible: set<string>, lost: set<string>, added: set<string>, lostAdded: set<string>)
    requires Shows(a, visible, lost) && Shows(b, added, lostAdded) && b.Keys == added && lostAdded <= added
    ensures Shows(a + b, visible + added, lost - added + lostAdded)
  {
    forall x | x in visible + added
      ensures IsTrue(a + b, x) <==> x !in lost - added + lostAdded
    {
      assert IsTrue(a + b, x) == if x in added then IsTrue(b, x) else IsTrue(a, x);
    }
  }

  lemma {:induction false} LostAreOutput(cols: seq<Column>, lost: set<string>)
    ensures LostColumns(cols, lost) <= OutputNames(cols)
    decreases |cols|
  {
    if cols != [] {
      ColumnVarsInit(cols);
      LostAreOutput(cols[..|cols| - 1], lost);
    }
  }

  lemma YieldShows(names: set<string>, scope: seq<Expression>, visible: set<string>, lost: set<string>, unprojected: bool,
                   items: seq<(Expression, Option<string>)>, l: Row) returns (out: Row)
    requires Shown(scope, visible, lost, unprojected, l) && StatementBound(Yield(items), visible, names)
    requires YieldItems(items, scope).Ok?
    ensures var es := YieldItems(items, scope).value;
            && RunProjection(TruthEngine(), IntoProjection(es, names), [l]) == [out]
            && Shown(ToAliasIdents(es), NamesAfter(Yield(items), visible), LostAfter(Yield(items), lost, unprojected), false, out)
  {
    TruthIsLawful();
    var es, cols := YieldItems(items, scope).value, YieldColumns(items);
    YieldItemsMean(items, scope);
    ImplicitGrouping(TruthEngine(), names, es, [l]);
    ProjectOne(TruthEngine(), Found(names), cols, None, l);
    ShownRow(Found(names), cols, visible, Gone(lost, unprojected), l);
    AliasIdentNames(es);
    ReturnColumnNames(es);
    out := DirectRow(TruthEngine(), Found(names), cols, [l]);
  }

  lemma RestrictTwice(r: Row, vars: set<string>)
    ensures Restrict(Restrict(r, vars), vars) == Restrict(r, vars)
  {
  }

  lemma ProjectScope(names: set<string>, scope: seq<Expression>, l: Row)
    requires IsScope(scope) && ColumnNames(scope) <= l.Keys
    ensures RunProjection(TruthEngine(), IntoProjection(scope, names), [l]) == [Restrict(l, ColumnNames(scope))]
    ensures RunProjection(TruthEngine(), IntoProjection(scope, names), []) == []
  {
    TruthIsLawful();
    ScopeHasNoAggregates(scope, names);
    ColumnsOfScope(TruthEngine(), scope, l);
  }

  lemma FilterShows(names: set<string>, matches: seq<MatchClause>, wheres: seq<Expression>, scope: seq<Expression>,
                    visible: set<string>, lost: set<string>, unprojected: bool, c: Expression, rows: seq<Row>, l: Row)
    requires Matched(TruthEngine(), matches, wheres, rows) == [l] && Shown(scope, visible, lost, unprojected, l)
    requires FreeVars(c) <= visible && (unprojected && matches == [] && wheres == [] ==> lost == {})
    ensures RunParts(TruthEngine(), LowerStatement(matches, wheres, Filter(c), scope, names).value.parts, rows)
            == if FreeVars(c) !! lost then [Restrict(l, ColumnNames(scope))] else []
  {
    var eng, p, mid := TruthEngine(), IntoProjection(scope, names), Restrict(l, ColumnNames(scope));
    if matches == [] && wheres == [] {
      KeepNothing(eng, rows);
      FilterOne(names, scope, visible, lost, c, l);
    } else {
      ProjectScope(names, scope, l);
      ScopeShows(scope, visible, lost, unprojected, l);
      RunPartsConcat(eng, [QueryPart(matches, wheres, p)], [QueryPart([], [c], p)], rows);
      RunSingle(eng, QueryPart(matches, wheres, p), rows);
      FilterOne(names, scope, visible, lost, c, mid);
      RestrictTwice(l, ColumnNames(scope));
    }
  }

  lemma FilterOne(names: set<string>, scope: seq<Expression>, visible: set<string>, lost: set<string>, c: Expression, r: Row)
    requires IsScope(scope) && ColumnNames(scope) <= r.Keys && Shows(r, visible, lost) && FreeVars(c) <= visible
    ensures RunParts(TruthEngine(), [QueryPart([], [c], IntoProjection(scope, names))], [r])
            == if FreeVars(c) !! lost then [Restrict(r, ColumnNames(scope))] else []
  {
    RunPlain(TruthEngine(), [c], IntoProjection(scope, names), [r]);
    assert ExprVars([c]) == FreeVars(c);
    KeepTrue([c], r);
    assert AllTrue(FreeVars(c), r) <==> FreeVars(c) !! lost;
    ProjectScope(names, scope, r);
  }

  lemma StatementShows(names: set<string>, matches: seq<MatchClause>, wheres: seq<Expression>, st: Statement,
                       scope: seq<Expression>, visible: set<string>, lost: set<string>, unprojected: bool,
                       rows: seq<Row>, l: Row) returns (out: Row)
    requires Matched(TruthEngine(), matches, wheres, rows) == [l] && Shown(scope, visible, lost, unprojected, l)
    requires unprojected && matches == [] && wheres == [] ==> lost == {}
    requires StatementBound(st, visible, names) && LowerStatement(matches, wheres, st, scope, names).Ok?
    ensures var head := LowerStatement(matches, wheres, st, scope, names).value;
            && RunParts(TruthEngine(), head.parts, rows) == (if ReadsLostName(st, lost) then [] else [out])
            && Shown(head.scope, NamesAfter(st, visible), LostAfter(st, lost, unprojected), false, out)
  {
    match st
    case Let(bs) => out := LetShows(names, scope, visible, lost, unprojected, bs, l);
    case Yield(items) => out := YieldShows(names, scope, visible, lost, unprojected, items, l);
    case Filter(c) =>
      FilterShows(names, matches, wheres, scope, visible, lost, unprojected, c, rows, l);
      ScopeShows(scope, visible, lost, unprojected, l);
      out := Restrict(l, ColumnNames(scope));
  }

  lemma {:induction false} ExtendNothing(eng: Engine, cs: seq<MatchClause>)
    ensures Extend(eng, cs, []) == []
    decreases |cs|
  {
    if cs != [] { ExtendNothing(eng, cs[..|cs| - 1]); }
  }

  /** No rows in, no rows out. */
  lemma {:induction false} RunNothing(eng: Engine, parts: seq<QueryPart>)
    ensures RunParts(eng, parts, []) == []
    decreases |parts|
  {
    if parts != [] {
      ExtendNothing(eng, parts[0].matches);
      assert RunPart(eng, parts[0], []) == [];
      RunNothing(eng, parts[1..]);
    }
  }

  lemma {:induction false} StatementsShow(names: set<string>, matches: seq<MatchClause>, wheres: seq<Expression>, sts: seq<Statement>,
                                          scope: seq<Expression>, visible: set<string>, lost: set<string>, unprojected: bool,
                                          rows: seq<Row>, l: Row) returns (out: Row)
    requires Matched(TruthEngine(), matches, wheres, rows) == [l] && Shown(scope, visible, lost, unprojected, l)
    requires unprojected && matches == [] && wheres == [] ==> lost == {}
    requires sts != [] && StatementsBound(sts, visible, names) && LowerStatements(matches, wheres, sts, scope, names).Ok?
    ensures var lowered := LowerStatements(matches, wheres, sts, scope, names).value;
            RunParts(TruthEngine(), lowered.parts, rows) == if FilterReadsLost(sts, lost, unprojected) then [] else [out]
    ensures Shows(out, NamesAfterAll(sts, visible), LostAfterAll(sts, lost, unprojected))
    decreases |sts|
  {
    var eng := TruthEngine();
    out := StatementShows(names, matches, wheres, sts[0], scope, visible, lost, unprojected, rows, l);
    var head := LowerStatement(matches, wheres, sts[0], scope, names).value;
    var nextVisible, nextLost := NamesAfter(sts[0], visible), LostAfter(sts[0], lost, unprojected);
    if |sts| == 1 {
      assert sts[1..] == [];
      assert head.parts + [] == head.parts;
    } else {
      var rest := LowerStatements([], [], sts[1..], head.scope, names).value.parts;
      KeepNothing(eng, [out]);
      RunPartsConcat(eng, head.parts, rest, rows);
      RunNothing(eng, rest);
      out := StatementsShow(names, [], [], sts[1..], head.scope, nextVisible, nextLost, false, [out], out);
    }
  }

  /** In the direct meaning all visible names stay true. */
  lemma {:induction false} DirectStaysTrue(names: set<string>, sts: seq<Statement>, visible: set<string>)
    requires StatementsBound(sts, visible, names)
    ensures DirectStatements(TruthEngine(), Found(names), sts, [TrueRow(visible)]) == [TrueRow(NamesAfterAll(sts, visible))]
    decreases |sts|
  {
    if sts != [] {
      DirectStepTrue(names, sts[0], visible);
      DirectStaysTrue(names, sts[1..], NamesAfter(sts[0], visible));
    }
  }

  lemma DirectStepTrue(names: set<string>, st: Statement, visible: set<string>)
    requires StatementBound(st, visible, names)
    ensures DirectStatement(TruthEngine(), Found(names), st, [TrueRow(visible)]) == [TrueRow(NamesAfter(st, visible))]
  {
    var r := TrueRow(visible);
    match st
    case Let(bs) =>
      BindingsRow(TruthEngine(), names, bs, r);
      TrueColumns(Found(names), LetColumns(bs), visible);
      TrueRowJoin(visible, OutputNames(LetColumns(bs)));
      assert visible + OutputNames(LetColumns(bs)) == OutputNames(LetColumns(bs)) + visible;
    case Yield(items) =>
      ProjectOne(TruthEngine(), Found(names), YieldColumns(items), None, r);
      TrueColumns(Found(names), YieldColumns(items), visible);
    case Filter(c) =>
      assert ExprVars([c]) == FreeVars(c);
      KeepTrue([c], r);
  }

  lemma {:induction false} LostIsShown(items: seq<Expression>, lost: set<string>, i: nat)
    requires DistinctNames(items) && i < |items| && !(FreeVars(ReturnColumn(items[i]).expr) !! lost)
    ensures ColumnName(items[i]) in LostColumns(ReturnColumns(items), lost)
    decreases |items|
  {
    var cols, last := ReturnColumns(items), items[|items| - 1];
    ReturnColumnsInit(items);
    ReturnColumnFacts(last, {});
    if i < |items| - 1 {
      LostIsShown(items[..|items| - 1], lost, i);
      assert ColumnName(items[i]) in LostColumns(cols[..|cols| - 1], lost) && ColumnName(items[i]) != cols[|cols| - 1].name;
    }
  }

  /** What a segment gives on the one row of the engine: its meaning is one row with all columns true; its parts give no
      row if a FILTER reads a lost name, and otherwise one row in which the columns that read a lost name are not true. */
  lemma SegmentShows(names: set<string>, matches: seq<MatchClause>, wheres: seq<Expression>, seg: Segment) returns (out: Row)
    requires ExprVars(wheres) <= PatternsVars(matches) && LowerSegment(matches, wheres, seg, StartingScope(matches), names).Ok?
    requires seg.statements != [] && SegmentBound(seg, PatternsVars(matches), names)
    requires GroupingKept(seg, HiddenVars(matches), names)
    ensures var cols := ReturnColumns(seg.returned);
            && DirectSegment(TruthEngine(), Found(names), seg, Matched(TruthEngine(), matches, wheres, [map[]])) == [TrueRow(OutputNames(cols))]
            && RunParts(TruthEngine(), LowerSegment(matches, wheres, seg, StartingScope(matches), names).value, [map[]])
               == (if FilterReadsLost(seg.statements, HiddenVars(matches), true) then [] else [out])
            && Shows(out, OutputNames(cols), LostColumns(cols, FinalLost(seg, HiddenVars(matches))))
  {
    var eng, visible, lost := TruthEngine(), PatternsVars(matches), HiddenVars(matches);
    var scope, sts, cols := StartingScope(matches), seg.statements, ReturnColumns(seg.returned);
    TruthMatched(matches, wheres);
    StartIsShown(matches);
    var l := StatementsShow(names, matches, wheres, sts, scope, visible, lost, true, [map[]], TrueRow(visible));
    var lowered, final := LowerStatements(matches, wheres, sts, scope, names).value, LowerReturn([], [], seg, names).value;
    RunPartsConcat(eng, lowered.parts, final, [map[]]);
    RunNothing(eng, final);
    out := ReturnShows(names, seg, NamesAfterAll(sts, visible), FinalLost(seg, lost), l);
    DirectStaysTrue(names, sts, visible);
    ProjectOne(eng, Found(names), cols, ResolvedGroupBy(seg), TrueRow(NamesAfterAll(sts, visible)));
    TrueColumns(Found(names), cols, NamesAfterAll(sts, visible));
  }

  lemma StartIsShown(matches: seq<MatchClause>)
    ensures Shown(StartingScope(matches), PatternsVars(matches), HiddenVars(matches), true, TrueRow(PatternsVars(matches)))
    ensures matches == [] ==> HiddenVars(matches) == {}
  {
    StartingScopeIsNodes(matches);
    NodeVarsBound(matches);
  }

  lemma ReturnShows(names: set<string>, seg: Segment, visible: set<string>, lost: set<string>, l: Row) returns (out: Row)
    requires LowerReturn([], [], seg, names).Ok? && ReturnScoped(seg, names) && Shows(l, visible, lost)
    requires ReturnVars(seg) <= visible && (seg.groupBy.Some? ==> ExprVars(Keys(seg.returned, names)) !! lost)
    ensures RunParts(TruthEngine(), LowerReturn([], [], seg, names).value, [l]) == [out]
    ensures Shows(out, OutputNames(ReturnColumns(seg.returned)), LostColumns(ReturnColumns(seg.returned), lost))
  {
    TruthIsLawful();
    var eng, cols := TruthEngine(), ReturnColumns(seg.returned);
    KeepNothing(eng, [l]);
    ReturnedVars(seg.returned);
    KeyVars(seg.returned, names);
    if seg.groupBy.Some? {
      assert forall x | x in ExprVars(Keys(seg.returned, names)) :: IsTrue(l, x);
    }
    ReturnPreservesMeaning(eng, names, [], [], seg, [l]);
    ProjectOne(eng, Found(names), cols, ResolvedGroupBy(seg), l);
    ShownRow(Found(names), cols, visible, lost, l);
    out := DirectRow(eng, Found(names), cols, [l]);
  }

  /** So a segment that reads a lost name does not mean what it says. */
  lemma LostReadShows(names: set<string>, matches: seq<MatchClause>, wheres: seq<Expression>, seg: Segment)
    requires ExprVars(wheres) <= PatternsVars(matches) && LowerSegment(matches, wheres, seg, StartingScope(matches), names).Ok?
    requires SegmentBound(seg, PatternsVars(matches), names) && GroupingKept(seg, HiddenVars(matches), names)
    requires ReadsLost(seg, HiddenVars(matches))
    ensures RunParts(TruthEngine(), LowerSegment(matches, wheres, seg, StartingScope(matches), names).value, [map[]])
            != DirectSegment(TruthEngine(), Found(names), seg, Matched(TruthEngine(), matches, wheres, [map[]]))
  {
    var out := SegmentShows(names, matches, wheres, seg);
    if !FilterReadsLost(seg.statements, HiddenVars(matches), true) {
      var x := LostColumn(names, seg, HiddenVars(matches));
      assert !IsTrue(out, x) && IsTrue(TrueRow(OutputNames(ReturnColumns(seg.returned))), x);
    }
  }

  lemma LostColumn(names: set<string>, seg: Segment, hidden: set<string>) returns (x: string)
    requires DistinctNames(seg.returned) && GroupingKept(seg, hidden, names) && !(ReturnVars(seg) !! FinalLost(seg, hidden))
    ensures x in OutputNames(ReturnColumns(seg.returned)) && x in LostColumns(ReturnColumns(seg.returned), FinalLost(seg, hidden))
  {
    var cols, lost := ReturnColumns(seg.returned), FinalLost(seg, hidden);
    var v :| v in ReturnVars(seg) && v in lost;
    assert v in ColumnVars(cols);
    var i :| 0 <= i < |cols| && v in FreeVars(cols[i].expr);
    x := ColumnName(seg.returned[i]);
    LostIsShown(seg.returned, lost, i);
    LostAreOutput(cols, lost);
  }

  // ---------------------------------------------------------------- exactly when

  lemma QueryOfOne(q: SurfaceQuery, names: set<string>, eng: LawfulEngine)
    requires q.next == [] && LowerQuery(q, names).Ok? && WheresBound(q.groups) && LawfulMatch(eng)
    ensures var matches, wheres := AllMatches(q.groups), AllWheres(q.groups);
            && LowerQuery(q, names) == LowerSegment(matches, wheres, q.first, StartingScope(matches), names)
            && DirectQuery(eng, Found(names), q) == DirectSegment(eng, Found(names), q.first, Matched(eng, matches, wheres, [map[]]))
            && ExprVars(wheres) <= PatternsVars(matches)
  {
    FlatteningPreservesMeaning(eng, q.groups);
    AllWheresBound(q.groups);
    assert [q.first] + q.next == [q.first] && [q.first][1..] == [];
    assert DirectSegments(eng, Found(names), [], DirectSegment(eng, Found(names), q.first, DirectMatch(eng, q.groups)))
           == DirectSegment(eng, Found(names), q.first, DirectMatch(eng, q.groups));
  }

  /** Take an accepted query without NEXT in which every clause reads bound names, RETURN columns have distinct names, and
      nothing is grouped by a lost name. It keeps its meaning for every engine if and only if no FILTER and no RETURN
      reads a lost name: a relationship variable after a first LET or FILTER, or what was computed from one. */
  lemma LostVariablesExact(q: SurfaceQuery, names: set<string>)
    requires q.next == [] && LowerQuery(q, names).Ok? && WheresBound(q.groups)
    requires SegmentBound(q.first, PatternsVars(AllMatches(q.groups)), names)
    requires GroupingKept(q.first, HiddenVars(AllMatches(q.groups)), names)
    ensures !ReadsLost(q.first, HiddenVars(AllMatches(q.groups))) <==>
            forall eng: LawfulEngine | LawfulMatch(eng) ::
              RunParts(eng, LowerQuery(q, names).value, [map[]]) == DirectQuery(eng, Found(names), q)
  {
    if ReadsLost(q.first, HiddenVars(AllMatches(q.groups))) {
      LostQueryShows(q, names);
      TruthIsLawful();
      var eng: LawfulEngine := TruthEngine();
      assert RunParts(eng, LowerQuery(q, names).value, [map[]]) != DirectQuery(eng, Found(names), q);
    } else {
      KeptQueryIsScoped(q, names);
      forall eng: LawfulEngine | LawfulMatch(eng)
        ensures RunParts(eng, LowerQuery(q, names).value, [map[]]) == DirectQuery(eng, Found(names), q)
      {
        LoweringPreservesMeaning(eng, names, q);
      }
    }
  }

  lemma LostQueryShows(q: SurfaceQuery, names: set<string>)
    requires q.next == [] && LowerQuery(q, names).Ok? && WheresBound(q.groups)
    requires SegmentBound(q.first, PatternsVars(AllMatches(q.groups)), names)
    requires GroupingKept(q.first, HiddenVars(AllMatches(q.groups)), names)
    requires ReadsLost(q.first, HiddenVars(AllMatches(q.groups)))
    ensures RunParts(TruthEngine(), LowerQuery(q, names).value, [map[]]) != DirectQuery(TruthEngine(), Found(names), q)
  {
    TruthIsLawful();
    QueryOfOne(q, names, TruthEngine());
    LostReadShows(names, AllMatches(q.groups), AllWheres(q.groups), q.first);
  }

  lemma KeptQueryIsScoped(q: SurfaceQuery, names: set<string>)
    requires q.next == [] && WheresBound(q.groups)
    requires SegmentBound(q.first, PatternsVars(AllMatches(q.groups)), names)
    requires GroupingKept(q.first, HiddenVars(AllMatches(q.groups)), names)
    requires !ReadsLost(q.first, HiddenVars(AllMatches(q.groups)))
    ensures QueryScoped(q, names)
  {
    var matches := AllMatches(q.groups);
    ScopedWithoutLoss(q.first.statements, PatternsVars(matches), HiddenVars(matches), names, true, Pending(q));
  }

  // ---------------------------------------------------------------- queries that lose a relationship

  /** (from)-[via]->(to) */
  function Edge(from: string, via: string, to: string): MatchClause {
    MatchClause(NodeMatch(Some(from), [], []),
                [(RelationMatch(Right, Some(via), None, [], []), NodeMatch(Some(to), [], []))], false)
  }

  lemma NamesOfOne(x: string)
    ensures NamesOf([Some(x)]) == {x}
  {
    assert Some(x) in [Some(x)];
  }

  lemma EdgeVars(from: string, via: string, to: string)
    ensures NodeVars([Edge(from, via, to)]) == {from, to}
    ensures PatternsVars([Edge(from, via, to)]) == {from, via, to}
  {
    var m := Edge(from, via, to);
    NamesOfOne(from);
    NamesOfOne(via);
    NamesOfOne(to);
    assert NodeNames(m) == [Some(from)] + [Some(to)];
    NamesOfSnoc([Some(from)], Some(to));
    assert seq(|m.path|, i requires 0 <= i < |m.path| => m.path[i].0.name) == [Some(via)];
    assert seq(|m.path|, i requires 0 <= i < |m.path| => m.path[i].1.name) == [Some(to)];
    assert PatternVars(m) == {from, via, to};
    assert m in [m];
  }

  /** MATCH m st RETURN v */
  function StatementQuery(m: MatchClause, st: Statement, v: string): SurfaceQuery {
    SurfaceQuery([([m], [])], Segment([st], [Identifier(v)], None), [])
  }

  lemma OneMatch(m: MatchClause, st: Statement, v: string)
    ensures var q := StatementQuery(m, st, v);
            AllMatches(q.groups) == [m] && AllWheres(q.groups) == [] && WheresBound(q.groups)
  {
    var q := StatementQuery(m, st, v);
    assert q.groups[..0] == [] && AllMatches([]) == [] && AllWheres([]) == [];
    assert ExprVars(q.groups[0].1) == {};
  }

  lemma OneStatementLowered(m: MatchClause, st: Statement, v: string, names: set<string>)
    requires !st.Yield?
    ensures LowerQuery(StatementQuery(m, st, v), names).Ok?
  {
    OneMatch(m, st, v);
    assert [st][1..] == [];
    assert LowerStatements([], [], [], LowerStatement([m], [], st, StartingScope([m]), names).value.scope, names).Ok?;
    assert LowerStatements([m], [], [st], StartingScope([m]), names).Ok?;
  }

  lemma OneStatementBound(m: MatchClause, st: Statement, v: string, names: set<string>)
    requires StatementBound(st, PatternsVars([m]), names) && v in NamesAfter(st, PatternsVars([m])) && !st.Yield?
    ensures SegmentBound(StatementQuery(m, st, v).first, PatternsVars([m]), names)
    ensures GroupingKept(StatementQuery(m, st, v).first, HiddenVars([m]), names)
    ensures ReturnVars(StatementQuery(m, st, v).first) == {v}
    ensures FinalLost(StatementQuery(m, st, v).first, HiddenVars([m])) == LostAfter(st, HiddenVars([m]), true)
  {
    var seg := StatementQuery(m, st, v).first;
    assert [st][1..] == [] && LostAfterAll([], LostAfter(st, HiddenVars([m]), true), false) == LostAfter(st, HiddenVars([m]), true);
    assert NamesAfterAll([], NamesAfter(st, PatternsVars([m]))) == NamesAfter(st, PatternsVars([m]));
    ReturnedVars(seg.returned);
    assert ExprVars(seg.returned) == FreeVars(Identifier(v)) == {v};
    DistinctNotShadowed(seg.returned, names);
  }

  /** One statement after MATCH is enough to lose what it reads or what it leaves behind. */
  lemma OneStatementLoses(m: MatchClause, st: Statement, v: string, names: set<string>)
    requires StatementBound(st, PatternsVars([m]), names) && v in NamesAfter(st, PatternsVars([m])) && !st.Yield?
    requires ReadsLostName(st, HiddenVars([m])) || v in LostAfter(st, HiddenVars([m]), true)
    ensures LowerQuery(StatementQuery(m, st, v), names).Ok?
    ensures RunParts(TruthEngine(), LowerQuery(StatementQuery(m, st, v), names).value, [map[]])
            != DirectQuery(TruthEngine(), Found(names), StatementQuery(m, st, v))
  {
    OneMatch(m, st, v);
    OneStatementLowered(m, st, v, names);
    OneStatementBound(m, st, v, names);
    LostQueryShows(StatementQuery(m, st, v), names);
  }

  /** MATCH m LET x = e RETURN v loses every relationship variable v but x. */
  lemma LetLosesRelationship(m: MatchClause, x: string, e: Expression, v: string, names: set<string>)
    requires v in HiddenVars([m]) && v != x && FreeVars(e) <= PatternsVars([m]) && !HasAggregate(e, names)
    ensures var q := StatementQuery(m, Let([(x, e)]), v);
            LowerQuery(q, names).Ok? && RunParts(TruthEngine(), LowerQuery(q, names).value, [map[]]) != DirectQuery(TruthEngine(), Found(names), q)
  {
    var cols := LetColumns([(x, e)]);
    assert cols == [Column(x, e)] && cols[..0] == [];
    assert OutputNames(cols) == {x} && ColumnVars(cols) == FreeVars(e);
    OneStatementLoses(m, Let([(x, e)]), v, names);
  }

  /** MATCH m FILTER c RETURN v loses every relationship variable v, whatever the condition. */
  lemma FilterLosesRelationship(m: MatchClause, c: Expression, v: string, names: set<string>)
    requires v in HiddenVars([m]) && FreeVars(c) <= PatternsVars([m])
    ensures var q := StatementQuery(m, Filter(c), v);
            LowerQuery(q, names).Ok? && RunParts(TruthEngine(), LowerQuery(q, names).value, [map[]]) != DirectQuery(TruthEngine(), Found(names), q)
  {
    OneStatementLoses(m, Filter(c), v, names);
  }

  /** MATCH (a)-[r]->(b) LET x = a.x RETURN r, and the same with FILTER a.x. */
  lemma RelationshipIsLost()
    ensures var m, e := Edge("a", "r", "b"), ExpressionProperty(Identifier("a"), "x");
            forall st | st in {Let([("x", e)]), Filter(e)} ::
              && LowerQuery(StatementQuery(m, st, "r"), {}).Ok?
              && RunParts(TruthEngine(), LowerQuery(StatementQuery(m, st, "r"), {}).value, [map[]])
                 != DirectQuery(TruthEngine(), Found({}), StatementQuery(m, st, "r"))
  {
    var m, e := Edge("a", "r", "b"), ExpressionProperty(Identifier("a"), "x");
    EdgeVars("a", "r", "b");
    PropertyReads("a", "x");
    LetLosesRelationship(m, "x", e, "r", {});
    FilterLosesRelationship(m, e, "r", {});
  }

  lemma PropertyReads(x: string, key: string)
    ensures FreeVars(ExpressionProperty(Identifier(x), key)) == {x}
    ensures !HasAggregate(ExpressionProperty(Identifier(x), key), {})
  {
    PropertyIsPlain(x, key);
    assert Children(ExpressionProperty(Identifier(x), key)) == [];
  }

  /** MATCH (a)-[r]->(b) FILTER r.since RETURN a: the query should return a row and returns none. */
  lemma FilterOnRelationshipLosesRows() returns (eng: LawfulEngine)
    ensures LawfulMatch(eng)
    ensures var q := StatementQuery(Edge("a", "r", "b"), Filter(ExpressionProperty(Identifier("r"), "since")), "a");
            && LowerQuery(q, {}).Ok?
            && RunParts(eng, LowerQuery(q, {}).value, [map[]]) == [] && |DirectQuery(eng, Found({}), q)| == 1
  {
    EdgeVars("a", "r", "b");
    PropertyReads("r", "since");
    TruthIsLawful();
    eng := TruthEngine();
    FilterDropsAll(Edge("a", "r", "b"), ExpressionProperty(Identifier("r"), "since"), "a", {});
  }

  lemma FilterDropsAll(m: MatchClause, c: Expression, v: string, names: set<string>)
    requires FreeVars(c) <= PatternsVars([m]) && v in PatternsVars([m]) && !(FreeVars(c) !! HiddenVars([m]))
    ensures var q := StatementQuery(m, Filter(c), v);
            && LowerQuery(q, names).Ok?
            && RunParts(TruthEngine(), LowerQuery(q, names).value, [map[]]) == [] && |DirectQuery(TruthEngine(), Found(names), q)| == 1
  {
    var q := StatementQuery(m, Filter(c), v);
    OneMatch(m, Filter(c), v);
    OneStatementLowered(m, Filter(c), v, names);
    OneStatementBound(m, Filter(c), v, names);
    TruthIsLawful();
    QueryOfOne(q, names, TruthEngine());
    var out := SegmentShows(names, [m], [], q.first);
  }

  /** A YIELD that only passes a relationship variable on is rejected, although MATCH has bound it. */
  lemma YieldOfRelationshipIsRejected(m: MatchClause, v: string, names: set<string>)
    requires v !in NodeVars([m])
    ensures LowerQuery(StatementQuery(m, Yield([(Identifier(v), None)]), v), names) == Err(IdentifierNotInScope(v))
  {
    var items := [(Identifier(v), None)];
    OneMatch(m, Yield(items), v);
    StartingScopeIsNodes([m]);
    assert Identifier(v) in StartingScope([m]) ==> ColumnName(Identifier(v)) in ColumnNames(StartingScope([m]));
    assert items[..0] == [] && YieldItems([], StartingScope([m])) == Ok([]);
    assert YieldItems(items, StartingScope([m])) == Err(IdentifierNotInScope(v));
  }
}
