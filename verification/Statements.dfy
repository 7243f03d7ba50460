/** Lowering LET, YIELD and FILTER keeps their meaning on the names the lowering tracks. */
module Statements {
  import opened Wrappers
  import opened Sequences
  import opened Ast
  import opened Aggregates
  import opened Lowering
  import opened Engine
  import opened Direct
  import opened Projections

  predicate IsScope(scope: seq<Expression>) {
    forall e | e in scope :: e.Identifier?
  }

  /** Every row binds every name in scope. */
  ghost predicate Binds(scope: seq<Expression>, rows: seq<Row>) {
    forall i | 0 <= i < |rows| :: ColumnNames(scope) <= rows[i].Keys
  }

  function LetColumns(bs: seq<(string, Expression)>): seq<Column> {
    seq(|bs|, i requires 0 <= i < |bs| => Column(bs[i].0, bs[i].1))
  }

  /** The lost names a statement cannot read. Until a part has projected the rows, a LET or YIELD still sees
      everything MATCH bound. */
  function Gone(lost: set<string>, unprojected: bool): set<string> {
    if unprojected then {} else lost
  }

  /** A statement reads only visible names; and what decides which rows there are, a FILTER or what a YIELD with
      aggregates groups by, reads no lost one. A FILTER behind a pending MATCH or WHERE gets a part of its own, and the
      part in front of it has projected the rows already. */
  predicate StatementScoped(st: Statement, visible: set<string>, lost: set<string>, names: set<string>,
                            unprojected: bool, pending: bool)
  {
    match st
    case Let(bs) =>
      && (forall b | b in bs :: !HasAggregate(b.1, names))
      && (unprojected || ColumnVars(LetColumns(bs)) <= visible)
    case Yield(items) =>
      && NoAggregateShadowed(YieldColumns(items), names)
      && (unprojected || ColumnVars(YieldColumns(items)) <= visible)
      && KeysKept(YieldColumns(items), Gone(lost, unprojected), names)
    case Filter(c) => (unprojected && !pending) || (FreeVars(c) <= visible && FreeVars(c) !! lost)
  }

  predicate KeysKept(cols: seq<Column>, lost: set<string>, names: set<string>) {
    SomeAggregate(cols, Found(names)) ==> ExprVars(PlainExprs(cols, Found(names))) !! lost
  }

  /** The names visible after a statement. */
  function NamesAfter(st: Statement, visible: set<string>): set<string> {
    match st
    case Let(bs) => visible + OutputNames(LetColumns(bs))
    case Yield(items) => OutputNames(YieldColumns(items))
    case Filter(_) => visible
  }

  function NamesAfterAll(sts: seq<Statement>, visible: set<string>): set<string>
    decreases |sts|
  {
    if sts == [] then visible else NamesAfterAll(sts[1..], NamesAfter(sts[0], visible))
  }

  /** The visible names for which the parts have no value, or one computed from a name that was lost. */
  function LostAfter(st: Statement, lost: set<string>, unprojected: bool): set<string> {
    match st
    case Let(bs) => lost - OutputNames(LetColumns(bs)) + LostColumns(LetColumns(bs), Gone(lost, unprojected))
    case Yield(items) => LostColumns(YieldColumns(items), Gone(lost, unprojected))
    case Filter(_) => lost
  }

  function LostAfterAll(sts: seq<Statement>, lost: set<string>, unprojected: bool): set<string>
    decreases |sts|
  {
    if sts == [] then lost else LostAfterAll(sts[1..], LostAfter(sts[0], lost, unprojected), false)
  }

  predicate WellScoped(sts: seq<Statement>, visible: set<string>, lost: set<string>, names: set<string>,
                       unprojected: bool, pending: bool)
    decreases |sts|
  {
    if sts == [] then true else
    && StatementScoped(sts[0], visible, lost, names, unprojected, pending)
    && WellScoped(sts[1..], NamesAfter(sts[0], visible), LostAfter(sts[0], lost, unprojected), names, false, false)
  }

  /** The scope of the lowering lies between what is visible and what of it is not lost. */
  predicate CoversKept(scope: seq<Expression>, visible: set<string>, lost: set<string>) {
    IsScope(scope) && visible - lost <= ColumnNames(scope) <= visible
  }

  /** How the rows of the parts and of the direct meaning correspond: they are the same rows until a part has projected
      them, and then agree on what is not lost. */
  ghost predicate Corresponds(scope: seq<Expression>, visible: set<string>, lost: set<string>, unprojected: bool,
                              low: seq<Row>, dir: seq<Row>)
  {
    && Binds(scope, low)
    && (forall i | 0 <= i < |dir| :: visible <= dir[i].Keys)
    && (if unprojected then low == dir else SameRows(visible - lost, low, dir))
  }

  // ---------------------------------------------------------------- what a projection outputs

  lemma {:induction false} KeysAndAggsNames(items: seq<Expression>, names: set<string>)
    ensures ColumnNames(Keys(items, names) + Aggs(items, names)) == ColumnNames(items)
  {
    var both := Keys(items, names) + Aggs(items, names);
    forall e: Expression
      ensures e in both <==> e in items
    {
      AggsMember(items, names, e);
    }
  }

  lemma ProjectionNames(items: seq<Expression>, names: set<string>)
    ensures ColumnNames(OutputItems(IntoProjection(items, names))) == ColumnNames(items)
  {
    KeysAndAggsNames(items, names);
    assert Keys(items, names) + [] == Keys(items, names);
  }

  lemma ColumnNamesConcat(a: seq<Expression>, b: seq<Expression>)
    ensures ColumnNames(a + b) == ColumnNames(a) + ColumnNames(b)
  {
    assert forall e :: e in a + b <==> e in a || e in b;
  }

  lemma ToAliasIdentsSnoc(es: seq<Expression>, e: Expression)
    ensures ToAliasIdents(es + [e]) == ToAliasIdents(es) + [ToAliasIdent(e)]
    ensures ReturnColumns(es + [e]) == ReturnColumns(es) + [ReturnColumn(e)]
  {
  }

  lemma AliasIdentNames(items: seq<Expression>)
    ensures ColumnNames(ToAliasIdents(items)) == ColumnNames(items)
  {
    var ids := ToAliasIdents(items);
    forall i | 0 <= i < |items|
      ensures ColumnName(ids[i]) == ColumnName(items[i]) && ids[i] in ids
    {
    }
  }

  /** A row that a part outputs has exactly the columns of its projection. */
  lemma ProjectionRowKeys(eng: Engine, p: Projection, rows: seq<Row>, i: nat)
    requires i < |RunProjection(eng, p, rows)|
    ensures RunProjection(eng, p, rows)[i].Keys == ColumnNames(OutputItems(p))
  {
    match p
    case Item(items) => ColumnKeys(eng, items, rows[i], []);
    case GroupBy(g, a) =>
      var gs := Groups(eng, g, rows);
      GroupsAreClasses(eng, g, rows);
      assert IsGroup(eng, g, rows, gs[i]);
      ColumnKeys(eng, g, gs[i][0], gs[i]);
      ColumnKeys(eng, a, gs[i][0], gs[i]);
      ColumnNamesConcat(g, a);
  }

  /** Unaliased items of one kind share a column, so only the last of them is shown. */
  lemma UnaliasedItemsCollide(eng: Engine, a: Expression, b: Expression, r: Row)
    ensures a.Binary? && b.Binary? ==> Columns(eng, [a, b], r) == map["expression" := eng.eval(b, r)]
    ensures (a.Unary? || a.Lit? || a.Variable? || a.ListRange?) && b.Binary? ==> Columns(eng, [a, b], r) == map["expression" := eng.eval(b, r)]
    ensures a.Case? && b.Case? ==> Columns(eng, [a, b], r) == map["case" := eng.eval(b, r)]
    ensures a.List? && b.List? ==> Columns(eng, [a, b], r) == map["list" := eng.eval(b, r)]
    ensures a.Object? && b.Object? ==> Columns(eng, [a, b], r) == map["object" := eng.eval(b, r)]
    ensures a.Iterator? && b.Iterator? ==> Columns(eng, [a, b], r) == map["iterator" := eng.eval(b, r)]
    ensures a.Function? && b.Function? && a.name == b.name ==> Columns(eng, [a, b], r) == map[a.name := eng.eval(b, r)]
    ensures (a.Property? || a.ExpressionProperty?) && (b.Property? || b.ExpressionProperty?) && a.key == b.key ==>
              Columns(eng, [a, b], r) == map[a.key := eng.eval(b, r)]
    ensures a.Parameter? && b.Identifier? && a.name == b.name ==> Columns(eng, [a, b], r) == map[a.name := eng.eval(b, r)]
  {
    assert [a, b][..1] == [a] && [a][..0] == [];
    assert Columns(eng, [a], r) == map[ColumnName(a) := eng.eval(a, r)];
    assert Columns(eng, [a, b], r) == map[ColumnName(a) := eng.eval(a, r)][ColumnName(b) := eng.eval(b, r)];
  }

  lemma {:induction false} NoAggregates(items: seq<Expression>, names: set<string>)
    requires forall e | e in items :: !HasAggregate(e, names)
    ensures Keys(items, names) == items && Aggs(items, names) == []
    ensures IntoProjection(items, names) == Item(items)
    decreases |items|
  {
    if items != [] {
      SplitLast(items);
      NoAggregates(items[..|items| - 1], names);
    }
  }

  lemma ScopeHasNoAggregates(scope: seq<Expression>, names: set<string>)
    requires IsScope(scope)
    ensures IntoProjection(scope, names) == Item(scope)
  {
    forall e | e in scope
      ensures !HasAggregate(e, names)
    {
      AliasAggregate(e, e.name, names);
    }
    NoAggregates(scope, names);
  }

  lemma RestrictMore(r: Row, vars: set<string>, x: string)
    requires x in r
    ensures Restrict(r, vars + {x}) == Restrict(r, vars)[x := r[x]]
  {
  }

  lemma {:induction false} ColumnsOfScope(eng: LawfulEngine, scope: seq<Expression>, r: Row)
    requires IsScope(scope) && ColumnNames(scope) <= r.Keys
    ensures Columns(eng, scope, r) == Restrict(r, ColumnNames(scope))
    decreases |scope|
  {
    if scope != [] {
      var init, last := scope[..|scope| - 1], scope[|scope| - 1];
      SplitLast(scope);
      ColumnNamesSnoc(init, last);
      ColumnsOfScope(eng, init, r);
      RestrictMore(r, ColumnNames(init), last.name);
      assert last == Identifier(last.name) && eng.eval(Identifier(last.name), r) == r[last.name];
    }
  }

  // ---------------------------------------------------------------- LET

  lemma LetItemsSnoc(bs: seq<(string, Expression)>)
    requires bs != []
    ensures LetItems(bs) == LetItems(bs[..|bs| - 1]) + [Alias(bs[|bs| - 1].1, bs[|bs| - 1].0)]
    ensures LetScope(bs) == LetScope(bs[..|bs| - 1]) + [Identifier(bs[|bs| - 1].0)]
  {
  }

  lemma {:induction false} LetBindings(eng: LawfulEngine, bs: seq<(string, Expression)>, r: Row)
    ensures Columns(eng, LetItems(bs), r) == Bindings(eng, bs, r)
    decreases |bs|
  {
    if bs != [] {
      var init := bs[..|bs| - 1];
      var (x, e) := bs[|bs| - 1];
      LetItemsSnoc(bs);
      LetBindings(eng, init, r);
      ColumnsSnoc(eng, LetItems(init), Alias(e, x), r, []);
    }
  }

  /** The bindings of a LET without aggregates are a row like any other. */
  lemma {:induction false} BindingsRow(eng: Engine, names: set<string>, bs: seq<(string, Expression)>, r: Row)
    requires forall b | b in bs :: !HasAggregate(b.1, names)
    ensures Bindings(eng, bs, r) == DirectRow(eng, Found(names), LetColumns(bs), [r])
    decreases |bs|
  {
    if bs != [] {
      var init := bs[..|bs| - 1];
      assert bs[|bs| - 1] in bs && forall b | b in init :: b in bs;
      BindingsRow(eng, names, init, r);
      assert LetColumns(bs)[..|bs| - 1] == LetColumns(init);
    }
  }

  lemma LetRow(eng: LawfulEngine, names: set<string>, scope: seq<Expression>, visible: set<string>, lost: set<string>,
               gone: set<string>, bs: seq<(string, Expression)>, l: Row, d: Row)
    requires CoversKept(scope, visible, lost) && ColumnNames(scope) <= l.Keys && visible <= d.Keys
    requires SameOn(visible - lost, l, d) && SameOn(ColumnVars(LetColumns(bs)) - gone, l, d)
    requires forall b | b in bs :: !HasAggregate(b.1, names)
    ensures var cols := LetColumns(bs);
            SameOn(visible + OutputNames(cols) - (lost - OutputNames(cols) + LostColumns(cols, gone)),
                   Columns(eng, scope + LetItems(bs), l), d + Bindings(eng, bs, d))
    ensures visible + OutputNames(LetColumns(bs)) <= (d + Bindings(eng, bs, d)).Keys
    ensures ColumnNames(scope + LetScope(bs)) <= Columns(eng, scope + LetItems(bs), l).Keys
  {
    var vars := ColumnVars(LetColumns(bs)) - gone;
    assert SameRows(vars, [l], [d]);
    ColumnsConcat(eng, scope, LetItems(bs), l);
    ColumnsOfScope(eng, scope, l);
    LetBindings(eng, bs, l);
    BindingsRow(eng, names, bs, l);
    BindingsRow(eng, names, bs, d);
    CleanRow(eng, Found(names), vars, gone, LetColumns(bs), [l], [d]);
    ColumnNamesConcat(scope, LetScope(bs));
    LetScopeNames(bs);
  }

  lemma LetHasNoAggregates(scope: seq<Expression>, bs: seq<(string, Expression)>, names: set<string>)
    requires IsScope(scope) && forall b | b in bs :: !HasAggregate(b.1, names)
    ensures IntoProjection(scope + LetItems(bs), names) == Item(scope + LetItems(bs))
  {
    var items := scope + LetItems(bs);
    forall e | e in items
      ensures !HasAggregate(e, names)
    {
      if e in scope {
        AliasAggregate(e, e.name, names);
      } else {
        var i :| 0 <= i < |bs| && LetItems(bs)[i] == e;
        assert bs[i] in bs;
        AliasAggregate(bs[i].1, bs[i].0, names);
      }
    }
    NoAggregates(items, names);
  }

  lemma LetSim(eng: LawfulEngine, names: set<string>, scope: seq<Expression>, visible: set<string>, lost: set<string>,
               unprojected: bool, bs: seq<(string, Expression)>, low: seq<Row>, dir: seq<Row>)
    requires CoversKept(scope, visible, lost) && Corresponds(scope, visible, lost, unprojected, low, dir)
    requires StatementScoped(Let(bs), visible, lost, names, unprojected, true)
    ensures Corresponds(scope + LetScope(bs), NamesAfter(Let(bs), visible), LostAfter(Let(bs), lost, unprojected), false,
                        RunProjection(eng, IntoProjection(scope + LetItems(bs), names), low),
                        DirectStatement(eng, Found(names), Let(bs), dir))
  {
    var items, gone := scope + LetItems(bs), Gone(lost, unprojected);
    LetHasNoAggregates(scope, bs, names);
    forall i | 0 <= i < |low|
      ensures SameOn(NamesAfter(Let(bs), visible) - LostAfter(Let(bs), lost, unprojected), Columns(eng, items, low[i]),
                     dir[i] + Bindings(eng, bs, dir[i]))
      ensures NamesAfter(Let(bs), visible) <= (dir[i] + Bindings(eng, bs, dir[i])).Keys
      ensures ColumnNames(scope + LetScope(bs)) <= Columns(eng, items, low[i]).Keys
    {
      LetRow(eng, names, scope, visible, lost, gone, bs, low[i], dir[i]);
    }
  }

  // ---------------------------------------------------------------- YIELD

  lemma {:induction false} YieldItemsMean(items: seq<(Expression, Option<string>)>, scope: seq<Expression>)
    requires YieldItems(items, scope).Ok?
    ensures |YieldItems(items, scope).value| == |items|
    ensures ReturnColumns(YieldItems(items, scope).value) == YieldColumns(items)
    ensures IsScope(ToAliasIdents(YieldItems(items, scope).value))
    decreases |items|
  {
    if items != [] {
      var init := items[..|items| - 1];
      YieldItemsMean(init, scope);
      ToAliasIdentsSnoc(YieldItems(init, scope).value, YieldItem(items[|items| - 1], scope).value);
    }
  }

  lemma YieldSim(eng: LawfulEngine, names: set<string>, scope: seq<Expression>, visible: set<string>, lost: set<string>,
                 unprojected: bool, items: seq<(Expression, Option<string>)>, low: seq<Row>, dir: seq<Row>)
    requires YieldItems(items, scope).Ok? && Corresponds(scope, visible, lost, unprojected, low, dir)
    requires StatementScoped(Yield(items), visible, lost, names, unprojected, true)
    ensures var es := YieldItems(items, scope).value;
            Corresponds(ToAliasIdents(es), NamesAfter(Yield(items), visible), LostAfter(Yield(items), lost, unprojected), false,
                        RunProjection(eng, IntoProjection(es, names), low), DirectStatement(eng, Found(names), Yield(items), dir))
  {
    var es, cols, gone := YieldItems(items, scope).value, YieldColumns(items), Gone(lost, unprojected);
    YieldItemsMean(items, scope);
    ImplicitGrouping(eng, names, es, low);
    Shrink(ColumnVars(cols) - gone, if unprojected then ColumnVars(cols) else visible - lost, low, dir);
    CleanProject(eng, Found(names), ColumnVars(cols) - gone, gone, cols, low, dir);
    var out := RunProjection(eng, IntoProjection(es, names), low);
    forall i | 0 <= i < |out|
      ensures ColumnNames(ToAliasIdents(es)) <= out[i].Keys
    {
      ProjectionRowKeys(eng, IntoProjection(es, names), low, i);
      ProjectionNames(es, names);
      AliasIdentNames(es);
    }
  }

  // ---------------------------------------------------------------- FILTER

  lemma KeepSame(eng: LawfulEngine, vars: set<string>, c: Expression, low: seq<Row>, dir: seq<Row>)
    requires SameRows(vars, low, dir) && FreeVars(c) <= vars
    ensures SameRows(vars, Keep(eng, [c], low), Keep(eng, [c], dir))
  {
    forall i | 0 <= i < |low|
      ensures Passes(eng, [c])(low[i]) == Passes(eng, [c])(dir[i])
    {
      EvalSame(eng, vars, c, low[i], dir[i]);
    }
    SelectSame(vars, low, dir, Passes(eng, [c]), Passes(eng, [c]));
  }

  lemma ScopeProjection(eng: LawfulEngine, names: set<string>, scope: seq<Expression>, kept: set<string>,
                        low: seq<Row>, dir: seq<Row>)
    requires IsScope(scope) && Binds(scope, low) && SameRows(kept, low, dir) && kept <= ColumnNames(scope)
    ensures SameRows(kept, RunProjection(eng, IntoProjection(scope, names), low), dir)
    ensures Binds(scope, RunProjection(eng, IntoProjection(scope, names), low))
  {
    ScopeHasNoAggregates(scope, names);
    forall i | 0 <= i < |low|
      ensures SameOn(kept, Columns(eng, scope, low[i]), dir[i]) && ColumnNames(scope) <= Columns(eng, scope, low[i]).Keys
    {
      ColumnsOfScope(eng, scope, low[i]);
    }
  }

  lemma KeepBinds(eng: Engine, c: Expression, scope: seq<Expression>, rows: seq<Row>)
    requires Binds(scope, rows)
    ensures Binds(scope, Keep(eng, [c], rows))
  {
    var kept := Keep(eng, [c], rows);
    forall i | 0 <= i < |kept|
      ensures ColumnNames(scope) <= kept[i].Keys
    {
      SelectMember(rows, Passes(eng, [c]), kept[i]);
    }
  }

  lemma Shrink(small: set<string>, vars: set<string>, low: seq<Row>, dir: seq<Row>)
    requires SameRows(vars, low, dir) && small <= vars
    ensures SameRows(small, low, dir)
  {
    forall i | 0 <= i < |low|
      ensures SameOn(small, low[i], dir[i])
    {
    }
  }

  lemma RunSingle(eng: Engine, part: QueryPart, rows: seq<Row>)
    ensures RunParts(eng, [part], rows) == RunPart(eng, part, rows)
  {
  }

  lemma RunPlain(eng: Engine, conditions: seq<Expression>, p: Projection, rows: seq<Row>)
    ensures RunParts(eng, [QueryPart([], conditions, p)], rows) == RunProjection(eng, p, Keep(eng, conditions, rows))
  {
  }

  /** The rows a part sees after its own MATCH and WHERE clauses. */
  function Matched(eng: Engine, matches: seq<MatchClause>, wheres: seq<Expression>, rows: seq<Row>): seq<Row> {
    Keep(eng, wheres, Extend(eng, matches, rows))
  }

  /** A FILTER with nothing pending is one part on the incoming rows. */
  lemma FilterSimPlain(eng: LawfulEngine, names: set<string>, scope: seq<Expression>, kept: set<string>, vars: set<string>,
                       c: Expression, rows: seq<Row>, dir: seq<Row>)
    requires IsScope(scope) && kept <= ColumnNames(scope) && kept <= vars && Binds(scope, rows)
    requires SameRows(vars, rows, dir) && FreeVars(c) <= vars
    ensures var out := RunProjection(eng, IntoProjection(scope, names), Keep(eng, [c], rows));
            SameRows(kept, out, Keep(eng, [c], dir)) && Binds(scope, out)
  {
    KeepBinds(eng, c, scope, rows);
    KeepSame(eng, vars, c, rows, dir);
    Shrink(kept, vars, Keep(eng, [c], rows), Keep(eng, [c], dir));
    ScopeProjection(eng, names, scope, kept, Keep(eng, [c], rows), Keep(eng, [c], dir));
  }

  /** With a MATCH or WHERE pending, the rows are projected to the scope first. */
  lemma FilterSimPending(eng: LawfulEngine, names: set<string>, matches: seq<MatchClause>, wheres: seq<Expression>,
                         scope: seq<Expression>, kept: set<string>, c: Expression, rows: seq<Row>, dir: seq<Row>)
    requires matches != [] || wheres != []
    requires IsScope(scope) && kept <= ColumnNames(scope) && Binds(scope, Matched(eng, matches, wheres, rows))
    requires SameRows(kept, Matched(eng, matches, wheres, rows), dir) && FreeVars(c) <= kept
    ensures var out := RunParts(eng, LowerStatement(matches, wheres, Filter(c), scope, names).value.parts, rows);
            SameRows(kept, out, Keep(eng, [c], dir)) && Binds(scope, out)
  {
    var low, p := Matched(eng, matches, wheres, rows), IntoProjection(scope, names);
    var mid := RunProjection(eng, p, low);
    ScopeProjection(eng, names, scope, kept, low, dir);
    RunPartsConcat(eng, [QueryPart(matches, wheres, p)], [QueryPart([], [c], p)], rows);
    RunSingle(eng, QueryPart(matches, wheres, p), rows);
    RunPlain(eng, [c], p, mid);
    FilterSimPlain(eng, names, scope, kept, kept, c, mid, dir);
  }

  lemma FilterSim(eng: LawfulEngine, names: set<string>, matches: seq<MatchClause>, wheres: seq<Expression>,
                  scope: seq<Expression>, visible: set<string>, lost: set<string>, unprojected: bool, c: Expression,
                  rows: seq<Row>, dir: seq<Row>)
    requires CoversKept(scope, visible, lost)
    requires Corresponds(scope, visible, lost, unprojected, Matched(eng, matches, wheres, rows), dir)
    requires StatementScoped(Filter(c), visible, lost, names, unprojected, matches != [] || wheres != [])
    ensures Corresponds(scope, visible, lost, false,
                        RunParts(eng, LowerStatement(matches, wheres, Filter(c), scope, names).value.parts, rows), Keep(eng, [c], dir))
  {
    var low, kept := Matched(eng, matches, wheres, rows), visible - lost;
    forall i | 0 <= i < |Keep(eng, [c], dir)|
      ensures visible <= Keep(eng, [c], dir)[i].Keys
    {
      SelectMember(dir, Passes(eng, [c]), Keep(eng, [c], dir)[i]);
    }
    assert SameRows(kept, low, dir);
    if matches == [] && wheres == [] {
      var vars := if unprojected then kept + FreeVars(c) else kept;
      KeepNothing(eng, rows);
      RunPlain(eng, [c], IntoProjection(scope, names), rows);
      assert SameRows(vars, rows, dir);
      FilterSimPlain(eng, names, scope, kept, vars, c, rows, dir);
    } else {
      FilterSimPending(eng, names, matches, wheres, scope, kept, c, rows, dir);
    }
  }

  // ---------------------------------------------------------------- sequences of statements

  /** One statement. */
  lemma StatementSim(eng: LawfulEngine, names: set<string>, matches: seq<MatchClause>, wheres: seq<Expression>,
                     st: Statement, scope: seq<Expression>, visible: set<string>, lost: set<string>, unprojected: bool,
                     rows: seq<Row>, dir: seq<Row>)
    requires CoversKept(scope, visible, lost)
    requires Corresponds(scope, visible, lost, unprojected, Matched(eng, matches, wheres, rows), dir)
    requires StatementScoped(st, visible, lost, names, unprojected, matches != [] || wheres != [])
    requires LowerStatement(matches, wheres, st, scope, names).Ok?
    ensures var head := LowerStatement(matches, wheres, st, scope, names).value;
            Corresponds(head.scope, NamesAfter(st, visible), LostAfter(st, lost, unprojected), false,
                        RunParts(eng, head.parts, rows), DirectStatement(eng, Found(names), st, dir))
  {
    var low := Matched(eng, matches, wheres, rows);
    match st
    case Let(bs) =>
      LetSim(eng, names, scope, visible, lost, unprojected, bs, low, dir);
      RunSingle(eng, QueryPart(matches, wheres, IntoProjection(scope + LetItems(bs), names)), rows);
    case Yield(items) =>
      YieldSim(eng, names, scope, visible, lost, unprojected, items, low, dir);
      RunSingle(eng, QueryPart(matches, wheres, IntoProjection(YieldItems(items, scope).value, names)), rows);
    case Filter(c) => FilterSim(eng, names, matches, wheres, scope, visible, lost, unprojected, c, rows, dir);
  }

  lemma ReturnColumnNames(items: seq<Expression>)
    ensures OutputNames(ReturnColumns(items)) == ColumnNames(items)
  {
    var cols := ReturnColumns(items);
    forall i | 0 <= i < |items|
      ensures cols[i].name == ColumnName(items[i]) && cols[i] in cols && items[i] in items
    {
    }
  }

  lemma LetScopeNames(bs: seq<(string, Expression)>)
    ensures ColumnNames(LetScope(bs)) == OutputNames(LetColumns(bs))
  {
    var scope, cols := LetScope(bs), LetColumns(bs);
    forall i | 0 <= i < |bs|
      ensures ColumnName(scope[i]) == cols[i].name && scope[i] in scope && cols[i] in cols
    {
    }
  }

  /** The scope the lowering carries on names what is visible after the statement. */
  lemma ScopeIsVisible(matches: seq<MatchClause>, wheres: seq<Expression>, st: Statement, scope: seq<Expression>,
                       names: set<string>)
    requires LowerStatement(matches, wheres, st, scope, names).Ok?
    ensures ColumnNames(LowerStatement(matches, wheres, st, scope, names).value.scope) == NamesAfter(st, ColumnNames(scope))
  {
    match st
    case Let(bs) =>
      ColumnNamesConcat(scope, LetScope(bs));
      LetScopeNames(bs);
    case Yield(items) =>
      var es := YieldItems(items, scope).value;
      YieldItemsMean(items, scope);
      AliasIdentNames(es);
      ReturnColumnNames(es);
    case Filter(_) =>
  }

  lemma ScopeKeepsTrack(matches: seq<MatchClause>, wheres: seq<Expression>, st: Statement, scope: seq<Expression>,
                        visible: set<string>, lost: set<string>, names: set<string>, unprojected: bool)
    requires LowerStatement(matches, wheres, st, scope, names).Ok? && CoversKept(scope, visible, lost)
    ensures CoversKept(LowerStatement(matches, wheres, st, scope, names).value.scope, NamesAfter(st, visible), LostAfter(st, lost, unprojected))
  {
    ScopeIsVisible(matches, wheres, st, scope, names);
    if st.Yield? { YieldItemsMean(st.items, scope); }
  }

  /** Lowering any accepted, well-scoped list of statements keeps its meaning: the rows the emitted parts leave behind
      agree with the direct semantics on every visible name that is not lost. */
  lemma {:induction false} StatementsPreserveMeaning(
    eng: LawfulEngine, names: set<string>, matches: seq<MatchClause>, wheres: seq<Expression>, sts: seq<Statement>,
    scope: seq<Expression>, visible: set<string>, lost: set<string>, unprojected: bool, rows: seq<Row>, dir: seq<Row>)
    requires CoversKept(scope, visible, lost) && sts != []
    requires Corresponds(scope, visible, lost, unprojected, Matched(eng, matches, wheres, rows), dir)
    requires WellScoped(sts, visible, lost, names, unprojected, matches != [] || wheres != [])
    requires LowerStatements(matches, wheres, sts, scope, names).Ok?
    ensures var lowered := LowerStatements(matches, wheres, sts, scope, names).value;
            Corresponds(lowered.scope, NamesAfterAll(sts, visible), LostAfterAll(sts, lost, unprojected), false,
                        RunParts(eng, lowered.parts, rows), DirectStatements(eng, Found(names), sts, dir))
    decreases |sts|
  {
    StatementSim(eng, names, matches, wheres, sts[0], scope, visible, lost, unprojected, rows, dir);
    ScopeKeepsTrack(matches, wheres, sts[0], scope, visible, lost, names, unprojected);
    var head := LowerStatement(matches, wheres, sts[0], scope, names).value;
    var mid, dirMid := RunParts(eng, head.parts, rows), DirectStatement(eng, Found(names), sts[0], dir);
    if |sts| == 1 {
      assert sts[1..] == [];
      assert head.parts + [] == head.parts;
    } else {
      KeepNothing(eng, mid);
      StatementsPreserveMeaning(eng, names, [], [], sts[1..], head.scope, NamesAfter(sts[0], visible),
                                LostAfter(sts[0], lost, unprojected), false, mid, dirMid);
      RunPartsConcat(eng, head.parts, LowerStatements([], [], sts[1..], head.scope, names).value.parts, rows);
    }
  }
}
