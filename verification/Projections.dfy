/** Projections mean what RETURN and YIELD mean: implicit grouping, and which part of a row matters. */
module Projections {
  import opened Wrappers
  import opened Sequences
  import opened Ast
  import opened Aggregates
  import opened Lowering
  import opened Engine
  import opened Direct

  /** The column whose value a row shows under a name: the last one. */
  function LastColumn(cols: seq<Column>, name: string): Option<Column> {
    if cols == [] then None
    else if cols[|cols| - 1].name == name then Some(cols[|cols| - 1])
    else LastColumn(cols[..|cols| - 1], name)
  }

  /** Where an aggregate has the name of a later plain column, a still later aggregate has it too. The engine stores
      aggregates after the keys, so otherwise the plain column would be lost. */
  predicate NoAggregateShadowed(cols: seq<Column>, names: set<string>) {
    forall c | c in cols && HasAggregate(c.expr, names) ::
      LastColumn(cols, c.name).Some? && HasAggregate(LastColumn(cols, c.name).value.expr, names)
  }

  /** The item whose value ends up under a column name. */
  function LastNamed(items: seq<Expression>, name: string): Option<Expression> {
    if items == [] then None
    else if ColumnName(items[|items| - 1]) == name then Some(items[|items| - 1])
    else LastNamed(items[..|items| - 1], name)
  }

  lemma ReturnColumnFacts(e: Expression, names: set<string>)
    ensures ReturnColumn(e).name == ColumnName(e)
    ensures HasAggregate(ReturnColumn(e).expr, names) == HasAggregate(e, names)
    ensures FreeVars(ReturnColumn(e).expr) == FreeVars(e)
  {
    if e.Alias? {
      AliasAggregate(e.source, e.alias, names);
      AliasFreeVars(e.source, e.alias);
    }
  }

  lemma AliasFreeVars(s: Expression, a: string)
    ensures FreeVars(Alias(s, a)) == FreeVars(s)
  {
    assert Children(Alias(s, a)) + SkippedChildren(Alias(s, a)) == [s];
  }

  lemma ReturnColumnEval(eng: LawfulEngine, e: Expression, r: Row, g: seq<Row>)
    ensures eng.eval(ReturnColumn(e).expr, r) == eng.eval(e, r)
    ensures eng.aggregate(ReturnColumn(e).expr, g) == eng.aggregate(e, g)
  {
  }

  lemma ReturnColumnsInit(items: seq<Expression>)
    requires items != []
    ensures ReturnColumns(items)[..|items| - 1] == ReturnColumns(items[..|items| - 1])
  {
  }

  lemma {:induction false} AggsMember(items: seq<Expression>, names: set<string>, e: Expression)
    ensures e in Aggs(items, names) <==> e in items && HasAggregate(e, names)
    ensures e in Keys(items, names) <==> e in items && !HasAggregate(e, names)
    decreases |items|
  {
    if items != [] {
      var init, last := items[..|items| - 1], items[|items| - 1];
      AggsMember(init, names, e);
      SplitLast(items);
    }
  }

  lemma ColumnsSnoc(eng: Engine, items: seq<Expression>, e: Expression, r: Row, g: seq<Row>)
    ensures Columns(eng, items + [e], r) == Columns(eng, items, r)[ColumnName(e) := eng.eval(e, r)]
    ensures AggColumns(eng, items + [e], g) == AggColumns(eng, items, g)[ColumnName(e) := eng.aggregate(e, g)]
  {
    InitOfSnoc(items, e);
  }

  lemma KeysSnoc(items: seq<Expression>, e: Expression, names: set<string>)
    ensures Keys(items + [e], names) == if HasAggregate(e, names) then Keys(items, names) else Keys(items, names) + [e]
    ensures Aggs(items + [e], names) == if HasAggregate(e, names) then Aggs(items, names) + [e] else Aggs(items, names)
  {
    InitOfSnoc(items, e);
  }

  lemma DirectRowSnoc(eng: Engine, how: Recognition, items: seq<Expression>, e: Expression, g: seq<Row>)
    requires g != []
    ensures DirectRow(eng, how, ReturnColumns(items + [e]), g)
            == DirectRow(eng, how, ReturnColumns(items), g)[ReturnColumn(e).name := ColumnValue(eng, how, ReturnColumn(e), g)]
  {
    ReturnColumnsInit(items + [e]);
    assert (items + [e])[..|items|] == items;
  }

  lemma ColumnNamesSnoc(es: seq<Expression>, e: Expression)
    ensures ColumnNames(es + [e]) == ColumnNames(es) + {ColumnName(e)}
  {
    assert forall x :: x in es + [e] <==> x in es || x == e;
  }

  lemma {:induction false} LastNamedValue(eng: Engine, items: seq<Expression>, name: string, r: Row, g: seq<Row>)
    ensures var last := LastNamed(items, name);
            && (last.Some? <==> name in ColumnNames(items))
            && (last.Some? ==> last.value in items && ColumnName(last.value) == name)
            && (name in Columns(eng, items, r) <==> last.Some?)
            && (last.Some? ==> Columns(eng, items, r)[name] == eng.eval(last.value, r))
            && (name in AggColumns(eng, items, g) <==> last.Some?)
            && (last.Some? ==> AggColumns(eng, items, g)[name] == eng.aggregate(last.value, g))
    decreases |items|
  {
    if items != [] {
      var init, last := items[..|items| - 1], items[|items| - 1];
      LastNamedValue(eng, init, name, r, g);
      SplitLast(items);
      ColumnNamesSnoc(init, last);
    }
  }

  lemma {:induction false} LastColumnOfItems(items: seq<Expression>, name: string)
    ensures LastColumn(ReturnColumns(items), name)
            == if LastNamed(items, name).Some? then Some(ReturnColumn(LastNamed(items, name).value)) else None
    decreases |items|
  {
    if items != [] {
      LastColumnOfItems(items[..|items| - 1], name);
      ReturnColumnsInit(items);
      ReturnColumnFacts(items[|items| - 1], {});
    }
  }

  /** The last item of a name is the last key or the last aggregate of that name. */
  lemma {:induction false} LastOfSplit(items: seq<Expression>, names: set<string>, name: string)
    ensures var last := LastNamed(items, name);
            && (last.Some? && HasAggregate(last.value, names) ==> LastNamed(Aggs(items, names), name) == last)
            && (last.Some? && !HasAggregate(last.value, names) ==> LastNamed(Keys(items, names), name) == last)
            && (last.None? ==> LastNamed(Keys(items, names), name).None? && LastNamed(Aggs(items, names), name).None?)
    decreases |items|
  {
    if items != [] {
      var init, last := items[..|items| - 1], items[|items| - 1];
      LastOfSplit(init, names, name);
      SplitLast(items);
      KeysSnoc(init, last, names);
      LastNamedSnoc(Keys(init, names), last, name);
      LastNamedSnoc(Aggs(init, names), last, name);
    }
  }

  lemma LastNamedSnoc(items: seq<Expression>, e: Expression, name: string)
    ensures LastNamed(items + [e], name) == if ColumnName(e) == name then Some(e) else LastNamed(items, name)
  {
    InitOfSnoc(items, e);
  }

  lemma {:induction false} DirectRowLast(eng: Engine, how: Recognition, items: seq<Expression>, g: seq<Row>, name: string)
    requires g != []
    ensures var row, last := DirectRow(eng, how, ReturnColumns(items), g), LastNamed(items, name);
            && (name in row <==> last.Some?)
            && (last.Some? ==> row[name] == ColumnValue(eng, how, ReturnColumn(last.value), g))
    decreases |items|
  {
    if items != [] {
      var init, last := items[..|items| - 1], items[|items| - 1];
      DirectRowLast(eng, how, init, g, name);
      SplitLast(items);
      DirectRowSnoc(eng, how, init, last, g);
      ReturnColumnFacts(last, {});
    }
  }

  /** What a part shows under a name: the last aggregate of that name, or else the last key. */
  lemma SplitRowAt(eng: Engine, names: set<string>, items: seq<Expression>, g: seq<Row>, name: string)
    requires g != []
    ensures var row := Columns(eng, Keys(items, names), g[0]) + AggColumns(eng, Aggs(items, names), g);
            var agg, key := LastNamed(Aggs(items, names), name), LastNamed(Keys(items, names), name);
            && (name in row <==> agg.Some? || key.Some?)
            && (agg.Some? ==> row[name] == eng.aggregate(agg.value, g))
            && (agg.None? && key.Some? ==> row[name] == eng.eval(key.value, g[0]))
  {
    LastNamedValue(eng, Keys(items, names), name, g[0], g);
    LastNamedValue(eng, Aggs(items, names), name, g[0], g);
  }

  lemma LastAggregateStays(names: set<string>, items: seq<Expression>, name: string)
    requires NoAggregateShadowed(ReturnColumns(items), names) && LastNamed(Aggs(items, names), name).Some?
    ensures LastNamed(items, name).Some? && HasAggregate(LastNamed(items, name).value, names)
  {
    var cols := ReturnColumns(items);
    LastNamedValue(SymbolicEngine(), Aggs(items, names), name, map[], []);
    var e := LastNamed(Aggs(items, names), name).value;
    AggsMember(items, names, e);
    ReturnColumnFacts(e, names);
    var i :| 0 <= i < |items| && items[i] == e;
    assert cols[i] in cols;
    LastColumnOfItems(items, name);
    ReturnColumnFacts(LastNamed(items, name).value, names);
  }

  lemma RowAt(eng: LawfulEngine, names: set<string>, items: seq<Expression>, g: seq<Row>, name: string)
    requires g != [] && NoAggregateShadowed(ReturnColumns(items), names)
    ensures SameAt(Columns(eng, Keys(items, names), g[0]) + AggColumns(eng, Aggs(items, names), g),
                   DirectRow(eng, Found(names), ReturnColumns(items), g), name)
  {
    var last := LastNamed(items, name);
    SplitRowAt(eng, names, items, g, name);
    DirectRowLast(eng, Found(names), items, g, name);
    LastOfSplit(items, names, name);
    if LastNamed(Aggs(items, names), name).Some? { LastAggregateStays(names, items, name); }
    if last.Some? {
      ReturnColumnFacts(last.value, names);
      ReturnColumnEval(eng, last.value, g[0], g);
    }
  }

  /** The keys and then the aggregates give the same row as the items in their own order. */
  lemma RowOfItems(eng: LawfulEngine, names: set<string>, items: seq<Expression>, g: seq<Row>)
    requires g != [] && NoAggregateShadowed(ReturnColumns(items), names)
    ensures Columns(eng, Keys(items, names), g[0]) + AggColumns(eng, Aggs(items, names), g)
            == DirectRow(eng, Found(names), ReturnColumns(items), g)
  {
    var row, direct := Columns(eng, Keys(items, names), g[0]) + AggColumns(eng, Aggs(items, names), g),
                       DirectRow(eng, Found(names), ReturnColumns(items), g);
    forall name: string
      ensures SameAt(row, direct, name)
    {
      RowAt(eng, names, items, g, name);
    }
    SameEverywhere(row, direct);
  }

  lemma {:induction false} PlainKeys(eng: LawfulEngine, names: set<string>, items: seq<Expression>, r: Row)
    ensures KeyOf(eng, Keys(items, names), r) == KeyOf(eng, PlainExprs(ReturnColumns(items), Found(names)), r)
    decreases |items|
  {
    if items != [] {
      var init, last := items[..|items| - 1], items[|items| - 1];
      PlainKeys(eng, names, init, r);
      ReturnColumnsInit(items);
      ReturnColumnFacts(last, names);
      ReturnColumnEval(eng, last, r, [r]);
      if !HasAggregate(last, names) {
        KeyOfSnoc(eng, Keys(init, names), last, r);
        KeyOfSnoc(eng, PlainExprs(ReturnColumns(init), Found(names)), ReturnColumn(last).expr, r);
      }
    }
  }

  lemma KeyOfSnoc(eng: Engine, keys: seq<Expression>, k: Expression, r: Row)
    ensures KeyOf(eng, keys + [k], r) == KeyOf(eng, keys, r) + [eng.eval(k, r)]
  {
  }

  /** Grouping depends only on which rows the keys tell apart. */
  lemma {:induction false} GroupsByPartition(eng: Engine, a: seq<Expression>, b: seq<Expression>, rows: seq<Row>)
    requires forall r, s | r in rows && s in rows ::
               KeyOf(eng, a, r) == KeyOf(eng, a, s) <==> KeyOf(eng, b, r) == KeyOf(eng, b, s)
    ensures Groups(eng, a, rows) == Groups(eng, b, rows)
    decreases |rows|
  {
    if rows != [] {
      var k, l := KeyOf(eng, a, rows[0]), KeyOf(eng, b, rows[0]);
      GroupsStep(eng, a, rows);
      GroupsStep(eng, b, rows);
      assert rows[0] in rows;
      SelectCongruent(rows, HasKey(eng, a, k), HasKey(eng, b, l));
      SelectCongruent(rows, LacksKey(eng, a, k), LacksKey(eng, b, l));
      var others := Select(rows, LacksKey(eng, a, k));
      forall r | r in others
        ensures r in rows
      {
        SelectMember(rows, LacksKey(eng, a, k), r);
      }
      GroupsByPartition(eng, a, b, others);
    }
  }

  /** RETURN without GROUP BY, and YIELD: the projection clause the lowering builds shows each row, or
      one row per distinct tuple of the plain items when some item is an aggregate. */
  lemma ImplicitGrouping(eng: LawfulEngine, names: set<string>, items: seq<Expression>, rows: seq<Row>)
    requires NoAggregateShadowed(ReturnColumns(items), names)
    ensures RunProjection(eng, IntoProjection(items, names), rows)
            == DirectProject(eng, Found(names), ReturnColumns(items), None, rows)
  {
    var cols, keys := ReturnColumns(items), Keys(items, names);
    SomeAggregateIsAggs(items, names);
    if Aggs(items, names) == [] {
      forall i | 0 <= i < |rows|
        ensures Columns(eng, keys, rows[i]) == DirectRow(eng, Found(names), cols, [rows[i]])
      {
        RowOfItems(eng, names, items, [rows[i]]);
      }
    } else {
      forall r | r in rows
        ensures KeyOf(eng, keys, r) == KeyOf(eng, PlainExprs(cols, Found(names)), r)
      {
        PlainKeys(eng, names, items, r);
      }
      GroupsByPartition(eng, keys, PlainExprs(cols, Found(names)), rows);
      GroupRows(eng, names, items, keys, rows);
    }
  }

  lemma SomeAggregateIsAggs(items: seq<Expression>, names: set<string>)
    ensures SomeAggregate(ReturnColumns(items), Found(names)) <==> Aggs(items, names) != []
  {
    var cols := ReturnColumns(items);
    forall i | 0 <= i < |items|
      ensures HasAggregate(cols[i].expr, names) == HasAggregate(items[i], names)
    {
      ReturnColumnFacts(items[i], names);
    }
    if Aggs(items, names) != [] {
      var e := Aggs(items, names)[0];
      AggsMember(items, names, e);
      var i :| 0 <= i < |items| && items[i] == e;
      assert cols[i] in cols;
    }
    if SomeAggregate(cols, Found(names)) {
      var i :| 0 <= i < |cols| && HasAggregate(cols[i].expr, names);
      AggsMember(items, names, items[i]);
    }
  }

  /** One output row of a grouping projection and of its meaning, group by group. */
  lemma GroupRows(eng: LawfulEngine, names: set<string>, items: seq<Expression>, keys: seq<Expression>, rows: seq<Row>)
    requires NoAggregateShadowed(ReturnColumns(items), names)
    ensures var gs := Groups(eng, keys, rows);
            seq(|gs|, i requires 0 <= i < |gs| => GroupRow(eng, Keys(items, names), Aggs(items, names), gs[i]))
            == DirectGrouped(eng, Found(names), ReturnColumns(items), keys, rows)
  {
    var gs := Groups(eng, keys, rows);
    GroupsAreClasses(eng, keys, rows);
    forall i | 0 <= i < |gs|
      ensures gs[i] != []
      ensures GroupRow(eng, Keys(items, names), Aggs(items, names), gs[i])
              == DirectRow(eng, Found(names), ReturnColumns(items), gs[i])
    {
      assert IsGroup(eng, keys, rows, gs[i]);
      RowOfItems(eng, names, items, gs[i]);
    }
  }

  lemma GroupsOfCopies(eng: Engine, keys: seq<Expression>, r: Row)
    ensures Groups(eng, keys, [r]) == [[r]]
    ensures |Groups(eng, keys, [r, r])| == 1
  {
    var k := KeyOf(eng, keys, r);
    GroupsStep(eng, keys, [r]);
    GroupsStep(eng, keys, [r, r]);
    assert [r, r][1..] == [r] && [r][1..] == [];
    assert Select([r], LacksKey(eng, keys, k)) == [] && Select([r], HasKey(eng, keys, k)) == [r];
    assert Select([r, r], LacksKey(eng, keys, k)) == [];
  }

  /** Where the condition fails, one row shows the aggregate in place of the plain item. */
  lemma ShadowedIsLost(names: set<string>, items: seq<Expression>)
    requires !NoAggregateShadowed(ReturnColumns(items), names)
    ensures RunProjection(SymbolicEngine(), IntoProjection(items, names), [map[]])
            != DirectProject(SymbolicEngine(), Found(names), ReturnColumns(items), None, [map[]])
  {
    var eng, cols := SymbolicEngine(), ReturnColumns(items);
    var n, e := Shadowed(names, items);
    SomeAggregateIsAggs(items, names);
    GroupsOfCopies(eng, Keys(items, names), map[]);
    GroupsOfCopies(eng, PlainExprs(cols, Found(names)), map[]);
    SplitRowAt(eng, names, items, [map[]], n);
    DirectRowLast(eng, Found(names), items, [map[]], n);
    ReturnColumnFacts(LastNamed(items, n).value, names);
    assert RunProjection(eng, IntoProjection(items, names), [map[]])[0][n] == Aggregated(Core(e));
    assert DirectProject(eng, Found(names), cols, None, [map[]])[0][n] == SymbolicEval(ReturnColumn(LastNamed(items, n).value).expr, map[]);
  }

  /** A name whose last aggregate is followed by a plain item. */
  lemma Shadowed(names: set<string>, items: seq<Expression>) returns (n: string, e: Expression)
    requires !NoAggregateShadowed(ReturnColumns(items), names)
    ensures LastNamed(Aggs(items, names), n) == Some(e)
    ensures LastNamed(items, n).Some? && !HasAggregate(LastNamed(items, n).value, names)
  {
    var cols := ReturnColumns(items);
    var i :| 0 <= i < |cols| && HasAggregate(cols[i].expr, names)
             && !(LastColumn(cols, cols[i].name).Some? && HasAggregate(LastColumn(cols, cols[i].name).value.expr, names));
    n := cols[i].name;
    ReturnColumnFacts(items[i], names);
    AggsMember(items, names, items[i]);
    LastNamedValue(SymbolicEngine(), Aggs(items, names), n, map[], []);
    LastNamedValue(SymbolicEngine(), items, n, map[], []);
    LastColumnOfItems(items, n);
    e := LastNamed(Aggs(items, names), n).value;
    ReturnColumnFacts(LastNamed(items, n).value, names);
  }

  /** Exactly when RETURN without GROUP BY, or YIELD, keeps its meaning: for every engine and all rows, if and only if
      no plain column is lost behind an aggregate of the same name. */
  lemma ImplicitGroupingExact(names: set<string>, items: seq<Expression>)
    ensures NoAggregateShadowed(ReturnColumns(items), names) <==>
            forall eng: LawfulEngine, rows: seq<Row> ::
              RunProjection(eng, IntoProjection(items, names), rows) == DirectProject(eng, Found(names), ReturnColumns(items), None, rows)
  {
    if NoAggregateShadowed(ReturnColumns(items), names) {
      forall eng: LawfulEngine, rows: seq<Row>
        ensures RunProjection(eng, IntoProjection(items, names), rows) == DirectProject(eng, Found(names), ReturnColumns(items), None, rows)
      {
        ImplicitGrouping(eng, names, items, rows);
      }
    } else {
      SymbolicIsLawful();
      var eng: LawfulEngine := SymbolicEngine();
      ShadowedIsLost(names, items);
    }
  }

  // ---------------------------------------------------------------- only the free variables matter

  function ExprVars(es: seq<Expression>): set<string> {
    set e, x | e in es && x in FreeVars(e) :: x
  }

  function ColumnVars(cols: seq<Column>): set<string> {
    set c, x | c in cols && x in FreeVars(c.expr) :: x
  }

  lemma EvalSame(eng: LawfulEngine, vars: set<string>, e: Expression, r: Row, s: Row)
    requires SameOn(vars, r, s) && FreeVars(e) <= vars
    ensures eng.eval(e, r) == eng.eval(e, s)
  {
    assert SameOn(FreeVars(e), r, s);
  }

  lemma AggregateSame(eng: LawfulEngine, vars: set<string>, e: Expression, g: seq<Row>, h: seq<Row>)
    requires SameRows(vars, g, h) && FreeVars(e) <= vars
    ensures eng.aggregate(e, g) == eng.aggregate(e, h)
  {
    forall i | 0 <= i < |g|
      ensures SameOn(FreeVars(e), g[i], h[i])
    {
    }
    assert SameRows(FreeVars(e), g, h);
  }

  lemma KeyOfSame(eng: LawfulEngine, vars: set<string>, keys: seq<Expression>, r: Row, s: Row)
    requires SameOn(vars, r, s) && ExprVars(keys) <= vars
    ensures KeyOf(eng, keys, r) == KeyOf(eng, keys, s)
  {
    forall i | 0 <= i < |keys|
      ensures eng.eval(keys[i], r) == eng.eval(keys[i], s)
    {
      assert keys[i] in keys;
      EvalSame(eng, vars, keys[i], r, s);
    }
  }

  lemma {:induction false} DirectRowSame(eng: LawfulEngine, names: set<string>, vars: set<string>, cols: seq<Column>,
                                         g: seq<Row>, h: seq<Row>)
    requires SameRows(vars, g, h) && g != [] && ColumnVars(cols) <= vars
    ensures DirectRow(eng, Found(names), cols, g) == DirectRow(eng, Found(names), cols, h)
    decreases |cols|
  {
    if cols != [] {
      var last := cols[|cols| - 1];
      assert last in cols && forall c | c in cols[..|cols| - 1] :: c in cols;
      DirectRowSame(eng, names, vars, cols[..|cols| - 1], g, h);
      assert FreeVars(last.expr) <= vars;
      EvalSame(eng, vars, last.expr, g[0], h[0]);
      AggregateSame(eng, vars, last.expr, g, h);
    }
  }

  lemma {:induction false} GroupsSame(eng: LawfulEngine, vars: set<string>, keys: seq<Expression>, rows: seq<Row>, others: seq<Row>)
    requires SameRows(vars, rows, others) && ExprVars(keys) <= vars
    ensures |Groups(eng, keys, rows)| == |Groups(eng, keys, others)|
    ensures forall i | 0 <= i < |Groups(eng, keys, rows)| ::
              SameRows(vars, Groups(eng, keys, rows)[i], Groups(eng, keys, others)[i])
    decreases |rows|
  {
    if rows != [] {
      var k := KeyOf(eng, keys, rows[0]);
      forall i | 0 <= i < |rows|
        ensures KeyOf(eng, keys, rows[i]) == KeyOf(eng, keys, others[i])
      {
        KeyOfSame(eng, vars, keys, rows[i], others[i]);
      }
      GroupsStep(eng, keys, rows);
      GroupsStep(eng, keys, others);
      SelectSame(vars, rows, others, HasKey(eng, keys, k), HasKey(eng, keys, k));
      SelectSame(vars, rows, others, LacksKey(eng, keys, k), LacksKey(eng, keys, k));
      GroupsSame(eng, vars, keys, Select(rows, LacksKey(eng, keys, k)), Select(others, LacksKey(eng, keys, k)));
    }
  }

  lemma GroupedSame(eng: LawfulEngine, names: set<string>, vars: set<string>, cols: seq<Column>,
                    keys: seq<Expression>, rows: seq<Row>, others: seq<Row>)
    requires SameRows(vars, rows, others)
    requires ColumnVars(cols) <= vars && ExprVars(keys) <= vars
    ensures DirectGrouped(eng, Found(names), cols, keys, rows) == DirectGrouped(eng, Found(names), cols, keys, others)
  {
    var gs, hs := Groups(eng, keys, rows), Groups(eng, keys, others);
    GroupsSame(eng, vars, keys, rows, others);
    forall i | 0 <= i < |gs| && gs[i] != []
      ensures DirectRow(eng, Found(names), cols, gs[i]) == DirectRow(eng, Found(names), cols, hs[i])
    {
      DirectRowSame(eng, names, vars, cols, gs[i], hs[i]);
    }
  }

  lemma {:induction false} PlainExprVars(cols: seq<Column>, how: Recognition)
    ensures ExprVars(PlainExprs(cols, how)) <= ColumnVars(cols)
    decreases |cols|
  {
    if cols != [] {
      var init, last := cols[..|cols| - 1], cols[|cols| - 1];
      PlainExprVars(init, how);
      SplitLast(cols);
      assert ColumnVars(cols) == ColumnVars(init) + FreeVars(last.expr);
      assert ExprVars(PlainExprs(init, how) + [last.expr]) == ExprVars(PlainExprs(init, how)) + FreeVars(last.expr);
    }
  }

  /** A projection reads only the free variables of its columns and keys. */
  lemma ProjectSame(eng: LawfulEngine, names: set<string>, vars: set<string>, cols: seq<Column>,
                    keys: Option<seq<Expression>>, rows: seq<Row>, others: seq<Row>)
    requires SameRows(vars, rows, others)
    requires ColumnVars(cols) <= vars && (keys.Some? ==> ExprVars(keys.value) <= vars)
    ensures DirectProject(eng, Found(names), cols, keys, rows) == DirectProject(eng, Found(names), cols, keys, others)
  {
    if keys.Some? {
      GroupedSame(eng, names, vars, cols, keys.value, rows, others);
    } else if SomeAggregate(cols, Found(names)) {
      PlainExprVars(cols, Found(names));
      GroupedSame(eng, names, vars, cols, PlainExprs(cols, Found(names)), rows, others);
    } else {
      forall i | 0 <= i < |rows|
        ensures DirectRow(eng, Found(names), cols, [rows[i]]) == DirectRow(eng, Found(names), cols, [others[i]])
      {
        DirectRowSame(eng, names, vars, cols, [rows[i]], [others[i]]);
      }
    }
  }

  // ---------------------------------------------------------------- columns that read a lost name

  function OutputNames(cols: seq<Column>): set<string> {
    set c | c in cols :: c.name
  }

  /** The columns whose value depends on a lost name. Of two columns with one name the later counts. */
  function LostColumns(cols: seq<Column>, lost: set<string>): set<string> {
    if cols == [] then {} else
    var init, last := LostColumns(cols[..|cols| - 1], lost), cols[|cols| - 1];
    if FreeVars(last.expr) !! lost then init - {last.name} else init + {last.name}
  }

  lemma ColumnVarsInit(cols: seq<Column>)
    requires cols != []
    ensures ColumnVars(cols) == ColumnVars(cols[..|cols| - 1]) + FreeVars(cols[|cols| - 1].expr)
    ensures OutputNames(cols) == OutputNames(cols[..|cols| - 1]) + {cols[|cols| - 1].name}
  {
    SplitLast(cols);
  }

  lemma ColumnValueSame(eng: LawfulEngine, how: Recognition, vars: set<string>, c: Column, g: seq<Row>, h: seq<Row>)
    requires SameRows(vars, g, h) && g != [] && FreeVars(c.expr) <= vars
    ensures ColumnValue(eng, how, c, g) == ColumnValue(eng, how, c, h)
  {
    AggregateSame(eng, vars, c.expr, g, h);
    EvalSame(eng, vars, c.expr, g[0], h[0]);
  }

  /** Two groups that agree on what is not lost show the same in every column that is not. */
  lemma {:induction false} CleanRow(eng: LawfulEngine, how: Recognition, vars: set<string>, lost: set<string>,
                                    cols: seq<Column>, g: seq<Row>, h: seq<Row>)
    requires SameRows(vars, g, h) && g != [] && ColumnVars(cols) - lost <= vars
    ensures DirectRow(eng, how, cols, g).Keys == DirectRow(eng, how, cols, h).Keys == OutputNames(cols)
    ensures SameOn(OutputNames(cols) - LostColumns(cols, lost), DirectRow(eng, how, cols, g), DirectRow(eng, how, cols, h))
    decreases |cols|
  {
    if cols != [] {
      var init, last := cols[..|cols| - 1], cols[|cols| - 1];
      ColumnVarsInit(cols);
      CleanRow(eng, how, vars, lost, init, g, h);
      if FreeVars(last.expr) !! lost { ColumnValueSame(eng, how, vars, last, g, h); }
    }
  }

  /** The same for a whole projection. What it groups by must not be lost. */
  lemma CleanProject(eng: LawfulEngine, how: Recognition, vars: set<string>, lost: set<string>, cols: seq<Column>,
                     rows: seq<Row>, others: seq<Row>)
    requires SameRows(vars, rows, others) && ColumnVars(cols) - lost <= vars
    requires SomeAggregate(cols, how) ==> ExprVars(PlainExprs(cols, how)) !! lost
    ensures SameRows(OutputNames(cols) - LostColumns(cols, lost), DirectProject(eng, how, cols, None, rows),
                     DirectProject(eng, how, cols, None, others))
    ensures forall i | 0 <= i < |DirectProject(eng, how, cols, None, others)| ::
              DirectProject(eng, how, cols, None, others)[i].Keys == OutputNames(cols)
  {
    if SomeAggregate(cols, how) {
      var keys := PlainExprs(cols, how);
      PlainExprVars(cols, how);
      CleanGroups(eng, how, vars, lost, cols, keys, rows, others);
    } else {
      forall i | 0 <= i < |rows|
        ensures var r, s := DirectRow(eng, how, cols, [rows[i]]), DirectRow(eng, how, cols, [others[i]]);
                SameOn(OutputNames(cols) - LostColumns(cols, lost), r, s) && s.Keys == OutputNames(cols)
      {
        CleanRow(eng, how, vars, lost, cols, [rows[i]], [others[i]]);
      }
    }
  }

  lemma CleanGroups(eng: LawfulEngine, how: Recognition, vars: set<string>, lost: set<string>, cols: seq<Column>,
                    keys: seq<Expression>, rows: seq<Row>, others: seq<Row>)
    requires SameRows(vars, rows, others) && ColumnVars(cols) - lost <= vars && ExprVars(keys) <= vars
    ensures SameRows(OutputNames(cols) - LostColumns(cols, lost), DirectGrouped(eng, how, cols, keys, rows),
                     DirectGrouped(eng, how, cols, keys, others))
    ensures forall i | 0 <= i < |DirectGrouped(eng, how, cols, keys, others)| ::
              DirectGrouped(eng, how, cols, keys, others)[i].Keys == OutputNames(cols)
  {
    var gs, hs := Groups(eng, keys, rows), Groups(eng, keys, others);
    GroupsSame(eng, vars, keys, rows, others);
    GroupsAreClasses(eng, keys, rows);
    forall i | 0 <= i < |gs|
      ensures gs[i] != [] && hs[i] != []
      ensures var r, s := DirectRow(eng, how, cols, gs[i]), DirectRow(eng, how, cols, hs[i]);
              SameOn(OutputNames(cols) - LostColumns(cols, lost), r, s) && s.Keys == OutputNames(cols)
    {
      assert IsGroup(eng, keys, rows, gs[i]);
      CleanRow(eng, how, vars, lost, cols, gs[i], hs[i]);
    }
  }
}
