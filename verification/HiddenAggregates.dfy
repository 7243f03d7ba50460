/** Aggregates that the search of the lowering does not find: what they do to a projection. */
module HiddenAggregates {
  import opened Wrappers
  import opened Ast
  import opened Aggregates
  import opened Lowering
  import opened Engine
  import opened Direct
  import opened Projections
  import opened GroupBy
  import opened Query

  lemma AggregateShows(e: Expression)
    ensures SymbolicEval(e, map[]) != Aggregated(Core(e))
  {
  }

  /** An item that hides an aggregate shows the value of a row where it should show that of a group. */
  lemma HiddenIsLost(names: set<string>, items: seq<Expression>, i: nat)
    requires DistinctNames(items) && i < |items|
    requires Occurs(ReturnColumn(items[i]).expr, names) && !HasAggregate(ReturnColumn(items[i]).expr, names)
    ensures RunProjection(SymbolicEngine(), IntoProjection(items, names), [map[]])
            != DirectProject(SymbolicEngine(), Occurring(names), ReturnColumns(items), None, [map[]])
  {
    var eng, cols, x := SymbolicEngine(), ReturnColumns(items), ColumnName(items[i]);
    SymbolicIsLawful();
    DistinctNotShadowed(items, names);
    ImplicitGrouping(eng, names, items, [map[]]);
    GroupsOfCopies(eng, PlainExprs(cols, Found(names)), map[]);
    GroupsOfCopies(eng, PlainExprs(cols, Occurring(names)), map[]);
    DirectRowAt(eng, Found(names), items, [map[]], i);
    DirectRowAt(eng, Occurring(names), items, [map[]], i);
    AggregateShows(cols[i].expr);
    assert DirectProject(eng, Found(names), cols, None, [map[]])[0][x] != DirectProject(eng, Occurring(names), cols, None, [map[]])[0][x];
  }

  /** Let RETURN or YIELD columns have distinct names, and count as an aggregate whatever contains an aggregating call
      anywhere. Then the projection clause means what the items say, for every engine and all rows, if and only if
      the search finds an aggregating call in every item that contains one. */
  lemma HiddenAggregatesExact(names: set<string>, items: seq<Expression>)
    requires DistinctNames(items)
    ensures ColumnsInPlainSight(ReturnColumns(items), names) <==>
            forall eng: LawfulEngine, rows: seq<Row> ::
              RunProjection(eng, IntoProjection(items, names), rows)
              == DirectProject(eng, Occurring(names), ReturnColumns(items), None, rows)
  {
    var cols := ReturnColumns(items);
    if ColumnsInPlainSight(cols, names) {
      forall eng: LawfulEngine, rows: seq<Row>
        ensures RunProjection(eng, IntoProjection(items, names), rows) == DirectProject(eng, Occurring(names), cols, None, rows)
      {
        DistinctNotShadowed(items, names);
        ImplicitGrouping(eng, names, items, rows);
        ProjectInPlainSight(eng, names, cols, None, rows);
      }
    } else {
      var i :| 0 <= i < |cols| && !(HasAggregate(cols[i].expr, names) <==> Occurs(cols[i].expr, names));
      SearchIsExact(cols[i].expr, names);
      HiddenIsLost(names, items, i);
      SymbolicIsLawful();
      var eng: LawfulEngine := SymbolicEngine();
    }
  }
}
