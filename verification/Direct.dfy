/** The reference meaning of a query: what each clause does to the binding table, row by row, with no
    scopes, no parts and no rewriting. ISO/IEC 39075:2024, sections 9.2, 14.6, 14.7, 14.11, 16.14, 16.15. */
module Direct {
  import opened Wrappers
  import opened Ast
  import opened Aggregates
  import opened Lowering
  import opened Engine

  /** An output column: its name and the expression it shows. */
  datatype Column = Column(name: string, expr: Expression)

  function ReturnColumn(e: Expression): Column {
    if e.Alias? then Column(e.alias, e.source) else Column(ColumnName(e), e)
  }

  function ReturnColumns(items: seq<Expression>): seq<Column> {
    seq(|items|, i requires 0 <= i < |items| => ReturnColumn(items[i]))
  }

  function YieldColumn(item: (Expression, Option<string>)): Column {
    if item.1.Some? then Column(item.1.value, item.0) else Column(ColumnName(item.0), item.0)
  }

  function YieldColumns(items: seq<(Expression, Option<string>)>): seq<Column> {
    seq(|items|, i requires 0 <= i < |items| => YieldColumn(items[i]))
  }

  /** Which expressions count as aggregates: those in which the search of the lowering finds an aggregating call, or
      those in which one occurs at all. */
  datatype Recognition = Found(names: set<string>) | Occurring(names: set<string>)

  predicate IsAggregate(e: Expression, how: Recognition) {
    match how
    case Found(names) => HasAggregate(e, names)
    case Occurring(names) => Occurs(e, names)
  }

  /** The value a column shows for a group of rows. */
  function ColumnValue(eng: Engine, how: Recognition, c: Column, group: seq<Row>): Value
    requires group != []
  {
    if IsAggregate(c.expr, how) then eng.aggregate(c.expr, group) else eng.eval(c.expr, group[0])
  }

  function DirectRow(eng: Engine, how: Recognition, cols: seq<Column>, group: seq<Row>): Row
    requires group != []
  {
    if cols == [] then map[] else
    var last := cols[|cols| - 1];
    DirectRow(eng, how, cols[..|cols| - 1], group)[last.name := ColumnValue(eng, how, last, group)]
  }

  /** The expressions of the columns that show no aggregate. */
  function PlainExprs(cols: seq<Column>, how: Recognition): seq<Expression> {
    if cols == [] then [] else
    var init, last := PlainExprs(cols[..|cols| - 1], how), cols[|cols| - 1];
    if IsAggregate(last.expr, how) then init else init + [last.expr]
  }

  predicate SomeAggregate(cols: seq<Column>, how: Recognition) {
    exists c | c in cols :: IsAggregate(c.expr, how)
  }

  /** One output row per distinct tuple of key values. */
  function DirectGrouped(eng: Engine, how: Recognition, cols: seq<Column>, keys: seq<Expression>, rows: seq<Row>):
    seq<Row>
  {
    var groups := Groups(eng, keys, rows);
    seq(|groups|, i requires 0 <= i < |groups| =>
      if groups[i] == [] then map[] else DirectRow(eng, how, cols, groups[i]))
  }

  /** Without explicit keys, the rows are shown one by one, or, when some column is an aggregate, grouped
      by the columns that are not. */
  function DirectProject(eng: Engine, how: Recognition, cols: seq<Column>, keys: Option<seq<Expression>>,
                         rows: seq<Row>): seq<Row>
  {
    if keys.Some? then DirectGrouped(eng, how, cols, keys.value, rows)
    else if SomeAggregate(cols, how) then DirectGrouped(eng, how, cols, PlainExprs(cols, how), rows)
    else seq(|rows|, i requires 0 <= i < |rows| => DirectRow(eng, how, cols, [rows[i]]))
  }

  function Bindings(eng: Engine, bindings: seq<(string, Expression)>, r: Row): Row {
    if bindings == [] then map[] else
    var (x, e) := bindings[|bindings| - 1];
    Bindings(eng, bindings[..|bindings| - 1], r)[x := eng.eval(e, r)]
  }

  /** LET adds bindings that all read the old row, YIELD replaces the row, FILTER drops rows. */
  function DirectStatement(eng: Engine, how: Recognition, st: Statement, rows: seq<Row>): seq<Row> {
    match st
    case Let(bs) => seq(|rows|, i requires 0 <= i < |rows| => rows[i] + Bindings(eng, bs, rows[i]))
    case Yield(items) => DirectProject(eng, how, YieldColumns(items), None, rows)
    case Filter(c) => Keep(eng, [c], rows)
  }

  function DirectStatements(eng: Engine, how: Recognition, sts: seq<Statement>, rows: seq<Row>): seq<Row>
    decreases |sts|
  {
    if sts == [] then rows else DirectStatements(eng, how, sts[1..], DirectStatement(eng, how, sts[0], rows))
  }

  /** A key that names the alias of a RETURN item stands for the aliased expression. */
  function ResolveKey(returned: seq<Expression>, key: Expression): Expression {
    if returned == [] || !key.Identifier? then key
    else if returned[0].Alias? && returned[0].alias == key.name then returned[0].source
    else ResolveKey(returned[1..], key)
  }

  function ResolveKeys(returned: seq<Expression>, keys: seq<Expression>): seq<Expression> {
    seq(|keys|, i requires 0 <= i < |keys| => ResolveKey(returned, keys[i]))
  }

  function ResolvedGroupBy(seg: Segment): Option<seq<Expression>> {
    if seg.groupBy.Some? then Some(ResolveKeys(seg.returned, seg.groupBy.value)) else None
  }

  function DirectSegment(eng: Engine, how: Recognition, seg: Segment, rows: seq<Row>): seq<Row> {
    DirectProject(eng, how, ReturnColumns(seg.returned), ResolvedGroupBy(seg),
                  DirectStatements(eng, how, seg.statements, rows))
  }

  /** NEXT feeds the rows of one segment to the next. */
  function DirectSegments(eng: Engine, how: Recognition, segs: seq<Segment>, rows: seq<Row>): seq<Row>
    decreases |segs|
  {
    if segs == [] then rows else DirectSegments(eng, how, segs[1..], DirectSegment(eng, how, segs[0], rows))
  }

  /** Each MATCH group extends the rows and its own WHERE then drops some. */
  function DirectMatch(eng: Engine, groups: seq<(seq<MatchClause>, seq<Expression>)>): seq<Row> {
    if groups == [] then [map[]] else
    var last := groups[|groups| - 1];
    Keep(eng, last.1, Extend(eng, last.0, DirectMatch(eng, groups[..|groups| - 1])))
  }

  function DirectQuery(eng: Engine, how: Recognition, q: SurfaceQuery): seq<Row> {
    DirectSegments(eng, how, [q.first] + q.next, DirectMatch(eng, q.groups))
  }
}
