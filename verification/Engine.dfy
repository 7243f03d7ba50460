/** Running query parts on rows: what the engine does with a part's MATCH and WHERE clauses and its
    projection (core/src/evaluation/parts/mod.rs, core/src/evaluation/expressions/mod.rs).
    Expression evaluation, accumulators and path solving stay abstract: an `Engine` supplies them. */
module Engine {
  import opened Wrappers
  import opened Sequences
  import opened Ast

  /** A variable value. The engine's other values are not told apart here: `Opaque` is named by the
      expression and bindings that produced it, `Aggregated` by the aggregate. */
  datatype Value =
    | Null
    | Bool(b: bool)
    | Opaque(expr: Expression, env: map<string, Value>)
    | Aggregated(expr: Expression)

  type Row = map<string, Value>

  datatype Engine = Engine(
    eval: (Expression, Row) -> Value,
    aggregate: (Expression, seq<Row>) -> Value,
    matchClause: (MatchClause, Row) -> seq<Row>)

  // ---------------------------------------------------------------- laws of evaluation

  ghost predicate SameOn(vars: set<string>, r: Row, s: Row) {
    forall x | x in vars :: (x in r <==> x in s) && (x in r ==> r[x] == s[x])
  }

  ghost predicate SameRows(vars: set<string>, rows: seq<Row>, others: seq<Row>) {
    |rows| == |others| && forall i | 0 <= i < |rows| :: SameOn(vars, rows[i], others[i])
  }

  /** Evaluation is deterministic, looks identifiers up in the row, sees through aliases, ignores
      where in the query a call stands, and reads only the free variables. */
  ghost predicate LawfulEval(eng: Engine) {
    && (forall x: string, r: Row {:trigger eng.eval(Identifier(x), r)} :: x in r ==> eng.eval(Identifier(x), r) == r[x])
    && (forall e: Expression, a: string, r: Row {:trigger eng.eval(Alias(e, a), r)} ::
          eng.eval(Alias(e, a), r) == eng.eval(e, r))
    && (forall f: string, args: seq<Expression>, p: nat, r: Row {:trigger eng.eval(Function(f, args, p), r)} ::
          eng.eval(Function(f, args, p), r) == eng.eval(Function(f, args, 0), r))
    && (forall e: Expression, r: Row, s: Row {:trigger SameOn(FreeVars(e), r, s)} ::
          SameOn(FreeVars(e), r, s) ==> eng.eval(e, r) == eng.eval(e, s))
    && (forall e: Expression, a: string, g: seq<Row> {:trigger eng.aggregate(Alias(e, a), g)} ::
          eng.aggregate(Alias(e, a), g) == eng.aggregate(e, g))
    && (forall e: Expression, g: seq<Row>, h: seq<Row> {:trigger SameRows(FreeVars(e), g, h)} ::
          SameRows(FreeVars(e), g, h) ==> eng.aggregate(e, g) == eng.aggregate(e, h))
  }

  /** The expression without outer aliases and without the position of an outer call. */
  function Core(e: Expression): Expression {
    match e
    case Alias(s, _) => Core(s)
    case Function(f, args, _) => Function(f, args, 0)
    case _ => e
  }

  lemma {:induction false} CoreFreeVars(e: Expression)
    ensures FreeVars(Core(e)) == FreeVars(e)
  {
    match e
    case Alias(s, a) =>
      assert Children(e) + SkippedChildren(e) == [s];
      CoreFreeVars(s);
    case Function(f, args, p) =>
      assert Children(e) + SkippedChildren(e) == args == Children(Core(e)) + SkippedChildren(Core(e));
    case _ =>
  }

  function Restrict(r: Row, vars: set<string>): Row {
    map x | x in r && x in vars :: r[x]
  }

  /** An engine that names every value by how it was computed. */
  function SymbolicEval(e: Expression, r: Row): Value {
    var c := Core(e);
    if !c.Identifier? then Opaque(c, Restrict(r, FreeVars(c)))
    else if c.name in r then r[c.name] else Null
  }

  function SymbolicEngine(): Engine {
    Engine((e, r) => SymbolicEval(e, r), (e, g) => Aggregated(Core(e)), (c, r) => BindPattern(c, r))
  }

  function TrueRow(vars: set<string>): Row {
    map x | x in vars :: Bool(true)
  }

  /** A match that binds the variables of the pattern. */
  function BindPattern(c: MatchClause, r: Row): seq<Row> {
    [TrueRow(PatternVars(c)) + r]
  }

  lemma SymbolicIsLocal(e: Expression, r: Row, s: Row)
    requires SameOn(FreeVars(e), r, s)
    ensures SymbolicEval(e, r) == SymbolicEval(e, s)
  {
    CoreFreeVars(e);
    var c := Core(e);
    if c.Identifier? {
      assert c.name in FreeVars(c);
    } else {
      assert Restrict(r, FreeVars(c)) == Restrict(s, FreeVars(c));
    }
  }

  lemma SymbolicIgnoresPosition(f: string, args: seq<Expression>, p: nat, r: Row)
    ensures SymbolicEval(Function(f, args, p), r) == SymbolicEval(Function(f, args, 0), r)
  {
    assert Core(Function(f, args, p)) == Core(Function(f, args, 0));
  }

  lemma BindPatternIsLawful(eng: Engine)
    requires forall c: MatchClause, r: Row :: eng.matchClause(c, r) == BindPattern(c, r)
    ensures LawfulMatch(eng)
  {
  }

  /** There is a lawful engine in which every pattern matches. */
  lemma SymbolicIsLawful()
    ensures LawfulEval(SymbolicEngine()) && LawfulMatch(SymbolicEngine())
    ensures forall c: MatchClause, r: Row :: |SymbolicEngine().matchClause(c, r)| == 1
  {
    BindPatternIsLawful(SymbolicEngine());
    forall e: Expression, r: Row, s: Row | SameOn(FreeVars(e), r, s)
      ensures SymbolicEval(e, r) == SymbolicEval(e, s)
    {
      SymbolicIsLocal(e, r, s);
    }
    forall f: string, args: seq<Expression>, p: nat, r: Row
      ensures SymbolicEval(Function(f, args, p), r) == SymbolicEval(Function(f, args, 0), r)
    {
      SymbolicIgnoresPosition(f, args, p, r);
    }
  }

  type LawfulEngine = eng: Engine | LawfulEval(eng) ghost witness (SymbolicIsLawful(); SymbolicEngine())

  function NamesOf(os: seq<Option<string>>): set<string> {
    set o | o in os && o.Some? :: o.value
  }

  /** The node and relationship variables of a pattern. */
  function PatternVars(c: MatchClause): set<string> {
    NamesOf([c.start.name])
    + NamesOf(seq(|c.path|, i requires 0 <= i < |c.path| => c.path[i].0.name))
    + NamesOf(seq(|c.path|, i requires 0 <= i < |c.path| => c.path[i].1.name))
  }

  ghost predicate Extends(r: Row, s: Row) {
    forall x | x in r :: x in s && s[x] == r[x]
  }

  /** Matching a pattern keeps the bindings of the row and binds the variables of the pattern. */
  ghost predicate LawfulMatch(eng: Engine) {
    forall c: MatchClause, r: Row, i: nat {:trigger eng.matchClause(c, r)[i]} | i < |eng.matchClause(c, r)| ::
      Extends(r, eng.matchClause(c, r)[i]) && PatternVars(c) <= eng.matchClause(c, r)[i].Keys
  }

  // ---------------------------------------------------------------- rows

  function Select(rows: seq<Row>, keep: Row -> bool): seq<Row> {
    if rows == [] then [] else
    (if keep(rows[0]) then [rows[0]] else []) + Select(rows[1..], keep)
  }

  function Passes(eng: Engine, conditions: seq<Expression>): Row -> bool {
    r => forall c | c in conditions :: eng.eval(c, r) == Bool(true)
  }

  /** The rows on which every condition evaluates to true. */
  function Keep(eng: Engine, conditions: seq<Expression>, rows: seq<Row>): seq<Row> {
    Select(rows, Passes(eng, conditions))
  }

  function MatchRows(eng: Engine, c: MatchClause, rows: seq<Row>): seq<Row> {
    if rows == [] then [] else eng.matchClause(c, rows[0]) + MatchRows(eng, c, rows[1..])
  }

  function Extend(eng: Engine, cs: seq<MatchClause>, rows: seq<Row>): seq<Row> {
    if cs == [] then rows else MatchRows(eng, cs[|cs| - 1], Extend(eng, cs[..|cs| - 1], rows))
  }

  // ---------------------------------------------------------------- projections

  /** The column an item is stored under (`evaluate_projection_field`). */
  function ColumnName(e: Expression): string {
    match e
    case Property(_, key) => key
    case ExpressionProperty(_, key) => key
    case Parameter(p) => p
    case Alias(_, alias) => alias
    case Identifier(id) => id
    case Function(f, _, _) => f
    case Case(_, _, _) => "case"
    case List(_) => "list"
    case Object(_) => "object"
    case Iterator(_, _, _, _) => "iterator"
    case _ => "expression"
  }

  function ColumnNames(es: seq<Expression>): set<string> {
    set e | e in es :: ColumnName(e)
  }

  /** The items are evaluated in order and inserted in a map, so a later column replaces an earlier one. */
  function Columns(eng: Engine, items: seq<Expression>, r: Row): Row {
    if items == [] then map[] else
    Columns(eng, items[..|items| - 1], r)[ColumnName(items[|items| - 1]) := eng.eval(items[|items| - 1], r)]
  }

  function AggColumns(eng: Engine, items: seq<Expression>, group: seq<Row>): Row {
    if items == [] then map[] else
    AggColumns(eng, items[..|items| - 1], group)[ColumnName(items[|items| - 1]) := eng.aggregate(items[|items| - 1], group)]
  }

  function KeyOf(eng: Engine, keys: seq<Expression>, r: Row): seq<Value> {
    seq(|keys|, i requires 0 <= i < |keys| => eng.eval(keys[i], r))
  }

  function HasKey(eng: Engine, keys: seq<Expression>, k: seq<Value>): Row -> bool {
    r => KeyOf(eng, keys, r) == k
  }

  function LacksKey(eng: Engine, keys: seq<Expression>, k: seq<Value>): Row -> bool {
    r => KeyOf(eng, keys, r) != k
  }

  lemma {:induction false} SelectLength(rows: seq<Row>, keep: Row -> bool)
    ensures |Select(rows, keep)| <= |rows|
  {
    if rows != [] { SelectLength(rows[1..], keep); }
  }

  /** The rows grouped by key, in order of first appearance. */
  function Groups(eng: Engine, keys: seq<Expression>, rows: seq<Row>): seq<seq<Row>>
    decreases |rows|
  {
    if rows == [] then [] else
    var k := KeyOf(eng, keys, rows[0]);
    SelectLength(rows[1..], LacksKey(eng, keys, k));
    [Select(rows, HasKey(eng, keys, k))] + Groups(eng, keys, Select(rows[1..], LacksKey(eng, keys, k)))
  }

  function GroupRow(eng: Engine, grouping: seq<Expression>, aggregates: seq<Expression>, group: seq<Row>): Row {
    if group == [] then map[] else Columns(eng, grouping, group[0]) + AggColumns(eng, aggregates, group)
  }

  function RunProjection(eng: Engine, p: Projection, rows: seq<Row>): seq<Row> {
    match p
    case Item(items) => seq(|rows|, i requires 0 <= i < |rows| => Columns(eng, items, rows[i]))
    case GroupBy(grouping, aggregates) =>
      var groups := Groups(eng, grouping, rows);
      seq(|groups|, i requires 0 <= i < |groups| => GroupRow(eng, grouping, aggregates, groups[i]))
  }

  function RunPart(eng: Engine, part: QueryPart, rows: seq<Row>): seq<Row> {
    RunProjection(eng, part.projection, Keep(eng, part.wheres, Extend(eng, part.matches, rows)))
  }

  function RunParts(eng: Engine, parts: seq<QueryPart>, rows: seq<Row>): seq<Row>
    decreases |parts|
  {
    if parts == [] then rows else RunParts(eng, parts[1..], RunPart(eng, parts[0], rows))
  }

  // ---------------------------------------------------------------- facts

  lemma {:induction false} SelectMember(rows: seq<Row>, keep: Row -> bool, r: Row)
    ensures r in Select(rows, keep) <==> r in rows && keep(r)
  {
    if rows != [] {
      SelectMember(rows[1..], keep, r);
      assert r in rows <==> r == rows[0] || r in rows[1..];
    }
  }

  lemma {:induction false} SelectCongruent(rows: seq<Row>, p: Row -> bool, q: Row -> bool)
    requires forall r | r in rows :: p(r) == q(r)
    ensures Select(rows, p) == Select(rows, q)
  {
    if rows != [] {
      assert rows[0] in rows && forall r | r in rows[1..] :: r in rows;
      SelectCongruent(rows[1..], p, q);
    }
  }

  lemma SelectCons(r: Row, rows: seq<Row>, p: Row -> bool)
    ensures Select([r] + rows, p) == if p(r) then [r] + Select(rows, p) else Select(rows, p)
  {
    assert ([r] + rows)[1..] == rows;
  }

  lemma {:induction false} SelectTwice(rows: seq<Row>, p: Row -> bool, q: Row -> bool, both: Row -> bool)
    requires forall r | r in rows :: both(r) == (p(r) && q(r))
    ensures Select(Select(rows, p), q) == Select(rows, both)
  {
    if rows != [] {
      var r, rest := rows[0], rows[1..];
      assert r in rows && forall r | r in rest :: r in rows;
      assert rows == [r] + rest;
      SelectTwice(rest, p, q, both);
      SelectCons(r, rest, p);
      SelectCons(r, rest, both);
      SelectCons(r, Select(rest, p), q);
    }
  }

  lemma {:induction false} SelectSame(vars: set<string>, rows: seq<Row>, others: seq<Row>, p: Row -> bool, q: Row -> bool)
    requires SameRows(vars, rows, others)
    requires forall i | 0 <= i < |rows| :: p(rows[i]) == q(others[i])
    ensures SameRows(vars, Select(rows, p), Select(others, q))
  {
    if rows != [] { SelectSame(vars, rows[1..], others[1..], p, q); }
  }

  lemma {:induction false} SelectAll(rows: seq<Row>, p: Row -> bool)
    requires forall r | r in rows :: p(r)
    ensures Select(rows, p) == rows
  {
    if rows != [] {
      assert rows[0] in rows && forall r | r in rows[1..] :: r in rows;
      SelectAll(rows[1..], p);
    }
  }

  lemma KeepNothing(eng: Engine, rows: seq<Row>)
    ensures Keep(eng, [], rows) == rows
  {
    SelectAll(rows, Passes(eng, []));
  }

  lemma KeepConcat(eng: Engine, a: seq<Expression>, b: seq<Expression>, rows: seq<Row>)
    ensures Keep(eng, a + b, rows) == Keep(eng, b, Keep(eng, a, rows))
  {
    assert forall c :: c in a + b <==> c in a || c in b;
    SelectTwice(rows, Passes(eng, a), Passes(eng, b), Passes(eng, a + b));
  }

  lemma {:induction false} RunPartsConcat(eng: Engine, a: seq<QueryPart>, b: seq<QueryPart>, rows: seq<Row>)
    ensures RunParts(eng, a + b, rows) == RunParts(eng, b, RunParts(eng, a, rows))
    decreases |a|
  {
    if a == [] {
      assert a + b == b;
    } else {
      assert (a + b)[0] == a[0] && (a + b)[1..] == a[1..] + b;
      RunPartsConcat(eng, a[1..], b, RunPart(eng, a[0], rows));
    }
  }

  lemma {:induction false} ColumnsConcat(eng: Engine, a: seq<Expression>, b: seq<Expression>, r: Row)
    ensures Columns(eng, a + b, r) == Columns(eng, a, r) + Columns(eng, b, r)
    decreases |b|
  {
    if b == [] {
      assert a + b == a;
    } else {
      var init, last := b[..|b| - 1], b[|b| - 1];
      ColumnsConcat(eng, a, init, r);
      assert (a + b)[..|a + b| - 1] == a + init;
      InsertRight(Columns(eng, a, r), Columns(eng, init, r), ColumnName(last), eng.eval(last, r));
    }
  }

  lemma {:induction false} ColumnKeys(eng: Engine, items: seq<Expression>, r: Row, group: seq<Row>)
    ensures Columns(eng, items, r).Keys == ColumnNames(items) == AggColumns(eng, items, group).Keys
    decreases |items|
  {
    if items != [] {
      var init, last := items[..|items| - 1], items[|items| - 1];
      ColumnKeys(eng, init, r, group);
      assert items == init + [last];
      assert forall e :: e in items <==> e in init || e == last;
      assert ColumnNames(items) == ColumnNames(init) + {ColumnName(last)};
    }
  }

  /** `g` is exactly the rows that share the key of its first row, in order. */
  ghost predicate IsGroup(eng: Engine, keys: seq<Expression>, rows: seq<Row>, g: seq<Row>) {
    g != [] && g[0] in rows && g == Select(rows, HasKey(eng, keys, KeyOf(eng, keys, g[0])))
  }

  /** Groups of the rows without key `k` are groups of all the rows. */
  lemma GroupOfRest(eng: Engine, keys: seq<Expression>, rows: seq<Row>, k: seq<Value>, g: seq<Row>)
    requires IsGroup(eng, keys, Select(rows, LacksKey(eng, keys, k)), g)
    ensures IsGroup(eng, keys, rows, g) && KeyOf(eng, keys, g[0]) != k
  {
    var lacks, mine := LacksKey(eng, keys, k), HasKey(eng, keys, KeyOf(eng, keys, g[0]));
    SelectMember(rows, lacks, g[0]);
    SelectTwice(rows, lacks, mine, mine);
  }

  lemma FirstGroup(eng: Engine, keys: seq<Expression>, rows: seq<Row>)
    requires rows != []
    ensures var g := Select(rows, HasKey(eng, keys, KeyOf(eng, keys, rows[0])));
            IsGroup(eng, keys, rows, g) && g[0] == rows[0]
  {
    assert rows == [rows[0]] + rows[1..];
    SelectCons(rows[0], rows[1..], HasKey(eng, keys, KeyOf(eng, keys, rows[0])));
  }

  lemma GroupsStep(eng: Engine, keys: seq<Expression>, rows: seq<Row>)
    requires rows != []
    ensures var k := KeyOf(eng, keys, rows[0]);
            var others := Select(rows, LacksKey(eng, keys, k));
            && |others| < |rows|
            && IsGroup(eng, keys, rows, Select(rows, HasKey(eng, keys, k)))
            && Select(rows, HasKey(eng, keys, k))[0] == rows[0]
            && Groups(eng, keys, rows) == [Select(rows, HasKey(eng, keys, k))] + Groups(eng, keys, others)
  {
    var k := KeyOf(eng, keys, rows[0]);
    FirstGroup(eng, keys, rows);
    SelectLength(rows[1..], LacksKey(eng, keys, k));
    assert rows == [rows[0]] + rows[1..];
    SelectCons(rows[0], rows[1..], LacksKey(eng, keys, k));
  }

  function GroupKey(eng: Engine, keys: seq<Expression>, g: seq<Row>): seq<Value> {
    if g == [] then [] else KeyOf(eng, keys, g[0])
  }

  ghost predicate InSomeGroup(r: Row, gs: seq<seq<Row>>) {
    exists i | 0 <= i < |gs| :: r in gs[i]
  }

  /** Every group is exactly the rows with its key. */
  ghost predicate AllGroups(eng: Engine, keys: seq<Expression>, rows: seq<Row>, gs: seq<seq<Row>>) {
    forall i | 0 <= i < |gs| :: IsGroup(eng, keys, rows, gs[i])
  }

  ghost predicate DistinctGroups(eng: Engine, keys: seq<Expression>, gs: seq<seq<Row>>) {
    forall i, j | 0 <= i < j < |gs| :: GroupKey(eng, keys, gs[i]) != GroupKey(eng, keys, gs[j])
  }

  lemma InSomeGroupCons(r: Row, first: seq<Row>, hs: seq<seq<Row>>)
    requires r in first || InSomeGroup(r, hs)
    ensures InSomeGroup(r, [first] + hs)
  {
    var gs := [first] + hs;
    if r in first {
      assert r in gs[0];
    } else {
      var j :| 0 <= j < |hs| && r in hs[j];
      assert gs[j + 1] == hs[j];
    }
  }

  /** Every group is exactly the rows with its key, no two groups share a key. */
  lemma {:induction false} GroupsAreClasses(eng: Engine, keys: seq<Expression>, rows: seq<Row>)
    ensures AllGroups(eng, keys, rows, Groups(eng, keys, rows))
    ensures DistinctGroups(eng, keys, Groups(eng, keys, rows))
    decreases |rows|
  {
    if rows != [] {
      var k := KeyOf(eng, keys, rows[0]);
      var others := Select(rows, LacksKey(eng, keys, k));
      GroupsStep(eng, keys, rows);
      GroupsAreClasses(eng, keys, others);
      var hs := Groups(eng, keys, others);
      forall i | 0 <= i < |hs|
        ensures IsGroup(eng, keys, rows, hs[i]) && GroupKey(eng, keys, hs[i]) != k
      {
        GroupOfRest(eng, keys, rows, k, hs[i]);
      }
    }
  }

  /** Every row belongs to a group. */
  lemma {:induction false} GroupsCover(eng: Engine, keys: seq<Expression>, rows: seq<Row>, r: Row)
    requires r in rows
    ensures InSomeGroup(r, Groups(eng, keys, rows))
    decreases |rows|
  {
    var k := KeyOf(eng, keys, rows[0]);
    var first, others := Select(rows, HasKey(eng, keys, k)), Select(rows, LacksKey(eng, keys, k));
    GroupsStep(eng, keys, rows);
    SelectMember(rows, HasKey(eng, keys, k), r);
    SelectMember(rows, LacksKey(eng, keys, k), r);
    if r in others {
      GroupsCover(eng, keys, others, r);
    }
    InSomeGroupCons(r, first, Groups(eng, keys, others));
  }
}
