/** The query AST shared by the GQL and Cypher front ends (query-ast/src/ast.rs). */
module Ast {

  import opened Wrappers

  datatype UnaryOp = Not | Exists | IsNull | IsNotNull

  datatype BinaryOp =
    | And | Or | Eq | Ne | Lt | Le | Gt | Ge | In
    | Add | Subtract | Multiply | Divide | Modulo | Exponent
    | HasLabel | Index | StartsWith | EndsWith | Contains

  datatype Literal =
    | Integer(int)
    | Real(real)
    | Boolean(bool)
    | Text(string)
    | Date(string)
    | LocalTime(string)
    | ZonedTime(string)
    | LocalDateTime(string)
    | ZonedDateTime(string)
    | Duration(string)
    | ObjectLiteral(entries: seq<(string, Literal)>)
    | Quoted(expr: Expression)
    | NullLiteral

  /** `Object` lists its entries in key order, as the source's ordered map iterates them. */
  datatype Expression =
    | Unary(uop: UnaryOp, operand: Expression)
    | Lit(literal: Literal)
    | Property(variable: string, key: string)
    | ExpressionProperty(exp: Expression, key: string)
    | Parameter(name: string)
    | Identifier(name: string)
    | Variable(name: string, value: Expression)
    | Alias(source: Expression, alias: string)
    | ListRange(start: Option<Expression>, end: Option<Expression>)
    | Binary(op: BinaryOp, left: Expression, right: Expression)
    | Function(name: string, args: seq<Expression>, position: nat)
    | Case(scrutinee: Option<Expression>, branches: seq<(Expression, Expression)>, otherwise: Option<Expression>)
    | List(elements: seq<Expression>)
    | Object(fields: seq<(string, Expression)>)
    | Iterator(item: string, list: Expression, filter: Option<Expression>, mapping: Option<Expression>)

  function OptionSeq(o: Option<Expression>): seq<Expression> {
    if o.Some? then [o.value] else []
  }

  function BranchSeq(bs: seq<(Expression, Expression)>): (cs: seq<Expression>)
    ensures forall k | 0 <= k < |cs| :: exists i | 0 <= i < |bs| :: cs[k] == bs[i].0 || cs[k] == bs[i].1
  {
    if bs == [] then [] else [bs[0].0, bs[0].1] + BranchSeq(bs[1..])
  }

  /** The sub-expressions a traversal visits (`get_children`). Properties of an expression, list
      ranges, the mapping of an iterator and literals are not descended into. */
  function Children(e: Expression): (cs: seq<Expression>)
    ensures forall i | 0 <= i < |cs| :: cs[i] < e
  {
    match e
    case Unary(_, a) => [a]
    case Variable(_, v) => [v]
    case Alias(s, _) => [s]
    case Binary(_, a, b) => [a, b]
    case Function(_, args, _) => args
    case Case(s, bs, o) => OptionSeq(s) + BranchSeq(bs) + OptionSeq(o)
    case List(es) => es
    case Object(fs) => seq(|fs|, i requires 0 <= i < |fs| => fs[i].1)
    case Iterator(_, l, f, _) => [l] + OptionSeq(f)
    case _ => []
  }

  function LiteralExpressions(l: Literal): (cs: seq<Expression>)
    ensures forall c | c in cs :: c < l
    decreases l
  {
    match l
    case Quoted(e) => [e]
    case ObjectLiteral(entries) => EntryExpressions(l, entries)
    case _ => []
  }

  function EntryExpressions(l: Literal, entries: seq<(string, Literal)>): (cs: seq<Expression>)
    requires forall e | e in entries :: e.1 < l
    ensures forall c | c in cs :: c < l
    decreases l, |entries|
  {
    if entries == [] then [] else LiteralExpressions(entries[0].1) + EntryExpressions(l, entries[1..])
  }

  /** The positions `Children` leaves out. */
  function SkippedChildren(e: Expression): (cs: seq<Expression>)
    ensures forall c | c in cs :: c < e
  {
    match e
    case ExpressionProperty(x, _) => [x]
    case ListRange(a, b) => OptionSeq(a) + OptionSeq(b)
    case Iterator(_, _, _, m) => OptionSeq(m)
    case Lit(l) => LiteralExpressions(l)
    case _ => []
  }

  /** The variables an expression reads from the row it is evaluated on. */
  function FreeVars(e: Expression): (vs: set<string>)
  {
    match e
    case Identifier(x) => {x}
    case Property(x, _) => {x}
    case Parameter(x) => {x}
    case Iterator(x, l, f, m) =>
      FreeVars(l) + ((set c, v | c in OptionSeq(f) + OptionSeq(m) && v in FreeVars(c) :: v) - {x})
    case _ =>
      set c, v | c in Children(e) + SkippedChildren(e) && v in FreeVars(c) :: v
  }

  datatype NodeMatch = NodeMatch(name: Option<string>, labels: seq<string>, predicates: seq<Expression>)

  datatype Direction = Left | Right | Either

  datatype RelationMatch = RelationMatch(
    direction: Direction, name: Option<string>, hops: Option<(Option<int>, Option<int>)>,
    labels: seq<string>, predicates: seq<Expression>)

  datatype MatchClause = MatchClause(start: NodeMatch, path: seq<(RelationMatch, NodeMatch)>, optional: bool)

  datatype Projection =
    | Item(items: seq<Expression>)
    | GroupBy(grouping: seq<Expression>, aggregates: seq<Expression>)

  datatype QueryPart = QueryPart(matches: seq<MatchClause>, wheres: seq<Expression>, projection: Projection)
}
