/** What a search, an occurrence and a free variable are, constructor by constructor and without `Children`. */
module Shapes {
  import opened Wrappers
  import opened Ast
  import opened Aggregates

  // ---------------------------------------------------------------- operands by name

  predicate Holds(o: Option<Expression>, p: Expression -> bool) {
    o.Some? && p(o.value)
  }

  /** Some operand that a traversal visits satisfies `p`. */
  predicate SomeVisited(e: Expression, p: Expression -> bool) {
    match e
    case Unary(_, operand) => p(operand)
    case Variable(_, value) => p(value)
    case Alias(source, _) => p(source)
    case Binary(_, left, right) => p(left) || p(right)
    case Function(_, args, _) => exists i | 0 <= i < |args| :: p(args[i])
    case Case(scrutinee, branches, otherwise) =>
      || Holds(scrutinee, p)
      || (exists i | 0 <= i < |branches| :: p(branches[i].0) || p(branches[i].1))
      || Holds(otherwise, p)
    case List(elements) => exists i | 0 <= i < |elements| :: p(elements[i])
    case Object(fields) => exists i | 0 <= i < |fields| :: p(fields[i].1)
    case Iterator(_, list, filter, _) => p(list) || Holds(filter, p)
    case _ => false
  }

  /** Some operand that it does not visit does. */
  predicate SomeSkipped(e: Expression, p: Expression -> bool) {
    match e
    case ExpressionProperty(exp, _) => p(exp)
    case ListRange(start, end) => Holds(start, p) || Holds(end, p)
    case Iterator(_, _, _, mapping) => Holds(mapping, p)
    case Lit(literal) => SomeInLiteral(literal, p)
    case _ => false
  }

  predicate SomeInLiteral(l: Literal, p: Expression -> bool) {
    match l
    case Quoted(expr) => p(expr)
    case ObjectLiteral(entries) => exists i | 0 <= i < |entries| :: SomeInLiteral(entries[i].1, p)
    case _ => false
  }

  ghost predicate SomeIn(cs: seq<Expression>, p: Expression -> bool) {
    exists i | 0 <= i < |cs| :: p(cs[i])
  }

  lemma SomeInConcat(a: seq<Expression>, b: seq<Expression>, p: Expression -> bool)
    ensures SomeIn(a + b, p) <==> SomeIn(a, p) || SomeIn(b, p)
  {
    forall i | 0 <= i < |b|
      ensures (a + b)[|a| + i] == b[i]
    {
    }
    forall i | 0 <= i < |a|
      ensures (a + b)[i] == a[i]
    {
    }
  }

  lemma {:induction false} BranchesSatisfy(bs: seq<(Expression, Expression)>, p: Expression -> bool)
    ensures SomeIn(BranchSeq(bs), p) <==> exists i | 0 <= i < |bs| :: p(bs[i].0) || p(bs[i].1)
    decreases |bs|
  {
    if bs != [] {
      var rest := bs[1..];
      BranchesSatisfy(rest, p);
      SomeInConcat([bs[0].0, bs[0].1], BranchSeq(rest), p);
      assert SomeIn([bs[0].0, bs[0].1], p) <==> p(bs[0].0) || p(bs[0].1) by {
        assert [bs[0].0, bs[0].1][0] == bs[0].0 && [bs[0].0, bs[0].1][1] == bs[0].1;
      }
      assert forall i | 0 <= i < |rest| :: rest[i] == bs[i + 1];
      if i :| 0 < i < |bs| && (p(bs[i].0) || p(bs[i].1)) {
        assert rest[i - 1] == bs[i];
      }
    }
  }

  lemma OptionSatisfies(o: Option<Expression>, p: Expression -> bool)
    ensures SomeIn(OptionSeq(o), p) <==> Holds(o, p)
  {
    if o.Some? { assert OptionSeq(o)[0] == o.value; }
  }

  /** `get_children` gives exactly the operands named by `SomeVisited`. */
  lemma VisitedSatisfy(e: Expression, p: Expression -> bool)
    ensures SomeIn(Children(e), p) <==> SomeVisited(e, p)
  {
    var cs := Children(e);
    match e
    case Unary(_, a) => assert cs[0] == a;
    case Variable(_, v) => assert cs[0] == v;
    case Alias(s, _) => assert cs[0] == s;
    case Binary(_, a, b) => assert |cs| == 2 && cs[0] == a && cs[1] == b;
    case Case(s, bs, o) =>
      SomeInConcat(OptionSeq(s) + BranchSeq(bs), OptionSeq(o), p);
      SomeInConcat(OptionSeq(s), BranchSeq(bs), p);
      OptionSatisfies(s, p);
      BranchesSatisfy(bs, p);
      OptionSatisfies(o, p);
    case Object(fs) => assert forall i | 0 <= i < |fs| :: cs[i] == fs[i].1;
    case Iterator(_, l, f, _) =>
      SomeInConcat([l], OptionSeq(f), p);
      OptionSatisfies(f, p);
      assert [l][0] == l;
    case _ =>
  }

  lemma {:induction false} LiteralSatisfies(l: Literal, p: Expression -> bool)
    ensures SomeIn(LiteralExpressions(l), p) <==> SomeInLiteral(l, p)
    decreases l
  {
    match l
    case Quoted(e) => assert LiteralExpressions(l)[0] == e;
    case ObjectLiteral(entries) => EntriesSatisfy(l, entries, p);
    case _ =>
  }

  lemma {:induction false} EntriesSatisfy(l: Literal, entries: seq<(string, Literal)>, p: Expression -> bool)
    requires forall e | e in entries :: e.1 < l
    ensures SomeIn(EntryExpressions(l, entries), p) <==> exists i | 0 <= i < |entries| :: SomeInLiteral(entries[i].1, p)
    decreases l, |entries|
  {
    if entries != [] {
      var rest := entries[1..];
      LiteralSatisfies(entries[0].1, p);
      EntriesSatisfy(l, rest, p);
      SomeInConcat(LiteralExpressions(entries[0].1), EntryExpressions(l, rest), p);
      assert forall i | 0 <= i < |rest| :: rest[i] == entries[i + 1];
      if i :| 0 < i < |entries| && SomeInLiteral(entries[i].1, p) {
        assert rest[i - 1] == entries[i];
      }
    }
  }

  lemma SkippedSatisfy(e: Expression, p: Expression -> bool)
    ensures SomeIn(SkippedChildren(e), p) <==> SomeSkipped(e, p)
  {
    match e
    case ExpressionProperty(x, _) => assert SkippedChildren(e)[0] == x;
    case ListRange(a, b) =>
      SomeInConcat(OptionSeq(a), OptionSeq(b), p);
      OptionSatisfies(a, p);
      OptionSatisfies(b, p);
    case Iterator(_, _, _, m) => OptionSatisfies(m, p);
    case Lit(l) => LiteralSatisfies(l, p);
    case _ =>
  }

  lemma BelowSatisfy(e: Expression, p: Expression -> bool)
    ensures (exists c | c in Children(e) + SkippedChildren(e) :: p(c)) <==> SomeVisited(e, p) || SomeSkipped(e, p)
  {
    var below := Children(e) + SkippedChildren(e);
    VisitedSatisfy(e, p);
    SkippedSatisfy(e, p);
    SomeInConcat(Children(e), SkippedChildren(e), p);
    assert SomeIn(below, p) <==> exists c | c in below :: p(c);
  }

  // ---------------------------------------------------------------- the search

  /** The search sees the call itself and below every visited operand, and nothing else. */
  lemma SearchByShape(e: Expression, names: set<string>)
    ensures HasAggregate(e, names) <==> (e.Function? && e.name in names) || SomeVisited(e, c => HasAggregate(c, names))
  {
    var p := c => HasAggregate(c, names);
    VisitedSatisfy(e, p);
    assert SomeIn(Children(e), p) <==> exists c | c in Children(e) :: HasAggregate(c, names);
  }

  // ---------------------------------------------------------------- occurrence

  /** An aggregating call occurs somewhere in the expression. */
  predicate CallIn(e: Expression, names: set<string>)
    decreases e
  {
    match e
    case Unary(_, operand) => CallIn(operand, names)
    case Lit(literal) => CallInLiteral(literal, names)
    case ExpressionProperty(exp, _) => CallIn(exp, names)
    case Variable(_, value) => CallIn(value, names)
    case Alias(source, _) => CallIn(source, names)
    case ListRange(start, end) => (start.Some? && CallIn(start.value, names)) || (end.Some? && CallIn(end.value, names))
    case Binary(_, left, right) => CallIn(left, names) || CallIn(right, names)
    case Function(name, args, _) => name in names || exists i | 0 <= i < |args| :: CallIn(args[i], names)
    case Case(scrutinee, branches, otherwise) =>
      || (scrutinee.Some? && CallIn(scrutinee.value, names))
      || (exists i | 0 <= i < |branches| :: CallIn(branches[i].0, names) || CallIn(branches[i].1, names))
      || (otherwise.Some? && CallIn(otherwise.value, names))
    case List(elements) => exists i | 0 <= i < |elements| :: CallIn(elements[i], names)
    case Object(fields) => exists i | 0 <= i < |fields| :: CallIn(fields[i].1, names)
    case Iterator(_, list, filter, mapping) =>
      CallIn(list, names) || (filter.Some? && CallIn(filter.value, names)) || (mapping.Some? && CallIn(mapping.value, names))
    case _ => false
  }

  predicate CallInLiteral(l: Literal, names: set<string>)
    decreases l
  {
    match l
    case Quoted(expr) => CallIn(expr, names)
    case ObjectLiteral(entries) => exists i | 0 <= i < |entries| :: CallInLiteral(entries[i].1, names)
    case _ => false
  }

  lemma {:induction false} LiteralCalls(l: Literal, names: set<string>)
    ensures CallInLiteral(l, names) <==> SomeInLiteral(l, c => CallIn(c, names))
    decreases l
  {
    match l
    case ObjectLiteral(entries) =>
      forall i | 0 <= i < |entries|
        ensures CallInLiteral(entries[i].1, names) <==> SomeInLiteral(entries[i].1, c => CallIn(c, names))
      {
        LiteralCalls(entries[i].1, names);
      }
    case _ =>
  }

  lemma BelowCalls(e: Expression, names: set<string>)
    ensures var p := c => CallIn(c, names);
            CallIn(e, names) <==> (e.Function? && e.name in names) || SomeVisited(e, p) || SomeSkipped(e, p)
  {
    if e.Lit? { LiteralCalls(e.literal, names); }
  }

  lemma CallBelow(e: Expression, names: set<string>)
    ensures CallIn(e, names) <==> IsAggregateCall(e, names) || exists c | c in Children(e) + SkippedChildren(e) :: CallIn(c, names)
  {
    var p, below := c => CallIn(c, names), Children(e) + SkippedChildren(e);
    BelowCalls(e, names);
    BelowSatisfy(e, p);
    if c :| c in below && CallIn(c, names) { assert p(c); }
    if c :| c in below && p(c) { assert CallIn(c, names); }
  }

  /** `Occurs` is occurrence anywhere, so `SearchIsExact` compares the search with the whole expression. */
  lemma {:induction false} OccursAnywhere(e: Expression, names: set<string>)
    ensures Occurs(e, names) <==> CallIn(e, names)
    decreases e
  {
    forall c | c in Children(e) + SkippedChildren(e)
      ensures Occurs(c, names) <==> CallIn(c, names)
    {
      OccursAnywhere(c, names);
    }
    CallBelow(e, names);
  }

  // ---------------------------------------------------------------- free variables

  /** The expression reads the variable `x` of its row. The item of an iterator is bound in its filter and mapping. */
  predicate Reads(e: Expression, x: string)
    decreases e
  {
    match e
    case Unary(_, operand) => Reads(operand, x)
    case Lit(literal) => LiteralReads(literal, x)
    case Property(variable, _) => x == variable
    case ExpressionProperty(exp, _) => Reads(exp, x)
    case Parameter(name) => x == name
    case Identifier(name) => x == name
    case Variable(_, value) => Reads(value, x)
    case Alias(source, _) => Reads(source, x)
    case ListRange(start, end) => (start.Some? && Reads(start.value, x)) || (end.Some? && Reads(end.value, x))
    case Binary(_, left, right) => Reads(left, x) || Reads(right, x)
    case Function(_, args, _) => exists i | 0 <= i < |args| :: Reads(args[i], x)
    case Case(scrutinee, branches, otherwise) =>
      || (scrutinee.Some? && Reads(scrutinee.value, x))
      || (exists i | 0 <= i < |branches| :: Reads(branches[i].0, x) || Reads(branches[i].1, x))
      || (otherwise.Some? && Reads(otherwise.value, x))
    case List(elements) => exists i | 0 <= i < |elements| :: Reads(elements[i], x)
    case Object(fields) => exists i | 0 <= i < |fields| :: Reads(fields[i].1, x)
    case Iterator(item, list, filter, mapping) =>
      || Reads(list, x)
      || (x != item && ((filter.Some? && Reads(filter.value, x)) || (mapping.Some? && Reads(mapping.value, x))))
  }

  predicate LiteralReads(l: Literal, x: string)
    decreases l
  {
    match l
    case Quoted(expr) => Reads(expr, x)
    case ObjectLiteral(entries) => exists i | 0 <= i < |entries| :: LiteralReads(entries[i].1, x)
    case _ => false
  }

  lemma {:induction false} LiteralVars(l: Literal, x: string)
    ensures LiteralReads(l, x) <==> SomeInLiteral(l, c => Reads(c, x))
    decreases l
  {
    match l
    case ObjectLiteral(entries) =>
      forall i | 0 <= i < |entries|
        ensures LiteralReads(entries[i].1, x) <==> SomeInLiteral(entries[i].1, c => Reads(c, x))
      {
        LiteralVars(entries[i].1, x);
      }
    case _ =>
  }

  /** Apart from variables themselves and iterators, an expression reads what its operands read. */
  lemma BelowReads(e: Expression, x: string)
    requires !e.Property? && !e.Parameter? && !e.Identifier? && !e.Iterator?
    ensures var p := c => Reads(c, x); Reads(e, x) <==> SomeVisited(e, p) || SomeSkipped(e, p)
  {
    if e.Lit? { LiteralVars(e.literal, x); }
  }

  lemma ReadBelow(e: Expression, x: string)
    requires !e.Property? && !e.Parameter? && !e.Identifier? && !e.Iterator?
    ensures Reads(e, x) <==> exists c | c in Children(e) + SkippedChildren(e) :: Reads(c, x)
  {
    var p, below := c => Reads(c, x), Children(e) + SkippedChildren(e);
    BelowReads(e, x);
    BelowSatisfy(e, p);
    if c :| c in below && Reads(c, x) { assert p(c); }
    if c :| c in below && p(c) { assert Reads(c, x); }
  }

  /** The free variables are the variables read. */
  lemma {:induction false} FreeVarsAreRead(e: Expression, x: string)
    ensures x in FreeVars(e) <==> Reads(e, x)
    decreases e
  {
    forall c | c in Children(e) + SkippedChildren(e)
      ensures x in FreeVars(c) <==> Reads(c, x)
    {
      FreeVarsAreRead(c, x);
    }
    if e.Iterator? {
      IteratorVars(e, x);
    } else if !e.Property? && !e.Parameter? && !e.Identifier? {
      ReadBelow(e, x);
    }
  }

  lemma IteratorParts(e: Expression)
    requires e.Iterator?
    ensures e.list in Children(e) + SkippedChildren(e)
    ensures e.filter.Some? ==> e.filter.value in Children(e) + SkippedChildren(e)
    ensures e.mapping.Some? ==> e.mapping.value in Children(e) + SkippedChildren(e)
  {
    var below := Children(e) + SkippedChildren(e);
    assert below[0] == e.list;
    if e.filter.Some? { assert below[1] == e.filter.value; }
    if e.mapping.Some? { assert below[|below| - 1] == e.mapping.value; }
  }

  lemma IteratorVars(e: Expression, x: string)
    requires e.Iterator? && forall c | c in Children(e) + SkippedChildren(e) :: x in FreeVars(c) <==> Reads(c, x)
    ensures x in FreeVars(e) <==> Reads(e, x)
  {
    IteratorParts(e);
    var inner := OptionSeq(e.filter) + OptionSeq(e.mapping);
    assert forall c :: c in inner <==> e.filter == Some(c) || e.mapping == Some(c);
  }
}
