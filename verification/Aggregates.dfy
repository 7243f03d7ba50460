/** The search for an aggregating call, `contains_aggregating_function`
    (query-gql/src/lib.rs and query-cypher/src/lib.rs). */
module Aggregates {
  import opened Ast

  predicate IsAggregateCall(e: Expression, names: set<string>) {
    e.Function? && e.name in names
  }

  /** Some node reachable through `Children` is an aggregating call. */
  predicate HasAggregate(e: Expression, names: set<string>) {
    IsAggregateCall(e, names) || exists c | c in Children(e) :: HasAggregate(c, names)
  }

  /** An aggregating call occurs anywhere, including the positions `Children` leaves out. */
  predicate Occurs(e: Expression, names: set<string>) {
    IsAggregateCall(e, names) || exists c | c in Children(e) + SkippedChildren(e) :: Occurs(c, names)
  }

  /** Along the visited positions, nothing skipped hides an aggregating call. */
  predicate NothingHidden(e: Expression, names: set<string>) {
    && (forall c | c in SkippedChildren(e) :: !Occurs(c, names))
    && (forall c | c in Children(e) :: NothingHidden(c, names))
  }

  ghost function Size(e: Expression): (n: nat)
    ensures n > 0
  {
    1 + SizeBelow(e, Children(e))
  }

  ghost function SizeBelow(parent: Expression, es: seq<Expression>): nat
    requires forall i | 0 <= i < |es| :: es[i] < parent
    decreases parent, |es|
  {
    if es == [] then 0 else SizeBelow(parent, es[..|es| - 1]) + Size(es[|es| - 1])
  }

  ghost function TotalSize(es: seq<Expression>): nat {
    if es == [] then 0 else TotalSize(es[..|es| - 1]) + Size(es[|es| - 1])
  }

  lemma {:induction false} SizeBelowIsTotal(parent: Expression, es: seq<Expression>)
    requires forall i | 0 <= i < |es| :: es[i] < parent
    ensures SizeBelow(parent, es) == TotalSize(es)
    decreases |es|
  {
    if es != [] { SizeBelowIsTotal(parent, es[..|es| - 1]); }
  }

  lemma {:induction false} TotalSizeConcat(a: seq<Expression>, b: seq<Expression>)
    ensures TotalSize(a + b) == TotalSize(a) + TotalSize(b)
    decreases |b|
  {
    if b == [] {
      assert a + b == a;
    } else {
      TotalSizeConcat(a, b[..|b| - 1]);
      assert (a + b)[..|a + b| - 1] == a + b[..|b| - 1];
    }
  }

  predicate AnyHasAggregate(es: seq<Expression>, names: set<string>) {
    exists e | e in es :: HasAggregate(e, names)
  }

  lemma AnyHasAggregateConcat(a: seq<Expression>, b: seq<Expression>, names: set<string>)
    ensures AnyHasAggregate(a + b, names) <==> AnyHasAggregate(a, names) || AnyHasAggregate(b, names)
  {
    assert forall e :: e in a + b <==> e in a || e in b;
  }

  lemma PushKeepsAnswer(rest: seq<Expression>, top: Expression, names: set<string>)
    ensures HasAggregate(top, names) ==> AnyHasAggregate(rest + [top], names)
    ensures !IsAggregateCall(top, names) ==>
              AnyHasAggregate(rest + [top], names) == AnyHasAggregate(rest + Children(top), names)
  {
    AnyHasAggregateConcat(rest, [top], names);
    AnyHasAggregateConcat(rest, Children(top), names);
    assert top in [top];
  }

  lemma PushShrinksStack(rest: seq<Expression>, top: Expression)
    ensures TotalSize(rest + Children(top)) < TotalSize(rest + [top])
  {
    SizeBelowIsTotal(top, Children(top));
    TotalSizeConcat(rest, Children(top));
    TotalSizeConcat(rest, [top]);
    assert [top][..0] == [];
  }

  /** The explicit-stack search terminates and decides reachability through `Children`. */
  method ContainsAggregatingFunction(expression: Expression, names: set<string>) returns (found: bool)
    ensures found <==> HasAggregate(expression, names)
  {
    var stack := [expression];
    assert expression in stack;
    while stack != []
      invariant HasAggregate(expression, names) <==> AnyHasAggregate(stack, names)
      decreases TotalSize(stack)
    {
      var expr := stack[|stack| - 1];
      assert stack == stack[..|stack| - 1] + [expr];
      PushKeepsAnswer(stack[..|stack| - 1], expr, names);
      PushShrinksStack(stack[..|stack| - 1], expr);
      stack := stack[..|stack| - 1];
      if expr.Function? && expr.name in names {
        return true;
      }
      stack := stack + Children(expr);
    }
    return false;
  }

  /** An aggregating call occurs if and only if the search finds it or a skipped position hides it. So the search
      is wrong exactly when it finds nothing and something is hidden. */
  lemma {:induction false} SearchIsExact(e: Expression, names: set<string>)
    ensures Occurs(e, names) <==> HasAggregate(e, names) || !NothingHidden(e, names)
  {
    forall c | c in Children(e)
      ensures Occurs(c, names) <==> HasAggregate(c, names) || !NothingHidden(c, names)
    {
      SearchIsExact(c, names);
    }
  }

  /** For one, an aggregate whose result is dereferenced is never found. */
  lemma DereferencedAggregateIsMissed(e: Expression, key: string, names: set<string>)
    requires Occurs(e, names)
    ensures Occurs(ExpressionProperty(e, key), names) && !HasAggregate(ExpressionProperty(e, key), names)
  {
    assert e in SkippedChildren(ExpressionProperty(e, key));
  }

  lemma AliasAggregate(s: Expression, a: string, names: set<string>)
    ensures HasAggregate(Alias(s, a), names) == HasAggregate(s, names)
    ensures !HasAggregate(Identifier(a), names)
  {
    assert Children(Alias(s, a)) == [s];
    assert Children(Identifier(a)) == [];
  }
}
