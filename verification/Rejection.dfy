/** What the lowering pass rejects, what its scope holds, and what becomes of every clause. */
module Rejection {
  import opened Wrappers
  import opened Sequences
  import opened Ast
  import opened Lowering
  import opened Engine
  import opened Statements
  import opened Query

  // ---------------------------------------------------------------- exact rejection

  predicate BadYieldItem(item: (Expression, Option<string>), scope: seq<Expression>) {
    item.1.None? && !(item.0.Identifier? && item.0 in scope)
  }

  function BadItemError(e: Expression): LoweringError {
    if e.Identifier? then IdentifierNotInScope(e.name) else UnaliasedComplexExpression(e)
  }

  /** The scope after a statement, whether or not it is accepted. */
  function NextScope(st: Statement, scope: seq<Expression>): seq<Expression> {
    match st
    case Let(bs) => scope + LetScope(bs)
    case Yield(items) =>
      seq(|items|, i requires 0 <= i < |items| =>
        Identifier(if items[i].1.Some? then items[i].1.value else ColumnName(items[i].0)))
    case Filter(_) => scope
  }

  function ScopeBefore(sts: seq<Statement>, scope: seq<Expression>, i: nat): seq<Expression>
    requires i <= |sts|
  {
    if i == 0 then scope else NextScope(sts[i - 1], ScopeBefore(sts, scope, i - 1))
  }

  predicate BadAt(sts: seq<Statement>, scope: seq<Expression>, i: nat, j: nat)
  {
    i < |sts| && sts[i].Yield? && j < |sts[i].items| && BadYieldItem(sts[i].items[j], ScopeBefore(sts, scope, i))
  }

  ghost predicate FirstBadAt(sts: seq<Statement>, scope: seq<Expression>, i: nat, j: nat) {
    && BadAt(sts, scope, i, j)
    && forall k: nat, l: nat | BadAt(sts, scope, k, l) :: i < k || (i == k && j <= l)
  }

  lemma {:induction false} YieldRejection(items: seq<(Expression, Option<string>)>, scope: seq<Expression>) returns (j: nat)
    ensures YieldItems(items, scope).Ok? ==> forall l | 0 <= l < |items| :: !BadYieldItem(items[l], scope)
    ensures YieldItems(items, scope).Err? ==>
              && j < |items| && BadYieldItem(items[j], scope)
              && YieldItems(items, scope).error == BadItemError(items[j].0)
              && forall l | 0 <= l < j :: !BadYieldItem(items[l], scope)
    decreases |items|
  {
    j := 0;
    if items != [] {
      var init := items[..|items| - 1];
      j := YieldRejection(init, scope);
      if YieldItems(init, scope).Ok? {
        j := |items| - 1;
        assert forall l | 0 <= l < |init| :: items[l] == init[l];
      }
    }
  }

  lemma YieldItemNamed(item: (Expression, Option<string>), scope: seq<Expression>)
    requires YieldItem(item, scope).Ok?
    ensures ToAliasIdent(YieldItem(item, scope).value) == Identifier(if item.1.Some? then item.1.value else ColumnName(item.0))
  {
  }

  lemma NextScopeSnoc(items: seq<(Expression, Option<string>)>, scope: seq<Expression>)
    requires items != []
    ensures var last := items[|items| - 1];
            NextScope(Yield(items), scope)
            == NextScope(Yield(items[..|items| - 1]), scope) + [Identifier(if last.1.Some? then last.1.value else ColumnName(last.0))]
  {
  }

  lemma {:induction false} YieldScope(items: seq<(Expression, Option<string>)>, scope: seq<Expression>)
    requires YieldItems(items, scope).Ok?
    ensures ToAliasIdents(YieldItems(items, scope).value) == NextScope(Yield(items), scope)
    decreases |items|
  {
    if items != [] {
      var init := items[..|items| - 1];
      YieldScope(init, scope);
      var es, e := YieldItems(init, scope).value, YieldItem(items[|items| - 1], scope).value;
      ToAliasIdentsSnoc(es, e);
      YieldItemNamed(items[|items| - 1], scope);
      NextScopeSnoc(items, scope);
    }
  }

  lemma {:induction false} ScopeBeforeTail(sts: seq<Statement>, scope: seq<Expression>, i: nat)
    requires sts != [] && i < |sts|
    ensures ScopeBefore(sts, scope, i + 1) == ScopeBefore(sts[1..], NextScope(sts[0], scope), i)
  {
    if i > 0 { ScopeBeforeTail(sts, scope, i - 1); }
  }

  lemma BadAtTail(sts: seq<Statement>, scope: seq<Expression>, i: nat, j: nat)
    requires sts != []
    ensures BadAt(sts, scope, i + 1, j) <==> BadAt(sts[1..], NextScope(sts[0], scope), i, j)
  {
    if i + 1 < |sts| { ScopeBeforeTail(sts, scope, i); }
  }

  lemma FirstBadTail(sts: seq<Statement>, scope: seq<Expression>, i: nat, j: nat)
    requires sts != [] && (forall l: nat :: !BadAt(sts, scope, 0, l))
    requires FirstBadAt(sts[1..], NextScope(sts[0], scope), i, j)
    ensures FirstBadAt(sts, scope, i + 1, j)
  {
    BadAtTail(sts, scope, i, j);
    forall k: nat, l: nat | BadAt(sts, scope, k, l)
      ensures i + 1 < k || (i + 1 == k && j <= l)
    {
      assert !BadAt(sts, scope, 0, l);
      BadAtTail(sts, scope, k - 1, l);
    }
  }

  lemma HeadRejection(matches: seq<MatchClause>, wheres: seq<Expression>, sts: seq<Statement>,
                      scope: seq<Expression>, names: set<string>) returns (j: nat)
    requires sts != []
    ensures var head := LowerStatement(matches, wheres, sts[0], scope, names);
            if head.Ok? then head.value.scope == NextScope(sts[0], scope) && forall l: nat :: !BadAt(sts, scope, 0, l)
            else FirstBadAt(sts, scope, 0, j) && head.error == BadItemError(sts[0].items[j].0)
  {
    j := 0;
    if sts[0].Yield? {
      j := YieldRejection(sts[0].items, scope);
      if YieldItems(sts[0].items, scope).Ok? {
        YieldScope(sts[0].items, scope);
      }
    }
  }

  /** Statement lowering fails if and only if some YIELD item is unaliased and either complex or an identifier
      not in scope after the statements before it, and the first such item decides the error. */
  lemma {:induction false} RejectionIsExact(matches: seq<MatchClause>, wheres: seq<Expression>, sts: seq<Statement>,
                                            scope: seq<Expression>, names: set<string>) returns (i: nat, j: nat)
    ensures var r := LowerStatements(matches, wheres, sts, scope, names);
            && (r.Err? <==> exists k: nat, l: nat :: BadAt(sts, scope, k, l))
            && (r.Err? ==> FirstBadAt(sts, scope, i, j) && r.error == BadItemError(sts[i].items[j].0))
            && (r.Ok? ==> r.value.scope == ScopeBefore(sts, scope, |sts|))
    decreases |sts|
  {
    i, j := 0, 0;
    if sts != [] {
      j := HeadRejection(matches, wheres, sts, scope, names);
      var head := LowerStatement(matches, wheres, sts[0], scope, names);
      if head.Ok? {
        var rest := LowerStatements([], [], sts[1..], head.value.scope, names);
        i, j := RejectionIsExact([], [], sts[1..], head.value.scope, names);
        ScopeBeforeTail(sts, scope, |sts| - 1);
        if rest.Err? {
          FirstBadTail(sts, scope, i, j);
        } else {
          forall k: nat, l: nat
            ensures !BadAt(sts, scope, k, l)
          {
            if k > 0 { BadAtTail(sts, scope, k - 1, l); }
          }
        }
        i := i + 1;
      }
    }
  }

  // ---------------------------------------------------------------- the scope

  /** The scope holds identifiers only and names exactly the columns of the last part. */
  predicate ScopeNamesOutput(lowered: Lowered) {
    && IsScope(lowered.scope) && lowered.parts != []
    && ColumnNames(lowered.scope) == ColumnNames(OutputItems(lowered.parts[|lowered.parts| - 1].projection))
  }

  lemma PartsBefore(parts: seq<QueryPart>, rest: Lowered)
    requires ScopeNamesOutput(rest)
    ensures ScopeNamesOutput(Lowered(parts + rest.parts, rest.scope))
  {
    assert (parts + rest.parts)[|parts + rest.parts| - 1] == rest.parts[|rest.parts| - 1];
  }

  lemma HeadScopeIsOutput(matches: seq<MatchClause>, wheres: seq<Expression>, st: Statement,
                          scope: seq<Expression>, names: set<string>)
    requires IsScope(scope) && LowerStatement(matches, wheres, st, scope, names).Ok?
    ensures var head := LowerStatement(matches, wheres, st, scope, names).value;
            ScopeNamesOutput(head)
  {
    match st
    case Let(bs) =>
      ProjectionNames(scope + LetItems(bs), names);
      ColumnNamesConcat(scope, LetItems(bs));
      ColumnNamesConcat(scope, LetScope(bs));
      LetNames(bs);
    case Yield(items) =>
      YieldItemsMean(items, scope);
      ProjectionNames(YieldItems(items, scope).value, names);
      AliasIdentNames(YieldItems(items, scope).value);
    case Filter(_) =>
      ScopeHasNoAggregates(scope, names);
  }

  /** Once a part has been emitted, the scope holds identifiers only and names exactly the columns the
      last part outputs, also when aggregates are moved behind the keys. */
  lemma {:induction false} ScopeIsOutput(matches: seq<MatchClause>, wheres: seq<Expression>, sts: seq<Statement>,
                                         scope: seq<Expression>, names: set<string>)
    requires IsScope(scope) && sts != [] && LowerStatements(matches, wheres, sts, scope, names).Ok?
    ensures var lowered := LowerStatements(matches, wheres, sts, scope, names).value;
            ScopeNamesOutput(lowered)
    decreases |sts|
  {
    HeadScopeIsOutput(matches, wheres, sts[0], scope, names);
    var head := LowerStatement(matches, wheres, sts[0], scope, names).value;
    StatementsUnfold(matches, wheres, sts, scope, names);
    if |sts| > 1 {
      ScopeIsOutput([], [], sts[1..], head.scope, names);
      PartsBefore(head.parts, LowerStatements([], [], sts[1..], head.scope, names).value);
    }
  }

  lemma StatementsUnfold(matches: seq<MatchClause>, wheres: seq<Expression>, sts: seq<Statement>,
                         scope: seq<Expression>, names: set<string>)
    requires sts != [] && LowerStatements(matches, wheres, sts, scope, names).Ok?
    ensures LowerStatement(matches, wheres, sts[0], scope, names).Ok?
    ensures var lowered, head := LowerStatements(matches, wheres, sts, scope, names).value, LowerStatement(matches, wheres, sts[0], scope, names).value;
            if |sts| == 1 then lowered == head
            else var rest := LowerStatements([], [], sts[1..], head.scope, names);
                 rest.Ok? && lowered == Lowered(head.parts + rest.value.parts, rest.value.scope)
  {
    if |sts| == 1 {
      var head := LowerStatement(matches, wheres, sts[0], scope, names).value;
      assert sts[1..] == [] && head.parts + [] == head.parts;
    }
  }

  lemma LetNames(bs: seq<(string, Expression)>)
    ensures ColumnNames(LetItems(bs)) == ColumnNames(LetScope(bs))
  {
    forall i | 0 <= i < |bs|
      ensures ColumnName(LetItems(bs)[i]) == ColumnName(LetScope(bs)[i])
      ensures LetItems(bs)[i] in LetItems(bs) && LetScope(bs)[i] in LetScope(bs)
    {
    }
  }

  // ---------------------------------------------------------------- conservation of clauses

  function PartWheres(parts: seq<QueryPart>): seq<Expression> {
    if parts == [] then [] else parts[0].wheres + PartWheres(parts[1..])
  }

  function Filters(sts: seq<Statement>): seq<Expression> {
    if sts == [] then [] else (if sts[0].Filter? then [sts[0].condition] else []) + Filters(sts[1..])
  }

  function SegmentFilters(segs: seq<Segment>): seq<Expression> {
    if segs == [] then [] else Filters(segs[0].statements) + SegmentFilters(segs[1..])
  }

  ghost predicate OnlyFirstMatches(parts: seq<QueryPart>) {
    forall i | 1 <= i < |parts| :: parts[i].matches == []
  }

  lemma {:induction false} PartWheresConcat(a: seq<QueryPart>, b: seq<QueryPart>)
    ensures PartWheres(a + b) == PartWheres(a) + PartWheres(b)
    decreases |a|
  {
    if a == [] {
      assert a + b == b;
    } else {
      PartWheresConcat(a[1..], b);
      assert (a + b)[0] == a[0] && (a + b)[1..] == a[1..] + b;
    }
  }

  /** `parts` carry the given clauses, the patterns all in the first part. */
  ghost predicate Carries(parts: seq<QueryPart>, matches: seq<MatchClause>, wheres: seq<Expression>) {
    parts != [] && parts[0].matches == matches && OnlyFirstMatches(parts) && PartWheres(parts) == wheres
  }

  lemma CarriesOne(part: QueryPart)
    ensures Carries([part], part.matches, part.wheres)
  {
    assert [part][1..] == [];
  }

  lemma CarriesConcat(a: seq<QueryPart>, b: seq<QueryPart>, matches: seq<MatchClause>, wheres: seq<Expression>, more: seq<Expression>)
    requires Carries(a, matches, wheres) && Carries(b, [], more)
    ensures Carries(a + b, matches, wheres + more)
  {
    PartWheresConcat(a, b);
  }

  lemma HeadCarries(matches: seq<MatchClause>, wheres: seq<Expression>, st: Statement, scope: seq<Expression>, names: set<string>)
    requires LowerStatement(matches, wheres, st, scope, names).Ok?
    ensures Carries(LowerStatement(matches, wheres, st, scope, names).value.parts, matches, wheres + Filters([st]))
  {
    var parts := LowerStatement(matches, wheres, st, scope, names).value.parts;
    assert [st][1..] == [] && wheres + [] == wheres;
    CarriesOne(parts[0]);
    if st.Filter? {
      assert Filters([st]) == [st.condition];
      var part := QueryPart([], [st.condition], IntoProjection(scope, names));
      CarriesOne(part);
      if matches == [] && wheres == [] {
        assert parts == [part] && [] + [st.condition] == [st.condition];
      } else {
        CarriesConcat([parts[0]], [part], matches, wheres, [st.condition]);
      }
    }
  }

  lemma {:induction false} StatementsCarry(matches: seq<MatchClause>, wheres: seq<Expression>, sts: seq<Statement>,
                                           scope: seq<Expression>, names: set<string>)
    requires sts != [] && LowerStatements(matches, wheres, sts, scope, names).Ok?
    ensures Carries(LowerStatements(matches, wheres, sts, scope, names).value.parts, matches, wheres + Filters(sts))
    decreases |sts|
  {
    HeadCarries(matches, wheres, sts[0], scope, names);
    var head := LowerStatement(matches, wheres, sts[0], scope, names).value;
    assert [sts[0]][1..] == [];
    if |sts| == 1 {
      assert sts == [sts[0]] && head.parts + [] == head.parts;
    } else {
      StatementsCarry([], [], sts[1..], head.scope, names);
      assert [] + Filters(sts[1..]) == Filters(sts[1..]);
      CarriesConcat(head.parts, LowerStatements([], [], sts[1..], head.scope, names).value.parts, matches,
                    wheres + Filters([sts[0]]), Filters(sts[1..]));
      assert Filters([sts[0]]) + [] == Filters([sts[0]]);
      Assoc(wheres, Filters([sts[0]]), Filters(sts[1..]));
    }
  }

  lemma ReturnCarries(matches: seq<MatchClause>, wheres: seq<Expression>, seg: Segment, names: set<string>)
    requires LowerReturn(matches, wheres, seg, names).Ok?
    ensures Carries(LowerReturn(matches, wheres, seg, names).value, matches, wheres)
  {
    var parts := LowerReturn(matches, wheres, seg, names).value;
    CarriesOne(parts[0]);
    if |parts| == 2 {
      CarriesOne(parts[1]);
      CarriesConcat([parts[0]], [parts[1]], matches, wheres, []);
      assert parts == [parts[0]] + [parts[1]] && wheres + [] == wheres;
    } else {
      assert parts == [parts[0]];
    }
  }

  lemma SegmentCarries(matches: seq<MatchClause>, wheres: seq<Expression>, seg: Segment, scope: seq<Expression>, names: set<string>)
    requires LowerSegment(matches, wheres, seg, scope, names).Ok?
    ensures Carries(LowerSegment(matches, wheres, seg, scope, names).value, matches, wheres + Filters(seg.statements))
  {
    if seg.statements == [] {
      ReturnCarries(matches, wheres, seg, names);
      assert wheres + Filters(seg.statements) == wheres;
    } else {
      StatementsCarry(matches, wheres, seg.statements, scope, names);
      ReturnCarries([], [], seg, names);
      var lowered := LowerStatements(matches, wheres, seg.statements, scope, names).value;
      CarriesConcat(lowered.parts, LowerReturn([], [], seg, names).value, matches, wheres + Filters(seg.statements), []);
      assert wheres + Filters(seg.statements) + [] == wheres + Filters(seg.statements);
    }
  }

  lemma {:induction false} NextCarries(parts: seq<QueryPart>, next: seq<Segment>, names: set<string>,
                                       matches: seq<MatchClause>, wheres: seq<Expression>)
    requires parts != [] && LowerNext(parts, next, names).Ok? && Carries(parts, matches, wheres)
    ensures Carries(LowerNext(parts, next, names).value, matches, wheres + SegmentFilters(next))
    decreases |next|
  {
    if next == [] {
      assert wheres + [] == wheres;
    } else {
      var scope := ScopeItems(OutputItems(parts[|parts| - 1].projection)).value;
      var more := LowerSegment([], [], next[0], scope, names).value;
      var own := Filters(next[0].statements);
      SegmentCarries([], [], next[0], scope, names);
      assert [] + own == own;
      CarriesConcat(parts, more, matches, wheres, own);
      NextCarries(parts + more, next[1..], names, matches, wheres + own);
      Assoc(wheres, own, SegmentFilters(next[1..]));
    }
  }

  /** Across all parts of an accepted query, the patterns sit in the first part in source order, and the
      conditions are the user's WHEREs followed by the FILTERs of every segment, none lost or repeated. */
  lemma ClausesAreConserved(q: SurfaceQuery, names: set<string>)
    requires LowerQuery(q, names).Ok?
    ensures var parts := LowerQuery(q, names).value;
            && parts != [] && parts[0].matches == AllMatches(q.groups) && OnlyFirstMatches(parts)
            && PartWheres(parts) == AllWheres(q.groups) + SegmentFilters([q.first] + q.next)
  {
    var matches, wheres := AllMatches(q.groups), AllWheres(q.groups);
    var first := LowerSegment(matches, wheres, q.first, StartingScope(matches), names).value;
    var own := Filters(q.first.statements);
    SegmentCarries(matches, wheres, q.first, StartingScope(matches), names);
    NextCarries(first, q.next, names, matches, wheres + own);
    assert ([q.first] + q.next)[1..] == q.next;
    Assoc(wheres, own, SegmentFilters(q.next));
  }

  // ---------------------------------------------------------------- the parts of FILTER

  /** Parts with a condition of their own do not group. The first part may carry the WHERE clauses of the query, and then
      it is left out. */
  predicate PlainConditions(parts: seq<QueryPart>, carriesWhere: bool) {
    forall i | 0 <= i < |parts| && (i > 0 || !carriesWhere) && parts[i].wheres != [] :: parts[i].projection.Item?
  }

  lemma PlainConcat(a: seq<QueryPart>, b: seq<QueryPart>, carriesWhere: bool)
    requires a != [] && PlainConditions(a, carriesWhere) && PlainConditions(b, false)
    ensures PlainConditions(a + b, carriesWhere)
  {
    forall i | 0 <= i < |a + b| && (i > 0 || !carriesWhere) && (a + b)[i].wheres != []
      ensures (a + b)[i].projection.Item?
    {
      assert (a + b)[i] == if i < |a| then a[i] else b[i - |a|];
    }
  }

  lemma HeadPlain(matches: seq<MatchClause>, wheres: seq<Expression>, st: Statement, scope: seq<Expression>, names: set<string>)
    requires IsScope(scope) && LowerStatement(matches, wheres, st, scope, names).Ok?
    ensures PlainConditions(LowerStatement(matches, wheres, st, scope, names).value.parts, wheres != [])
  {
    if st.Filter? {
      ScopeHasNoAggregates(scope, names);
    } else {
      assert |LowerStatement(matches, wheres, st, scope, names).value.parts| == 1;
    }
  }

  lemma {:induction false} StatementsPlain(matches: seq<MatchClause>, wheres: seq<Expression>, sts: seq<Statement>,
                                           scope: seq<Expression>, names: set<string>)
    requires IsScope(scope) && sts != [] && LowerStatements(matches, wheres, sts, scope, names).Ok?
    ensures PlainConditions(LowerStatements(matches, wheres, sts, scope, names).value.parts, wheres != [])
    decreases |sts|
  {
    StatementsUnfold(matches, wheres, sts, scope, names);
    HeadScopeIsOutput(matches, wheres, sts[0], scope, names);
    HeadPlain(matches, wheres, sts[0], scope, names);
    var head := LowerStatement(matches, wheres, sts[0], scope, names).value;
    if |sts| > 1 {
      StatementsPlain([], [], sts[1..], head.scope, names);
      PlainConcat(head.parts, LowerStatements([], [], sts[1..], head.scope, names).value.parts, wheres != []);
    }
  }

  lemma SegmentPlain(matches: seq<MatchClause>, wheres: seq<Expression>, seg: Segment, scope: seq<Expression>, names: set<string>)
    requires IsScope(scope) && LowerSegment(matches, wheres, seg, scope, names).Ok?
    ensures LowerSegment(matches, wheres, seg, scope, names).value != []
    ensures PlainConditions(LowerSegment(matches, wheres, seg, scope, names).value, wheres != [])
  {
    if seg.statements != [] {
      StatementsPlain(matches, wheres, seg.statements, scope, names);
      ScopeIsOutput(matches, wheres, seg.statements, scope, names);
      PlainConcat(LowerStatements(matches, wheres, seg.statements, scope, names).value.parts,
                  LowerReturn([], [], seg, names).value, wheres != []);
    }
  }

  lemma {:induction false} NextPlain(parts: seq<QueryPart>, next: seq<Segment>, names: set<string>, carriesWhere: bool)
    requires parts != [] && LowerNext(parts, next, names).Ok? && PlainConditions(parts, carriesWhere)
    ensures PlainConditions(LowerNext(parts, next, names).value, carriesWhere)
    decreases |next|
  {
    if next != [] {
      var scope := ScopeItems(OutputItems(parts[|parts| - 1].projection)).value;
      var more := LowerSegment([], [], next[0], scope, names).value;
      ScopeItemsNames(OutputItems(parts[|parts| - 1].projection));
      SegmentPlain([], [], next[0], scope, names);
      PlainConcat(parts, more, carriesWhere);
      NextPlain(parts + more, next[1..], names, carriesWhere);
    }
  }

  /** In every accepted query, each part that carries a FILTER condition shows its rows one by one: filtering never
      groups them. */
  lemma FilterPartsDoNotGroup(q: SurfaceQuery, names: set<string>)
    requires LowerQuery(q, names).Ok?
    ensures PlainConditions(LowerQuery(q, names).value, AllWheres(q.groups) != [])
  {
    var matches, wheres := AllMatches(q.groups), AllWheres(q.groups);
    StartingScopeIsNodes(matches);
    SegmentPlain(matches, wheres, q.first, StartingScope(matches), names);
    NextPlain(LowerSegment(matches, wheres, q.first, StartingScope(matches), names).value, q.next, names, wheres != []);
  }

  // ---------------------------------------------------------------- how many parts

  /** Every statement becomes one part, and a FILTER that comes first while a MATCH or WHERE is pending becomes two. */
  lemma {:induction false} StatementPartsAreCounted(matches: seq<MatchClause>, wheres: seq<Expression>, sts: seq<Statement>,
                                                    scope: seq<Expression>, names: set<string>)
    requires sts != [] && LowerStatements(matches, wheres, sts, scope, names).Ok?
    ensures |LowerStatements(matches, wheres, sts, scope, names).value.parts|
            == |sts| + if (matches != [] || wheres != []) && sts[0].Filter? then 1 else 0
    decreases |sts|
  {
    StatementsUnfold(matches, wheres, sts, scope, names);
    if |sts| > 1 {
      StatementPartsAreCounted([], [], sts[1..], LowerStatement(matches, wheres, sts[0], scope, names).value.scope, names);
    }
  }

  /** A segment adds one part for RETURN, or two when GROUP BY has a key that is not returned. */
  lemma SegmentPartsAreCounted(matches: seq<MatchClause>, wheres: seq<Expression>, seg: Segment, scope: seq<Expression>, names: set<string>)
    requires LowerSegment(matches, wheres, seg, scope, names).Ok?
    ensures |LowerSegment(matches, wheres, seg, scope, names).value|
            == |seg.statements|
               + (if (matches != [] || wheres != []) && seg.statements != [] && seg.statements[0].Filter? then 1 else 0)
               + (if seg.groupBy.Some? && !AllKeysReturned(seg.groupBy.value, Keys(seg.returned, names)) then 2 else 1)
  {
    if seg.statements != [] { StatementPartsAreCounted(matches, wheres, seg.statements, scope, names); }
  }
}
