/** Exactly which queries the lowering rejects, and with which error. */
module QueryRejection {
  import opened Wrappers
  import opened Sequences
  import opened Ast
  import opened Aggregates
  import opened Lowering
  import opened Engine
  import opened Projections
  import opened Statements
  import opened Query
  import opened Rejection

  // ---------------------------------------------------------------- the faults of a query

  /** A YIELD item that is unaliased and complex or not in scope; a RETURN item outside GROUP BY; an item before NEXT
      that has no name. */
  datatype Fault = BadItem(statement: nat, item: nat) | Ungrouped | Unnamed(item: nat)

  /** What the last part of a segment outputs: the items as written when GROUP BY names a key that is not returned,
      or else the plain items and then the aggregates. */
  function FinalItems(seg: Segment, names: set<string>): seq<Expression> {
    if seg.groupBy.Some? && !AllKeysReturned(seg.groupBy.value, Keys(seg.returned, names)) then ToAliasIdents(seg.returned)
    else Keys(seg.returned, names) + Aggs(seg.returned, names)
  }

  /** The GROUP BY key stands for the RETURN item: it is the item's alias, or it equals the item up to the position of an
      outer call. An aliased key stands for that very item only. */
  predicate StandsFor(key: Expression, item: Expression) {
    if key.Alias? then key == item else Core(key) == Core(ToAliasIdent(item))
  }

  /** Which keys the lowering takes to match an item. */
  lemma MatchingIsExact(item: Expression, key: Expression)
    ensures MatchesGroupByKey(item, key) <==> StandsFor(key, item)
  {
  }

  /** Some RETURN item without an aggregate has no key that stands for it. */
  predicate PlainItemUngrouped(returned: seq<Expression>, keys: seq<Expression>, names: set<string>) {
    exists e | e in returned :: !HasAggregate(e, names) && forall k | k in keys :: !StandsFor(k, e)
  }

  lemma UngroupedIsExact(returned: seq<Expression>, keys: seq<Expression>, names: set<string>)
    ensures SomeReturnUngrouped(keys, Keys(returned, names)) <==> PlainItemUngrouped(returned, keys, names)
  {
    forall e
      ensures e in Keys(returned, names) <==> e in returned && !HasAggregate(e, names)
      ensures (forall k | k in keys :: !MatchesGroupByKey(e, k)) <==> forall k | k in keys :: !StandsFor(k, e)
    {
      AggsMember(returned, names, e);
      forall k ensures MatchesGroupByKey(e, k) <==> StandsFor(k, e) { MatchingIsExact(e, k); }
    }
  }

  predicate Named(e: Expression) {
    e.Alias? || e.Identifier?
  }

  predicate SegmentFault(seg: Segment, scope: seq<Expression>, last: bool, names: set<string>, f: Fault) {
    match f
    case BadItem(k, l) => BadAt(seg.statements, scope, k, l)
    case Ungrouped => seg.groupBy.Some? && PlainItemUngrouped(seg.returned, seg.groupBy.value, names)
    case Unnamed(j) => !last && j < |FinalItems(seg, names)| && !Named(FinalItems(seg, names)[j])
  }

  function Identifiers(es: seq<Expression>): seq<Expression> {
    seq(|es|, i requires 0 <= i < |es| => Identifier(ColumnName(es[i])))
  }

  /** The scope a segment starts from: that of the query, or what the segment before it outputs. */
  function ScopeOf(segs: seq<Segment>, scope: seq<Expression>, names: set<string>, i: nat): seq<Expression>
    requires i < |segs|
  {
    if i == 0 then scope else Identifiers(FinalItems(segs[i - 1], names))
  }

  predicate FaultAt(segs: seq<Segment>, scope: seq<Expression>, names: set<string>, i: nat, f: Fault) {
    i < |segs| && SegmentFault(segs[i], ScopeOf(segs, scope, names, i), i == |segs| - 1, names, f)
  }

  /** Within a segment: statements in order, then GROUP BY, then the names of the output in order. */
  predicate NotAfter(f: Fault, g: Fault) {
    match (f, g)
    case (BadItem(i, j), BadItem(k, l)) => i < k || (i == k && j <= l)
    case (BadItem(_, _), _) => true
    case (Ungrouped, BadItem(_, _)) => false
    case (Ungrouped, _) => true
    case (Unnamed(i), Unnamed(j)) => i <= j
    case (Unnamed(_), _) => false
  }

  /** The places and faults of a list of segments. */
  function Faults(segs: seq<Segment>, scope: seq<Expression>, names: set<string>): (nat, Fault) -> bool {
    (j: nat, g: Fault) => FaultAt(segs, scope, names, j, g)
  }

  ghost predicate NoFaults(at: (nat, Fault) -> bool) {
    forall j: nat, g :: !at(j, g)
  }

  ghost predicate First(at: (nat, Fault) -> bool, i: nat, f: Fault) {
    at(i, f) && forall j: nat, g | at(j, g) :: i < j || (i == j && NotAfter(f, g))
  }

  function FaultError(seg: Segment, scope: seq<Expression>, names: set<string>, f: Fault): LoweringError
    requires SegmentFault(seg, scope, false, names, f)
  {
    match f
    case BadItem(k, l) => BadItemError(seg.statements[k].items[l].0)
    case Ungrouped => MissingGroupByKey
    case Unnamed(j) => UnaliasedComplexExpression(FinalItems(seg, names)[j])
  }

  /** The outcome of lowering the segments is the error of their first fault, if they have one. */
  ghost predicate Decided<T>(r: Result<T, LoweringError>, segs: seq<Segment>, scope: seq<Expression>, names: set<string>,
                             i: nat, f: Fault)
  {
    match r
    case Ok(_) => NoFaults(Faults(segs, scope, names))
    case Err(e) =>
      && First(Faults(segs, scope, names), i, f)
      && FaultAt(segs, scope, names, i, f)
      && e == FaultError(segs[i], ScopeOf(segs, scope, names, i), names, f)
  }

  // ---------------------------------------------------------------- one segment

  lemma {:induction false} ScopeRejection(es: seq<Expression>) returns (j: nat)
    ensures ScopeItems(es).Ok? ==> ScopeItems(es).value == Identifiers(es) && forall i | 0 <= i < |es| :: Named(es[i])
    ensures ScopeItems(es).Err? ==>
              && j < |es| && !Named(es[j]) && ScopeItems(es).error == UnaliasedComplexExpression(es[j])
              && forall i | 0 <= i < j :: Named(es[i])
    decreases |es|
  {
    j := 0;
    if es != [] {
      var init := es[..|es| - 1];
      j := ScopeRejection(init);
      assert forall i | 0 <= i < |init| :: init[i] == es[i];
      if ScopeItems(init).Ok? {
        j := |es| - 1;
        assert ScopeItem(es[j]).Ok? ==> Identifiers(es) == Identifiers(init) + [ScopeItem(es[j]).value];
      }
    }
  }

  /** A segment is lowered if and only if its statements and its GROUP BY have no fault; its last part then outputs
      `FinalItems`. Otherwise the first of those faults is the error. */
  lemma SegmentRejection(matches: seq<MatchClause>, wheres: seq<Expression>, seg: Segment, scope: seq<Expression>,
                         names: set<string>) returns (f: Fault)
    ensures var r := LowerSegment(matches, wheres, seg, scope, names);
            && (r.Ok? ==> !SegmentFault(seg, scope, false, names, Ungrouped) && NoBadItem(seg, scope)
                          && r.value != [] && LastOutput(r.value) == FinalItems(seg, names))
            && (r.Err? ==> !f.Unnamed? && SegmentFault(seg, scope, false, names, f)
                           && r.error == FaultError(seg, scope, names, f) && FirstIn(seg, scope, names, f))
  {
    var i, j := RejectionIsExact(matches, wheres, seg.statements, scope, names);
    if seg.groupBy.Some? { UngroupedIsExact(seg.returned, seg.groupBy.value, names); }
    if LowerStatements(matches, wheres, seg.statements, scope, names).Err? {
      f := BadItem(i, j);
    } else {
      f := Ungrouped;
      assert Keys(seg.returned, names) + [] == Keys(seg.returned, names);
    }
  }

  ghost predicate NoBadItem(seg: Segment, scope: seq<Expression>) {
    forall k: nat, l: nat :: !BadAt(seg.statements, scope, k, l)
  }

  ghost predicate FirstIn(seg: Segment, scope: seq<Expression>, names: set<string>, f: Fault) {
    forall last: bool, g | SegmentFault(seg, scope, last, names, g) :: NotAfter(f, g)
  }

  // ---------------------------------------------------------------- the segments after it

  lemma ScopeShift(seg: Segment, next: seq<Segment>, scope: seq<Expression>, names: set<string>, j: nat)
    requires j < |next|
    ensures ScopeOf([seg] + next, scope, names, j + 1) == ScopeOf(next, Identifiers(FinalItems(seg, names)), names, j)
  {
    assert ([seg] + next)[j] == if j == 0 then seg else next[j - 1];
  }

  /** Behind a first segment the faults are those of the others. */
  lemma FaultShift(seg: Segment, next: seq<Segment>, scope: seq<Expression>, names: set<string>, j: nat, g: Fault)
    ensures FaultAt([seg] + next, scope, names, j + 1, g)
            <==> FaultAt(next, Identifiers(FinalItems(seg, names)), names, j, g)
  {
    if j < |next| {
      ScopeShift(seg, next, scope, names, j);
      assert ([seg] + next)[j + 1] == next[j];
    }
  }

  ghost predicate Shifted(at: (nat, Fault) -> bool, rest: (nat, Fault) -> bool) {
    forall j: nat, g :: rest(j, g) == at(j + 1, g)
  }

  /** Without faults in the first segment, the first fault is that of the others. */
  lemma FirstShift(at: (nat, Fault) -> bool, rest: (nat, Fault) -> bool, i: nat, f: Fault)
    requires forall g :: !at(0, g)
    requires Shifted(at, rest)
    ensures NoFaults(rest) ==> NoFaults(at)
    ensures First(rest, i, f) ==> First(at, i + 1, f)
  {
    forall j: nat, g | at(j, g)
      ensures j > 0 && rest(j - 1, g)
    {
      assert j > 0;
      assert rest(j - 1, g) == at(j - 1 + 1, g);
    }
    assert rest(i, f) == at(i + 1, f);
  }

  lemma DecidedShift<T>(r: Result<T, LoweringError>, seg: Segment, next: seq<Segment>, scope: seq<Expression>,
                        names: set<string>, i: nat, f: Fault)
    requires forall g :: !FaultAt([seg] + next, scope, names, 0, g)
    requires Decided(r, next, Identifiers(FinalItems(seg, names)), names, i, f)
    ensures Decided(r, [seg] + next, scope, names, i + 1, f)
  {
    FaultsShift(seg, next, scope, names, i, f);
    if r.Err? { ErrorShift(seg, next, scope, names, i, f); }
  }

  lemma FaultsShift(seg: Segment, next: seq<Segment>, scope: seq<Expression>, names: set<string>, i: nat, f: Fault)
    requires forall g :: !FaultAt([seg] + next, scope, names, 0, g)
    ensures var at, rest := Faults([seg] + next, scope, names), Faults(next, Identifiers(FinalItems(seg, names)), names);
            (NoFaults(rest) ==> NoFaults(at)) && (First(rest, i, f) ==> First(at, i + 1, f))
  {
    RestIsShifted(seg, next, scope, names);
    FirstShift(Faults([seg] + next, scope, names), Faults(next, Identifiers(FinalItems(seg, names)), names), i, f);
  }

  lemma RestIsShifted(seg: Segment, next: seq<Segment>, scope: seq<Expression>, names: set<string>)
    ensures Shifted(Faults([seg] + next, scope, names), Faults(next, Identifiers(FinalItems(seg, names)), names))
  {
    var at, rest := Faults([seg] + next, scope, names), Faults(next, Identifiers(FinalItems(seg, names)), names);
    forall j: nat, g
      ensures rest(j, g) == at(j + 1, g)
    {
      ShiftedAt(seg, next, scope, names, j, g);
    }
  }

  lemma ShiftedAt(seg: Segment, next: seq<Segment>, scope: seq<Expression>, names: set<string>, j: nat, g: Fault)
    ensures Faults(next, Identifiers(FinalItems(seg, names)), names)(j, g) == Faults([seg] + next, scope, names)(j + 1, g)
  {
    FaultShift(seg, next, scope, names, j, g);
  }

  lemma ErrorShift(seg: Segment, next: seq<Segment>, scope: seq<Expression>, names: set<string>, i: nat, f: Fault)
    requires FaultAt(next, Identifiers(FinalItems(seg, names)), names, i, f)
    ensures var segs, inner := [seg] + next, Identifiers(FinalItems(seg, names));
            && FaultAt(segs, scope, names, i + 1, f)
            && FaultError(segs[i + 1], ScopeOf(segs, scope, names, i + 1), names, f)
               == FaultError(next[i], ScopeOf(next, inner, names, i), names, f)
  {
    FaultShift(seg, next, scope, names, i, f);
    ScopeShift(seg, next, scope, names, i);
    assert ([seg] + next)[i + 1] == next[i];
  }

  /** A fault of the first segment that is first within it is the first of all. */
  lemma DecidedByHead<T>(r: Result<T, LoweringError>, segs: seq<Segment>, scope: seq<Expression>, names: set<string>, f: Fault)
    requires segs != [] && FaultAt(segs, scope, names, 0, f) && FirstIn(segs[0], scope, names, f)
    requires r.Err? && r.error == FaultError(segs[0], scope, names, f)
    ensures Decided(r, segs, scope, names, 0, f)
  {
    forall j: nat, g | Faults(segs, scope, names)(j, g)
      ensures 0 < j || NotAfter(f, g)
    {
    }
  }

  lemma NextUnfolds(parts: seq<QueryPart>, next: seq<Segment>, scope: seq<Expression>, names: set<string>)
    requires parts != [] && next != [] && ScopeItems(LastOutput(parts)) == Ok(scope)
    ensures var lowered := LowerSegment([], [], next[0], scope, names);
            LowerNext(parts, next, names) == if lowered.Err? then lowered else LowerNext(parts + lowered.value, next[1..], names)
  {
  }

  lemma NoHeadFault(seg: Segment, next: seq<Segment>, scope: seq<Expression>, names: set<string>)
    requires !SegmentFault(seg, scope, false, names, Ungrouped) && NoBadItem(seg, scope)
    requires forall i | 0 <= i < |FinalItems(seg, names)| :: Named(FinalItems(seg, names)[i])
    ensures forall g :: !FaultAt([seg] + next, scope, names, 0, g)
  {
    assert ([seg] + next)[0] == seg;
  }

  lemma {:induction false} NextRejection(parts: seq<QueryPart>, seg: Segment, next: seq<Segment>, scope: seq<Expression>,
                                         names: set<string>) returns (i: nat, f: Fault)
    requires parts != [] && LastOutput(parts) == FinalItems(seg, names)
    requires !SegmentFault(seg, scope, false, names, Ungrouped) && NoBadItem(seg, scope)
    ensures Decided(LowerNext(parts, next, names), [seg] + next, scope, names, i, f)
    decreases |next|, 2
  {
    i, f := 0, Ungrouped;
    if next != [] {
      var j := ScopeRejection(FinalItems(seg, names));
      var named := ScopeItems(FinalItems(seg, names));
      if named.Err? {
        f := Unnamed(j);
        DecidedByHead(LowerNext(parts, next, names), [seg] + next, scope, names, f);
      } else {
        i, f := AfterNamed(parts, seg, next, scope, names);
      }
    }
  }

  lemma {:induction false} AfterNamed(parts: seq<QueryPart>, seg: Segment, next: seq<Segment>, scope: seq<Expression>,
                                      names: set<string>) returns (i: nat, f: Fault)
    requires parts != [] && next != [] && LastOutput(parts) == FinalItems(seg, names)
    requires !SegmentFault(seg, scope, false, names, Ungrouped) && NoBadItem(seg, scope)
    requires ScopeItems(FinalItems(seg, names)) == Ok(Identifiers(FinalItems(seg, names)))
    requires forall i | 0 <= i < |FinalItems(seg, names)| :: Named(FinalItems(seg, names)[i])
    ensures Decided(LowerNext(parts, next, names), [seg] + next, scope, names, i, f)
    decreases |next|, 1
  {
    i, f := RestDecided(parts, next, Identifiers(FinalItems(seg, names)), names);
    NoHeadFault(seg, next, scope, names);
    DecidedShift(LowerNext(parts, next, names), seg, next, scope, names, i, f);
    i := i + 1;
  }

  lemma {:induction false} RestDecided(parts: seq<QueryPart>, next: seq<Segment>, scope: seq<Expression>, names: set<string>)
    returns (i: nat, f: Fault)
    requires parts != [] && next != [] && ScopeItems(LastOutput(parts)) == Ok(scope)
    ensures Decided(LowerNext(parts, next, names), next, scope, names, i, f)
    decreases |next|, 0
  {
    var lowered := LowerSegment([], [], next[0], scope, names);
    f := SegmentRejection([], [], next[0], scope, names);
    NextUnfolds(parts, next, scope, names);
    if lowered.Err? {
      i := 0;
      DecidedByHead(LowerNext(parts, next, names), next, scope, names, f);
    } else {
      SplitFirst(next);
      assert LastOutput(parts + lowered.value) == LastOutput(lowered.value);
      i, f := NextRejection(parts + lowered.value, next[0], next[1..], scope, names);
    }
  }

  // ---------------------------------------------------------------- the query

  /** A query is rejected if and only if some segment has a YIELD item that is unaliased and complex or not in scope
      there, or a plain RETURN item outside its GROUP BY, or, before a NEXT, an output without a name; and the first of
      these, in source order, is the error. */
  lemma QueryRejectionIsExact(q: SurfaceQuery, names: set<string>) returns (i: nat, f: Fault)
    ensures var segs, scope := [q.first] + q.next, StartingScope(AllMatches(q.groups));
            && (LowerQuery(q, names).Err? <==> !NoFaults(Faults(segs, scope, names)))
            && Decided(LowerQuery(q, names), segs, scope, names, i, f)
  {
    var matches, wheres := AllMatches(q.groups), AllWheres(q.groups);
    var segs, scope := [q.first] + q.next, StartingScope(matches);
    var first := LowerSegment(matches, wheres, q.first, scope, names);
    f := SegmentRejection(matches, wheres, q.first, scope, names);
    i := 0;
    if first.Err? {
      DecidedByHead(LowerQuery(q, names), segs, scope, names, f);
    } else {
      i, f := NextRejection(first.value, q.first, q.next, scope, names);
    }
  }

  /** So in an accepted query every RETURN item before a NEXT is aliased or an identifier. */
  lemma NamedBeforeNext(q: SurfaceQuery, names: set<string>, i: nat, e: Expression)
    requires LowerQuery(q, names).Ok? && i < |q.next| && e in ([q.first] + q.next)[i].returned
    ensures e.Alias? || e.Identifier?
  {
    var segs, scope := [q.first] + q.next, StartingScope(AllMatches(q.groups));
    var _, _ := QueryRejectionIsExact(q, names);
    var j := FinalPosition(segs[i], names, e);
    assert !Faults(segs, scope, names)(i, Unnamed(j));
  }

  lemma FinalPosition(seg: Segment, names: set<string>, e: Expression) returns (j: nat)
    requires e in seg.returned
    ensures j < |FinalItems(seg, names)| && (Named(FinalItems(seg, names)[j]) ==> Named(e))
  {
    if seg.groupBy.Some? && !AllKeysReturned(seg.groupBy.value, Keys(seg.returned, names)) {
      j :| j < |seg.returned| && seg.returned[j] == e;
    } else {
      AggsMember(seg.returned, names, e);
      assert e in FinalItems(seg, names);
      j :| j < |FinalItems(seg, names)| && FinalItems(seg, names)[j] == e;
    }
  }

  // ---------------------------------------------------------------- the scope after NEXT

  lemma IdentifierNames(es: seq<Expression>)
    ensures IsScope(Identifiers(es)) && ColumnNames(Identifiers(es)) == ColumnNames(es)
  {
    var ids := Identifiers(es);
    forall i | 0 <= i < |es|
      ensures ColumnName(ids[i]) == ColumnName(es[i]) && ids[i] in ids && es[i] in es
    {
    }
  }

  /** The scope a segment starts from after NEXT names exactly what the segment before returns. */
  lemma ScopeAfterNext(q: SurfaceQuery, names: set<string>, i: nat)
    requires i < |q.next|
    ensures var segs := [q.first] + q.next;
            var scope := ScopeOf(segs, StartingScope(AllMatches(q.groups)), names, i + 1);
            IsScope(scope) && ColumnNames(scope) == ReturnNames(segs[i])
  {
    var seg := ([q.first] + q.next)[i];
    IdentifierNames(FinalItems(seg, names));
    ReturnColumnNames(seg.returned);
    KeysAndAggsNames(seg.returned, names);
    AliasIdentNames(seg.returned);
  }
}
