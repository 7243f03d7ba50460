/** Explicit GROUP BY: when the one-part or two-part rewrite means what the clause means, exactly. */
module GroupBy {
  import opened Wrappers
  import opened Sequences
  import opened Ast
  import opened Aggregates
  import opened Lowering
  import opened Engine
  import opened Direct
  import opened Projections
  import opened Statements

  /** RETURN columns have distinct names, as section 14.11 of ISO/IEC 39075:2024 demands. */
  predicate DistinctNames(items: seq<Expression>) {
    forall i, j | 0 <= i < j < |items| :: ColumnName(items[i]) != ColumnName(items[j])
  }

  /** The grouping part stores the expression `e` under the column `name`. */
  predicate Stores(full: seq<Expression>, aggs: seq<Expression>, name: string, e: Expression) {
    name !in ColumnNames(aggs) && LastNamed(full, name).Some? && Core(LastNamed(full, name).value) == Core(e)
  }

  /** The second part can read the item back from the row of the first: a named item through its own
      column, an unnamed one because every variable it mentions is itself a stored key. */
  predicate Recovers(item: Expression, full: seq<Expression>, aggs: seq<Expression>, names: set<string>) {
    if item.Alias? || item.Identifier? then
      HasAggregate(item, names) || Stores(full, aggs, ColumnName(item), item)
    else
      !HasAggregate(item, names) && forall v | v in FreeVars(item) :: Stores(full, aggs, v, Identifier(v))
  }

  /** The condition under which the rewrite keeps the meaning. */
  predicate FaithfulGroupBy(returned: seq<Expression>, keys: seq<Expression>, names: set<string>) {
    && Aggs(returned, names) != []
    && (|| AllKeysReturned(keys, Keys(returned, names))
        || forall e | e in returned :: Recovers(e, FullKeys(returned, keys), Aggs(returned, names), names))
  }

  // ---------------------------------------------------------------- keys

  lemma {:induction false} EvalCore(eng: LawfulEngine, e: Expression, r: Row)
    ensures eng.eval(e, r) == eng.eval(Core(e), r)
  {
    match e
    case Alias(s, a) => EvalCore(eng, s, r);
    case _ =>
  }

  lemma {:induction false} ResolveUnaliased(returned: seq<Expression>, k: Expression)
    requires forall e | e in returned :: !(e.Alias? && k.Identifier? && e.alias == k.name)
    ensures ResolveKey(returned, k) == k
  {
    if returned != [] && k.Identifier? {
      assert returned[0] in returned && forall e | e in returned[1..] :: e in returned;
      ResolveUnaliased(returned[1..], k);
    }
  }

  lemma {:induction false} ResolveAliased(returned: seq<Expression>, e: Expression, k: Expression)
    requires DistinctNames(returned) && e in returned && e.Alias? && k.Identifier? && e.alias == k.name
    ensures ResolveKey(returned, k) == e.source
  {
    var i :| 0 <= i < |returned| && returned[i] == e;
    if i > 0 {
      assert ColumnName(returned[0]) != ColumnName(returned[i]);
      assert returned[1..][i - 1] == e;
      ResolveAliased(returned[1..], e, k);
    }
  }

  /** A RETURN item that matches a key shows the resolved key. */
  lemma MatchIsResolved(returned: seq<Expression>, e: Expression, k: Expression)
    requires DistinctNames(returned) && e in returned && MatchesGroupByKey(e, k)
    ensures Core(e) == Core(ResolveKey(returned, k))
  {
    if e.Alias? && k.Identifier? && e.alias == k.name {
      ResolveAliased(returned, e, k);
    } else {
      var i :| 0 <= i < |returned| && returned[i] == e;
      forall x | x in returned
        ensures !(x.Alias? && k.Identifier? && x.alias == k.name)
      {
        var j :| 0 <= j < |returned| && returned[j] == x;
        assert ColumnName(x) == ColumnName(e) ==> i == j;
      }
      ResolveUnaliased(returned, k);
    }
  }

  lemma {:induction false} FullKeyCases(returned: seq<Expression>, k: Expression)
    ensures var f := FullKey(returned, k);
            || (f in returned && MatchesGroupByKey(f, k))
            || (f == k && forall e | e in returned :: !MatchesGroupByKey(e, k))
  {
    if returned != [] {
      FullKeyCases(returned[1..], k);
      assert forall e :: e in returned <==> e == returned[0] || e in returned[1..];
    }
  }

  lemma FullKeyIsResolved(returned: seq<Expression>, k: Expression)
    requires DistinctNames(returned)
    ensures Core(FullKey(returned, k)) == Core(ResolveKey(returned, k))
  {
    FullKeyCases(returned, k);
    var f := FullKey(returned, k);
    if f in returned && MatchesGroupByKey(f, k) {
      MatchIsResolved(returned, f, k);
    } else {
      ResolveUnaliased(returned, k);
    }
  }

  lemma FullKeysGroupAlike(eng: LawfulEngine, returned: seq<Expression>, keys: seq<Expression>, rows: seq<Row>)
    requires DistinctNames(returned)
    ensures Groups(eng, FullKeys(returned, keys), rows) == Groups(eng, ResolveKeys(returned, keys), rows)
  {
    var full, resolved := FullKeys(returned, keys), ResolveKeys(returned, keys);
    forall r: Row
      ensures KeyOf(eng, full, r) == KeyOf(eng, resolved, r)
    {
      forall i | 0 <= i < |keys|
        ensures eng.eval(full[i], r) == eng.eval(resolved[i], r)
      {
        FullKeyIsResolved(returned, keys[i]);
        EvalCore(eng, full[i], r);
        EvalCore(eng, resolved[i], r);
      }
    }
    GroupsByPartition(eng, full, resolved, rows);
  }

  /** Every expression of `b` has the same core as one of `a`. */
  ghost predicate Covers(a: seq<Expression>, b: seq<Expression>) {
    forall i | 0 <= i < |b| :: HasCore(a, Core(b[i]))
  }

  ghost predicate HasCore(a: seq<Expression>, core: Expression) {
    exists j | 0 <= j < |a| :: Core(a[j]) == core
  }

  lemma CoveringKeys(eng: LawfulEngine, a: seq<Expression>, b: seq<Expression>, r: Row, s: Row)
    requires Covers(a, b) && KeyOf(eng, a, r) == KeyOf(eng, a, s)
    ensures KeyOf(eng, b, r) == KeyOf(eng, b, s)
  {
    forall i | 0 <= i < |b|
      ensures eng.eval(b[i], r) == eng.eval(b[i], s)
    {
      assert HasCore(a, Core(b[i]));
      var j :| 0 <= j < |a| && Core(a[j]) == Core(b[i]);
      assert KeyOf(eng, a, r)[j] == KeyOf(eng, a, s)[j];
      EvalCore(eng, a[j], r);
      EvalCore(eng, a[j], s);
      EvalCore(eng, b[i], r);
      EvalCore(eng, b[i], s);
    }
  }

  /** Keys that cover each other tell the same rows apart. */
  lemma CoveringGroups(eng: LawfulEngine, a: seq<Expression>, b: seq<Expression>, rows: seq<Row>)
    requires Covers(a, b) && Covers(b, a)
    ensures Groups(eng, a, rows) == Groups(eng, b, rows)
  {
    forall r, s | r in rows && s in rows
      ensures KeyOf(eng, a, r) == KeyOf(eng, a, s) <==> KeyOf(eng, b, r) == KeyOf(eng, b, s)
    {
      if KeyOf(eng, a, r) == KeyOf(eng, a, s) { CoveringKeys(eng, a, b, r, s); }
      if KeyOf(eng, b, r) == KeyOf(eng, b, s) { CoveringKeys(eng, b, a, r, s); }
    }
    GroupsByPartition(eng, a, b, rows);
  }

  lemma ReturnedCoverResolved(returned: seq<Expression>, keys: seq<Expression>, names: set<string>)
    requires DistinctNames(returned) && AllKeysReturned(keys, Keys(returned, names))
    ensures Covers(Keys(returned, names), ResolveKeys(returned, keys))
  {
    var plain := Keys(returned, names);
    forall j | 0 <= j < |keys|
      ensures HasCore(plain, Core(ResolveKey(returned, keys[j])))
    {
      assert keys[j] in keys;
      var e :| e in plain && MatchesGroupByKey(e, keys[j]);
      AggsMember(returned, names, e);
      MatchIsResolved(returned, e, keys[j]);
    }
  }

  lemma ResolvedCoverReturned(returned: seq<Expression>, keys: seq<Expression>, names: set<string>)
    requires DistinctNames(returned) && !SomeReturnUngrouped(keys, Keys(returned, names))
    ensures Covers(ResolveKeys(returned, keys), Keys(returned, names))
  {
    var plain, resolved := Keys(returned, names), ResolveKeys(returned, keys);
    forall i | 0 <= i < |plain|
      ensures HasCore(resolved, Core(plain[i]))
    {
      assert plain[i] in plain;
      AggsMember(returned, names, plain[i]);
      var k :| k in keys && MatchesGroupByKey(plain[i], k);
      MatchIsResolved(returned, plain[i], k);
      var j :| 0 <= j < |keys| && keys[j] == k;
      assert Core(resolved[j]) == Core(plain[i]);
    }
  }

  /** The check that rejects a RETURN item outside GROUP BY does its job: in an accepted query, every plain
      item has one value per group. */
  lemma AcceptedItemsAreGroupConstants(eng: LawfulEngine, returned: seq<Expression>, keys: seq<Expression>,
                                       names: set<string>, e: Expression, r: Row, s: Row)
    requires ExplicitGroupBy([], [], returned, keys, names).Ok? && DistinctNames(returned)
    requires e in returned && !HasAggregate(e, names)
    requires KeyOf(eng, ResolveKeys(returned, keys), r) == KeyOf(eng, ResolveKeys(returned, keys), s)
    ensures eng.eval(e, r) == eng.eval(e, s)
  {
    AggsMember(returned, names, e);
    ResolvedCoverReturned(returned, keys, names);
    CoveringKeys(eng, ResolveKeys(returned, keys), Keys(returned, names), r, s);
    var i :| 0 <= i < |Keys(returned, names)| && Keys(returned, names)[i] == e;
    assert KeyOf(eng, Keys(returned, names), r)[i] == KeyOf(eng, Keys(returned, names), s)[i];
  }

  /** A key is replaced by the first RETURN item that matches it, and kept if none does. */
  lemma {:induction false} FullKeyIsFirst(returned: seq<Expression>, key: Expression, i: nat)
    requires i <= |returned| && forall j | 0 <= j < i :: !MatchesGroupByKey(returned[j], key)
    requires i < |returned| ==> MatchesGroupByKey(returned[i], key)
    ensures FullKey(returned, key) == if i < |returned| then returned[i] else key
    decreases |returned|
  {
    if i > 0 { FullKeyIsFirst(returned[1..], key, i - 1); }
  }

  // ---------------------------------------------------------------- the row of the grouping part

  lemma {:induction false} AggsDistinct(items: seq<Expression>, names: set<string>, e: Expression)
    requires DistinctNames(items) && e in items && HasAggregate(e, names)
    ensures LastNamed(Aggs(items, names), ColumnName(e)) == Some(e)
    decreases |items|
  {
    var init, last := items[..|items| - 1], items[|items| - 1];
    SplitLast(items);
    if e == last {
      assert Aggs(items, names)[|Aggs(items, names)| - 1] == e;
    } else {
      assert e in init;
      var i :| 0 <= i < |init| && init[i] == e;
      assert ColumnName(items[i]) != ColumnName(last);
      AggsDistinct(init, names, e);
      KeysSnoc(init, last, names);
      InitOfSnoc(Aggs(init, names), last);
    }
  }

  /** What the row of the first part holds. */
  lemma GroupRowAt(eng: Engine, full: seq<Expression>, aggs: seq<Expression>, g: seq<Row>, name: string)
    requires g != []
    ensures var p := GroupRow(eng, full, aggs, g);
            && (name in ColumnNames(aggs) ==>
                  LastNamed(aggs, name).Some? && name in p && p[name] == eng.aggregate(LastNamed(aggs, name).value, g))
            && (name !in ColumnNames(aggs) && LastNamed(full, name).Some? ==>
                  name in p && p[name] == eng.eval(LastNamed(full, name).value, g[0]))
            && (name !in ColumnNames(aggs) && LastNamed(full, name).None? ==> name !in p)
  {
    LastNamedValue(eng, full, name, g[0], g);
    LastNamedValue(eng, aggs, name, g[0], g);
  }

  lemma StoredValue(eng: LawfulEngine, full: seq<Expression>, aggs: seq<Expression>, g: seq<Row>, name: string, e: Expression)
    requires g != [] && Stores(full, aggs, name, e)
    ensures var p := GroupRow(eng, full, aggs, g);
            name in p && p[name] == eng.eval(e, g[0])
  {
    GroupRowAt(eng, full, aggs, g, name);
    EvalCore(eng, LastNamed(full, name).value, g[0]);
    EvalCore(eng, e, g[0]);
  }

  lemma UnnamedRecovered(eng: LawfulEngine, item: Expression, full: seq<Expression>, aggs: seq<Expression>, g: seq<Row>)
    requires g != [] && (forall v | v in FreeVars(item) :: Stores(full, aggs, v, Identifier(v)))
    requires FreeVars(item) <= g[0].Keys
    ensures eng.eval(item, GroupRow(eng, full, aggs, g)) == eng.eval(item, g[0])
  {
    var p := GroupRow(eng, full, aggs, g);
    forall v | v in FreeVars(item)
      ensures v in p && p[v] == g[0][v]
    {
      StoredValue(eng, full, aggs, g, v, Identifier(v));
    }
    EvalSame(eng, FreeVars(item), item, p, g[0]);
  }

  /** A recoverable item has its value again after the second part. */
  lemma RecoveredValue(eng: LawfulEngine, item: Expression, returned: seq<Expression>, full: seq<Expression>,
                       names: set<string>, g: seq<Row>)
    requires g != [] && DistinctNames(returned) && item in returned && (HasAggregate(item, names) || FreeVars(item) <= g[0].Keys)
    requires Recovers(item, full, Aggs(returned, names), names)
    ensures eng.eval(ToAliasIdent(item), GroupRow(eng, full, Aggs(returned, names), g))
            == ColumnValue(eng, Found(names), ReturnColumn(item), g)
  {
    var aggs := Aggs(returned, names);
    ReturnColumnFacts(item, names);
    ReturnColumnEval(eng, item, g[0], g);
    if item.Alias? || item.Identifier? {
      var a := ColumnName(item);
      assert ToAliasIdent(item) == Identifier(a);
      if HasAggregate(item, names) {
        AggsDistinct(returned, names, item);
        LastNamedValue(eng, aggs, a, g[0], g);
        GroupRowAt(eng, full, aggs, g, a);
      } else {
        StoredValue(eng, full, aggs, g, a, item);
      }
    } else {
      UnnamedRecovered(eng, item, full, aggs, g);
    }
  }

  // ---------------------------------------------------------------- the rewrite keeps the meaning

  lemma ReadBackStep(eng: LawfulEngine, names: set<string>, items: seq<Expression>, e: Expression, p: Row, g: seq<Row>)
    requires g != [] && Columns(eng, ToAliasIdents(items), p) == DirectRow(eng, Found(names), ReturnColumns(items), g)
    requires eng.eval(ToAliasIdent(e), p) == ColumnValue(eng, Found(names), ReturnColumn(e), g)
    ensures Columns(eng, ToAliasIdents(items + [e]), p) == DirectRow(eng, Found(names), ReturnColumns(items + [e]), g)
  {
    ToAliasIdentsSnoc(items, e);
    ColumnsSnoc(eng, ToAliasIdents(items), ToAliasIdent(e), p, g);
    DirectRowSnoc(eng, Found(names), items, e, g);
  }

  lemma {:induction false} ReadBack(eng: LawfulEngine, items: seq<Expression>, returned: seq<Expression>,
                                    full: seq<Expression>, names: set<string>, g: seq<Row>)
    requires g != [] && DistinctNames(returned) && ExprVars(Keys(returned, names)) <= g[0].Keys
    requires forall e | e in items :: e in returned && Recovers(e, full, Aggs(returned, names), names)
    ensures Columns(eng, ToAliasIdents(items), GroupRow(eng, full, Aggs(returned, names), g))
            == DirectRow(eng, Found(names), ReturnColumns(items), g)
    decreases |items|
  {
    if items != [] {
      var init, last := items[..|items| - 1], items[|items| - 1];
      SplitLast(items);
      ReadBack(eng, init, returned, full, names, g);
      AggsMember(returned, names, last);
      assert !HasAggregate(last, names) ==> FreeVars(last) <= ExprVars(Keys(returned, names));
      RecoveredValue(eng, last, returned, full, names, g);
      ReadBackStep(eng, names, init, last, GroupRow(eng, full, Aggs(returned, names), g), g);
    }
  }

  lemma DistinctNotShadowed(items: seq<Expression>, names: set<string>)
    requires DistinctNames(items)
    ensures NoAggregateShadowed(ReturnColumns(items), names)
  {
    var cols := ReturnColumns(items);
    forall c | c in cols && HasAggregate(c.expr, names)
      ensures LastColumn(cols, c.name) == Some(c)
    {
      var i :| 0 <= i < |cols| && cols[i] == c;
      LastColumnOfItems(items, c.name);
      LastOfDistinct(items, i);
    }
  }

  lemma {:induction false} LastOfDistinct(items: seq<Expression>, i: nat)
    requires DistinctNames(items) && i < |items|
    ensures LastNamed(items, ColumnName(items[i])) == Some(items[i])
    decreases |items|
  {
    if i < |items| - 1 { LastOfDistinct(items[..|items| - 1], i); }
  }

  lemma KeyVars(items: seq<Expression>, names: set<string>)
    ensures ExprVars(Keys(items, names)) <= ExprVars(items)
  {
    forall e | e in Keys(items, names)
      ensures e in items
    {
      AggsMember(items, names, e);
    }
  }

  ghost predicate AllBind(vars: set<string>, rows: seq<Row>) {
    forall r | r in rows :: vars <= r.Keys
  }

  lemma OnePartMeaning(eng: LawfulEngine, returned: seq<Expression>, keys: seq<Expression>, names: set<string>, rows: seq<Row>)
    requires DistinctNames(returned) && Aggs(returned, names) != []
    requires !SomeReturnUngrouped(keys, Keys(returned, names)) && AllKeysReturned(keys, Keys(returned, names))
    ensures RunProjection(eng, IntoProjection(returned, names), rows)
            == DirectGrouped(eng, Found(names), ReturnColumns(returned), ResolveKeys(returned, keys), rows)
  {
    DistinctNotShadowed(returned, names);
    ReturnedCoverResolved(returned, keys, names);
    ResolvedCoverReturned(returned, keys, names);
    CoveringGroups(eng, Keys(returned, names), ResolveKeys(returned, keys), rows);
    GroupRows(eng, names, returned, Keys(returned, names), rows);
  }

  lemma TwoPartMeaning(eng: LawfulEngine, returned: seq<Expression>, keys: seq<Expression>, names: set<string>, rows: seq<Row>)
    requires DistinctNames(returned) && AllBind(ExprVars(Keys(returned, names)), rows)
    requires forall e | e in returned :: Recovers(e, FullKeys(returned, keys), Aggs(returned, names), names)
    ensures RunProjection(eng, Item(ToAliasIdents(returned)),
                          RunProjection(eng, GroupBy(FullKeys(returned, keys), Aggs(returned, names)), rows))
            == DirectGrouped(eng, Found(names), ReturnColumns(returned), ResolveKeys(returned, keys), rows)
  {
    var full, aggs := FullKeys(returned, keys), Aggs(returned, names);
    FullKeysGroupAlike(eng, returned, keys, rows);
    var gs := Groups(eng, full, rows);
    GroupsAreClasses(eng, full, rows);
    forall i | 0 <= i < |gs|
      ensures gs[i] != []
      ensures Columns(eng, ToAliasIdents(returned), GroupRow(eng, full, aggs, gs[i]))
              == DirectRow(eng, Found(names), ReturnColumns(returned), gs[i])
    {
      assert IsGroup(eng, full, rows, gs[i]);
      ReadBack(eng, returned, returned, full, names, gs[i]);
    }
  }

  /** The parts for an explicit GROUP BY, run on the rows that reach them. */
  lemma RunGroupByParts(eng: Engine, matches: seq<MatchClause>, wheres: seq<Expression>, returned: seq<Expression>,
                        keys: seq<Expression>, names: set<string>, rows: seq<Row>)
    requires ExplicitGroupBy(matches, wheres, returned, keys, names).Ok?
    ensures var out := RunParts(eng, ExplicitGroupBy(matches, wheres, returned, keys, names).value, rows);
            var seen := Matched(eng, matches, wheres, rows);
            var full, aggs := FullKeys(returned, keys), Aggs(returned, names);
            if AllKeysReturned(keys, Keys(returned, names)) then
              out == RunProjection(eng, IntoProjection(returned, names), seen)
            else
              out == RunProjection(eng, Item(ToAliasIdents(returned)),
                                   RunProjection(eng, if aggs == [] then Item(full) else GroupBy(full, aggs), seen))
  {
    if !AllKeysReturned(keys, Keys(returned, names)) {
      var parts := ExplicitGroupBy(matches, wheres, returned, keys, names).value;
      var mid := RunPart(eng, parts[0], rows);
      assert parts == [parts[0], parts[1]];
      assert RunParts(eng, parts, rows) == RunParts(eng, [parts[1]], mid);
      RunPlain(eng, [], Item(ToAliasIdents(returned)), mid);
      KeepNothing(eng, mid);
    }
  }

  /** Whenever the lowering accepts an explicit GROUP BY that satisfies the condition, the emitted parts
      show one row per distinct tuple of resolved keys, with the RETURN values of that group. */
  lemma GroupByPreservesMeaning(eng: LawfulEngine, matches: seq<MatchClause>, wheres: seq<Expression>,
                                returned: seq<Expression>, keys: seq<Expression>, names: set<string>, rows: seq<Row>)
    requires ExplicitGroupBy(matches, wheres, returned, keys, names).Ok?
    requires DistinctNames(returned) && FaithfulGroupBy(returned, keys, names)
    requires AllBind(ExprVars(Keys(returned, names)), Matched(eng, matches, wheres, rows))
    ensures RunParts(eng, ExplicitGroupBy(matches, wheres, returned, keys, names).value, rows)
            == DirectGrouped(eng, Found(names), ReturnColumns(returned), ResolveKeys(returned, keys),
                             Matched(eng, matches, wheres, rows))
  {
    var seen := Matched(eng, matches, wheres, rows);
    RunGroupByParts(eng, matches, wheres, returned, keys, names, rows);
    if AllKeysReturned(keys, Keys(returned, names)) {
      OnePartMeaning(eng, returned, keys, names, seen);
    } else {
      TwoPartMeaning(eng, returned, keys, names, seen);
    }
  }

  // ---------------------------------------------------------------- and only then

  /** A row in which every variable has a value of its own. */
  function GenericRow(vars: set<string>): Row {
    map x | x in vars :: Opaque(Identifier(x), map[])
  }

  lemma GenericValue(e: Expression, vars: set<string>)
    requires FreeVars(e) <= vars
    ensures SymbolicEval(e, GenericRow(vars)).Opaque?
    ensures SymbolicEval(e, GenericRow(vars)).expr == Core(e)
  {
    CoreFreeVars(e);
    if Core(e).Identifier? {
      assert Core(e).name in FreeVars(Core(e));
    }
  }

  /** If a column of the generic grouped row shows the core of `e`, the part stores `e` there. */
  lemma StoredOnlyIf(full: seq<Expression>, aggs: seq<Expression>, vars: set<string>, name: string, e: Expression)
    requires ExprVars(full) <= vars
    requires var p := GroupRow(SymbolicEngine(), full, aggs, [GenericRow(vars)]);
             name in p && p[name].Opaque? && p[name].expr == Core(e)
    ensures Stores(full, aggs, name, e)
  {
    var r := GenericRow(vars);
    GroupRowAt(SymbolicEngine(), full, aggs, [r], name);
    if name !in ColumnNames(aggs) && LastNamed(full, name).Some? {
      LastNamedValue(SymbolicEngine(), full, name, r, [r]);
      assert FreeVars(LastNamed(full, name).value) <= ExprVars(full);
      GenericValue(LastNamed(full, name).value, vars);
    }
  }

  lemma RecoversOnlyIf(item: Expression, full: seq<Expression>, aggs: seq<Expression>, names: set<string>, vars: set<string>)
    requires FreeVars(item) <= vars && ExprVars(full) <= vars
    requires SymbolicEval(ToAliasIdent(item), GroupRow(SymbolicEngine(), full, aggs, [GenericRow(vars)]))
             == ColumnValue(SymbolicEngine(), Found(names), ReturnColumn(item), [GenericRow(vars)])
    ensures Recovers(item, full, aggs, names)
  {
    var r := GenericRow(vars);
    var p := GroupRow(SymbolicEngine(), full, aggs, [r]);
    ReturnColumnFacts(item, names);
    GenericValue(item, vars);
    CoreFreeVars(item);
    assert Core(ReturnColumn(item).expr) == Core(item);
    if item.Alias? || item.Identifier? {
      if !HasAggregate(item, names) {
        StoredOnlyIf(full, aggs, vars, ColumnName(item), item);
      }
    } else {
      assert !Core(item).Identifier?;
      forall v | v in FreeVars(item)
        ensures Stores(full, aggs, v, Identifier(v))
      {
        assert v in Restrict(r, FreeVars(Core(item))) && v in Restrict(p, FreeVars(Core(item)));
        assert p[v] == r[v];
        StoredOnlyIf(full, aggs, vars, v, Identifier(v));
      }
    }
  }

  lemma ColumnsOfAliasIdents(eng: Engine, items: seq<Expression>, p: Row)
    requires items != []
    ensures var init, last := items[..|items| - 1], items[|items| - 1];
            Columns(eng, ToAliasIdents(items), p)
            == Columns(eng, ToAliasIdents(init), p)[ColumnName(last) := eng.eval(ToAliasIdent(last), p)]
  {
    var init, last := items[..|items| - 1], items[|items| - 1];
    SplitLast(items);
    ToAliasIdentsSnoc(init, last);
    ColumnsSnoc(eng, ToAliasIdents(init), ToAliasIdent(last), p, []);
  }

  lemma {:induction false} ColumnAt(eng: Engine, items: seq<Expression>, p: Row, i: nat)
    requires DistinctNames(items) && i < |items|
    ensures ColumnName(items[i]) in Columns(eng, ToAliasIdents(items), p)
    ensures Columns(eng, ToAliasIdents(items), p)[ColumnName(items[i])] == eng.eval(ToAliasIdent(items[i]), p)
    decreases |items|
  {
    var init, last := items[..|items| - 1], items[|items| - 1];
    ColumnsOfAliasIdents(eng, items, p);
    if i < |init| { ColumnAt(eng, init, p, i); }
  }

  lemma DirectRowAt(eng: Engine, how: Recognition, items: seq<Expression>, g: seq<Row>, i: nat)
    requires g != [] && DistinctNames(items) && i < |items|
    ensures ColumnName(items[i]) in DirectRow(eng, how, ReturnColumns(items), g)
    ensures DirectRow(eng, how, ReturnColumns(items), g)[ColumnName(items[i])]
            == ColumnValue(eng, how, ReturnColumn(items[i]), g)
  {
    LastOfDistinct(items, i);
    DirectRowLast(eng, how, items, g, ColumnName(items[i]));
  }

  /** What the lowering should achieve, for one engine. */
  ghost predicate MeansGroupBy(eng: Engine, returned: seq<Expression>, keys: seq<Expression>, names: set<string>, rows: seq<Row>)
    requires ExplicitGroupBy([], [], returned, keys, names).Ok?
  {
    RunParts(eng, ExplicitGroupBy([], [], returned, keys, names).value, rows)
    == DirectGrouped(eng, Found(names), ReturnColumns(returned), ResolveKeys(returned, keys), rows)
  }

  /** Without an aggregate nothing is de-duplicated: two equal rows stay two. */
  lemma NeedsAggregate(returned: seq<Expression>, keys: seq<Expression>, names: set<string>, r: Row)
    requires ExplicitGroupBy([], [], returned, keys, names).Ok? && Aggs(returned, names) == []
    ensures !MeansGroupBy(SymbolicEngine(), returned, keys, names, [r, r])
  {
    var eng := SymbolicEngine();
    RunGroupByParts(eng, [], [], returned, keys, names, [r, r]);
    KeepNothing(eng, [r, r]);
    GroupsOfCopies(eng, ResolveKeys(returned, keys), r);
  }

  lemma NeedsRecovery(returned: seq<Expression>, keys: seq<Expression>, names: set<string>, vars: set<string>, i: nat)
    requires ExplicitGroupBy([], [], returned, keys, names).Ok? && DistinctNames(returned) && i < |returned|
    requires Aggs(returned, names) != [] && !AllKeysReturned(keys, Keys(returned, names))
    requires ExprVars(returned) <= vars && ExprVars(FullKeys(returned, keys)) <= vars
    requires MeansGroupBy(SymbolicEngine(), returned, keys, names, [GenericRow(vars)])
    ensures Recovers(returned[i], FullKeys(returned, keys), Aggs(returned, names), names)
  {
    var eng, r := SymbolicEngine(), GenericRow(vars);
    var full, aggs := FullKeys(returned, keys), Aggs(returned, names);
    var p := GroupRow(eng, full, aggs, [r]);
    RunGroupByParts(eng, [], [], returned, keys, names, [r]);
    KeepNothing(eng, [r]);
    GroupsOfCopies(eng, full, r);
    GroupsOfCopies(eng, ResolveKeys(returned, keys), r);
    var out := RunParts(eng, ExplicitGroupBy([], [], returned, keys, names).value, [r]);
    assert out[0] == Columns(eng, ToAliasIdents(returned), p);
    assert out[0] == DirectRow(eng, Found(names), ReturnColumns(returned), [r]);
    ColumnAt(eng, returned, p, i);
    DirectRowAt(eng, Found(names), returned, [r], i);
    assert returned[i] in returned && FreeVars(returned[i]) <= ExprVars(returned);
    RecoversOnlyIf(returned[i], full, aggs, names, vars);
  }

  /** Where the condition fails, the symbolic engine shows it on one or two generic rows. */
  lemma UnfaithfulLosesMeaning(returned: seq<Expression>, keys: seq<Expression>, names: set<string>) returns (rows: seq<Row>)
    requires ExplicitGroupBy([], [], returned, keys, names).Ok? && DistinctNames(returned)
    requires !FaithfulGroupBy(returned, keys, names)
    ensures AllBind(ExprVars(returned), rows) && !MeansGroupBy(SymbolicEngine(), returned, keys, names, rows)
  {
    var full := FullKeys(returned, keys);
    var vars := ExprVars(returned) + ExprVars(full);
    var r := GenericRow(vars);
    if Aggs(returned, names) == [] {
      NeedsAggregate(returned, keys, names, r);
      rows := [r, r];
    } else {
      rows := [r];
      if MeansGroupBy(SymbolicEngine(), returned, keys, names, [r]) {
        forall e | e in returned
          ensures Recovers(e, full, Aggs(returned, names), names)
        {
          var i :| 0 <= i < |returned| && returned[i] == e;
          NeedsRecovery(returned, keys, names, vars, i);
        }
      }
    }
  }

  /** Exactly when an accepted explicit GROUP BY keeps its meaning: for every engine and all rows, if and
      only if RETURN has an aggregate and either all keys are returned or every item can be read back. */
  lemma GroupByExact(returned: seq<Expression>, keys: seq<Expression>, names: set<string>)
    requires ExplicitGroupBy([], [], returned, keys, names).Ok? && DistinctNames(returned)
    ensures FaithfulGroupBy(returned, keys, names) <==>
            forall eng: LawfulEngine, rows: seq<Row> | AllBind(ExprVars(returned), rows) ::
              MeansGroupBy(eng, returned, keys, names, rows)
  {
    if FaithfulGroupBy(returned, keys, names) {
      forall eng: LawfulEngine, rows: seq<Row> | AllBind(ExprVars(returned), rows)
        ensures MeansGroupBy(eng, returned, keys, names, rows)
      {
        KeepNothing(eng, rows);
        KeyVars(returned, names);
        GroupByPreservesMeaning(eng, [], [], returned, keys, names, rows);
      }
    } else {
      SymbolicIsLawful();
      var eng: LawfulEngine := SymbolicEngine();
      var rows := UnfaithfulLosesMeaning(returned, keys, names);
      assert !MeansGroupBy(eng, returned, keys, names, rows);
    }
  }

  // ---------------------------------------------------------------- queries that lose their meaning

  function CountOf(x: string, alias: string): Expression {
    Alias(Function("count", [Identifier(x)], 0), alias)
  }

  lemma CountIsAggregate(x: string, alias: string)
    ensures HasAggregate(CountOf(x, alias), {"count"})
  {
    AliasAggregate(Function("count", [Identifier(x)], 0), alias, {"count"});
  }

  lemma PropertyIsPlain(x: string, key: string)
    ensures !HasAggregate(ExpressionProperty(Identifier(x), key), {"count"})
    ensures FreeVars(ExpressionProperty(Identifier(x), key)) == {x}
  {
    var e := ExpressionProperty(Identifier(x), key);
    assert Children(e) == [] && Children(e) + SkippedChildren(e) == [Identifier(x)];
    assert FreeVars(Identifier(x)) == {x};
  }

  lemma KeysOfTwo(plain: Expression, agg: Expression, names: set<string>)
    requires !HasAggregate(plain, names) && HasAggregate(agg, names)
    ensures Keys([plain, agg], names) == [plain] && Aggs([plain, agg], names) == [agg]
  {
    KeysSnoc([], plain, names);
    KeysSnoc([plain], agg, names);
    assert [] + [plain] == [plain] && [plain] + [agg] == [plain, agg];
  }

  /** A plain item, an aggregate, a key that matches the item and a key that matches neither. */
  lemma TwoItemsTwoKeys(plain: Expression, agg: Expression, k: Expression, other: Expression, names: set<string>)
    requires !HasAggregate(plain, names) && HasAggregate(agg, names) && ColumnName(plain) != ColumnName(agg)
    requires MatchesGroupByKey(plain, k) && !MatchesGroupByKey(plain, other) && !MatchesGroupByKey(agg, other)
    ensures var returned, keys := [plain, agg], [k, other];
            && ExplicitGroupBy([], [], returned, keys, names).Ok? && DistinctNames(returned)
            && Aggs(returned, names) == [agg] && !AllKeysReturned(keys, Keys(returned, names))
            && FullKeys(returned, keys) == [plain, other]
  {
    KeysOfTwo(plain, agg, names);
    OneKeyOfTwo(plain, k, other);
    FullKeyOfTwo(plain, agg, k, other);
  }

  lemma OneKeyOfTwo(plain: Expression, k: Expression, other: Expression)
    requires MatchesGroupByKey(plain, k) && !MatchesGroupByKey(plain, other)
    ensures !SomeReturnUngrouped([k, other], [plain]) && !AllKeysReturned([k, other], [plain])
  {
    assert k in [k, other] && other in [k, other];
  }

  lemma FullKeyOfTwo(plain: Expression, agg: Expression, k: Expression, other: Expression)
    requires MatchesGroupByKey(plain, k) && !MatchesGroupByKey(plain, other) && !MatchesGroupByKey(agg, other)
    ensures FullKeys([plain, agg], [k, other]) == [plain, other]
  {
    assert [plain, agg][1..] == [agg] && [agg][1..] == [];
    assert FullKey([plain, agg], k) == plain && FullKey([agg], other) == other;
  }

  lemma LastOfTwo(a: Expression, b: Expression, name: string)
    ensures LastNamed([a, b], name)
            == if ColumnName(b) == name then Some(b) else if ColumnName(a) == name then Some(a) else None
  {
    assert [a, b][..1] == [a] && [a][..0] == [];
    assert LastNamed([a], name) == if ColumnName(a) == name then Some(a) else None;
  }

  lemma UnrecoverableLosesMeaning(returned: seq<Expression>, keys: seq<Expression>, names: set<string>, e: Expression)
    returns (rows: seq<Row>)
    requires ExplicitGroupBy([], [], returned, keys, names).Ok? && DistinctNames(returned)
    requires e in returned && !AllKeysReturned(keys, Keys(returned, names))
    requires !Recovers(e, FullKeys(returned, keys), Aggs(returned, names), names)
    ensures AllBind(ExprVars(returned), rows) && !MeansGroupBy(SymbolicEngine(), returned, keys, names, rows)
  {
    assert !FaithfulGroupBy(returned, keys, names);
    rows := UnfaithfulLosesMeaning(returned, keys, names);
  }

  /** RETURN v.color, count(v) AS n GROUP BY v.color, v.make is accepted, but its second part reads v.color
      from a row that no longer has v. */
  lemma UnaliasedSubsetOfKeysLosesMeaning() returns (rows: seq<Row>)
    ensures var color, make := ExpressionProperty(Identifier("v"), "color"), ExpressionProperty(Identifier("v"), "make");
            var returned, keys := [color, CountOf("v", "n")], [color, make];
            && ExplicitGroupBy([], [], returned, keys, {"count"}).Ok? && AllBind(ExprVars(returned), rows)
            && !MeansGroupBy(SymbolicEngine(), returned, keys, {"count"}, rows)
  {
    var color, make := ExpressionProperty(Identifier("v"), "color"), ExpressionProperty(Identifier("v"), "make");
    var agg := CountOf("v", "n");
    CountIsAggregate("v", "n");
    PropertyIsPlain("v", "color");
    TwoItemsTwoKeys(color, agg, color, make, {"count"});
    LastOfTwo(color, make, "v");
    assert !Stores([color, make], [agg], "v", Identifier("v"));
    assert "v" in FreeVars(color);
    rows := UnrecoverableLosesMeaning([color, agg], [color, make], {"count"}, color);
  }

  /** RETURN a.name AS name, count(b) AS n GROUP BY name, b.name is accepted, but the key b.name overwrites the
      column that the second part reads. */
  lemma CollidingKeyLosesMeaning() returns (rows: seq<Row>)
    ensures var mine, theirs := Alias(ExpressionProperty(Identifier("a"), "name"), "name"), ExpressionProperty(Identifier("b"), "name");
            var returned, keys := [mine, CountOf("b", "n")], [Identifier("name"), theirs];
            && ExplicitGroupBy([], [], returned, keys, {"count"}).Ok? && AllBind(ExprVars(returned), rows)
            && !MeansGroupBy(SymbolicEngine(), returned, keys, {"count"}, rows)
  {
    var mine, theirs := Alias(ExpressionProperty(Identifier("a"), "name"), "name"), ExpressionProperty(Identifier("b"), "name");
    var agg := CountOf("b", "n");
    CountIsAggregate("b", "n");
    PropertyIsPlain("a", "name");
    AliasAggregate(ExpressionProperty(Identifier("a"), "name"), "name", {"count"});
    TwoItemsTwoKeys(mine, agg, Identifier("name"), theirs, {"count"});
    LastOfTwo(mine, theirs, "name");
    assert !Stores([mine, theirs], [agg], "name", mine);
    rows := UnrecoverableLosesMeaning([mine, agg], [Identifier("name"), theirs], {"count"}, mine);
  }
}
