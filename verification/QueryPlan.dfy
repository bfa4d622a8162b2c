/**
 * From requested scenario keys to data queries: expanding comparisons, shifting periods, and
 * dropping queries that repeat another.
 */
module QueryPlan {
  import opened Collections
  import opened Wrappers
  import opened TextOrder
  import opened Formulas
  import opened Evaluator
  import opened ScenarioKeys
  import opened ScenarioAccess
  import opened TimeShift

  datatype PlanError = BadReference | UnknownScenario | ModifiersOnComputed

  datatype DataQuery = DataQuery(key: string, id: string, start: string, end: string, mods: Modifiers)

  // ---------------------------------------------------------------------
  // Scenarios of a request
  // ---------------------------------------------------------------------

  /** What a full key means: a reference and its modifiers. */
  function Meant(reg: Registry, key: string): Result<(Ref, Modifiers), PlanError>
  {
    var parsed := ParseRef(key);
    if parsed.Err? then Err(BadReference) else
    var r := ResolveKey(reg, parsed.value.0);
    if r.None? then Err(UnknownScenario) else Ok((r.value, parsed.value.1))
  }

  predicate IsComputed(reg: Registry, key: string)
  {
    Meant(reg, key).Ok? && Meant(reg, key).value.0.Variance?
  }

  predicate IsData(reg: Registry, key: string)
  {
    Meant(reg, key).Ok? && Meant(reg, key).value.0.Single?
  }

  predicate Plannable(reg: Registry, key: string)
  {
    Meant(reg, key).Ok? && (IsComputed(reg, key) ==> Meant(reg, key).value.1 == map[])
  }

  /** The keys of the two sides of a comparison. */
  function Sides(reg: Registry, key: string): set<string>
  {
    if IsComputed(reg, key) then
      var r := Meant(reg, key).value.0;
      {SimpleKey(r.left), SimpleKey(r.right)}
    else {}
  }

  /** Reading a key up to the modifier sign gives a beginning of it. */
  lemma BaseIsPrefix(key: string)
    requires ParseRef(key).Ok?
    ensures ParseRef(key).value.0 <= key && '&' !in ParseRef(key).value.0
    ensures '&' in key ==> |ParseRef(key).value.0| < |key| && key[|ParseRef(key).value.0|] == '&'
  {
    var (head, tail) := Cut(key, '&');
    assert SplitAll(key, '&')[0] == head;
  }

  lemma SeparatorKept(base: string, whole: string)
    requires base <= whole && forall i :: !VsAt(whole, i)
    ensures forall i :: !VsAt(base, i)
  {
    forall i ensures !VsAt(base, i) {
      assert !VsAt(whole, i);
    }
  }

  /** A text without the separator is no comparison, whatever it is compatible with. */
  lemma NoSeparatorNoVariance(reg: Registry, value: string)
    requires forall i :: !VsAt(value, i)
    ensures ResolveKey(reg, value).Some? ==> ResolveKey(reg, value).value.Single?
  {
    var key := Compatibility(value);
    if key != value {
      ShiftedActualsIsNoVariance(reg, if value == PRIOR_YEAR then PY else PP);
    } else {
      var body := if EndsWith(key, PCT) then key[..|key| - |PCT|] else key;
      SeparatorKept(body, key);
      FindVsSound(body, 0);
      assert ResolveVariance(reg, key).None?;
    }
  }

  /** A key whose alias holds the modifier sign is cut inside the alias. */
  lemma BaseWithinAlias(reg: Registry, s: Simple)
    requires WellFormed(reg) && KnownSimple(reg, s) && '&' in SimpleKey(s) && ParseRef(SimpleKey(s)).Ok?
    ensures forall i :: !VsAt(ParseRef(SimpleKey(s)).value.0, i)
  {
    var alias := if s.RealRef? then s.scenario.alias else s.base.alias;
    var key, base := SimpleKey(s), ParseRef(SimpleKey(s)).value.0;
    BaseIsPrefix(key);
    assert '&' !in PY && '&' !in PP;
    assert key == alias + if s.RealRef? then "" else SuffixText(s.shift);
    assert |base| < |alias|;
    assert base <= alias;
    NoVs(alias);
    SeparatorKept(base, alias);
  }

  /** A side of a comparison, looked up again by its key, is no comparison. */
  lemma SideIsNoComparison(reg: Registry, key: string, side: string)
    requires WellFormed(reg) && side in Sides(reg, key)
    ensures !IsComputed(reg, side)
    ensures '&' !in side ==> IsData(reg, side)
  {
    var base := ParseRef(key).value.0;
    var r := ResolveKey(reg, base).value;
    ResolvedIsKnown(reg, base);
    SidesResolve(reg, base);
    if '&' !in side {
      PlainKeyParses(side);
    } else if ParseRef(side).Ok? {
      BaseWithinAlias(reg, if side == SimpleKey(r.left) then r.left else r.right);
      NoSeparatorNoVariance(reg, ParseRef(side).value.0);
    }
  }

  /** The key can be planned, and so can its sides when they are looked up by their keys. */
  predicate DeepPlannable(reg: Registry, key: string)
  {
    Plannable(reg, key) && forall side | side in Sides(reg, key) :: Plannable(reg, side)
  }

  lemma SidesAreData(reg: Registry, key: string, side: string)
    requires WellFormed(reg) && DeepPlannable(reg, key) && side in Sides(reg, key)
    ensures IsData(reg, side) && side != key
  {
    SideIsNoComparison(reg, key, side);
  }

  /** Only a modifier sign inside an alias can keep the sides of a comparison from being planned. */
  lemma PlainAliasesPlannable(reg: Registry, key: string)
    requires WellFormed(reg) && PlainAliases(reg)
    ensures DeepPlannable(reg, key) <==> Plannable(reg, key)
  {
    forall side | side in Sides(reg, key) ensures Plannable(reg, side) {
      var r := Meant(reg, key).value.0;
      ResolvedIsKnown(reg, ParseRef(key).value.0);
      SimpleKeyPlain(reg, if side == SimpleKey(r.left) then r.left else r.right);
      SideIsNoComparison(reg, key, side);
    }
  }

  /** Every key seen can be planned, and its sides are seen too, unless it is still being expanded. */
  ghost predicate Expanded(reg: Registry, seen: set<string>, open: set<string>)
  {
    forall k | k in seen :: Plannable(reg, k) && (k in open || Sides(reg, k) <= seen)
  }

  /** The key is asked for, or is a side of a comparison that is. */
  ghost predicate Needed(reg: Registry, keys: seq<string>, key: string)
  {
    key in keys || exists c :: c in keys && key in Sides(reg, c)
  }

  ghost predicate AllComputed(reg: Registry, keys: set<string>)
  {
    forall k | k in keys :: IsComputed(reg, k)
  }

  method CollectDependencies(reg: Registry, key: string, visited0: set<string>, ghost open: set<string>)
    returns (failure: Option<PlanError>, visited: set<string>)
    requires WellFormed(reg) && Expanded(reg, visited0, open) && AllComputed(reg, open) && key !in open
    ensures failure.None? <==> DeepPlannable(reg, key)
    ensures failure.None? ==> visited0 + {key} <= visited <= visited0 + {key} + Sides(reg, key)
    ensures failure.None? ==> Expanded(reg, visited, open)
    decreases IsComputed(reg, key)
  {
    failure, visited := None, visited0;
    if key in visited {
      return;
    }
    visited := visited + {key};
    var meant := Meant(reg, key);
    if meant.Err? {
      return Some(meant.error), visited;
    }
    if meant.value.0.Variance? {
      if meant.value.1 != map[] {
        return Some(ModifiersOnComputed), visited;
      }
      var left, right := SimpleKey(meant.value.0.left), SimpleKey(meant.value.0.right);
      SideIsNoComparison(reg, key, left);
      SideIsNoComparison(reg, key, right);
      failure, visited := CollectDependencies(reg, left, visited, open + {key});
      if failure.Some? {
        assert left in Sides(reg, key);
        return;
      }
      failure, visited := CollectDependencies(reg, right, visited, open + {key});
      assert right in Sides(reg, key);
    }
  }

  ghost predicate Collected(reg: Registry, keys: seq<string>, done: nat, expanded: set<string>)
    requires done <= |keys|
  {
    && Expanded(reg, expanded, {})
    && (forall j | 0 <= j < done :: keys[j] in expanded)
    && (forall k | k in expanded :: Needed(reg, keys, k))
  }

  lemma CollectedMore(reg: Registry, keys: seq<string>, i: nat, before: set<string>, after: set<string>)
    requires i < |keys| && Collected(reg, keys, i, before) && Expanded(reg, after, {})
    requires before + {keys[i]} <= after <= before + {keys[i]} + Sides(reg, keys[i])
    ensures Collected(reg, keys, i + 1, after)
  {
    assert keys[i] in keys;
    forall k | k in after ensures Needed(reg, keys, k) {
      assert k in before || k == keys[i] || k in Sides(reg, keys[i]);
    }
  }

  lemma CollectedAll(reg: Registry, keys: seq<string>, expanded: set<string>)
    requires Collected(reg, keys, |keys|, expanded)
    ensures forall k :: k in expanded <==> Needed(reg, keys, k)
    ensures forall k | k in keys :: DeepPlannable(reg, k)
  {
    forall k | Needed(reg, keys, k) ensures k in expanded {
      if k !in keys {
        var c :| c in keys && k in Sides(reg, c);
        assert Sides(reg, c) <= expanded;
      }
    }
  }

  /** All keys the request needs, or an error when some key or a side of one cannot be planned. */
  method CollectScenarios(reg: Registry, keys: seq<string>)
    returns (failure: Option<PlanError>, expanded: set<string>)
    requires WellFormed(reg)
    ensures failure.None? <==> forall k | k in keys :: DeepPlannable(reg, k)
    ensures failure.None? ==> forall k :: k in expanded <==> Needed(reg, keys, k)
    ensures failure.None? ==> Expanded(reg, expanded, {})
  {
    failure, expanded := None, {};
    for i := 0 to |keys|
      invariant failure.None? && Collected(reg, keys, i, expanded)
    {
      ghost var before := expanded;
      failure, expanded := CollectDependencies(reg, keys[i], expanded, {});
      if failure.Some? {
        assert keys[i] in keys && !DeepPlannable(reg, keys[i]);
        return;
      }
      CollectedMore(reg, keys, i, before, expanded);
    }
    CollectedAll(reg, keys, expanded);
  }

  // ---------------------------------------------------------------------
  // Queries
  // ---------------------------------------------------------------------

  function Offset(s: Simple): int
  {
    match s
    case RealRef(_) => 0
    case ShiftedRef(_, shift) => OffsetMonths(shift)
  }

  /** What a data key denotes: a stored scenario, a shift, and modifiers. */
  function Denotation(reg: Registry, key: string): (string, int, Modifiers)
    requires IsData(reg, key)
  {
    var m := Meant(reg, key).value;
    (StoredId(m.0.simple), Offset(m.0.simple), m.1)
  }

  function Shifted(period: string, s: Simple): string
    requires Shiftable(period)
  {
    if s.RealRef? then period else ShiftPeriod(period, OffsetMonths(s.shift))
  }

  function QueryOf(reg: Registry, key: string, start: string, end: string): DataQuery
    requires IsData(reg, key) && Shiftable(start) && Shiftable(end)
  {
    var m := Meant(reg, key).value;
    DataQuery(key, StoredId(m.0.simple), Shifted(start, m.0.simple), Shifted(end, m.0.simple), m.1)
  }

  predicate SameQuery(p: DataQuery, q: DataQuery)
  {
    p.id == q.id && p.start == q.start && p.end == q.end && p.mods == q.mods
  }

  /** The window, and the same window a year earlier, lie in four-digit years. */
  predicate WindowInYears(start: string, end: string)
  {
    && Shiftable(start) && InYears(MonthNumber(start)) && InYears(MonthNumber(start) - 12)
    && Shiftable(end) && InYears(MonthNumber(end)) && InYears(MonthNumber(end) - 12)
  }

  lemma ShiftedMonth(period: string, s: Simple)
    requires Shiftable(period) && InYears(MonthNumber(period)) && InYears(MonthNumber(period) - 12)
    ensures Shiftable(Shifted(period, s)) && MonthNumber(Shifted(period, s)) == MonthNumber(period) + Offset(s)
  {
    if s.ShiftedRef? {
      TextParts(MonthNumber(period) + OffsetMonths(s.shift));
    }
  }

  lemma SameOffsetSameText(period: string, s: Simple, t: Simple)
    requires Shiftable(period) && Offset(s) == Offset(t)
    ensures Shifted(period, s) == Shifted(period, t)
  {
  }

  lemma ShiftsDiffer(period: string, s: Simple, t: Simple)
    requires Shiftable(period) && InYears(MonthNumber(period)) && InYears(MonthNumber(period) - 12)
    ensures Shifted(period, s) == Shifted(period, t) <==> Offset(s) == Offset(t)
  {
    ShiftedMonth(period, s);
    ShiftedMonth(period, t);
    if Offset(s) == Offset(t) { SameOffsetSameText(period, s, t); }
  }

  /** Two keys get the same query exactly when they denote the same. */
  lemma SameQueryIffSameDenotation(reg: Registry, k: string, l: string, start: string, end: string)
    requires IsData(reg, k) && IsData(reg, l) && WindowInYears(start, end)
    ensures SameQuery(QueryOf(reg, k, start, end), QueryOf(reg, l, start, end)) <==>
      Denotation(reg, k) == Denotation(reg, l)
  {
    var s, t := Meant(reg, k).value.0.simple, Meant(reg, l).value.0.simple;
    ShiftsDiffer(start, s, t);
    ShiftsDiffer(end, s, t);
  }

  /** The first key with a denotation keeps its query. */
  ghost predicate KeepsQuery(reg: Registry, order: seq<string>, i: nat)
    requires i < |order| && forall k | k in order :: IsData(reg, k)
  {
    forall j | 0 <= j < i :: Denotation(reg, order[j]) != Denotation(reg, order[i])
  }

  /** No two queries are the same, and each key has one that is the same as its own. */
  ghost predicate Deduplicated(reg: Registry, order: seq<string>, start: string, end: string, queries: seq<DataQuery>)
    requires (forall k | k in order :: IsData(reg, k)) && Shiftable(start) && Shiftable(end)
  {
    && Genuine(reg, order, start, end, queries) && NoRepeat(queries)
    && AllCovered(reg, order, start, end, queries)
    && AllKeep(reg, order, start, end, queries)
  }

  ghost predicate AllKeep(reg: Registry, order: seq<string>, start: string, end: string, queries: seq<DataQuery>)
    requires (forall k | k in order :: IsData(reg, k)) && Shiftable(start) && Shiftable(end)
  {
    forall i {:trigger KeepsQuery(reg, order, i)} | 0 <= i < |order| :: Keeps(reg, order, i, start, end, queries)
  }

  ghost predicate Genuine(reg: Registry, order: seq<string>, start: string, end: string, queries: seq<DataQuery>)
    requires (forall k | k in order :: IsData(reg, k)) && Shiftable(start) && Shiftable(end)
  {
    forall q | q in queries :: q.key in order && q == QueryOf(reg, q.key, start, end)
  }

  ghost predicate NoRepeat(queries: seq<DataQuery>)
  {
    forall i, j | 0 <= i < j < |queries| :: !SameQuery(queries[i], queries[j])
  }

  ghost predicate Keeps(reg: Registry, order: seq<string>, i: nat, start: string, end: string, queries: seq<DataQuery>)
    requires i < |order| && (forall k | k in order :: IsData(reg, k)) && Shiftable(start) && Shiftable(end)
  {
    KeepsQuery(reg, order, i) <==> QueryOf(reg, order[i], start, end) in queries
  }

  ghost predicate SomeSame(q: DataQuery, queries: seq<DataQuery>)
  {
    exists p :: p in queries && SameQuery(p, q)
  }

  function Tag(q: DataQuery): (string, string, string, Modifiers)
  {
    (q.id, q.start, q.end, q.mods)
  }

  ghost predicate Tagged(seen: set<(string, string, string, Modifiers)>, queries: seq<DataQuery>)
  {
    forall q {:trigger SomeSame(q, queries)} {:trigger Tag(q)} :: Tag(q) in seen <==> SomeSame(q, queries)
  }

  lemma TaggedMore(seen: set<(string, string, string, Modifiers)>, queries: seq<DataQuery>, q: DataQuery)
    requires Tagged(seen, queries)
    ensures Tagged(seen + {Tag(q)}, queries + [q])
  {
    forall p ensures Tag(p) in seen + {Tag(q)} <==> SomeSame(p, queries + [q]) {
      assert q in queries + [q];
      if r :| r in queries && SameQuery(r, p) { assert r in queries + [q]; }
    }
  }

  /** One query for each denotation, under the first key that has it. */
  method DeduplicateQueries(reg: Registry, order: seq<string>, start: string, end: string)
    returns (queries: seq<DataQuery>)
    requires Distinct(order) && (forall k | k in order :: IsData(reg, k)) && WindowInYears(start, end)
    ensures Deduplicated(reg, order, start, end, queries)
  {
    queries := [];
    var seen: set<(string, string, string, Modifiers)> := {};
    for i := 0 to |order|
      invariant Deduplicated(reg, order[..i], start, end, queries)
      invariant Tagged(seen, queries)
    {
      assert order[i] in order;
      var q := QueryOf(reg, order[i], start, end);
      assert Tag(q) in seen <==> SomeSame(q, queries);
      NextQuery(reg, order, start, end, i, queries);
      if Tag(q) !in seen {
        TaggedMore(seen, queries, q);
        seen := seen + {Tag(q)};
        queries := queries + [q];
      }
    }
    assert order[..|order|] == order;
  }

  lemma NewKeyKeepsIff(reg: Registry, order: seq<string>, start: string, end: string, i: nat, queries: seq<DataQuery>)
    requires (forall k | k in order :: IsData(reg, k)) && WindowInYears(start, end) && i < |order|
    requires Deduplicated(reg, order[..i], start, end, queries)
    ensures KeepsQuery(reg, order, i) <==> !SomeSame(QueryOf(reg, order[i], start, end), queries)
  {
    var q := QueryOf(reg, order[i], start, end);
    forall j | 0 <= j < i && Denotation(reg, order[j]) == Denotation(reg, order[i])
      ensures SomeSame(q, queries)
    {
      assert order[j] in order[..i];
      SameQueryIffSameDenotation(reg, order[j], order[i], start, end);
      var p :| p in queries && SameQuery(p, QueryOf(reg, order[j], start, end));
      assert SameQuery(p, q);
    }
    if p :| p in queries && SameQuery(p, q) {
      var j :| 0 <= j < i && order[..i][j] == p.key;
      SameQueryIffSameDenotation(reg, order[j], order[i], start, end);
    }
  }

  lemma NextStaysGenuine(reg: Registry, keys: seq<string>, key: string, start: string, end: string,
          queries: seq<DataQuery>)
    requires (forall k | k in keys :: IsData(reg, k)) && IsData(reg, key) && Shiftable(start) && Shiftable(end)
    requires Genuine(reg, keys, start, end, queries) && NoRepeat(queries)
    ensures var q := QueryOf(reg, key, start, end);
      var after := if SomeSame(q, queries) then queries else queries + [q];
      && (forall k | k in keys + [key] :: IsData(reg, k))
      && Genuine(reg, keys + [key], start, end, after) && NoRepeat(after)
  {
    var q := QueryOf(reg, key, start, end);
    assert forall p | p in queries :: SameQuery(p, q) ==> SomeSame(q, queries);
  }

  lemma NextCoversAll(reg: Registry, keys: seq<string>, key: string, start: string, end: string,
          queries: seq<DataQuery>, k: string)
    requires (forall l | l in keys :: IsData(reg, l)) && IsData(reg, key) && Shiftable(start) && Shiftable(end)
    requires forall l | l in keys :: SomeSame(QueryOf(reg, l, start, end), queries)
    requires k in keys + [key]
    ensures var q := QueryOf(reg, key, start, end);
      IsData(reg, k) && SomeSame(QueryOf(reg, k, start, end), if SomeSame(q, queries) then queries else queries + [q])
  {
    var q := QueryOf(reg, key, start, end);
    if k in keys {
      var p :| p in queries && SameQuery(p, QueryOf(reg, k, start, end));
      assert p in queries + [q];
    } else {
      assert q in queries + [q];
    }
  }

  lemma OtherQueryStays(p: DataQuery, q: DataQuery, queries: seq<DataQuery>)
    requires p.key != q.key
    ensures p in queries + [q] <==> p in queries
  {
  }

  lemma KeepsQueryWithMore(reg: Registry, keys: seq<string>, key: string, j: nat)
    requires (forall k | k in keys :: IsData(reg, k)) && IsData(reg, key) && j < |keys|
    ensures forall k | k in keys + [key] :: IsData(reg, k)
    ensures KeepsQuery(reg, keys + [key], j) <==> KeepsQuery(reg, keys, j)
  {
    assert forall m | 0 <= m <= j :: (keys + [key])[m] == keys[m];
  }

  lemma EarlierStillKeeps(reg: Registry, keys: seq<string>, key: string, start: string, end: string,
          queries: seq<DataQuery>, j: nat)
    requires (forall k | k in keys :: IsData(reg, k)) && IsData(reg, key) && Shiftable(start) && Shiftable(end)
    requires key !in keys && j < |keys| && Keeps(reg, keys, j, start, end, queries)
    ensures forall k | k in keys + [key] :: IsData(reg, k)
    ensures Keeps(reg, keys + [key], j, start, end, queries)
    ensures Keeps(reg, keys + [key], j, start, end, queries + [QueryOf(reg, key, start, end)])
  {
    KeepsQueryWithMore(reg, keys, key, j);
    assert (keys + [key])[j] == keys[j] && keys[j] in keys;
    OtherQueryStays(QueryOf(reg, keys[j], start, end), QueryOf(reg, key, start, end), queries);
  }

  lemma NewestKeeps(reg: Registry, keys: seq<string>, key: string, start: string, end: string, queries: seq<DataQuery>)
    requires (forall k | k in keys :: IsData(reg, k)) && IsData(reg, key) && WindowInYears(start, end)
    requires key !in keys && Deduplicated(reg, keys, start, end, queries)
    ensures forall k | k in keys + [key] :: IsData(reg, k)
    ensures var q := QueryOf(reg, key, start, end);
      Keeps(reg, keys + [key], |keys|, start, end, if SomeSame(q, queries) then queries else queries + [q])
  {
    var order := keys + [key];
    assert order[..|keys|] == keys && order[|keys|] == key;
    NewKeyKeepsIff(reg, order, start, end, |keys|, queries);
    assert forall p | p in queries :: p.key != key;
  }

  lemma NextKeeps(reg: Registry, keys: seq<string>, key: string, start: string, end: string, queries: seq<DataQuery>,
          j: nat)
    requires (forall k | k in keys :: IsData(reg, k)) && IsData(reg, key) && WindowInYears(start, end)
    requires key !in keys && j < |keys| && AllKeep(reg, keys, start, end, queries)
    ensures forall k | k in keys + [key] :: IsData(reg, k)
    ensures
      var q := QueryOf(reg, key, start, end);
      Keeps(reg, keys + [key], j, start, end, if SomeSame(q, queries) then queries else queries + [q])
  {
    assert KeepsQuery(reg, keys, j) || !KeepsQuery(reg, keys, j);
    assert Keeps(reg, keys, j, start, end, queries);
    EarlierStillKeeps(reg, keys, key, start, end, queries, j);
  }

  lemma NextAllKeep(reg: Registry, keys: seq<string>, key: string, start: string, end: string, queries: seq<DataQuery>,
          after: seq<DataQuery>)
    requires (forall k | k in keys + [key] :: IsData(reg, k)) && WindowInYears(start, end)
    requires (forall k | k in keys :: IsData(reg, k)) && IsData(reg, key)
    requires key !in keys && Deduplicated(reg, keys, start, end, queries)
    requires after ==
      if SomeSame(QueryOf(reg, key, start, end), queries) then queries else queries + [QueryOf(reg, key, start, end)]
    ensures AllKeep(reg, keys + [key], start, end, after)
  {
    forall j | 0 <= j < |keys + [key]| ensures Keeps(reg, keys + [key], j, start, end, after) {
      if j == |keys| {
        NewestKeeps(reg, keys, key, start, end, queries);
      } else {
        NextKeeps(reg, keys, key, start, end, queries, j);
      }
    }
  }

  ghost predicate AllCovered(reg: Registry, keys: seq<string>, start: string, end: string, queries: seq<DataQuery>)
    requires (forall k | k in keys :: IsData(reg, k)) && Shiftable(start) && Shiftable(end)
  {
    forall k | k in keys :: SomeSame(QueryOf(reg, k, start, end), queries)
  }

  lemma NextAllCovered(reg: Registry, keys: seq<string>, key: string, start: string, end: string,
          queries: seq<DataQuery>, after: seq<DataQuery>)
    requires (forall k | k in keys + [key] :: IsData(reg, k)) && IsData(reg, key) && Shiftable(start) && Shiftable(end)
    requires forall k | k in keys :: k in keys + [key]
    requires AllCovered(reg, keys, start, end, queries)
    requires after ==
      if SomeSame(QueryOf(reg, key, start, end), queries) then queries else queries + [QueryOf(reg, key, start, end)]
    ensures AllCovered(reg, keys + [key], start, end, after)
  {
    forall k | k in keys + [key] ensures SomeSame(QueryOf(reg, k, start, end), after) {
      NextCoversAll(reg, keys, key, start, end, queries, k);
    }
  }

  lemma NextQuery(reg: Registry, order: seq<string>, start: string, end: string, i: nat, queries: seq<DataQuery>)
    requires Distinct(order) && (forall k | k in order :: IsData(reg, k)) && WindowInYears(start, end) && i < |order|
    requires Deduplicated(reg, order[..i], start, end, queries)
    ensures var q := QueryOf(reg, order[i], start, end);
      Deduplicated(reg, order[..i + 1], start, end, if SomeSame(q, queries) then queries else queries + [q])
  {
    assert order[..i + 1] == order[..i] + [order[i]];
    var q := QueryOf(reg, order[i], start, end);
    var after := if SomeSame(q, queries) then queries else queries + [q];
    NextStaysGenuine(reg, order[..i], order[i], start, end, queries);
    NextAllCovered(reg, order[..i], order[i], start, end, queries, after);
    NextIsNew(order, i);
    NextAllKeep(reg, order[..i], order[i], start, end, queries, after);
  }

  // ---------------------------------------------------------------------
  // What is answered
  // ---------------------------------------------------------------------

  /** No two keys denote the same scenario, shift and modifiers. */
  ghost predicate DenoteDifferently(reg: Registry, order: seq<string>)
    requires forall k | k in order :: IsData(reg, k)
  {
    forall i, j | 0 <= i < j < |order| :: Denotation(reg, order[i]) != Denotation(reg, order[j])
  }

  function QueriedKeys(queries: seq<DataQuery>): set<string>
  {
    set q | q in queries :: q.key
  }

  lemma QueriedIffKept(reg: Registry, order: seq<string>, start: string, end: string, queries: seq<DataQuery>, i: nat)
    requires Distinct(order) && (forall k | k in order :: IsData(reg, k)) && WindowInYears(start, end) && i < |order|
    requires Deduplicated(reg, order, start, end, queries)
    ensures order[i] in QueriedKeys(queries) <==> KeepsQuery(reg, order, i)
  {
    assert Keeps(reg, order, i, start, end, queries);
    assert order[i] in order;
  }

  lemma AllQueried(reg: Registry, order: seq<string>, start: string, end: string, queries: seq<DataQuery>)
    requires Distinct(order) && (forall k | k in order :: IsData(reg, k)) && WindowInYears(start, end)
    requires Deduplicated(reg, order, start, end, queries) && DenoteDifferently(reg, order)
    ensures QueriedKeys(queries) == Elements(order)
  {
    forall k | k in order ensures k in QueriedKeys(queries) {
      var i :| 0 <= i < |order| && order[i] == k;
      QueriedIffKept(reg, order, start, end, queries, i);
    }
    assert QueriedKeys(queries) <= Elements(order);
  }

  /** Every data key of the request has its own query exactly when no two denote the same. */
  lemma AllQueriedIffDenoteDifferently(reg: Registry, order: seq<string>, start: string, end: string,
          queries: seq<DataQuery>)
    requires Distinct(order) && (forall k | k in order :: IsData(reg, k)) && WindowInYears(start, end)
    requires Deduplicated(reg, order, start, end, queries)
    ensures QueriedKeys(queries) == Elements(order) <==> DenoteDifferently(reg, order)
  {
    if DenoteDifferently(reg, order) {
      AllQueried(reg, order, start, end, queries);
    } else {
      SomeNotQueried(reg, order, start, end, queries);
    }
  }

  lemma SomeNotQueried(reg: Registry, order: seq<string>, start: string, end: string, queries: seq<DataQuery>)
    requires Distinct(order) && (forall k | k in order :: IsData(reg, k)) && WindowInYears(start, end)
    requires Deduplicated(reg, order, start, end, queries) && !DenoteDifferently(reg, order)
    ensures QueriedKeys(queries) != Elements(order)
  {
    var i, j :| 0 <= i < j < |order| && Denotation(reg, order[i]) == Denotation(reg, order[j]);
    assert !KeepsQuery(reg, order, j);
    QueriedIffKept(reg, order, start, end, queries, j);
    assert order[j] in Elements(order);
  }

  /** The scenario is queried a year earlier under its alias with `_py`, and a month earlier with `_pp`. */
  lemma ShiftedQueryIsEarlier(reg: Registry, alias: string, suffix: string, start: string, end: string)
    requires WellFormed(reg) && alias in reg.aliases && '&' !in alias && suffix in {"_py", "_pp"}
    requires alias + suffix !in reg.ids && WindowInYears(start, end)
    ensures IsData(reg, alias + suffix)
    ensures
      var q, months := QueryOf(reg, alias + suffix, start, end), if suffix == "_py" then 12 else 1;
      && q.key == alias + suffix && q.id == reg.aliases[alias].scenarioId && q.mods == map[]
      && Shiftable(q.start) && MonthNumber(q.start) == MonthNumber(start) - months
      && Shiftable(q.end) && MonthNumber(q.end) == MonthNumber(end) - months
  {
    var s := ShiftedRef(reg.aliases[alias], if suffix == "_py" then PriorYear else PriorPeriod);
    assert SimpleKey(s) == alias + suffix && '&' !in suffix;
    PlainKeyParses(alias + suffix);
    SimpleRoundTrip(reg, s);
    ShiftedMonth(start, s);
    ShiftedMonth(end, s);
  }

  /** An unshifted scenario is queried over the window itself. */
  lemma PlainQueryIsTheWindow(reg: Registry, alias: string, start: string, end: string)
    requires WellFormed(reg) && alias in reg.aliases && '&' !in alias && WindowInYears(start, end)
    ensures IsData(reg, alias)
    ensures QueryOf(reg, alias, start, end) == DataQuery(alias, reg.aliases[alias].scenarioId, start, end, map[])
  {
    PlainKeyParses(alias);
    SimpleRoundTrip(reg, RealRef(reg.aliases[alias]));
  }

  /** The key of a real or shifted scenario, which holds no modifier sign and is no other scenario's id. */
  ghost predicate IsCanonical(reg: Registry, key: string, s: Simple)
  {
    KnownSimple(reg, s) && key == SimpleKey(s) && '&' !in key && (s.ShiftedRef? ==> key !in reg.ids)
  }

  /** Different canonical keys denote differently. */
  lemma CanonicalKeysDenoteDifferently(reg: Registry, order: seq<string>)
    requires WellFormed(reg) && Distinct(order)
    requires forall k | k in order :: exists s :: IsCanonical(reg, k, s)
    ensures (forall k | k in order :: IsData(reg, k)) && DenoteDifferently(reg, order)
  {
    forall k | k in order
      ensures IsData(reg, k) && IsCanonical(reg, k, Meant(reg, k).value.0.simple)
    {
      var s :| IsCanonical(reg, k, s);
      PlainKeyParses(k);
      SimpleRoundTrip(reg, s);
    }
    forall i, j | 0 <= i < j < |order|
      ensures Denotation(reg, order[i]) != Denotation(reg, order[j])
    {
      var k, l := order[i], order[j];
      assert k in order && l in order && k != l;
      var s, t := Meant(reg, k).value.0.simple, Meant(reg, l).value.0.simple;
      if StoredId(s) == StoredId(t) && Offset(s) == Offset(t) { SameSimple(reg, s, t); }
    }
  }

  lemma SameSimple(reg: Registry, s: Simple, t: Simple)
    requires WellFormed(reg) && KnownSimple(reg, s) && KnownSimple(reg, t)
    requires StoredId(s) == StoredId(t) && Offset(s) == Offset(t)
    ensures s == t
  {
  }

  // ---------------------------------------------------------------------
  // Computed scenarios
  // ---------------------------------------------------------------------

  /** The formula of a comparison, over the keys of its sides. */
  function FormulaOf(left: string, right: string, percent: bool): Expr
  {
    var difference := Binary(Sub, Name(left), Name(right));
    if !percent then difference
    else Binary(Mult, Binary(Div, difference, Call(Name(ABS), [Name(right)], [])), Num(100.0))
  }

  function EvalOf(reg: Registry, key: string): ScenarioEval
    requires IsComputed(reg, key)
  {
    var r := Meant(reg, key).value.0;
    ScenarioEval(key, FormulaOf(SimpleKey(r.left), SimpleKey(r.right), r.percent))
  }

  /** The comparison of two values; nothing when one is missing, nor as a percentage of zero. */
  function Compared(x: Option<real>, y: Option<real>, percent: bool): Option<real>
  {
    if x.None? || y.None? || (percent && y.value == 0.0) then None
    else if percent then Some((x.value - y.value) / (if y.value < 0.0 then -y.value else y.value) * 100.0)
    else Some(x.value - y.value)
  }

  lemma SizeReads(right: string, read: Reader)
    ensures var size := Call(Name(ABS), [Name(right)], []);
      && !HasAttribute(size) && (EvalNode(size, read).Ok? <==> read(right).Ok?)
      && (read(right).Ok? && read(right).value.None? ==> EvalNode(size, read) == Ok(None))
      && (read(right).Ok? && read(right).value.Some? ==>
        var y := read(right).value.value; EvalNode(size, read) == Ok(Some(if y < 0.0 then -y else y)))
  {
    assert [Name(right)][1..] == [];
    assert !AnyAttribute([Name(right)]) && !AnyAttribute([]);
    assert EvalNode(Name(right), read) == read(right);
  }

  lemma DifferenceReads(left: string, right: string, read: Reader)
    ensures var e := Binary(Sub, Name(left), Name(right));
      && !HasAttribute(e) && (EvalNode(e, read).Ok? <==> read(left).Ok? && read(right).Ok?)
      && (read(left).Ok? && read(right).Ok? ==>
          EvalNode(e, read) == Ok(Compared(read(left).value, read(right).value, false)))
  {
  }

  lemma FormulaCompares(left: string, right: string, percent: bool, read: Reader)
    ensures read(left).Ok? && read(right).Ok? ==>
      EvaluateExpression(FormulaOf(left, right, percent), read) ==
        Ok(Compared(read(left).value, read(right).value, percent))
    ensures read(left).Err? || read(right).Err? ==> EvaluateExpression(FormulaOf(left, right, percent), read).Err?
  {
    SizeReads(right, read);
    DifferenceReads(left, right, read);
    if percent {
      var difference, size := Binary(Sub, Name(left), Name(right)), Call(Name(ABS), [Name(right)], []);
      var ratio := Binary(Div, difference, size);
      var l, r := EvalNode(difference, read), EvalNode(size, read);
      assert EvalNode(ratio, read) ==
        if l.Err? then l else if r.Err? then r
        else if l.value.None? || r.value.None? then Ok(None) else Combine(Div, l.value.value, r.value.value);
      assert !HasAttribute(ratio);
      assert EvalNode(Num(100.0), read) == Ok(Some(100.0));
      assert EvalNode(Binary(Mult, ratio, Num(100.0)), read) ==
        var q := EvalNode(ratio, read);
        if q.Err? then q else if q.value.None? then Ok(None) else Ok(Some(q.value.value * 100.0));
      if read(left).Ok? && read(right).Ok? && read(left).value.Some? && read(right).value.Some? {
        var x, y := read(left).value.value, read(right).value.value;
        var magnitude := if y < 0.0 then -y else y;
        assert l == Ok(Some(x - y)) && r == Ok(Some(magnitude));
        assert magnitude == 0.0 <==> y == 0.0;
        assert y != 0.0 ==> EvalNode(ratio, read) == Ok(Some((x - y) / magnitude));
        assert Compared(Some(x), Some(y), true) == if y == 0.0 then None else Some((x - y) / magnitude * 100.0);
      }
      assert FormulaOf(left, right, percent) == Binary(Mult, ratio, Num(100.0));
      assert !HasAttribute(Num(100.0)) && !HasAttribute(Binary(Mult, ratio, Num(100.0)));
    }
  }

  /**
   * A computed scenario can be evaluated exactly when both sides are in the data, and then
   * holds the comparison of their values.
   */
  lemma ComparisonWorksIffSidesThere(reg: Registry, key: string, data: ResultData, metrics: seq<string>, d: DimKey)
    requires IsComputed(reg, key) && metrics != [] && key !in Sides(reg, key)
    ensures FormulaWorks(data, EvalOf(reg, key), metrics, d) <==> Sides(reg, key) <= data.Keys
    ensures Sides(reg, key) <= data.Keys ==>
      forall m | m in metrics ::
        var r := Meant(reg, key).value.0;
        EvaluateExpression(EvalOf(reg, key).formula, ScenarioReader(data, key, d, m))
          == Ok(Compared(Cell(data, SimpleKey(r.left), d, m), Cell(data, SimpleKey(r.right), d, m), r.percent))
  {
    var r := Meant(reg, key).value.0;
    forall m | m in metrics
      ensures EvaluateExpression(EvalOf(reg, key).formula, ScenarioReader(data, key, d, m)).Ok?
        <==> Sides(reg, key) <= data.Keys
      ensures Sides(reg, key) <= data.Keys ==>
        EvaluateExpression(EvalOf(reg, key).formula, ScenarioReader(data, key, d, m))
          == Ok(Compared(Cell(data, SimpleKey(r.left), d, m), Cell(data, SimpleKey(r.right), d, m), r.percent))
    {
      FormulaCompares(SimpleKey(r.left), SimpleKey(r.right), r.percent, ScenarioReader(data, key, d, m));
    }
    assert metrics[0] in metrics;
  }

  /** A cell of the results is there and holds the number. */
  predicate CellHolds(data: ResultData, s: string, d: DimKey, m: string, x: real)
  {
    s in data && d in data[s] && m in data[s][d] && data[s][d][m] == Some(x)
  }

  lemma ComparisonKeyMeans(reg: Registry, a: string, b: string, percent: bool, key: string)
    requires WellFormed(reg) && Unambiguous(reg) && PlainAliases(reg) && a in reg.aliases && b in reg.aliases
    requires key == if percent then a + "_vs_" + b + "_pct" else a + "_vs_" + b
    ensures IsComputed(reg, key) && EvalOf(reg, key) == ScenarioEval(key, FormulaOf(a, b, percent))
    ensures key !in reg.aliases
  {
    var r := Variance(RealRef(reg.aliases[a]), RealRef(reg.aliases[b]), percent);
    KeyTexts(reg.aliases[a], reg.aliases[b]);
    assert key == Key(r);
    assert '&' !in "_vs_" && '&' !in "_pct";
    UnambiguousRoundTrips(reg, r);
    PlainKeyParses(key);
    VarianceKeyIsNew(reg, r);
  }

  /**
   * Delivered results: under `a_vs_b` stands the value of `a` less that of `b`, and under
   * `a_vs_b_pct` that difference in percent of the size of `b`.
   */
  lemma DeliveredComparison(reg: Registry, a: string, b: string, percent: bool, key: string, data: ResultData,
          metrics: seq<string>, d: DimKey, m: string, x: real, y: real)
    requires WellFormed(reg) && Unambiguous(reg) && PlainAliases(reg) && a in reg.aliases && b in reg.aliases
    requires key == if percent then a + "_vs_" + b + "_pct" else a + "_vs_" + b
    requires IsComputed(reg, key) && ScenarioHolds(data, EvalOf(reg, key), metrics)
    requires m in metrics && CellHolds(data, a, d, m, x) && CellHolds(data, b, d, m, y)
    ensures !percent ==> CellHolds(data, key, d, m, x - y)
    ensures percent && y > 0.0 ==> CellHolds(data, key, d, m, (x - y) / y * 100.0)
    ensures percent && y < 0.0 ==> CellHolds(data, key, d, m, (x - y) / (-y) * 100.0)
  {
    ComparisonKeyMeans(reg, a, b, percent, key);
    ComparedCell(data, key, a, b, percent, metrics, d, m, x, y);
    ComparedValue(x, y, percent);
  }

  lemma ComparedValue(x: real, y: real, percent: bool)
    ensures !percent ==> Compared(Some(x), Some(y), percent) == Some(x - y)
    ensures percent && y > 0.0 ==> Compared(Some(x), Some(y), percent) == Some((x - y) / y * 100.0)
    ensures percent && y < 0.0 ==> Compared(Some(x), Some(y), percent) == Some((x - y) / (-y) * 100.0)
  {
  }

  lemma ComparedCell(data: ResultData, key: string, a: string, b: string, percent: bool, metrics: seq<string>,
          d: DimKey, m: string, x: real, y: real)
    requires ScenarioHolds(data, ScenarioEval(key, FormulaOf(a, b, percent)), metrics) && key != a && key != b
    requires m in metrics && CellHolds(data, a, d, m, x) && CellHolds(data, b, d, m, y)
    ensures key in data && d in data[key] && m in data[key][d]
    ensures data[key][d][m] == Compared(Some(x), Some(y), percent)
  {
    var e := ScenarioEval(key, FormulaOf(a, b, percent));
    assert d in AllDims(data) && e.key in data;
    assert RowComputed(data, ScenarioEval(key, FormulaOf(a, b, percent)), metrics, d, data[key][d]);
    FormulaCompares(a, b, percent, ScenarioReader(data, key, d, m));
  }

  /** With keys that denote differently, every comparison of the request can be evaluated over the retrieved data. */
  lemma AllComparisonsWork(reg: Registry, keys: seq<string>, order: seq<string>, start: string, end: string,
          queries: seq<DataQuery>, data: ResultData, metrics: seq<string>, key: string, d: DimKey)
    requires WellFormed(reg) && metrics != []
    requires Distinct(order) && (forall k | k in order :: IsData(reg, k)) && WindowInYears(start, end)
    requires forall k | Needed(reg, keys, k) && IsData(reg, k) :: k in order
    requires Deduplicated(reg, order, start, end, queries) && DenoteDifferently(reg, order)
    requires QueriedKeys(queries) <= data.Keys
    requires key in keys && IsComputed(reg, key) && DeepPlannable(reg, key)
    ensures FormulaWorks(data, EvalOf(reg, key), metrics, d)
  {
    AllQueriedIffDenoteDifferently(reg, order, start, end, queries);
    forall side | side in Sides(reg, key) ensures side in data && side != key {
      SidesAreData(reg, key, side);
      assert Needed(reg, keys, side) && side in order;
      assert side in Elements(order);
    }
    ComparisonWorksIffSidesThere(reg, key, data, metrics, d);
  }

  /** Two spellings of one scenario: the later is not queried, and a comparison with it as a side fails. */
  lemma SecondSpellingFails(reg: Registry, order: seq<string>, start: string, end: string, queries: seq<DataQuery>,
          i: nat, j: nat, data: ResultData, metrics: seq<string>, key: string, d: DimKey)
    requires Distinct(order) && (forall k | k in order :: IsData(reg, k)) && WindowInYears(start, end)
    requires Deduplicated(reg, order, start, end, queries)
    requires i < j < |order| && Denotation(reg, order[i]) == Denotation(reg, order[j])
    requires data.Keys == QueriedKeys(queries) && metrics != []
    requires IsComputed(reg, key) && order[j] in Sides(reg, key) && key !in Sides(reg, key)
    ensures order[j] !in data && !FormulaWorks(data, EvalOf(reg, key), metrics, d)
  {
    QueriedIffKept(reg, order, start, end, queries, j);
    ComparisonWorksIffSidesThere(reg, key, data, metrics, d);
  }

  /** Two names of old stand for the shifted actuals. */
  lemma CompatibilityResolvesAlike(reg: Registry)
    ensures ResolveKey(reg, "prior_year") == ResolveKey(reg, "actuals_py")
    ensures ResolveKey(reg, "prior_period") == ResolveKey(reg, "actuals_pp")
  {
    assert Compatibility("prior_year") == "actuals_py" == Compatibility("actuals_py");
    assert Compatibility("prior_period") == "actuals_pp" == Compatibility("actuals_pp");
  }

  lemma PriorYearTexts()
    ensures '&' !in PRIOR_YEAR && '&' !in ACTUALS + PY
    ensures AtMost(ACTUALS + PY, PRIOR_YEAR)
  {
  }

  /** A compatibility name and its canonical key are two spellings of one scenario. */
  lemma PriorYearIsASecondSpelling(reg: Registry)
    requires WellFormed(reg) && ACTUALS in reg.aliases && PRIOR_YEAR !in reg.ids && ACTUALS + PY !in reg.ids
    ensures IsData(reg, PRIOR_YEAR) && IsData(reg, ACTUALS + PY)
    ensures Denotation(reg, PRIOR_YEAR) == Denotation(reg, ACTUALS + PY)
    ensures AtMost(ACTUALS + PY, PRIOR_YEAR)
  {
    PriorYearTexts();
    var key, name := ACTUALS + PY, PRIOR_YEAR;
    var s := ShiftedRef(reg.aliases[ACTUALS], PriorYear);
    assert ResolveKey(reg, key) == Some(Single(s)) && ResolveKey(reg, name) == Some(Single(s)) by {
      SimpleRoundTrip(reg, s);
      CompatibilityResolvesAlike(reg);
    }
    assert ParseRef(name) == Ok((name, map[])) by { PlainKeyParses(name); }
    assert ParseRef(key) == Ok((key, map[])) by { PlainKeyParses(key); }
  }
}
