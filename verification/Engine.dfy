/**
 * Loading, planning and transforming put together: what a report's figures mean.
 */
module Engine {
  import opened Wrappers
  import opened Formulas
  import opened Graphs
  import opened Planner
  import opened Evaluator

  /** The loader's checks on metrics: every reference is known and no formula is circular. */
  method ValidateMetrics(cat: Catalogue) returns (accepted: bool)
    ensures accepted <==> (forall k | k in cat :: Refs(cat, k) <= cat.Keys) && Acyclic(DependencyGraph(cat))
  {
    accepted := true;
    var rest := cat.Keys;
    while rest != {}
      invariant rest <= cat.Keys
      invariant accepted <==> forall k | k in cat && k !in rest :: Refs(cat, k) <= cat.Keys
    {
      var k :| k in rest;
      rest := rest - {k};
      if !(Refs(cat, k) <= cat.Keys) {
        accepted := false;
      }
    }
    if accepted {
      var cycle := HasCycle(DependencyGraph(cat));
      accepted := cycle.None?;
    }
  }

  ghost function PlannedKeys(cat: Catalogue, requested: set<string>): seq<string>
  {
    KahnOrder(PlanGraph(cat, Closure(cat, requested)), {})
  }

  lemma KnownRequest(cat: Catalogue, requested: set<string>)
    requires forall k | k in cat :: Refs(cat, k) <= cat.Keys
    ensures NeedsUnknown(cat, requested) <==> !(requested <= cat.Keys)
  {
  }

  lemma PlanFillsClosure(cat: Catalogue, requested: set<string>)
    requires Acyclic(DependencyGraph(cat)) && !NeedsUnknown(cat, requested)
    ensures RefsFirst(cat, PlannedKeys(cat, requested))
    ensures forall k :: k in DerivedSet(cat, PlannedKeys(cat, requested)) <==>
      k in Closure(cat, requested) && cat[k].Derived?
  {
    CheckedPlanIsComplete(cat, requested);
    var order := PlannedKeys(cat, requested);
    assert forall k :: k in order <==> k in set n | n in order;
  }

  /**
   * A report run end to end.  A catalogue that fails the loader's checks and a request for
   * an unknown metric are refused; otherwise every fetched row ends with each needed derived
   * metric at its recursive meaning, and the run fails exactly when some meaning does.
   */
  method RunReport(cat: Catalogue, requested: set<string>, evals: seq<ScenarioEval>, results: Results)
    returns (refused: bool, failure: Option<EvalError>)
    requires NoBuiltinRead(cat)
    requires EvalsWellFormed(evals, results.data.Keys)
    requires forall i | 0 <= i < |evals| :: Readable(evals[i], results.data.Keys)
    modifies results
    ensures refused <==>
      || !(forall k | k in cat :: Refs(cat, k) <= cat.Keys)
      || !Acyclic(DependencyGraph(cat))
      || !(requested <= cat.Keys)
    ensures refused ==> results.data == old(results.data)
    ensures !refused ==> (failure.None? <==>
      forall s, d, k | s in old(results.data) && d in old(results.data)[s]
        && k in Closure(cat, requested) && cat[k].Derived? ::
        Meaning(cat, old(results.data)[s][d], k).Ok?)
    ensures !refused && failure.None? ==>
      forall s, d, k | s in old(results.data) && d in old(results.data)[s]
        && k in Closure(cat, requested) && cat[k].Derived? ::
        && s in results.data && d in results.data[s] && k in results.data[s][d]
        && Ok(results.data[s][d][k]) == Meaning(cat, old(results.data)[s][d], k)
    ensures !refused && failure.None? ==>
      forall s, d, k | s in old(results.data) && d in old(results.data)[s]
        && k in Closure(cat, requested) && cat[k].Derived? ::
        && s in results.data && d in results.data[s] && CellIsArithmetic(cat, results.data[s][d], k)
    ensures !refused && failure.None? ==>
      forall i | 0 <= i < |evals| :: ScenarioHolds(results.data, evals[i], PlannedKeys(cat, requested))
  {
    refused, failure := true, None;
    var accepted := ValidateMetrics(cat);
    if !accepted {
      return;
    }
    KnownRequest(cat, requested);
    var plan := ResolveDependencies(cat, requested);
    if plan.Err? {
      return;
    }
    PlanFillsClosure(cat, requested);
    refused := false;
    ghost var raw := results.data;
    failure := results.Transform(cat, evals, plan.value.all);
    MeantIsMeaning(cat, requested, raw);
    if failure.None? {
      FilledIsMeaning(cat, requested, raw, results.data);
      FilledIsArithmetic(cat, requested, raw, results.data);
    }
  }

  lemma MeantIsMeaning(cat: Catalogue, requested: set<string>, raw: ResultData)
    requires Loaded(cat) && !NeedsUnknown(cat, requested)
    ensures (forall s | s in raw :: AllMeant(cat, PlannedKeys(cat, requested), raw[s])) <==>
      forall s, d, k | s in raw && d in raw[s] && k in Closure(cat, requested) && cat[k].Derived? ::
        Meaning(cat, raw[s][d], k).Ok?
  {
    PlanFillsClosure(cat, requested);
    var keys := PlannedKeys(cat, requested);
    if forall s | s in raw :: AllMeant(cat, keys, raw[s]) {
      forall s, d, k | s in raw && d in raw[s] && k in Closure(cat, requested) && cat[k].Derived?
        ensures Meaning(cat, raw[s][d], k).Ok?
      {
        assert RowMeant(cat, keys, raw[s][d]);
        assert MeaningReader(cat, raw[s][d])(k).Ok?;
      }
    } else {
      var s :| s in raw && !AllMeant(cat, keys, raw[s]);
      var d :| d in raw[s] && !RowMeant(cat, keys, raw[s][d]);
      var k :| k in DerivedSet(cat, keys) && MeaningReader(cat, raw[s][d])(k).Err?;
      assert Meaning(cat, raw[s][d], k).Err?;
    }
  }

  lemma FilledIsMeaning(cat: Catalogue, requested: set<string>, raw: ResultData, data: ResultData)
    requires Loaded(cat) && !NeedsUnknown(cat, requested)
    requires raw.Keys <= data.Keys
    requires forall s | s in raw :: DerivedFilled(cat, PlannedKeys(cat, requested), raw[s], data[s])
    ensures forall s, d, k | s in raw && d in raw[s] && k in Closure(cat, requested) && cat[k].Derived? ::
      d in data[s] && k in data[s][d] && Ok(data[s][d][k]) == Meaning(cat, raw[s][d], k)
  {
    PlanFillsClosure(cat, requested);
    var keys := PlannedKeys(cat, requested);
    forall s, d, k | s in raw && d in raw[s] && k in Closure(cat, requested) && cat[k].Derived?
      ensures d in data[s] && k in data[s][d] && Ok(data[s][d][k]) == Meaning(cat, raw[s][d], k)
    {
      assert DerivedFilled(cat, keys, raw[s], data[s]);
      assert RowFilled(cat, keys, raw[s][d], data[s][d]);
      assert MeaningReader(cat, raw[s][d])(k) == Meaning(cat, raw[s][d], k);
    }
  }

  lemma FilledIsArithmetic(cat: Catalogue, requested: set<string>, raw: ResultData, data: ResultData)
    requires Loaded(cat) && !NeedsUnknown(cat, requested)
    requires raw.Keys <= data.Keys
    requires forall s | s in raw :: DerivedFilled(cat, PlannedKeys(cat, requested), raw[s], data[s])
    ensures forall s, d, k | s in raw && d in raw[s] && k in Closure(cat, requested) && cat[k].Derived? ::
      d in data[s] && CellIsArithmetic(cat, data[s][d], k)
  {
    PlanFillsClosure(cat, requested);
    var keys := PlannedKeys(cat, requested);
    forall s, d, k | s in raw && d in raw[s] && k in Closure(cat, requested) && cat[k].Derived?
      ensures d in data[s] && CellIsArithmetic(cat, data[s][d], k)
    {
      assert DerivedFilled(cat, keys, raw[s], data[s]);
      FilledRowIsArithmetic(cat, keys, raw[s][d], data[s][d], k);
    }
  }

  // ---------------------------------------------------------------------
  // When no unset variable is read
  // ---------------------------------------------------------------------

  /** Every formula the request needs is supported and reads only metrics of the catalogue. */
  ghost predicate PlainFormulas(cat: Catalogue, requested: set<string>)
  {
    forall k | k in Closure(cat, requested) && cat[k].Derived? ::
      Supported(cat[k].formula) && Variables(cat[k].formula) <= Refs(cat, k)
  }

  /** The row holds every base metric the request needs. */
  ghost predicate BasePresent(cat: Catalogue, requested: set<string>, row: Row)
  {
    forall k | k in Closure(cat, requested) && cat[k].Base? :: k in row
  }

  lemma {:induction false} ConsistentNeverUnset(cat: Catalogue, requested: set<string>, row: Row, mean: Reader,
          key: string)
    requires Acyclic(DependencyGraph(cat)) && !NeedsUnknown(cat, requested)
    requires PlainFormulas(cat, requested) && BasePresent(cat, requested, row)
    requires Consistent(cat, row, mean)
    requires key in Closure(cat, requested)
    ensures mean(key).Ok?
    decreases |Below(DependencyGraph(cat), key)|
  {
    assert mean(key) == if cat[key].Derived? then EvaluateExpression(cat[key].formula, mean) else RowReader(row)(key);
    if cat[key].Derived? {
      forall n | n in Variables(cat[key].formula)
        ensures mean(n).Ok?
      {
        assert Wanted(cat, requested, n);
        WantedIsClosure(cat, requested, n);
        BelowShrinks(DependencyGraph(cat), key, n);
        ConsistentNeverUnset(cat, requested, row, mean, n);
      }
      KnownVariablesEvaluate(cat[key].formula, mean);
    }
  }

  /** Then no evaluation meets an unset variable, whatever is missing in the data. */
  lemma MeaningNeverUnset(cat: Catalogue, requested: set<string>, row: Row, key: string)
    requires Loaded(cat) && !NeedsUnknown(cat, requested)
    requires PlainFormulas(cat, requested) && BasePresent(cat, requested, row)
    requires key in Closure(cat, requested) && cat[key].Derived?
    ensures Meaning(cat, row, key).Ok?
  {
    MeaningIsConsistent(cat, row);
    ConsistentNeverUnset(cat, requested, row, MeaningReader(cat, row), key);
  }

  // ---------------------------------------------------------------------
  // The names the reference scan overlooks
  // ---------------------------------------------------------------------

  /** Every derived metric a planned formula names is planned before it. */
  ghost predicate NamesFirst(cat: Catalogue, order: seq<string>)
  {
    forall i, n | 0 <= i < |order| && order[i] in cat && cat[order[i]].Derived?
      && n in Names(cat[order[i]].formula) && n in cat && cat[n].Derived? :: n in order[..i]
  }

  lemma LastStep(g: Graph<string>, p: seq<string>)
    requires IsPath(g, p) && |p| > 1
    ensures p[|p| - 2] in g && p[|p| - 1] in g[p[|p| - 2]]
  {
  }

  lemma OverlookedIsNeverReached(cat: Catalogue, a: string, n: string)
    requires n in PYTHON_BUILTINS && Reaches(DependencyGraph(cat), a, n)
    ensures a == n
  {
    var g := DependencyGraph(cat);
    var p :| IsPathBetween(g, a, n, p);
    if |p| > 1 {
      LastStep(g, p);
      assert false;
    }
  }

  lemma PlanFollowsNames(cat: Catalogue, requested: set<string>)
    requires Acyclic(DependencyGraph(cat)) && forall k | k in cat :: Refs(cat, k) <= cat.Keys
    requires NoBuiltinRead(cat) && requested <= cat.Keys
    ensures NamesFirst(cat, PlannedKeys(cat, requested))
  {
    KnownRequest(cat, requested);
    CheckedPlanIsComplete(cat, requested);
    var order := PlannedKeys(cat, requested);
    forall i, n | 0 <= i < |order| && order[i] in cat && cat[order[i]].Derived?
      && n in Names(cat[order[i]].formula) && n in cat && cat[n].Derived?
      ensures n in order[..i]
    {
      assert !BuiltinRead(cat, order[i], n);
      assert n in Refs(cat, order[i]);
    }
  }

  ghost predicate PlansFollowNames(cat: Catalogue)
  {
    forall requested {:trigger PlannedKeys(cat, requested)} ::
      requested <= cat.Keys ==> NamesFirst(cat, PlannedKeys(cat, requested))
  }

  /**
   * Plans put what a formula names before it, for every request, exactly when no formula
   * names a derived metric that is called like one of the listed functions.
   */
  lemma PlansFollowNamesIffNoBuiltinRead(cat: Catalogue)
    requires Acyclic(DependencyGraph(cat)) && forall k | k in cat :: Refs(cat, k) <= cat.Keys
    ensures PlansFollowNames(cat) <==> NoBuiltinRead(cat)
  {
    if NoBuiltinRead(cat) {
      forall requested {:trigger PlannedKeys(cat, requested)} | requested <= cat.Keys
        ensures NamesFirst(cat, PlannedKeys(cat, requested))
      {
        PlanFollowsNames(cat, requested);
      }
    }
    if k, n :| BuiltinRead(cat, k, n) {
      OverlookedNameIsNotPlanned(cat, k, n);
      assert {k} <= cat.Keys;
    }
  }

  lemma OverlookedNameIsNotPlanned(cat: Catalogue, k: string, n: string)
    requires Acyclic(DependencyGraph(cat)) && forall x | x in cat :: Refs(cat, x) <= cat.Keys
    requires BuiltinRead(cat, k, n)
    ensures !NamesFirst(cat, PlannedKeys(cat, {k}))
  {
    var order := PlannedKeys(cat, {k});
    KnownRequest(cat, {k});
    CheckedPlanIsComplete(cat, {k});
    SinglePath(DependencyGraph(cat), k);
    assert k in Closure(cat, {k});
    assert k in set x | x in order;
    var i :| 0 <= i < |order| && order[i] == k;
    if n in order[..i] {
      assert n in set x | x in order;
      assert n in Closure(cat, {k});
      var r :| r in {k} && Reaches(DependencyGraph(cat), r, n);
      OverlookedIsNeverReached(cat, r, n);
      assert false;
    }
  }
}
