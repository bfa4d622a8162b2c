/**
 * The transform stage: derived metrics filled in place, then computed scenarios.
 */
module Evaluator {
  import opened Wrappers
  import opened Formulas
  import opened Graphs
  import opened Planner

  type Row = map<string, Number>
  type DimKey = seq<string>
  type ScenarioData = map<DimKey, Row>
  type ResultData = map<string, ScenarioData>

  // ---------------------------------------------------------------------
  // What a metric means
  // ---------------------------------------------------------------------

  ghost function Below(g: Graph<string>, k: string): set<string>
  {
    set n | n in g && Reaches(g, k, n)
  }

  /** Following an edge of an acyclic graph leaves strictly less below. */
  lemma BelowShrinks(g: Graph<string>, k: string, d: string)
    requires Acyclic(g) && k in g && d in g && d in g[k]
    ensures |Below(g, d)| < |Below(g, k)|
  {
    forall n | n in Below(g, d) ensures n in Below(g, k) {
      PathPrepend(g, k, d, n);
    }
    SinglePath(g, k);
    if k in Below(g, d) {
      LoopIsCycle(g, k, d);
      assert false;
    }
    assert Below(g, d) <= Below(g, k) - {k};
    SubsetSize(Below(g, d), Below(g, k) - {k});
  }

  /** The formula of `k` names the derived metric `n`, which the reference scan takes for a function. */
  ghost predicate BuiltinRead(cat: Catalogue, k: string, n: string)
  {
    && k in cat && cat[k].Derived? && n in Names(cat[k].formula)
    && n in PYTHON_BUILTINS && n in cat && cat[n].Derived?
  }

  ghost predicate NoBuiltinRead(cat: Catalogue)
  {
    forall k, n :: !BuiltinRead(cat, k, n)
  }

  /** A derived metric means its formula over the meanings of the metrics it names. */
  ghost function Meaning(cat: Catalogue, row: Row, key: string): Outcome
    requires Acyclic(DependencyGraph(cat)) && key in cat && cat[key].Derived?
    decreases |Below(DependencyGraph(cat), key)|
  {
    var g := DependencyGraph(cat);
    EvaluateExpression(cat[key].formula, n =>
      if n in cat && cat[n].Derived? && n in g[key] then BelowShrinks(g, key, n); Meaning(cat, row, n)
      else RowReader(row)(n))
  }

  /** Variables read as meanings: derived metrics by their meaning, anything else from the row. */
  ghost function MeaningReader(cat: Catalogue, row: Row): Reader
    requires Acyclic(DependencyGraph(cat))
  {
    n => if n in cat && cat[n].Derived? then Meaning(cat, row, n) else RowReader(row)(n)
  }

  /**
   * A reading of the names that agrees with the row, and gives each derived metric the value
   * of its formula under the same reading: no mention of plans or of evaluation order.
   */
  ghost predicate Consistent(cat: Catalogue, row: Row, mean: Reader)
  {
    forall k :: mean(k) ==
      if k in cat && cat[k].Derived? then EvaluateExpression(cat[k].formula, mean) else RowReader(row)(k)
  }

  /** Recursive evaluation is such a reading. */
  lemma MeaningIsConsistent(cat: Catalogue, row: Row)
    requires Acyclic(DependencyGraph(cat)) && NoBuiltinRead(cat)
    ensures Consistent(cat, row, MeaningReader(cat, row))
  {
    forall k | k in cat && cat[k].Derived?
      ensures Meaning(cat, row, k) == EvaluateExpression(cat[k].formula, MeaningReader(cat, row))
    {
      MeaningUnfolds(cat, row, k);
    }
  }

  lemma MeaningUnfolds(cat: Catalogue, row: Row, key: string)
    requires Acyclic(DependencyGraph(cat)) && NoBuiltinRead(cat)
    requires key in cat && cat[key].Derived?
    ensures Meaning(cat, row, key) == EvaluateExpression(cat[key].formula, MeaningReader(cat, row))
  {
    var g, f := DependencyGraph(cat), cat[key].formula;
    var inner: Reader := n =>
      if n in cat && cat[n].Derived? && n in g[key] then BelowShrinks(g, key, n); Meaning(cat, row, n)
      else RowReader(row)(n);
    forall n | n in Names(f)
      ensures inner(n) == MeaningReader(cat, row)(n)
    {
      assert !BuiltinRead(cat, key, n);
    }
    ReadsOnlyNames(f, inner, MeaningReader(cat, row));
    assert Meaning(cat, row, key) == EvaluateExpression(f, inner);
  }

  // ---------------------------------------------------------------------
  // Filling a row in plan order
  // ---------------------------------------------------------------------

  ghost function DerivedSet(cat: Catalogue, keys: seq<string>): set<string>
  {
    set k | k in keys && k in cat && cat[k].Derived?
  }

  /** The derived metrics a formula waits for have all been dealt with. */
  ghost predicate Prepared(cat: Catalogue, done: set<string>, key: string)
    requires key in cat
  {
    forall d | d in Refs(cat, key) && d in cat && cat[d].Derived? :: d in done
  }

  /** Derived metrics only, each after the derived metrics its formula refers to. */
  ghost predicate DerivedPlan(cat: Catalogue, done: set<string>, derived: seq<string>)
    decreases derived
  {
    derived == [] ||
    (var key := derived[0];
     && key in cat && cat[key].Derived?
     && Prepared(cat, done, key)
     && DerivedPlan(cat, done + {key}, derived[1..]))
  }

  /** Dropping the base metrics from a plan keeps it a plan. */
  lemma {:induction false} PlanToDerivedPlan(cat: Catalogue, before: seq<string>, rest: seq<string>)
    requires RefsFirst(cat, before + rest)
    ensures DerivedPlan(cat, DerivedSet(cat, before), DerivedOnly(cat, rest))
    decreases rest
  {
    if rest != [] {
      var key, keys := rest[0], before + rest;
      assert keys[|before|] == key;
      assert before + [key] + rest[1..] == keys;
      PlanToDerivedPlan(cat, before + [key], rest[1..]);
      forall d | d in Refs(cat, key) ensures d in before {
        assert d in keys[..|before|];
        assert keys[..|before|] == before;
      }
      if cat[key].Derived? {
        assert DerivedSet(cat, before + [key]) == DerivedSet(cat, before) + {key};
        assert DerivedOnly(cat, rest)[1..] == DerivedOnly(cat, rest[1..]);
      } else {
        assert DerivedSet(cat, before + [key]) == DerivedSet(cat, before);
      }
    }
  }

  lemma {:induction false} DerivedOnlyMembers(cat: Catalogue, keys: seq<string>)
    ensures forall k :: k in DerivedOnly(cat, keys) <==> k in keys && k in cat && cat[k].Derived?
  {
    if keys != [] {
      DerivedOnlyMembers(cat, keys[1..]);
      assert forall k :: k in keys <==> k == keys[0] || k in keys[1..];
    }
  }

  /** The row as it was, but for the given keys, which hold what they mean. */
  ghost predicate Filled(row0: Row, keys: set<string>, mean: Reader, row: Row)
  {
    && row.Keys == row0.Keys + keys
    && forall n | n in row :: if n in keys then mean(n) == Ok(row[n]) else row[n] == row0[n]
  }

  /** In plan order, reading the row is reading meanings. */
  lemma NextIsMeaning(cat: Catalogue, row0: Row, mean: Reader, done: set<string>, row: Row, key: string)
    requires NoBuiltinRead(cat) && Consistent(cat, row0, mean)
    requires Filled(row0, done, mean, row) && done <= cat.Keys && forall k | k in done :: cat[k].Derived?
    requires key in cat && cat[key].Derived? && Prepared(cat, done, key)
    ensures EvaluateExpression(cat[key].formula, RowReader(row)) == mean(key)
  {
    var f := cat[key].formula;
    forall n | n in Names(f)
      ensures RowReader(row)(n) == mean(n)
    {
      if n in cat && cat[n].Derived? {
        assert !BuiltinRead(cat, key, n);
        assert n in Refs(cat, key);
      } else {
        assert n !in done;
      }
    }
    ReadsOnlyNames(f, RowReader(row), mean);
  }

  lemma FilledNext(cat: Catalogue, row0: Row, mean: Reader, done: set<string>, row: Row, key: string, value: Number)
    requires Filled(row0, done, mean, row) && mean(key) == Ok(value)
    ensures Filled(row0, done + {key}, mean, row[key := value])
  {
  }

  ghost predicate Members(keys: set<string>, s: seq<string>)
  {
    forall k :: k in keys <==> k in s
  }

  ghost predicate Meant(cat: Catalogue, keys: set<string>, mean: Reader)
  {
    forall k | k in keys :: k in cat && cat[k].Derived? && mean(k).Ok?
  }

  /** The next metric of a plan is prepared, and the rest is a plan after it. */
  lemma PlanNext(cat: Catalogue, done: set<string>, derived: seq<string>, i: nat)
    requires i < |derived| && DerivedPlan(cat, done, derived[i..])
    ensures derived[i] in cat && cat[derived[i]].Derived? && Prepared(cat, done, derived[i])
    ensures DerivedPlan(cat, done + {derived[i]}, derived[i + 1..])
  {
    assert derived[i..][0] == derived[i] && derived[i..][1..] == derived[i + 1..];
  }

  lemma MembersNext(done: set<string>, derived: seq<string>, i: nat)
    requires i < |derived| && Members(done, derived[..i])
    ensures Members(done + {derived[i]}, derived[..i + 1])
  {
    assert derived[..i + 1] == derived[..i] + [derived[i]];
  }

  /** One row filled in place: it ends at the meanings, or fails exactly when one of them does. */
  method FillRow(cat: Catalogue, row0: Row, derived: seq<string>, ghost mean: Reader)
    returns (row: Row, failure: Option<EvalError>, ghost done: set<string>)
    requires NoBuiltinRead(cat) && Consistent(cat, row0, mean)
    requires DerivedPlan(cat, {}, derived)
    ensures failure.None? ==> Members(done, derived) && Meant(cat, done, mean) && Filled(row0, done, mean, row)
    ensures failure.Some? ==> exists k :: k in derived && mean(k) == Err(failure.value)
  {
    row, failure, done := row0, None, {};
    for i := 0 to |derived|
      invariant DerivedPlan(cat, done, derived[i..])
      invariant Members(done, derived[..i])
      invariant Meant(cat, done, mean)
      invariant Filled(row0, done, mean, row)
    {
      var key := derived[i];
      PlanNext(cat, done, derived, i);
      MembersNext(done, derived, i);
      NextIsMeaning(cat, row0, mean, done, row, key);
      var value := EvaluateExpression(cat[key].formula, RowReader(row));
      if value.Err? {
        failure := Some(value.error);
        return;
      }
      FilledNext(cat, row0, mean, done, row, key, value.value);
      done := done + {key};
      row := row[key := value.value];
    }
    assert derived[..|derived|] == derived;
  }

  // ---------------------------------------------------------------------
  // Computed scenarios
  // ---------------------------------------------------------------------

  /** A scenario computed from others, cell by cell. */
  datatype ScenarioEval = ScenarioEval(key: string, formula: Expr)

  ghost function AllDims(data: ResultData): set<DimKey>
  {
    set s, d | s in data && d in data[s] :: d
  }

  /** A value that was never written reads as missing. */
  function Cell(data: ResultData, s: string, d: DimKey, m: string): Number
    requires s in data
  {
    if d in data[s] && m in data[s][d] then data[s][d][m] else None
  }

  /** Variables of a scenario formula: the other scenarios' values of one metric at one key. */
  function ScenarioReader(data: ResultData, key: string, d: DimKey, m: string): Reader
  {
    n => if n in data && n != key then Ok(Cell(data, n, d, m)) else Err(UnknownVariable(n))
  }

  ghost predicate RowComputed(before: ResultData, e: ScenarioEval, metrics: seq<string>, d: DimKey, row: Row)
  {
    forall m | m in metrics ::
      m in row && Ok(row[m]) == EvaluateExpression(e.formula, ScenarioReader(before, e.key, d, m))
  }

  ghost predicate FormulaWorks(before: ResultData, e: ScenarioEval, metrics: seq<string>, d: DimKey)
  {
    forall m | m in metrics :: EvaluateExpression(e.formula, ScenarioReader(before, e.key, d, m)).Ok?
  }

  /** The row a computed scenario already had at a key, if any. */
  function OldRow(data: ResultData, s: string, d: DimKey): Row
  {
    if s in data && d in data[s] then data[s][d] else map[]
  }

  /** The row after computing: every requested metric by the formula, anything else as it was. */
  ghost predicate RowDone(before: ResultData, e: ScenarioEval, metrics: seq<string>, d: DimKey, row: Row)
  {
    && FormulaWorks(before, e, metrics, d)
    && RowComputed(before, e, metrics, d, row)
    && (forall m :: m in row <==> m in OldRow(before, e.key, d) || m in metrics)
    && (forall m | m in OldRow(before, e.key, d) && m !in metrics :: row[m] == OldRow(before, e.key, d)[m])
  }

  /** The two agree on every scenario but the one being computed. */
  ghost predicate SameElsewhere(before: ResultData, now: ResultData, key: string)
  {
    forall t | t != key :: (t in now <==> t in before) && (t in now ==> now[t] == before[t])
  }

  /** The scenario being written is not one its own formula reads. */
  lemma SameReading(before: ResultData, now: ResultData, e: ScenarioEval, d: DimKey, m: string)
    requires SameElsewhere(before, now, e.key)
    ensures EvaluateExpression(e.formula, ScenarioReader(now, e.key, d, m)) ==
            EvaluateExpression(e.formula, ScenarioReader(before, e.key, d, m))
  {
    ReadsOnlyNames(e.formula, ScenarioReader(now, e.key, d, m), ScenarioReader(before, e.key, d, m));
  }

  method ComputeCells(now: ResultData, ghost before: ResultData, e: ScenarioEval, metrics: seq<string>, d: DimKey)
    returns (row: Row, failure: Option<EvalError>)
    requires SameElsewhere(before, now, e.key) && OldRow(now, e.key, d) == OldRow(before, e.key, d)
    ensures failure.None? ==> RowDone(before, e, metrics, d, row)
    ensures failure.Some? ==> !FormulaWorks(before, e, metrics, d)
  {
    row, failure := OldRow(now, e.key, d), None;
    for i := 0 to |metrics|
      invariant RowDone(before, e, metrics[..i], d, row)
    {
      var value := EvaluateExpression(e.formula, ScenarioReader(now, e.key, d, metrics[i]));
      SameReading(before, now, e, d, metrics[i]);
      if value.Err? {
        failure := Some(value.error);
        return;
      }
      row := row[metrics[i] := value.value];
      assert metrics[..i + 1] == metrics[..i] + [metrics[i]];
    }
    assert metrics[..|metrics|] == metrics;
  }

  // ---------------------------------------------------------------------
  // The results object
  // ---------------------------------------------------------------------

  /** What loading guarantees of a catalogue, and the one condition on names it does not check. */
  ghost predicate Loaded(cat: Catalogue)
  {
    Acyclic(DependencyGraph(cat)) && NoBuiltinRead(cat)
  }

  ghost predicate RowMeant(cat: Catalogue, keys: seq<string>, row: Row)
    requires Loaded(cat)
  {
    forall k | k in DerivedSet(cat, keys) :: MeaningReader(cat, row)(k).Ok?
  }

  ghost predicate RowFilled(cat: Catalogue, keys: seq<string>, before: Row, after: Row)
    requires Loaded(cat)
  {
    Filled(before, DerivedSet(cat, keys), MeaningReader(cat, before), after)
  }

  method FillDerived(cat: Catalogue, keys: seq<string>, derived: seq<string>, row0: Row)
    returns (row: Row, failure: Option<EvalError>)
    requires Loaded(cat) && RefsFirst(cat, keys) && derived == DerivedOnly(cat, keys)
    ensures failure.None? <==> RowMeant(cat, keys, row0)
    ensures failure.None? ==> RowFilled(cat, keys, row0, row)
  {
    assert [] + keys == keys && DerivedSet(cat, []) == {};
    PlanToDerivedPlan(cat, [], keys);
    DerivedOnlyMembers(cat, keys);
    MeaningIsConsistent(cat, row0);
    ghost var done;
    row, failure, done := FillRow(cat, row0, derived, MeaningReader(cat, row0));
    if failure.None? {
      assert done == DerivedSet(cat, keys);
    } else {
      ghost var k :| k in derived && MeaningReader(cat, row0)(k) == Err(failure.value);
      assert k in DerivedSet(cat, keys);
    }
  }

  /** The cell of a derived metric is what real arithmetic makes of the cells beside it. */
  ghost predicate CellIsArithmetic(cat: Catalogue, row: Row, key: string)
    requires key in cat && cat[key].Derived?
  {
    var f := cat[key].formula;
    Supported(f) ==>
      forall env | CellsAre(f, row, env) && Divisible(f, env) ::
        key in row && row[key] == Some(RealValue(f, env))
  }

  /** The row holds the formula's variables as these numbers. */
  ghost predicate CellsAre(f: Expr, row: Row, env: map<string, real>)
    requires Supported(f)
  {
    forall n | n in Variables(f) :: n in env && n in row && row[n] == Some(env[n])
  }

  /** A plan puts the derived metrics that a formula needs among those filled. */
  lemma PlannedIsPrepared(cat: Catalogue, keys: seq<string>, key: string)
    requires RefsFirst(cat, keys) && key in DerivedSet(cat, keys)
    ensures Prepared(cat, DerivedSet(cat, keys), key)
  {
    var i :| 0 <= i < |keys| && keys[i] == key;
    forall d | d in Refs(cat, key) && d in cat && cat[d].Derived? ensures d in DerivedSet(cat, keys) {
      assert d in keys[..i];
    }
  }

  /** In a filled row each planned derived metric is the arithmetic of its formula over that row. */
  lemma FilledRowIsArithmetic(cat: Catalogue, keys: seq<string>, row0: Row, row: Row, key: string)
    requires Loaded(cat) && RefsFirst(cat, keys) && RowFilled(cat, keys, row0, row)
    requires key in DerivedSet(cat, keys)
    ensures CellIsArithmetic(cat, row, key)
  {
    var f, mean := cat[key].formula, MeaningReader(cat, row0);
    MeaningIsConsistent(cat, row0);
    PlannedIsPrepared(cat, keys, key);
    NextIsMeaning(cat, row0, mean, DerivedSet(cat, keys), row, key);
    if Supported(f) {
      forall env | CellsAre(f, row, env) && Divisible(f, env)
        ensures key in row && row[key] == Some(RealValue(f, env))
      {
        assert ReadsAs(f, RowReader(row), env);
        EvaluatesToRealValue(f, RowReader(row), env);
      }
    }
  }

  /** Every row of a scenario holds, at each planned derived metric, what that metric means. */
  ghost predicate DerivedFilled(cat: Catalogue, keys: seq<string>, before: ScenarioData, after: ScenarioData)
    requires Loaded(cat)
  {
    && after.Keys == before.Keys
    && forall d | d in before :: RowFilled(cat, keys, before[d], after[d])
  }

  ghost predicate AllMeant(cat: Catalogue, keys: seq<string>, rows: ScenarioData)
    requires Loaded(cat)
  {
    forall d | d in rows :: RowMeant(cat, keys, rows[d])
  }

  /** A computed scenario has a row, done as above, at exactly the keys the results had before. */
  ghost predicate ScenarioDone(before: ResultData, e: ScenarioEval, metrics: seq<string>, rows: ScenarioData)
  {
    && rows.Keys == AllDims(before)
    && forall d | d in rows :: RowDone(before, e, metrics, d, rows[d])
  }

  /** Every cell of a computed scenario is its formula over the cells of the others. */
  ghost predicate ScenarioHolds(data: ResultData, e: ScenarioEval, metrics: seq<string>)
  {
    && e.key in data
    && forall d | d in AllDims(data) :: d in data[e.key] && RowComputed(data, e, metrics, d, data[e.key][d])
  }

  lemma DoneHolds(before: ResultData, now: ResultData, e: ScenarioEval, metrics: seq<string>)
    requires SameElsewhere(before, now, e.key) && e.key !in before && e.key in now
    requires ScenarioDone(before, e, metrics, now[e.key])
    ensures AllDims(now) == AllDims(before) && ScenarioHolds(now, e, metrics)
  {
    forall d | d in AllDims(now)
      ensures d in AllDims(before)
    {
      var s :| s in now && d in now[s];
      assert s == e.key || (s in before && now[s] == before[s]);
    }
    forall d, m | d in AllDims(now) && m in metrics
      ensures EvaluateExpression(e.formula, ScenarioReader(now, e.key, d, m)) ==
              EvaluateExpression(e.formula, ScenarioReader(before, e.key, d, m))
    {
      SameReading(before, now, e, d, m);
    }
  }

  lemma RowKept(before: ResultData, now: ResultData, e: ScenarioEval, key: string, metrics: seq<string>, d: DimKey,
          row: Row)
    requires SameElsewhere(before, now, key) && key !in Names(e.formula)
    requires RowComputed(before, e, metrics, d, row)
    ensures RowComputed(now, e, metrics, d, row)
  {
    forall m | m in metrics
      ensures EvaluateExpression(e.formula, ScenarioReader(now, e.key, d, m)) ==
              EvaluateExpression(e.formula, ScenarioReader(before, e.key, d, m))
    {
      ReadsOnlyNames(e.formula, ScenarioReader(now, e.key, d, m), ScenarioReader(before, e.key, d, m));
    }
  }

  /** Adding a scenario that a formula does not name leaves that formula's scenario right. */
  lemma HoldsKept(before: ResultData, now: ResultData, e: ScenarioEval, key: string, metrics: seq<string>)
    requires SameElsewhere(before, now, key) && key != e.key && key !in Names(e.formula)
    requires AllDims(now) == AllDims(before) && ScenarioHolds(before, e, metrics)
    ensures ScenarioHolds(now, e, metrics)
  {
    forall d | d in AllDims(now)
      ensures d in now[e.key] && RowComputed(now, e, metrics, d, now[e.key][d])
    {
      RowKept(before, now, e, key, metrics, d, now[e.key][d]);
    }
  }

  /** A scenario formula that can only read the given scenarios. */
  ghost predicate Readable(e: ScenarioEval, scenarios: set<string>)
  {
    Supported(e.formula) && Variables(e.formula) <= scenarios && e.key !in scenarios
  }

  lemma ReadableWorks(data: ResultData, e: ScenarioEval, scenarios: set<string>, metrics: seq<string>, d: DimKey)
    requires Readable(e, scenarios) && scenarios <= data.Keys
    ensures FormulaWorks(data, e, metrics, d)
  {
    forall m | m in metrics
      ensures EvaluateExpression(e.formula, ScenarioReader(data, e.key, d, m)).Ok?
    {
      KnownVariablesEvaluate(e.formula, ScenarioReader(data, e.key, d, m));
    }
  }

  ghost function EvalKeys(evals: seq<ScenarioEval>): set<string>
  {
    set e | e in evals :: e.key
  }

  /** Computed scenarios have keys of their own, and no formula reads a computed scenario. */
  ghost predicate EvalsWellFormed(evals: seq<ScenarioEval>, scenarios: set<string>)
  {
    && (forall i | 0 <= i < |evals| :: evals[i].key !in scenarios)
    && (forall i, j | 0 <= i < j < |evals| :: evals[i].key != evals[j].key)
    && (forall i, j | 0 <= i < |evals| && 0 <= j < |evals| :: evals[i].key !in Names(evals[j].formula))
  }

  /** The first computed scenarios are there and hold, and the stored ones are as they were. */
  ghost predicate Evaluated(derived: ResultData, now: ResultData, evals: seq<ScenarioEval>, done: nat,
          metrics: seq<string>)
    requires done <= |evals|
  {
    && now.Keys == derived.Keys + EvalKeys(evals[..done])
    && (forall s | s in derived :: now[s] == derived[s])
    && (forall j | 0 <= j < done :: ScenarioHolds(now, evals[j], metrics))
  }

  lemma EvaluatedNext(derived: ResultData, before: ResultData, now: ResultData, evals: seq<ScenarioEval>, i: nat,
          metrics: seq<string>)
    requires i < |evals| && EvalsWellFormed(evals, derived.Keys) && Evaluated(derived, before, evals, i, metrics)
    requires SameElsewhere(before, now, evals[i].key) && evals[i].key in now
    requires ScenarioDone(before, evals[i], metrics, now[evals[i].key])
    ensures Evaluated(derived, now, evals, i + 1, metrics)
  {
    NewEvalKey(derived.Keys, evals, i);
    DoneHolds(before, now, evals[i], metrics);
    forall j | 0 <= j < i ensures ScenarioHolds(now, evals[j], metrics) {
      HoldsKept(before, now, evals[j], evals[i].key, metrics);
    }
  }

  lemma NewEvalKey(scenarios: set<string>, evals: seq<ScenarioEval>, i: nat)
    requires i < |evals| && EvalsWellFormed(evals, scenarios)
    ensures evals[i].key !in scenarios + EvalKeys(evals[..i])
    ensures EvalKeys(evals[..i + 1]) == EvalKeys(evals[..i]) + {evals[i].key}
  {
    assert evals[..i + 1] == evals[..i] + [evals[i]];
  }

  /** Part of the way through: rows outside `rest` are done, rows inside it are as they were. */
  ghost predicate InProgress(before: ResultData, now: ResultData, e: ScenarioEval, metrics: seq<string>,
          rest: set<DimKey>)
  {
    && SameElsewhere(before, now, e.key) && e.key in now
    && now[e.key].Keys <= AllDims(before)
    && rest <= AllDims(before)
    && (forall d | d in rest :: OldRow(now, e.key, d) == OldRow(before, e.key, d))
    && (forall d | d in AllDims(before) && d !in rest ::
          d in now[e.key] && RowDone(before, e, metrics, d, now[e.key][d]))
  }

  lemma Progress(before: ResultData, now: ResultData, e: ScenarioEval, metrics: seq<string>, rest: set<DimKey>,
          d: DimKey, row: Row)
    requires InProgress(before, now, e, metrics, rest) && d in rest
    requires RowDone(before, e, metrics, d, row)
    ensures InProgress(before, now[e.key := now[e.key][d := row]], e, metrics, rest - {d})
  {
    var next := now[e.key := now[e.key][d := row]];
    forall x | x in AllDims(before) && x !in rest - {d}
      ensures x in next[e.key] && RowDone(before, e, metrics, x, next[e.key][x])
    {
      if x != d {
        assert x !in rest;
      }
    }
  }

  /** The rows outside `rest` are filled, and those inside it are as they were. */
  ghost predicate FilledSoFar(cat: Catalogue, keys: seq<string>, before: ScenarioData, now: ScenarioData,
          rest: set<DimKey>)
    requires Loaded(cat)
  {
    && rest <= before.Keys && now.Keys == before.Keys
    && (forall d | d in rest :: now[d] == before[d])
    && (forall d | d in before && d !in rest ::
        RowFilled(cat, keys, before[d], now[d]) && RowMeant(cat, keys, before[d]))
  }

  lemma FilledMore(cat: Catalogue, keys: seq<string>, before: ScenarioData, now: ScenarioData, rest: set<DimKey>,
          d: DimKey, row: Row)
    requires Loaded(cat) && FilledSoFar(cat, keys, before, now, rest) && d in rest
    requires RowFilled(cat, keys, before[d], row) && RowMeant(cat, keys, before[d])
    ensures FilledSoFar(cat, keys, before, now[d := row], rest - {d})
  {
  }

  class Results {
    var data: ResultData

    constructor (raw: ResultData)
      ensures data == raw
    {
      data := raw;
    }

    /** Fills one scenario's rows in place. */
    method ComputeDerivedMetrics(s: string, cat: Catalogue, keys: seq<string>) returns (failure: Option<EvalError>)
      requires s in data && Loaded(cat) && RefsFirst(cat, keys)
      modifies this
      ensures data.Keys == old(data).Keys && forall t | t in data && t != s :: data[t] == old(data)[t]
      ensures failure.None? <==> AllMeant(cat, keys, old(data)[s])
      ensures failure.None? ==> DerivedFilled(cat, keys, old(data)[s], data[s])
    {
      failure := None;
      var derived := DerivedOnly(cat, keys);
      ghost var before := data[s];
      var rest := data[s].Keys;
      while rest != {}
        invariant s in data && data == old(data)[s := data[s]] && FilledSoFar(cat, keys, before, data[s], rest)
      {
        var d :| d in rest;
        assert d in before && data[s][d] == before[d];
        var row, error := FillDerived(cat, keys, derived, data[s][d]);
        if error.Some? {
          failure := error;
          return;
        }
        FilledMore(cat, keys, before, data[s], rest, d, row);
        data := data[s := data[s][d := row]];
        rest := rest - {d};
      }
    }

    /** Computes one scenario from the others, at every key any scenario has. */
    method ComputeScenario(e: ScenarioEval, metrics: seq<string>) returns (failure: Option<EvalError>)
      modifies this
      ensures SameElsewhere(old(data), data, e.key) && e.key in data
      ensures failure.None? ==> ScenarioDone(old(data), e, metrics, data[e.key])
      ensures failure.Some? ==> exists d :: d in AllDims(old(data)) && !FormulaWorks(old(data), e, metrics, d)
    {
      failure := None;
      ghost var before := data;
      var rest := KeysOf(data);
      if e.key !in data {
        data := data[e.key := map[]];
      }
      while rest != {}
        invariant InProgress(before, data, e, metrics, rest)
      {
        var d :| d in rest;
        var row, error := ComputeCells(data, before, e, metrics, d);
        if error.Some? {
          failure := error;
          return;
        }
        Progress(before, data, e, metrics, rest, d, row);
        data := data[e.key := data[e.key][d := row]];
        rest := rest - {d};
      }
      assert data[e.key].Keys == AllDims(before);
    }

    /** Derived metrics in every scenario, then the computed scenarios in turn. */
    method Transform(cat: Catalogue, evals: seq<ScenarioEval>, keys: seq<string>) returns (failure: Option<EvalError>)
      requires Loaded(cat) && RefsFirst(cat, keys)
      requires EvalsWellFormed(evals, data.Keys)
      modifies this
      ensures failure.None? ==>
        && data.Keys == old(data).Keys + EvalKeys(evals)
        && (forall s | s in old(data) :: DerivedFilled(cat, keys, old(data)[s], data[s]))
        && (forall i | 0 <= i < |evals| :: ScenarioHolds(data, evals[i], keys))
      ensures (forall i | 0 <= i < |evals| :: Readable(evals[i], old(data).Keys)) ==>
        (failure.None? <==> forall s | s in old(data) :: AllMeant(cat, keys, old(data)[s]))
    {
      failure := DeriveAll(cat, keys);
      if failure.Some? {
        return;
      }
      ghost var derived := data;
      for i := 0 to |evals|
        invariant failure.None? && Evaluated(derived, data, evals, i, keys)
      {
        ghost var before := data;
        failure := ComputeScenario(evals[i], keys);
        if failure.Some? {
          ghost var d :| d in AllDims(before) && !FormulaWorks(before, evals[i], keys, d);
          if Readable(evals[i], derived.Keys) {
            ReadableWorks(before, evals[i], derived.Keys, keys, d);
          }
          return;
        }
        EvaluatedNext(derived, before, data, evals, i, keys);
      }
      assert evals[..|evals|] == evals;
    }

    method DeriveAll(cat: Catalogue, keys: seq<string>) returns (failure: Option<EvalError>)
      requires Loaded(cat) && RefsFirst(cat, keys)
      modifies this
      ensures data.Keys == old(data).Keys
      ensures failure.None? <==> forall s | s in old(data) :: AllMeant(cat, keys, old(data)[s])
      ensures failure.None? ==> forall s | s in data :: DerivedFilled(cat, keys, old(data)[s], data[s])
    {
      failure := None;
      var rest := data.Keys;
      while rest != {}
        invariant failure.None?
        invariant rest <= data.Keys && data.Keys == old(data).Keys
        invariant forall s | s in rest :: data[s] == old(data)[s]
        invariant forall s | s in data && s !in rest ::
          AllMeant(cat, keys, old(data)[s]) && DerivedFilled(cat, keys, old(data)[s], data[s])
      {
        var s :| s in rest;
        assert data[s] == old(data)[s];
        failure := ComputeDerivedMetrics(s, cat, keys);
        if failure.Some? {
          assert !AllMeant(cat, keys, old(data)[s]);
          return;
        }
        rest := rest - {s};
      }
    }
  }

  method KeysOf(data: ResultData) returns (dims: set<DimKey>)
    ensures dims == AllDims(data)
  {
    dims := {};
    var rest := data.Keys;
    while rest != {}
      invariant rest <= data.Keys
      invariant forall d :: d in dims <==> exists s :: s in data && s !in rest && d in data[s]
    {
      var s :| s in rest;
      rest := rest - {s};
      dims := dims + data[s].Keys;
    }
  }
}
