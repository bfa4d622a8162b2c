/**
 * Data-quality checks between landing rows and swapping them in: failing counts, the
 * reconciliation of staged totals with the source's, and the verdict.
 */
module Checks {
  import opened Collections
  import opened Wrappers
  import Ingestion

  datatype Severity = Error | Warning | Info

  datatype Op = Gt | Lt | Ge | Le | Eq | Ne

  datatype Threshold = Threshold(op: Op, n: nat)

  /** How far a staged measure may be from its source: absolutely, or as a share of the source. */
  datatype Tolerance = Tolerance(absolute: Option<real>, share: Option<real>)

  type GroupKey = seq<string>

  type Totals = map<GroupKey, map<string, real>>

  /** A grouped row: the values of the group columns, and the measures. */
  datatype TotalRow = TotalRow(columns: map<string, string>, measures: map<string, Option<real>>)

  /** What the count query of an ordinary check gives. */
  datatype Probe = Count(failing: nat) | CannotCompile | CannotRun

  /** The staged rows of a reconciliation are missing when their query fails. */
  datatype Kind =
    | Counted(probe: Probe)
    | Reconcile(groupBy: seq<string>, measures: map<string, Tolerance>, staged: Option<seq<TotalRow>>)

  datatype Check = Check(name: string, severity: Severity, kind: Kind, threshold: Option<Threshold>)

  datatype CheckResult = CheckResult(name: string, severity: Severity, passed: bool, failing: Option<nat>)

  datatype Verdict = Passed | WithWarnings | Failed

  datatype CheckRun = CheckRun(verdict: Verdict, results: seq<CheckResult>)

  /** A check set that could not be run at all. */
  datatype Unrunnable = NotCompiled(name: string) | NotCaptured(name: string)

  // ---------------------------------------------------------------------
  // Thresholds and tolerances
  // ---------------------------------------------------------------------

  predicate Trips(failing: nat, threshold: Option<Threshold>)
  {
    if threshold.None? then failing > 0
    else
      var n := threshold.value.n;
      match threshold.value.op
      case Gt => failing > n
      case Lt => failing < n
      case Ge => failing >= n
      case Le => failing <= n
      case Eq => failing == n
      case Ne => failing != n
  }

  /**
   * A threshold trips on one side of its bound, for its strict form beyond it and for the other
   * from it; without a threshold any failing row trips.
   */
  lemma ThresholdTrips(failing: nat, n: nat)
    ensures Trips(failing, None) <==> failing != 0
    ensures Trips(failing, Some(Threshold(Gt, n))) <==> failing >= n + 1
    ensures Trips(failing, Some(Threshold(Lt, n))) <==> !Trips(failing, Some(Threshold(Ge, n)))
    ensures Trips(failing, Some(Threshold(Le, n))) <==> !Trips(failing, Some(Threshold(Gt, n)))
    ensures Trips(failing, Some(Threshold(Ne, n))) <==> !Trips(failing, Some(Threshold(Eq, n)))
    ensures Trips(failing, Some(Threshold(Eq, n))) <==>
      Trips(failing, Some(Threshold(Ge, n))) && Trips(failing, Some(Threshold(Le, n)))
    ensures Trips(n, Some(Threshold(Ge, n))) && !Trips(n, Some(Threshold(Gt, n)))
  {
  }

  function Abs(x: real): real
  {
    if x < 0.0 then -x else x
  }

  predicate WithinTolerance(gap: real, source: real, t: Tolerance)
  {
    if t.absolute.Some? then gap <= t.absolute.value
    else if t.share.Some? then (if Abs(source) == 0.0 then gap == 0.0 else gap / Abs(source) <= t.share.value)
    else gap == 0.0
  }

  /** Staged and source agree on a measure. */
  predicate Agrees(staged: real, source: real, t: Tolerance)
  {
    WithinTolerance(Abs(staged - source), source, t)
  }

  /** An absolute tolerance is a band around the source, and comes before a share; with neither nothing may differ. */
  lemma AbsoluteIsBand(staged: real, source: real, band: real, share: Option<real>)
    ensures Agrees(staged, source, Tolerance(Some(band), share)) <==> source - band <= staged <= source + band
    ensures Agrees(staged, source, Tolerance(None, None)) <==> staged == source
  {
  }

  /** A share is judged against the source: the gap may be that share of it, and nothing is a share of zero. */
  lemma ShareIsOfSource(staged: real, source: real, t: Tolerance)
    requires t.absolute.None? && t.share.Some? && t.share.value >= 0.0
    ensures Agrees(staged, source, t) <==> Abs(staged - source) <= t.share.value * Abs(source)
  {
    var gap, size := Abs(staged - source), Abs(source);
    if size > 0.0 {
      assert gap == gap / size * size;
      if gap / size <= t.share.value {
        assert gap / size * size <= t.share.value * size;
      } else {
        assert gap / size * size > t.share.value * size;
      }
    }
  }

  // ---------------------------------------------------------------------
  // Reconciliation
  // ---------------------------------------------------------------------

  predicate HasColumns(row: TotalRow, groupBy: seq<string>)
  {
    forall g | g in groupBy :: g in row.columns
  }

  function KeyOf(row: TotalRow, groupBy: seq<string>): GroupKey
  {
    seq(|groupBy|, i requires 0 <= i < |groupBy| => if groupBy[i] in row.columns then row.columns[groupBy[i]] else "")
  }

  /** A missing measure counts as zero. */
  function Measure(row: TotalRow, m: string): real
  {
    if m in row.measures && row.measures[m].Some? then row.measures[m].value else 0.0
  }

  function Measures(row: TotalRow, names: set<string>): map<string, real>
  {
    map m | m in names :: Measure(row, m)
  }

  /** Two rows are of one group exactly when they agree on every group column. */
  lemma SameGroupIff(r: TotalRow, q: TotalRow, groupBy: seq<string>)
    requires HasColumns(r, groupBy) && HasColumns(q, groupBy)
    ensures KeyOf(r, groupBy) == KeyOf(q, groupBy) <==> forall g | g in groupBy :: r.columns[g] == q.columns[g]
  {
    forall i | 0 <= i < |groupBy| ensures KeyOf(r, groupBy)[i] == r.columns[groupBy[i]] {
      assert groupBy[i] in groupBy;
    }
    forall i | 0 <= i < |groupBy| ensures KeyOf(q, groupBy)[i] == q.columns[groupBy[i]] {
      assert groupBy[i] in groupBy;
    }
    if KeyOf(r, groupBy) == KeyOf(q, groupBy) {
      forall g | g in groupBy ensures r.columns[g] == q.columns[g] {
        var i :| 0 <= i < |groupBy| && groupBy[i] == g;
        assert KeyOf(r, groupBy)[i] == KeyOf(q, groupBy)[i];
      }
    }
  }

  /** A present measure is compared as it is, and a missing one as zero. */
  lemma MissingMeasureIsZero(columns: map<string, string>, m: string, v: real)
    ensures Measure(TotalRow(columns, map[m := Some(v)]), m) == v
    ensures Measure(TotalRow(columns, map[m := None]), m) == 0.0 == Measure(TotalRow(columns, map[]), m)
  {
  }

  ghost predicate KeysDiffer(rows: seq<TotalRow>, groupBy: seq<string>)
  {
    forall i, j | 0 <= i < j < |rows| :: KeyOf(rows[i], groupBy) != KeyOf(rows[j], groupBy)
  }

  /** The totals by key; of two rows with one key the later counts. */
  function TotalsOf(rows: seq<TotalRow>, groupBy: seq<string>, names: set<string>): Totals
  {
    if rows == [] then map[]
    else
      var last := rows[|rows| - 1];
      TotalsOf(rows[..|rows| - 1], groupBy, names)[KeyOf(last, groupBy) := Measures(last, names)]
  }

  method CollectTotals(rows: seq<TotalRow>, groupBy: seq<string>, names: set<string>) returns (totals: Totals)
    ensures totals == TotalsOf(rows, groupBy, names)
  {
    totals := map[];
    for i := 0 to |rows|
      invariant totals == TotalsOf(rows[..i], groupBy, names)
    {
      assert rows[..i + 1][..i] == rows[..i];
      totals := totals[KeyOf(rows[i], groupBy) := Measures(rows[i], names)];
    }
    assert rows[..|rows|] == rows;
  }

  lemma {:induction false} TotalsAreComplete(rows: seq<TotalRow>, groupBy: seq<string>, names: set<string>)
    ensures Complete(TotalsOf(rows, groupBy, names), names)
    ensures forall k :: k in TotalsOf(rows, groupBy, names) <==> exists r :: r in rows && KeyOf(r, groupBy) == k
  {
    if rows != [] {
      TotalsAreComplete(rows[..|rows| - 1], groupBy, names);
      assert rows == rows[..|rows| - 1] + [rows[|rows| - 1]];
    }
  }

  lemma {:induction false} TotalOfRow(rows: seq<TotalRow>, groupBy: seq<string>, names: set<string>, i: nat)
    requires KeysDiffer(rows, groupBy) && i < |rows|
    ensures var k := KeyOf(rows[i], groupBy);
      k in TotalsOf(rows, groupBy, names) && TotalsOf(rows, groupBy, names)[k] == Measures(rows[i], names)
  {
    if i < |rows| - 1 {
      TotalOfRow(rows[..|rows| - 1], groupBy, names, i);
    }
  }

  /** Of two rows with one key the earlier is not looked at. */
  lemma RepeatedKeyHidesEarlierRow(rows: seq<TotalRow>, a: TotalRow, b: TotalRow, groupBy: seq<string>,
          names: set<string>)
    requires KeyOf(a, groupBy) == KeyOf(b, groupBy)
    ensures TotalsOf(rows + [a, b], groupBy, names) == TotalsOf(rows + [b], groupBy, names)
  {
    assert (rows + [a, b])[..|rows| + 1] == rows + [a];
    assert (rows + [a])[..|rows|] == rows && (rows + [b])[..|rows|] == rows;
  }

  /** Some measure of the group is out of tolerance. */
  ghost predicate OutOfTolerance(staged: map<string, real>, source: map<string, real>, measures: map<string, Tolerance>)
  {
    exists m :: m in measures && m in staged && m in source && !Agrees(staged[m], source[m], measures[m])
  }

  /** The key is on one side only, or its measures are out of tolerance. */
  ghost predicate Violates(staged: Totals, source: Totals, measures: map<string, Tolerance>, k: GroupKey)
  {
    k !in staged || k !in source || OutOfTolerance(staged[k], source[k], measures)
  }

  ghost function Violating(staged: Totals, source: Totals, measures: map<string, Tolerance>): set<GroupKey>
  {
    set k | k in staged.Keys + source.Keys && Violates(staged, source, measures, k)
  }

  ghost predicate Complete(totals: Totals, names: set<string>)
  {
    forall k | k in totals :: totals[k].Keys == names
  }

  method GroupFails(staged: map<string, real>, source: map<string, real>, measures: map<string, Tolerance>)
    returns (failed: bool)
    requires staged.Keys == source.Keys == measures.Keys
    ensures failed <==> OutOfTolerance(staged, source, measures)
  {
    failed := false;
    var names := measures.Keys;
    while names != {}
      invariant names <= measures.Keys
      invariant failed <==> exists m :: m in measures && m !in names && !Agrees(staged[m], source[m], measures[m])
      decreases names
    {
      var m :| m in names;
      names := names - {m};
      var gap := Abs(staged[m] - source[m]);
      if !WithinTolerance(gap, source[m], measures[m]) {
        failed := true;
      }
    }
  }

  /** The number of group keys in violation. */
  method CountViolations(staged: Totals, source: Totals, measures: map<string, Tolerance>) returns (failing: nat)
    requires Complete(staged, measures.Keys) && Complete(source, measures.Keys)
    ensures failing == |Violating(staged, source, measures)|
  {
    failing := 0;
    var rest := staged.Keys + source.Keys;
    ghost var found: set<GroupKey> := {};
    while rest != {}
      invariant rest <= staged.Keys + source.Keys
      invariant forall k :: k in found <==>
        k in staged.Keys + source.Keys && k !in rest && Violates(staged, source, measures, k)
      invariant failing == |found|
      decreases rest
    {
      var key :| key in rest;
      assert key !in found;
      rest := rest - {key};
      var failed := true;
      if key in staged && key in source {
        failed := GroupFails(staged[key], source[key], measures);
      }
      if failed {
        failing := failing + 1;
        found := found + {key};
      }
    }
    assert found == Violating(staged, source, measures);
  }

  /** What a reconciliation finds: the number of keys in violation, or that a source row lacks a group column. */
  method RunReconcile(groupBy: seq<string>, measures: map<string, Tolerance>, stagedRows: seq<TotalRow>,
          sourceRows: seq<TotalRow>)
    returns (failing: Option<nat>)
    ensures failing.Some? <==> forall r | r in sourceRows :: HasColumns(r, groupBy)
    ensures failing.Some? ==> failing.value == |Violations(groupBy, measures, stagedRows, sourceRows)|
  {
    var staged := CollectTotals(stagedRows, groupBy, measures.Keys);
    for i := 0 to |sourceRows|
      invariant forall j | 0 <= j < i :: HasColumns(sourceRows[j], groupBy)
    {
      if !HasColumns(sourceRows[i], groupBy) {
        assert sourceRows[i] in sourceRows;
        return None;
      }
    }
    var source := CollectTotals(sourceRows, groupBy, measures.Keys);
    TotalsAreComplete(stagedRows, groupBy, measures.Keys);
    TotalsAreComplete(sourceRows, groupBy, measures.Keys);
    var count := CountViolations(staged, source, measures);
    failing := Some(count);
  }

  /** The group keys in violation, of the rows of both sides. */
  ghost function Violations(groupBy: seq<string>, measures: map<string, Tolerance>, stagedRows: seq<TotalRow>,
          sourceRows: seq<TotalRow>): set<GroupKey>
  {
    Violating(TotalsOf(stagedRows, groupBy, measures.Keys), TotalsOf(sourceRows, groupBy, measures.Keys), measures)
  }

  // ---------------------------------------------------------------------
  // What a reconciliation means
  // ---------------------------------------------------------------------

  ghost predicate KeyIn(rows: seq<TotalRow>, groupBy: seq<string>, k: GroupKey)
  {
    exists r :: r in rows && KeyOf(r, groupBy) == k
  }

  /** At the key both sides have a row, and its measures are within tolerance. */
  ghost predicate ReconcilesAt(groupBy: seq<string>, measures: map<string, Tolerance>, stagedRows: seq<TotalRow>,
          sourceRows: seq<TotalRow>, k: GroupKey)
  {
    && KeyIn(stagedRows, groupBy, k) && KeyIn(sourceRows, groupBy, k)
    && (forall r, q, m | r in stagedRows && q in sourceRows && m in measures
      && KeyOf(r, groupBy) == k && KeyOf(q, groupBy) == k ::
      Agrees(Measure(r, m), Measure(q, m), measures[m]))
  }

  /** The keys in violation are those of either side at which the two do not reconcile. */
  lemma ViolationsAre(groupBy: seq<string>, measures: map<string, Tolerance>, stagedRows: seq<TotalRow>,
          sourceRows: seq<TotalRow>, k: GroupKey)
    requires KeysDiffer(stagedRows, groupBy) && KeysDiffer(sourceRows, groupBy)
    ensures k in Violations(groupBy, measures, stagedRows, sourceRows) <==>
      (KeyIn(stagedRows, groupBy, k) || KeyIn(sourceRows, groupBy, k))
        && !ReconcilesAt(groupBy, measures, stagedRows, sourceRows, k)
  {
    TotalsAreComplete(stagedRows, groupBy, measures.Keys);
    TotalsAreComplete(sourceRows, groupBy, measures.Keys);
    if KeyIn(stagedRows, groupBy, k) && KeyIn(sourceRows, groupBy, k) {
      var i :| 0 <= i < |stagedRows| && KeyOf(stagedRows[i], groupBy) == k;
      var j :| 0 <= j < |sourceRows| && KeyOf(sourceRows[j], groupBy) == k;
      TotalOfRow(stagedRows, groupBy, measures.Keys, i);
      TotalOfRow(sourceRows, groupBy, measures.Keys, j);
      BothRows(groupBy, measures, stagedRows, sourceRows, k, i, j);
    }
  }

  lemma BothRows(groupBy: seq<string>, measures: map<string, Tolerance>, stagedRows: seq<TotalRow>,
          sourceRows: seq<TotalRow>, k: GroupKey, i: nat, j: nat)
    requires KeysDiffer(stagedRows, groupBy) && KeysDiffer(sourceRows, groupBy)
    requires i < |stagedRows| && KeyOf(stagedRows[i], groupBy) == k
    requires j < |sourceRows| && KeyOf(sourceRows[j], groupBy) == k
    ensures OutOfTolerance(Measures(stagedRows[i], measures.Keys), Measures(sourceRows[j], measures.Keys), measures)
      <==> !ReconcilesAt(groupBy, measures, stagedRows, sourceRows, k)
  {
    assert stagedRows[i] in stagedRows && sourceRows[j] in sourceRows;
    assert forall r | r in stagedRows && KeyOf(r, groupBy) == k :: r == stagedRows[i];
    assert forall q | q in sourceRows && KeyOf(q, groupBy) == k :: q == sourceRows[j];
  }

  /**
   * With the default threshold a reconciliation passes exactly when both sides have the same
   * group keys and every measure at every key is within tolerance.
   */
  lemma PassesIffReconciles(groupBy: seq<string>, measures: map<string, Tolerance>, stagedRows: seq<TotalRow>,
          sourceRows: seq<TotalRow>)
    requires KeysDiffer(stagedRows, groupBy) && KeysDiffer(sourceRows, groupBy)
    ensures !Trips(|Violations(groupBy, measures, stagedRows, sourceRows)|, None) <==>
      forall k | KeyIn(stagedRows, groupBy, k) || KeyIn(sourceRows, groupBy, k) ::
        ReconcilesAt(groupBy, measures, stagedRows, sourceRows, k)
  {
    var bad := Violations(groupBy, measures, stagedRows, sourceRows);
    if bad == {} {
      forall k | KeyIn(stagedRows, groupBy, k) || KeyIn(sourceRows, groupBy, k)
        ensures ReconcilesAt(groupBy, measures, stagedRows, sourceRows, k)
      {
        ViolationsAre(groupBy, measures, stagedRows, sourceRows, k);
      }
    } else {
      var k :| k in bad;
      ViolationsAre(groupBy, measures, stagedRows, sourceRows, k);
    }
  }

  // ---------------------------------------------------------------------
  // The verdict
  // ---------------------------------------------------------------------

  /** A check that cannot be compiled, or whose source totals were never captured, stops the whole set. */
  predicate Runnable(c: Check, captured: map<string, seq<TotalRow>>)
  {
    match c.kind
    case Counted(probe) => !probe.CannotCompile?
    case Reconcile(_, _, _) => c.name in captured
  }

  /** How many rows or group keys fail the check, unless it breaks off. */
  ghost function FailingOf(c: Check, captured: map<string, seq<TotalRow>>): Option<nat>
    requires Runnable(c, captured)
  {
    match c.kind
    case Counted(probe) => if probe.Count? then Some(probe.failing) else None
    case Reconcile(groupBy, measures, staged) =>
      if staged.Some? && forall r | r in captured[c.name] :: HasColumns(r, groupBy)
      then Some(|Violations(groupBy, measures, staged.value, captured[c.name])|)
      else None
  }

  /** The check ran, and its failing count does not trip its threshold. */
  ghost predicate Passes(c: Check, captured: map<string, seq<TotalRow>>)
    requires Runnable(c, captured)
  {
    FailingOf(c, captured).Some? && !Trips(FailingOf(c, captured).value, c.threshold)
  }

  /** A result names its check, says whether it passes, and how much fails. */
  ghost predicate Reports(r: CheckResult, c: Check, captured: map<string, seq<TotalRow>>)
    requires Runnable(c, captured)
  {
    && r.name == c.name && r.severity == c.severity
    && (r.passed <==> Passes(c, captured)) && r.failing == FailingOf(c, captured)
  }

  method RunCheck(c: Check, captured: map<string, seq<TotalRow>>) returns (result: Result<CheckResult, Unrunnable>)
    ensures result.Ok? <==> Runnable(c, captured)
    ensures result.Ok? ==> Reports(result.value, c, captured)
  {
    match c.kind
    case Counted(probe) =>
      match probe {
        case CannotCompile => result := Err(NotCompiled(c.name));
        case CannotRun => result := Ok(CheckResult(c.name, c.severity, false, None));
        case Count(n) => result := Ok(CheckResult(c.name, c.severity, !Trips(n, c.threshold), Some(n)));
      }
    case Reconcile(groupBy, measures, staged) =>
      if c.name !in captured {
        return Err(NotCaptured(c.name));
      }
      if staged.None? {
        return Ok(CheckResult(c.name, c.severity, false, None));
      }
      var failing := RunReconcile(groupBy, measures, staged.value, captured[c.name]);
      result := Ok(CheckResult(c.name, c.severity, failing.Some? && !Trips(failing.value, c.threshold), failing));
  }

  ghost predicate SomeFails(checks: seq<Check>, captured: map<string, seq<TotalRow>>, s: Severity)
    requires forall c | c in checks :: Runnable(c, captured)
  {
    exists c :: c in checks && c.severity == s && !Passes(c, captured)
  }

  function Tripped(results: seq<CheckResult>, s: Severity): bool
  {
    exists r :: r in results && r.severity == s && !r.passed
  }

  /** Runs every check and decides the verdict, or reports the first that cannot be run. */
  method RunChecks(checks: seq<Check>, captured: map<string, seq<TotalRow>>) returns (run: Result<CheckRun, Unrunnable>)
    ensures run.Ok? <==> forall c | c in checks :: Runnable(c, captured)
    ensures run.Ok? ==> |run.value.results| == |checks|
    ensures run.Ok? ==> forall i | 0 <= i < |checks| :: Reports(run.value.results[i], checks[i], captured)
    ensures run.Ok? ==> (run.value.verdict == Failed <==> SomeFails(checks, captured, Error))
    ensures run.Ok? ==> (run.value.verdict == Passed <==>
      !SomeFails(checks, captured, Error) && !SomeFails(checks, captured, Warning))
  {
    var results: seq<CheckResult> := [];
    for i := 0 to |checks|
      invariant |results| == i
      invariant forall j | 0 <= j < i :: Runnable(checks[j], captured)
      invariant forall j | 0 <= j < i :: Reports(results[j], checks[j], captured)
    {
      var result := RunCheck(checks[i], captured);
      if result.Err? {
        assert checks[i] in checks;
        return Err(result.error);
      }
      results := results + [result.value];
    }
    TrippedIffFails(checks, captured, results, Error);
    TrippedIffFails(checks, captured, results, Warning);
    var verdict := if Tripped(results, Error) then Failed
      else if Tripped(results, Warning) then WithWarnings else Passed;
    run := Ok(CheckRun(verdict, results));
  }

  lemma TrippedIffFails(checks: seq<Check>, captured: map<string, seq<TotalRow>>, results: seq<CheckResult>,
          s: Severity)
    requires |results| == |checks| && forall c | c in checks :: Runnable(c, captured)
    requires forall j | 0 <= j < |checks| :: Reports(results[j], checks[j], captured)
    ensures Tripped(results, s) <==> SomeFails(checks, captured, s)
  {
    if c :| c in checks && c.severity == s && !Passes(c, captured) {
      var j :| 0 <= j < |checks| && checks[j] == c;
      assert results[j] in results;
    }
  }

  // ---------------------------------------------------------------------
  // The gate
  // ---------------------------------------------------------------------

  /** What the load makes of the checks. */
  function OutcomeOf(run: Result<CheckRun, Unrunnable>): Ingestion.CheckOutcome
  {
    if run.Err? then Ingestion.Unrunnable
    else if run.value.verdict.Failed? then Ingestion.Blocked
    else Ingestion.Passed
  }

  /**
   * The check stage of a load: it goes on towards its swap exactly when all checks can be run
   * and none of error severity fails; otherwise it ends with the status that says which.
   */
  method CheckStage(t: Ingestion.Attempt, checks: seq<Check>, captured: map<string, seq<TotalRow>>)
    returns (next: Ingestion.Attempt)
    requires t.pc.Checking? && (t.req.hasChecks <==> checks != [])
    ensures next.pc.Checked? <==>
      (forall c | c in checks :: Runnable(c, captured)) && !SomeFails(checks, captured, Error)
    ensures !next.pc.Checked? ==> next.pc == Ingestion.Finalising(
      if forall c | c in checks :: Runnable(c, captured) then Ingestion.FailedChecks else Ingestion.FailedRecon)
  {
    var run := RunChecks(checks, captured);
    next := Ingestion.Advance(t, Ingestion.RunChecks(OutcomeOf(run)));
  }
}
