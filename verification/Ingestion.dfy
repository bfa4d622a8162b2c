/**
 * Load attempts as a protocol.  Any number of attempts run at once; each advances one
 * effect at a time over the shared lock table, staging and live slices and load history,
 * and may crash between any two effects.
 */
module Ingestion {
  import opened Wrappers

  // ---------------------------------------------------------------------
  // State
  // ---------------------------------------------------------------------

  datatype Kind = Period | Snapshot

  datatype Stage = ExtractStage | ValidateStage | SwapStage

  /** One call: a binding, the slice it loads, and the operator's stop knob. */
  datatype Request = Request(binding: string, period: string, kind: Kind, stopAfter: Option<Stage>, hasChecks: bool)

  /** A landed row carries the load that wrote it. */
  datatype Row = Row(load: nat, value: int)

  datatype Status =
    | Success | FailedOther | FailedExtract | FailedValidation | FailedRecon | FailedChecks | FailedSwap

  datatype Pc =
    | Locking
    | Refused
    | Clearing
    | Querying
    | Landing
    | Sourcing
    | Extracted
    | Validating
    | Checking
    | Checked
    | Swapping
    | Dropping
    | Swapped
    | Finalising(status: Status)
    | Releasing(result: Option<Status>)
    | Returned(final: Status)
    | Raised
    | Crashed

  datatype Attempt = Attempt(
    req: Request,
    pc: Pc,
    rows: seq<int>,      // what the source query returned
    validated: bool,     // the shape check passed
    checked: bool,       // the declared checks did not block
    swapped: bool        // its slice was put live
  )

  /** A table and a partition of it; a snapshot table is one slice. */
  type Slice = (string, string)

  type Table = map<Slice, seq<Row>>

  datatype State = State(
    lock: map<string, nat>,
    staging: Table,
    live: Table,
    attempts: map<nat, Attempt>,
    history: map<nat, seq<Status>>    // the finalisations of each attempt's row
  )

  /** The live table each binding delivers. */
  type Targets = string -> string

  function Content(t: Table, s: Slice): seq<Row>
  {
    if s in t then t[s] else []
  }

  function SliceOf(targets: Targets, req: Request): Slice
  {
    (targets(req.binding), if req.kind.Snapshot? then "" else req.period)
  }

  function Tagged(load: nat, rows: seq<int>): seq<Row>
  {
    seq(|rows|, i requires 0 <= i < |rows| => Row(load, rows[i]))
  }

  // ---------------------------------------------------------------------
  // Steps
  // ---------------------------------------------------------------------

  datatype CheckOutcome = Passed | Blocked | Unrunnable

  datatype Action =
    | Begin(req: Request)
    | Grant
    | Refuse
    | Clear
    | Query(rows: seq<int>)
    | Land
    | LandPart(n: nat)            // the insert fails after writing some rows
    | ReadSource
    | AfterExtract
    | Validate(pass: bool)
    | RunChecks(outcome: CheckOutcome)
    | AfterChecks
    | Promote                     // REPLACE PARTITION or EXCHANGE TABLES
    | DropStaging
    | RecordSwap
    | Fault                       // an error the stage turns into a failed status
    | Escape                      // an error nothing catches
    | Finalise
    | Release
    | Crash

  /** Between a granted lock and its release. */
  predicate Holds(pc: Pc)
  {
    match pc
    case Locking | Refused | Returned(_) | Raised | Crashed => false
    case _ => true
  }

  predicate Live(pc: Pc)
  {
    !pc.Returned? && !pc.Raised? && !pc.Crashed?
  }

  /** The status a failing stage reports. */
  function FaultStatus(pc: Pc): Option<Status>
  {
    match pc
    case Clearing | Querying | Landing | Sourcing => Some(FailedExtract)
    case Validating => Some(FailedRecon)
    case Swapping | Dropping => Some(FailedSwap)
    case _ => None
  }

  /** What an attempt's own position allows. */
  predicate CanDo(t: Attempt, act: Action)
  {
    match act
    case Begin(_) => false
    case Grant | Refuse => t.pc.Locking?
    case Clear => t.pc.Clearing?
    case Query(_) => t.pc.Querying?
    case Land => t.pc.Landing?
    case LandPart(n) => t.pc.Landing? && n <= |t.rows|
    case ReadSource => t.pc.Sourcing?
    case AfterExtract => t.pc.Extracted?
    case Validate(_) => t.pc.Validating?
    case RunChecks(_) => t.pc.Checking?
    case AfterChecks => t.pc.Checked?
    case Promote => t.pc.Swapping?
    case DropStaging => t.pc.Dropping?
    case RecordSwap => t.pc.Swapped?
    case Fault => FaultStatus(t.pc).Some?
    case Escape => t.pc.Locking? || (Holds(t.pc) && !t.pc.Releasing?)
    case Finalise => t.pc.Finalising? || t.pc.Refused?
    case Release => t.pc.Releasing?
    case Crash => Live(t.pc)
  }

  /** The attempt after one step. */
  function Advance(t: Attempt, act: Action): Attempt
    requires CanDo(t, act)
  {
    match act
    case Grant => t.(pc := Clearing)
    case Refuse => t.(pc := Refused)
    case Clear => t.(pc := Querying)
    case Query(rows) => t.(rows := rows, pc := if rows == [] then Sourcing else Landing)
    case Land => t.(pc := Sourcing)
    case LandPart(_) => t.(pc := Finalising(FailedExtract))
    case ReadSource => t.(pc := Extracted)
    case AfterExtract =>
      t.(pc :=
        if t.req.stopAfter == Some(ExtractStage) then Finalising(Success)
        else if t.rows == [] then Finalising(FailedValidation)
        else Validating)
    case Validate(pass) =>
      if pass then t.(pc := Checking, validated := true) else t.(pc := Finalising(FailedRecon))
    case RunChecks(outcome) =>
      if !t.req.hasChecks || outcome.Passed? then t.(pc := Checked, checked := true)
      else t.(pc := Finalising(if outcome.Blocked? then FailedChecks else FailedRecon))
    case AfterChecks =>
      t.(pc := if t.req.stopAfter == Some(ValidateStage) then Finalising(Success) else Swapping)
    case Promote => t.(pc := if t.req.kind.Snapshot? then Swapped else Dropping, swapped := true)
    case DropStaging => t.(pc := Swapped)
    case RecordSwap => t.(pc := Finalising(Success))
    case Fault => t.(pc := Finalising(FaultStatus(t.pc).value))
    case Escape => t.(pc := if t.pc.Locking? then Raised else Releasing(None))
    case Finalise => t.(pc := if t.pc.Refused? then Returned(FailedOther) else Releasing(Some(t.pc.status)))
    case Release => t.(pc := if t.pc.result.Some? then Returned(t.pc.result.value) else Raised)
    case Crash => t.(pc := Crashed)
  }

  /** What a step adds to the attempt's history row. */
  function Finals(t: Attempt, act: Action): seq<Status>
  {
    if !act.Finalise? then []
    else if t.pc.Finalising? then [t.pc.status]
    else [FailedOther]
  }

  /** The attempt's staging slice after a step. */
  function StagedAfter(a: nat, t: Attempt, act: Action, staged: seq<Row>, live: seq<Row>): seq<Row>
    requires CanDo(t, act)
  {
    match act
    case Clear | DropStaging => []
    case Land => staged + Tagged(a, t.rows)
    case LandPart(n) => staged + Tagged(a, t.rows[..n])
    case Promote => if t.req.kind.Snapshot? then live else staged
    case _ => staged
  }

  function LockAfter(lock: map<string, nat>, a: nat, t: Attempt, act: Action): map<string, nat>
  {
    if act.Grant? then lock[t.req.binding := a]
    else if (act.Release? || act.Crash?) && t.req.binding in lock && lock[t.req.binding] == a
    then lock - {t.req.binding}
    else lock
  }

  predicate Enabled(s: State, a: nat, act: Action)
  {
    if act.Begin? then
      a !in s.attempts && a !in s.history
    else
      && a in s.attempts && a in s.history
      && CanDo(s.attempts[a], act)
      && (act.Grant? ==> s.attempts[a].req.binding !in s.lock)
      && (act.Refuse? ==> s.attempts[a].req.binding in s.lock)
  }

  function Next(targets: Targets, s: State, a: nat, act: Action): State
    requires Enabled(s, a, act)
  {
    if act.Begin? then
      s.(attempts := s.attempts[a := Attempt(act.req, Locking, [], false, false, false)], history := s.history[a := []])
    else
      var t := s.attempts[a];
      var slice := SliceOf(targets, t.req);
      var staged, live := Content(s.staging, slice), Content(s.live, slice);
      State(
        LockAfter(s.lock, a, t, act),
        s.staging[slice := StagedAfter(a, t, act, staged, live)],
        if act.Promote? then s.live[slice := staged] else s.live,
        s.attempts[a := Advance(t, act)],
        s.history[a := s.history[a] + Finals(t, act)])
  }

  // ---------------------------------------------------------------------
  // Runs
  // ---------------------------------------------------------------------

  datatype Event = Event(attempt: nat, action: Action)

  ghost predicate IsRun(targets: Targets, s: State, run: seq<Event>, end: State)
    decreases run
  {
    if run == [] then s == end
    else
      && Enabled(s, run[0].attempt, run[0].action)
      && IsRun(targets, Next(targets, s, run[0].attempt, run[0].action), run[1..], end)
  }

  function Initial(live: Table, staging: Table): State
  {
    State(map[], staging, live, map[], map[])
  }

  // ---------------------------------------------------------------------
  // The invariant
  // ---------------------------------------------------------------------

  /** The lock names exactly the attempt inside the protected section. */
  ghost predicate LockInv(s: State)
  {
    HoldersListed(s) && ListedHold(s)
  }

  ghost predicate HoldersListed(s: State)
  {
    forall a | a in s.attempts && Holds(s.attempts[a].pc) ::
      s.attempts[a].req.binding in s.lock && s.lock[s.attempts[a].req.binding] == a
  }

  ghost predicate ListedHold(s: State)
  {
    forall b | b in s.lock ::
      s.lock[b] in s.attempts && s.attempts[s.lock[b]].req.binding == b && Holds(s.attempts[s.lock[b]].pc)
  }

  /** What an attempt that holds the lock knows of its staging slice. */
  predicate Staged(a: nat, t: Attempt, content: seq<Row>)
  {
    match t.pc
    case Querying | Landing => content == []
    case Sourcing | Extracted | Validating | Checking | Checked | Swapping | Dropping => content == Tagged(a, t.rows)
    case _ => true
  }

  ghost predicate StagingInv(targets: Targets, s: State)
  {
    forall a | a in s.attempts :: Staged(a, s.attempts[a], Content(s.staging, SliceOf(targets, s.attempts[a].req)))
  }

  /** The gates an attempt has passed by the time it stands where it stands, and when it has swapped. */
  predicate Gates(t: Attempt)
  {
    match t.pc
    case Validating => t.rows != [] && Ungated(t) && t.req.stopAfter != Some(ExtractStage)
    case Checking => t.rows != [] && t.validated && !t.checked && !t.swapped && t.req.stopAfter != Some(ExtractStage)
    case Checked => t.rows != [] && t.validated && t.checked && !t.swapped && t.req.stopAfter != Some(ExtractStage)
    case Swapping => t.rows != [] && t.validated && t.checked && !t.swapped && !StoppedEarly(t.req)
    case Dropping => AllGates(t) && t.swapped && !StoppedEarly(t.req) && t.req.kind.Period?
    case Swapped => AllGates(t) && t.swapped && !StoppedEarly(t.req)
    case Finalising(_) | Releasing(_) | Returned(_) | Raised | Crashed => true
    case Locking | Refused | Clearing | Querying => t.rows == [] && Ungated(t)
    case _ => Ungated(t)
  }

  /** No gate passed yet. */
  predicate Ungated(t: Attempt)
  {
    !t.validated && !t.checked && !t.swapped
  }

  /** Rows came, in shape, and no check blocked them. */
  predicate AllGates(t: Attempt)
  {
    t.rows != [] && t.validated && t.checked
  }

  predicate StoppedEarly(req: Request)
  {
    req.stopAfter == Some(ExtractStage) || req.stopAfter == Some(ValidateStage)
  }

  /**
   * How far a reported status says the attempt got: the gates it passed, and whether its slice
   * was put live.  The swap flag can only outrun a failed period swap.
   */
  predicate StatusFits(t: Attempt, status: Status)
  {
    match status
    case Success =>
      && (t.swapped <==> !StoppedEarly(t.req))
      && (if t.req.stopAfter == Some(ExtractStage) then Ungated(t) else AllGates(t))
    case FailedOther => t.rows == [] && Ungated(t)
    case FailedExtract => Ungated(t)
    case FailedValidation => t.rows == [] && Ungated(t) && t.req.stopAfter != Some(ExtractStage)
    case FailedRecon =>
      t.rows != [] && !t.checked && !t.swapped && (t.validated ==> t.req.hasChecks)
      && t.req.stopAfter != Some(ExtractStage)
    case FailedChecks =>
      t.rows != [] && t.validated && t.req.hasChecks && !t.checked && !t.swapped
      && t.req.stopAfter != Some(ExtractStage)
    case FailedSwap => AllGates(t) && !StoppedEarly(t.req) && (t.swapped ==> t.req.kind.Period?)
  }

  /** How an attempt stands to its history row, and a status to the swap. */
  predicate Recorded(t: Attempt, finals: seq<Status>)
  {
    match t.pc
    case Dropping | Swapped => finals == []
    case Finalising(status) => finals == [] && StatusFits(t, status)
    case Releasing(Some(status)) => finals == [status] && StatusFits(t, status)
    case Returned(status) => finals == [status] && StatusFits(t, status)
    case Crashed => |finals| <= 1
    case _ => finals == []
  }

  ghost predicate AttemptsInv(s: State)
  {
    && s.history.Keys == s.attempts.Keys
    && (forall a | a in s.attempts :: Gates(s.attempts[a]))
    && (forall a | a in s.attempts :: Recorded(s.attempts[a], s.history[a]))
  }

  /** The slice is, whole, what one load landed and got through every gate. */
  ghost predicate LandedBy(targets: Targets, s: State, a: nat, slice: Slice)
  {
    && a in s.attempts
    && var t := s.attempts[a];
       && SliceOf(targets, t.req) == slice
       && t.rows != [] && t.validated && t.checked && t.swapped
       && Content(s.live, slice) == Tagged(a, t.rows)
  }

  ghost predicate LiveInv(targets: Targets, live0: Table, s: State)
  {
    forall slice :: Content(s.live, slice) == Content(live0, slice) || exists a :: LandedBy(targets, s, a, slice)
  }

  ghost predicate Inv(targets: Targets, live0: Table, s: State)
  {
    LockInv(s) && StagingInv(targets, s) && AttemptsInv(s) && LiveInv(targets, live0, s)
  }

  /** No two bindings deliver the same table. */
  ghost predicate OneTargetEach(targets: Targets)
  {
    forall b, c :: targets(b) == targets(c) ==> b == c
  }

  // ---------------------------------------------------------------------
  // Every step keeps it
  // ---------------------------------------------------------------------

  lemma GatesKept(t: Attempt, act: Action)
    requires CanDo(t, act) && Gates(t)
    ensures Gates(Advance(t, act))
    ensures t.swapped ==> Advance(t, act) == t.(pc := Advance(t, act).pc)
  {
  }

  lemma RecordedKept(t: Attempt, act: Action, finals: seq<Status>)
    requires CanDo(t, act) && Gates(t) && Recorded(t, finals)
    ensures Recorded(Advance(t, act), finals + Finals(t, act))
  {
  }

  lemma StagedKept(a: nat, t: Attempt, act: Action, staged: seq<Row>, live: seq<Row>)
    requires CanDo(t, act) && Staged(a, t, staged)
    ensures Staged(a, Advance(t, act), StagedAfter(a, t, act, staged, live))
  {
  }

  /** Only a holder writes, so a step outside the protected section changes no slice. */
  lemma WritersHold(a: nat, t: Attempt, act: Action, staged: seq<Row>, live: seq<Row>)
    requires CanDo(t, act) && !Holds(t.pc)
    ensures StagedAfter(a, t, act, staged, live) == staged && !act.Promote?
  {
  }

  lemma HoldsAfter(t: Attempt, act: Action)
    requires CanDo(t, act)
    ensures Holds(Advance(t, act).pc) <==> act.Grant? || (Holds(t.pc) && !act.Release? && !act.Crash?)
    ensures Advance(t, act).req == t.req
  {
  }

  lemma HoldersStayListed(targets: Targets, s: State, a: nat, act: Action)
    requires LockInv(s) && Enabled(s, a, act)
    ensures HoldersListed(Next(targets, s, a, act))
  {
    if !act.Begin? { HoldsAfter(s.attempts[a], act); }
  }

  lemma ListedStillHold(targets: Targets, s: State, a: nat, act: Action)
    requires LockInv(s) && Enabled(s, a, act)
    ensures ListedHold(Next(targets, s, a, act))
  {
    if !act.Begin? { HoldsAfter(s.attempts[a], act); }
  }

  lemma LockKept(targets: Targets, s: State, a: nat, act: Action)
    requires LockInv(s) && Enabled(s, a, act)
    ensures LockInv(Next(targets, s, a, act))
  {
    HoldersStayListed(targets, s, a, act);
    ListedStillHold(targets, s, a, act);
  }

  lemma AttemptsKept(targets: Targets, s: State, a: nat, act: Action)
    requires AttemptsInv(s) && Enabled(s, a, act)
    ensures AttemptsInv(Next(targets, s, a, act))
  {
    if !act.Begin? {
      GatesKept(s.attempts[a], act);
      RecordedKept(s.attempts[a], act, s.history[a]);
    }
  }

  /** Two attempts inside the protected section never share a slice. */
  lemma SlicesApart(targets: Targets, s: State, a: nat, b: nat)
    requires OneTargetEach(targets) && LockInv(s)
    requires a in s.attempts && b in s.attempts && Holds(s.attempts[a].pc) && Holds(s.attempts[b].pc)
    requires SliceOf(targets, s.attempts[a].req) == SliceOf(targets, s.attempts[b].req)
    ensures a == b
  {
  }

  lemma StagingKept(targets: Targets, s: State, a: nat, act: Action)
    requires OneTargetEach(targets) && LockInv(s) && StagingInv(targets, s) && Enabled(s, a, act)
    ensures StagingInv(targets, Next(targets, s, a, act))
  {
    if !act.Begin? {
      var t := s.attempts[a];
      var mine := SliceOf(targets, t.req);
      StagedKept(a, t, act, Content(s.staging, mine), Content(s.live, mine));
      forall b | b in s.attempts && b != a
        ensures Staged(b, s.attempts[b],
          Content(Next(targets, s, a, act).staging, SliceOf(targets, s.attempts[b].req)))
      {
        OthersStagingKept(targets, s, a, act, b);
      }
    }
  }

  /** A step of one attempt leaves what another has staged. */
  lemma OthersStagingKept(targets: Targets, s: State, a: nat, act: Action, b: nat)
    requires OneTargetEach(targets) && LockInv(s) && StagingInv(targets, s) && Enabled(s, a, act)
    requires !act.Begin? && b in s.attempts && b != a
    ensures Staged(b, s.attempts[b], Content(Next(targets, s, a, act).staging, SliceOf(targets, s.attempts[b].req)))
  {
    var t, u := s.attempts[a], s.attempts[b];
    var mine := SliceOf(targets, t.req);
    HoldsAfter(t, act);
    if SliceOf(targets, u.req) == mine && Holds(u.pc) {
      if Holds(t.pc) {
        SlicesApart(targets, s, a, b);
      } else {
        WritersHold(a, t, act, Content(s.staging, mine), Content(s.live, mine));
      }
    }
  }

  lemma LandedKept(targets: Targets, s: State, a: nat, act: Action, b: nat, slice: Slice)
    requires AttemptsInv(s) && Enabled(s, a, act) && LandedBy(targets, s, b, slice)
    requires !(act.Promote? && slice == SliceOf(targets, s.attempts[a].req))
    ensures LandedBy(targets, Next(targets, s, a, act), b, slice)
  {
    if b == a {
      assert Gates(s.attempts[a]);
      GatesKept(s.attempts[a], act);
    }
  }

  lemma LiveSliceKept(targets: Targets, live0: Table, s: State, a: nat, act: Action, slice: Slice)
    requires LiveInv(targets, live0, s) && StagingInv(targets, s) && AttemptsInv(s) && Enabled(s, a, act)
    ensures var s' := Next(targets, s, a, act);
      Content(s'.live, slice) == Content(live0, slice) || exists b :: LandedBy(targets, s', b, slice)
  {
    if act.Promote? && slice == SliceOf(targets, s.attempts[a].req) {
      PromotedIsLanded(targets, s, a);
    } else if b :| LandedBy(targets, s, b, slice) {
      LandedKept(targets, s, a, act, b, slice);
    }
  }

  lemma LiveKept(targets: Targets, live0: Table, s: State, a: nat, act: Action)
    requires LiveInv(targets, live0, s) && StagingInv(targets, s) && AttemptsInv(s) && Enabled(s, a, act)
    ensures LiveInv(targets, live0, Next(targets, s, a, act))
  {
    var s' := Next(targets, s, a, act);
    forall slice
      ensures Content(s'.live, slice) == Content(live0, slice) || exists b :: LandedBy(targets, s', b, slice)
    {
      LiveSliceKept(targets, live0, s, a, act, slice);
    }
  }

  lemma PromotedIsLanded(targets: Targets, s: State, a: nat)
    requires StagingInv(targets, s) && AttemptsInv(s) && Enabled(s, a, Promote)
    ensures LandedBy(targets, Next(targets, s, a, Promote), a, SliceOf(targets, s.attempts[a].req))
  {
    var t := s.attempts[a];
    assert Gates(t);
    assert Staged(a, t, Content(s.staging, SliceOf(targets, t.req)));
  }

  lemma StepKeepsInv(targets: Targets, live0: Table, s: State, a: nat, act: Action)
    requires OneTargetEach(targets) && Inv(targets, live0, s) && Enabled(s, a, act)
    ensures Inv(targets, live0, Next(targets, s, a, act))
  {
    LockKept(targets, s, a, act);
    StagingKept(targets, s, a, act);
    AttemptsKept(targets, s, a, act);
    LiveKept(targets, live0, s, a, act);
  }

  lemma {:induction false} RunKeepsInv(targets: Targets, live0: Table, s: State, run: seq<Event>, end: State)
    requires OneTargetEach(targets) && Inv(targets, live0, s) && IsRun(targets, s, run, end)
    ensures Inv(targets, live0, end)
    decreases run
  {
    if run != [] {
      StepKeepsInv(targets, live0, s, run[0].attempt, run[0].action);
      RunKeepsInv(targets, live0, Next(targets, s, run[0].attempt, run[0].action), run[1..], end);
    }
  }

  lemma InitialInv(targets: Targets, live0: Table, staging0: Table)
    ensures Inv(targets, live0, Initial(live0, staging0))
  {
  }

  // ---------------------------------------------------------------------
  // What every run guarantees
  // ---------------------------------------------------------------------

  /**
   * Whatever the interleaving and whoever crashes: every live slice is as it was at the start,
   * or is exactly the rows one load landed after passing the zero-row guard, the shape check
   * and its checks.
   */
  lemma LiveSlicesAreWholeLoads(targets: Targets, live0: Table, staging0: Table, run: seq<Event>, end: State,
          slice: Slice)
    requires OneTargetEach(targets) && IsRun(targets, Initial(live0, staging0), run, end)
    ensures Content(end.live, slice) == Content(live0, slice) || exists a :: LandedBy(targets, end, a, slice)
  {
    InitialInv(targets, live0, staging0);
    RunKeepsInv(targets, live0, Initial(live0, staging0), run, end);
  }

  /**
   * An attempt that returns has finalised its history row exactly once, with the status it
   * returns; a snapshot attempt has swapped exactly when that is a success that was not
   * stopped early, and a period attempt may besides report a failed swap after the swap.
   */
  lemma ReturnedAttempts(targets: Targets, live0: Table, staging0: Table, run: seq<Event>, end: State, a: nat)
    requires OneTargetEach(targets) && IsRun(targets, Initial(live0, staging0), run, end)
    requires a in end.attempts && end.attempts[a].pc.Returned?
    ensures a in end.history && end.history[a] == [end.attempts[a].pc.final]
    ensures
      var t := end.attempts[a];
      var done := t.pc.final.Success? && !StoppedEarly(t.req);
      && (done ==> t.swapped)
      && (t.swapped ==> Event(a, Promote) in run)
      && (t.swapped && !done ==> t.pc.final.FailedSwap? && t.req.kind.Period?)
    ensures StatusFits(end.attempts[a], end.attempts[a].pc.final)
  {
    InitialInv(targets, live0, staging0);
    RunKeepsInv(targets, live0, Initial(live0, staging0), run, end);
    assert Recorded(end.attempts[a], end.history[a]);
    if end.attempts[a].swapped {
      SwapWasMade(targets, Initial(live0, staging0), run, end, a);
    }
  }

  /** The swap flag is raised by the swap and nothing else. */
  lemma {:induction false} SwapWasMade(targets: Targets, s: State, run: seq<Event>, end: State, a: nat)
    requires IsRun(targets, s, run, end)
    requires a in end.attempts && end.attempts[a].swapped && (a in s.attempts ==> !s.attempts[a].swapped)
    ensures Event(a, Promote) in run
    decreases run
  {
    if run != [] {
      var next := Next(targets, s, run[0].attempt, run[0].action);
      if run[0] != Event(a, Promote) {
        SwapWasMade(targets, next, run[1..], end, a);
      }
    }
  }

  /**
   * What an attempt carries comes from its own steps: its rows from the source query, a shape
   * check passed from one that passed, and checks passed from a run of them that did, when the
   * binding declares any.
   */
  lemma GatesWerePassed(targets: Targets, live0: Table, staging0: Table, run: seq<Event>, end: State, a: nat)
    requires IsRun(targets, Initial(live0, staging0), run, end) && a in end.attempts
    ensures
      var t := end.attempts[a];
      && (t.rows != [] ==> Event(a, Query(t.rows)) in run)
      && (t.validated ==> Event(a, Validate(true)) in run)
      && (t.checked && t.req.hasChecks ==> Event(a, RunChecks(Passed)) in run)
  {
    GatesPassedSince(targets, Initial(live0, staging0), run, end, a);
  }

  /** The attempt's rows, its shape check and its checks, as far as they are not from before, come from the run. */
  ghost predicate PassedIn(run: seq<Event>, s: State, end: State, a: nat)
  {
    a in end.attempts ==>
      var t := end.attempts[a];
      var was := if a in s.attempts then s.attempts[a] else Attempt(t.req, Locking, [], false, false, false);
      && t.req == was.req
      && (t.rows != was.rows ==> Event(a, Query(t.rows)) in run)
      && (t.validated && !was.validated ==> Event(a, Validate(true)) in run)
      && (t.checked && !was.checked && t.req.hasChecks ==> Event(a, RunChecks(Passed)) in run)
  }

  lemma {:induction false} GatesPassedSince(targets: Targets, s: State, run: seq<Event>, end: State, a: nat)
    requires IsRun(targets, s, run, end)
    ensures a in s.attempts ==> a in end.attempts
    ensures PassedIn(run, s, end, a)
    decreases run
  {
    if run != [] {
      var next := Next(targets, s, run[0].attempt, run[0].action);
      GatesPassedSince(targets, next, run[1..], end, a);
      PassedAtOnce(targets, s, run[0], a);
      assert run[..1] == [run[0]];
      PassedJoins(run, s, next, end, a);
    }
  }

  lemma PassedAtOnce(targets: Targets, s: State, e: Event, a: nat)
    requires Enabled(s, e.attempt, e.action)
    ensures PassedIn([e], s, Next(targets, s, e.attempt, e.action), a)
  {
  }

  lemma PassedJoins(run: seq<Event>, s: State, next: State, end: State, a: nat)
    requires run != [] && (a in s.attempts ==> a in next.attempts) && (a in next.attempts ==> a in end.attempts)
    requires PassedIn(run[..1], s, next, a) && PassedIn(run[1..], next, end, a)
    ensures PassedIn(run, s, end, a)
  {
    assert run == run[..1] + run[1..];
  }

  /** No two attempts on one binding are ever inside the protected section together. */
  lemma AttemptsExclude(targets: Targets, live0: Table, staging0: Table, run: seq<Event>, end: State, a: nat, b: nat)
    requires OneTargetEach(targets) && IsRun(targets, Initial(live0, staging0), run, end)
    requires a in end.attempts && b in end.attempts && a != b
    requires end.attempts[a].req.binding == end.attempts[b].req.binding
    ensures !(Holds(end.attempts[a].pc) && Holds(end.attempts[b].pc))
  {
    InitialInv(targets, live0, staging0);
    RunKeepsInv(targets, live0, Initial(live0, staging0), run, end);
  }

  lemma NoHolderNoLock(s: State)
    requires ListedHold(s) && forall a | a in s.attempts :: !Live(s.attempts[a].pc)
    ensures s.lock == map[]
  {
    assert forall a | a in s.attempts :: !Holds(s.attempts[a].pc);
    assert forall b :: b !in s.lock;
  }

  /** Once every attempt has returned, raised or crashed, no lock is left behind. */
  lemma NoLockLeftBehind(targets: Targets, live0: Table, staging0: Table, run: seq<Event>, end: State)
    requires OneTargetEach(targets) && IsRun(targets, Initial(live0, staging0), run, end)
    requires forall a | a in end.attempts :: !Live(end.attempts[a].pc)
    ensures end.lock == map[]
  {
    InitialInv(targets, live0, staging0);
    RunKeepsInv(targets, live0, Initial(live0, staging0), run, end);
    NoHolderNoLock(end);
  }

  // ---------------------------------------------------------------------
  // Every attempt ends
  // ---------------------------------------------------------------------

  /** More than this many steps an attempt does not make from here. */
  function StepsLeft(pc: Pc): nat
  {
    match pc
    case Locking => 14
    case Clearing => 13
    case Querying => 12
    case Landing => 11
    case Sourcing => 10
    case Extracted => 9
    case Validating => 8
    case Checking => 7
    case Checked => 6
    case Swapping => 5
    case Dropping => 4
    case Swapped => 3
    case Finalising(_) => 2
    case Releasing(_) | Refused => 1
    case Returned(_) | Raised | Crashed => 0
  }

  function StepsBy(run: seq<Event>, a: nat): nat
  {
    if run == [] then 0 else (if run[0].attempt == a then 1 else 0) + StepsBy(run[1..], a)
  }

  function LeftFor(s: State, a: nat): nat
  {
    if a in s.attempts then StepsLeft(s.attempts[a].pc) else 15
  }

  lemma StepUsesOne(targets: Targets, s: State, b: nat, act: Action, a: nat)
    requires Enabled(s, b, act)
    ensures LeftFor(Next(targets, s, b, act), a) + (if b == a then 1 else 0) <= LeftFor(s, a)
  {
    if !act.Begin? { AdvanceUsesOne(s.attempts[b], act); }
  }

  lemma AdvanceUsesOne(t: Attempt, act: Action)
    requires CanDo(t, act)
    ensures StepsLeft(Advance(t, act).pc) < StepsLeft(t.pc)
  {
    if act in {Fault, Escape, Finalise, Release, Crash} {
      EndingUsesOne(t, act);
    } else {
      assert StepsLeft(t.pc) >= 3 || t.pc.Locking?;
    }
  }

  lemma EndingUsesOne(t: Attempt, act: Action)
    requires CanDo(t, act) && act in {Fault, Escape, Finalise, Release, Crash}
    ensures StepsLeft(Advance(t, act).pc) < StepsLeft(t.pc)
  {
  }

  lemma {:induction false} StepsAreBounded(targets: Targets, s: State, run: seq<Event>, end: State, a: nat)
    requires IsRun(targets, s, run, end)
    ensures StepsBy(run, a) + LeftFor(end, a) <= LeftFor(s, a)
    decreases run
  {
    if run != [] {
      StepUsesOne(targets, s, run[0].attempt, run[0].action, a);
      StepsAreBounded(targets, Next(targets, s, run[0].attempt, run[0].action), run[1..], end, a);
    }
  }

  /** The attempt has not run into an error that nothing catches, and its load has a history row. */
  predicate Undisturbed(s: State, a: nat)
  {
    a in s.attempts ==>
      a in s.history && s.attempts[a].pc !in {Raised, Crashed, Releasing(None)}
  }

  lemma {:induction false} StaysUndisturbed(targets: Targets, s: State, run: seq<Event>, end: State, a: nat)
    requires IsRun(targets, s, run, end) && Undisturbed(s, a)
    requires Event(a, Crash) !in run && Event(a, Escape) !in run
    ensures Undisturbed(end, a)
    decreases run
  {
    if run != [] {
      assert run[0] in run && Undisturbed(Next(targets, s, run[0].attempt, run[0].action), a);
      StaysUndisturbed(targets, Next(targets, s, run[0].attempt, run[0].action), run[1..], end, a);
    }
  }

  lemma CanGoOn(s: State, a: nat)
    requires a in s.attempts && a in s.history && Live(s.attempts[a].pc)
    ensures exists act: Action :: !act.Crash? && !act.Escape? && Enabled(s, a, act)
  {
    var t := s.attempts[a];
    var act := match t.pc
      case Locking => if t.req.binding in s.lock then Refuse else Grant
      case Clearing => Clear
      case Querying => Query([])
      case Landing => Land
      case Sourcing => ReadSource
      case Extracted => AfterExtract
      case Validating => Validate(true)
      case Checking => RunChecks(Passed)
      case Checked => AfterChecks
      case Swapping => Promote
      case Dropping => DropStaging
      case Swapped => RecordSwap
      case Releasing(_) => Release
      case _ => Finalise;
    assert Enabled(s, a, act);
  }

  /**
   * Unless it crashes or meets an error that nothing catches, an attempt makes at most fifteen
   * steps, can always make the next one whatever the others do, and ends by returning a status.
   */
  lemma UndisturbedReturns(targets: Targets, live0: Table, staging0: Table, run: seq<Event>, end: State, a: nat)
    requires IsRun(targets, Initial(live0, staging0), run, end) && a in end.attempts
    requires Event(a, Crash) !in run && Event(a, Escape) !in run
    ensures StepsBy(run, a) <= 15
    ensures end.attempts[a].pc.Returned? || exists act: Action :: !act.Crash? && !act.Escape? && Enabled(end, a, act)
  {
    StepsAreBounded(targets, Initial(live0, staging0), run, end, a);
    StaysUndisturbed(targets, Initial(live0, staging0), run, end, a);
    if !end.attempts[a].pc.Returned? {
      CanGoOn(end, a);
    }
  }

  /** Two loads of one binding are for one slice exactly when they are for one period, or of a snapshot table. */
  lemma SameSliceIff(targets: Targets, p: Request, q: Request)
    requires p.binding == q.binding && p.kind == q.kind
    ensures SliceOf(targets, p) == SliceOf(targets, q) <==> p.kind.Snapshot? || p.period == q.period
    ensures SliceOf(targets, p).0 == targets(p.binding)
  {
  }

  /**
   * The swap puts the staged slice live as it is.  A snapshot table changes places with its
   * staging table; a period's staging slice stays until it is dropped.  Nothing else moves.
   */
  lemma SwapMovesSlices(targets: Targets, s: State, a: nat, slice: Slice)
    requires Enabled(s, a, Promote)
    ensures
      var s', mine := Next(targets, s, a, Promote), SliceOf(targets, s.attempts[a].req);
      && Content(s'.live, slice) == Content(if slice == mine then s.staging else s.live, slice)
      && Content(s'.staging, slice) ==
        Content(if slice == mine && s.attempts[a].req.kind.Snapshot? then s.live else s.staging, slice)
      && s'.lock == s.lock
  {
  }

  // ---------------------------------------------------------------------
  // What does not hold
  // ---------------------------------------------------------------------

  lemma {:induction false} Extend(targets: Targets, s: State, run: seq<Event>, mid: State, a: nat, act: Action)
    requires IsRun(targets, s, run, mid) && Enabled(mid, a, act)
    ensures IsRun(targets, s, run + [Event(a, act)], Next(targets, mid, a, act))
    decreases run
  {
    var more := run + [Event(a, act)];
    if run == [] {
      assert more == [Event(a, act)];
      assert IsRun(targets, Next(targets, s, a, act), more[1..], Next(targets, mid, a, act));
    } else {
      assert more[1..] == run[1..] + [Event(a, act)];
      Extend(targets, Next(targets, s, run[0].attempt, run[0].action), run[1..], mid, a, act);
    }
  }

  /** The run reaches a state in which the attempt stands as described. */
  ghost predicate Stands(targets: Targets, s0: State, run: seq<Event>, s: State, a: nat, t: Attempt)
  {
    IsRun(targets, s0, run, s) && a in s.attempts && a in s.history && s.attempts[a] == t
  }

  /** A step of `a` leaves other attempts, other slices and (but for locking) the lock table alone. */
  ghost predicate OnlyTouches(s: State, end: State, a: nat, slice: Slice)
  {
    && (forall b | b != a && b in s.attempts && b in s.history ::
          b in end.attempts && b in end.history && end.attempts[b] == s.attempts[b])
    && (forall b | b != a && b !in s.attempts :: b !in end.attempts)
    && (forall b | b != a && b !in s.history :: b !in end.history)
    && (forall x | x != slice ::
        Content(end.staging, x) == Content(s.staging, x) && Content(end.live, x) == Content(s.live, x))
  }

  lemma TouchesOn(s: State, mid: State, end: State, a: nat, slice: Slice)
    requires OnlyTouches(s, mid, a, slice) && OnlyTouches(mid, end, a, slice)
    ensures OnlyTouches(s, end, a, slice)
  {
  }

  lemma Do(targets: Targets, s0: State, run: seq<Event>, s: State, a: nat, t: Attempt, act: Action)
    returns (more: seq<Event>, end: State)
    requires Stands(targets, s0, run, s, a, t) && CanDo(t, act)
    requires act.Grant? ==> t.req.binding !in s.lock
    requires !act.Refuse? && !act.Release? && !act.Crash?
    ensures Stands(targets, s0, more, end, a, Advance(t, act))
    ensures OnlyTouches(s, end, a, SliceOf(targets, t.req))
    ensures end.history[a] == s.history[a] + Finals(t, act)
    ensures end.lock == if act.Grant? then s.lock[t.req.binding := a] else s.lock
    ensures
      var slice := SliceOf(targets, t.req);
      && Content(end.staging, slice) == StagedAfter(a, t, act, Content(s.staging, slice), Content(s.live, slice))
      && Content(end.live, slice) == if act.Promote? then Content(s.staging, slice) else Content(s.live, slice)
  {
    Extend(targets, s0, run, s, a, act);
    more, end := run + [Event(a, act)], Next(targets, s, a, act);
  }

  lemma Promoted(targets: Targets, s0: State, run: seq<Event>, s: State, a: nat, t: Attempt)
    returns (more: seq<Event>, end: State)
    requires Stands(targets, s0, run, s, a, t) && t.pc.Swapping? && t.req.kind.Period?
    ensures Stands(targets, s0, more, end, a, t.(pc := Dropping, swapped := true))
    ensures end.history[a] == s.history[a]
    ensures Content(end.live, SliceOf(targets, t.req)) == Content(s.staging, SliceOf(targets, t.req))
  {
    more, end := Do(targets, s0, run, s, a, t, Promote);
  }

  lemma DropFails(targets: Targets, s0: State, run: seq<Event>, s: State, a: nat, t: Attempt)
    returns (more: seq<Event>, end: State)
    requires Stands(targets, s0, run, s, a, t) && t.pc.Dropping?
    ensures Stands(targets, s0, more, end, a, t.(pc := Finalising(FailedSwap)))
    ensures end.history[a] == s.history[a]
    ensures Content(end.live, SliceOf(targets, t.req)) == Content(s.live, SliceOf(targets, t.req))
  {
    more, end := Do(targets, s0, run, s, a, t, Fault);
  }

  lemma CleanUpFails(targets: Targets, s0: State, run: seq<Event>, s: State, a: nat, t: Attempt)
    returns (more: seq<Event>, end: State)
    requires Stands(targets, s0, run, s, a, t) && t.pc.Swapping? && t.req.kind.Period?
    ensures Stands(targets, s0, more, end, a, t.(pc := Finalising(FailedSwap), swapped := true))
    ensures end.history[a] == s.history[a]
    ensures Content(end.live, SliceOf(targets, t.req)) == Content(s.staging, SliceOf(targets, t.req))
  {
    var r1, s1 := Promoted(targets, s0, run, s, a, t);
    more, end := DropFails(targets, s0, r1, s1, a, t.(pc := Dropping, swapped := true));
  }

  /** A period load whose staging clean-up fails reports a failed swap although its rows are live. */
  lemma FailedSwapCanBeLive(targets: Targets, s0: State, run: seq<Event>, s: State, a: nat, t: Attempt)
    returns (more: seq<Event>, end: State)
    requires Stands(targets, s0, run, s, a, t) && t.pc.Swapping? && t.req.kind.Period?
    ensures IsRun(targets, s0, more, end) && a in end.history && end.history[a] == s.history[a] + [FailedSwap]
    ensures Content(end.live, SliceOf(targets, t.req)) == Content(s.staging, SliceOf(targets, t.req))
  {
    var r1, s1 := CleanUpFails(targets, s0, run, s, a, t);
    more, end := Do(targets, s0, r1, s1, a, t.(pc := Finalising(FailedSwap), swapped := true), Finalise);
  }

  // ---------------------------------------------------------------------
  // Why one target must belong to one binding
  // ---------------------------------------------------------------------

  function PlainLoad(binding: string, period: string): Request
  {
    Request(binding, period, Period, None, false)
  }

  function PlainAttempt(binding: string, period: string, pc: Pc, rows: seq<int>): Attempt
  {
    Attempt(PlainLoad(binding, period), pc, rows, false, false, false)
  }

  /** A fresh attempt goes as far as having rows to land. */
  lemma ReachLanding(targets: Targets, s0: State, run: seq<Event>, s: State, a: nat, req: Request, rows: seq<int>)
    returns (more: seq<Event>, end: State)
    requires IsRun(targets, s0, run, s) && a !in s.attempts && a !in s.history
    requires req.binding !in s.lock && rows != []
    ensures Stands(targets, s0, more, end, a, Attempt(req, Landing, rows, false, false, false))
    ensures OnlyTouches(s, end, a, SliceOf(targets, req))
    ensures end.lock == s.lock[req.binding := a]
    ensures Content(end.staging, SliceOf(targets, req)) == []
  {
    var slice, t := SliceOf(targets, req), Attempt(req, Locking, [], false, false, false);
    Extend(targets, s0, run, s, a, Begin(req));
    var s1 := Next(targets, s, a, Begin(req));
    var r2, s2 := Do(targets, s0, run + [Event(a, Begin(req))], s1, a, t, Grant);
    TouchesOn(s, s1, s2, a, slice);
    var r3, s3 := Do(targets, s0, r2, s2, a, t.(pc := Clearing), Clear);
    TouchesOn(s, s2, s3, a, slice);
    more, end := Do(targets, s0, r3, s3, a, t.(pc := Querying), Query(rows));
    TouchesOn(s, s3, end, a, slice);
  }

  lemma ReachChecking(targets: Targets, s0: State, run: seq<Event>, s: State, a: nat, req: Request, rows: seq<int>)
    returns (more: seq<Event>, end: State)
    requires Stands(targets, s0, run, s, a, Attempt(req, Sourcing, rows, false, false, false))
    requires req.stopAfter.None? && rows != []
    ensures Stands(targets, s0, more, end, a, Attempt(req, Checking, rows, true, false, false))
    ensures Content(end.staging, SliceOf(targets, req)) == Content(s.staging, SliceOf(targets, req))
  {
    var t := Attempt(req, Sourcing, rows, false, false, false);
    more, end := Do(targets, s0, run, s, a, t, ReadSource);
    more, end := Do(targets, s0, more, end, a, t.(pc := Extracted), AfterExtract);
    more, end := Do(targets, s0, more, end, a, t.(pc := Validating), Validate(true));
  }

  /** An unchecked attempt that has landed puts its staging slice live. */
  lemma ReachSwap(targets: Targets, s0: State, run: seq<Event>, s: State, a: nat, req: Request, rows: seq<int>)
    returns (more: seq<Event>, end: State)
    requires Stands(targets, s0, run, s, a, Attempt(req, Sourcing, rows, false, false, false))
    requires req.stopAfter.None? && !req.hasChecks && rows != []
    ensures IsRun(targets, s0, more, end)
    ensures Content(end.live, SliceOf(targets, req)) == Content(s.staging, SliceOf(targets, req))
  {
    var t := Attempt(req, Checking, rows, true, false, false);
    more, end := ReachChecking(targets, s0, run, s, a, req, rows);
    more, end := Do(targets, s0, more, end, a, t, RunChecks(Passed));
    more, end := Do(targets, s0, more, end, a, t.(pc := Checked, checked := true), AfterChecks);
    more, end := Do(targets, s0, more, end, a, t.(pc := Swapping, checked := true), Promote);
  }

  lemma BothReachLanding(targets: Targets, b: string, c: string, period: string)
    returns (run: seq<Event>, end: State)
    requires b != c && targets(b) == targets(c)
    ensures Stands(targets, Initial(map[], map[]), run, end, 1, PlainAttempt(b, period, Landing, [10]))
    ensures Stands(targets, Initial(map[], map[]), run, end, 2, PlainAttempt(c, period, Landing, [20]))
    ensures Content(end.staging, (targets(b), period)) == []
  {
    var s0 := Initial(map[], map[]);
    var p, q := PlainLoad(b, period), PlainLoad(c, period);
    var r1, s1 := ReachLanding(targets, s0, [], s0, 1, p, [10]);
    run, end := ReachLanding(targets, s0, r1, s1, 2, q, [20]);
  }

  lemma BothLand(targets: Targets, b: string, c: string, period: string, r0: seq<Event>, s: State)
    returns (run: seq<Event>, end: State)
    requires targets(b) == targets(c)
    requires Stands(targets, Initial(map[], map[]), r0, s, 1, PlainAttempt(b, period, Landing, [10]))
    requires Stands(targets, Initial(map[], map[]), r0, s, 2, PlainAttempt(c, period, Landing, [20]))
    requires Content(s.staging, (targets(b), period)) == []
    ensures Stands(targets, Initial(map[], map[]), run, end, 1, PlainAttempt(b, period, Sourcing, [10]))
    ensures Content(end.staging, (targets(b), period)) == [Row(1, 10), Row(2, 20)]
  {
    var s0 := Initial(map[], map[]);
    var r1, s1 := Do(targets, s0, r0, s, 1, PlainAttempt(b, period, Landing, [10]), Land);
    run, end := Do(targets, s0, r1, s1, 2, PlainAttempt(c, period, Landing, [20]), Land);
    assert Tagged(1, [10]) == [Row(1, 10)] && Tagged(2, [20]) == [Row(2, 20)];
  }

  /** Two bindings on one table: a run that puts a mixture of two loads live. */
  lemma SharedTargetMixesLoads(targets: Targets, b: string, c: string, period: string)
    returns (run: seq<Event>, end: State)
    requires b != c && targets(b) == targets(c)
    ensures IsRun(targets, Initial(map[], map[]), run, end)
    ensures Content(end.live, (targets(b), period)) == [Row(1, 10), Row(2, 20)]
  {
    var r1, s1 := BothReachLanding(targets, b, c, period);
    var r2, s2 := BothLand(targets, b, c, period, r1, s1);
    run, end := ReachSwap(targets, Initial(map[], map[]), r2, s2, 1, PlainLoad(b, period), [10]);
  }
}
