/**
 * The two-level cap on concurrent reads: a slot of the caller's own, then a slot of the
 * whole process.  Calls interleave at every wait; any wait may time out and any body may fail.
 */
module ReadLimiter {
  import opened Wrappers

  datatype Pc =
    | Starting       // before the semaphores have been looked up
    | WantUser
    | WantGlobal     // holds a user slot
    | InBody         // holds both
    | GivingGlobal   // the body is over, one way or the other
    | GivingUser
    | Finished

  datatype Call = Call(user: string, pc: Pc)

  /** Free slots per known user and overall, and where every call stands. */
  datatype State = State(perUser: map<string, int>, global: Option<int>, calls: map<nat, Call>)

  datatype Caps = Caps(perUser: nat, global: nat)
  {
    predicate Positive() { perUser > 0 && global > 0 }
  }

  datatype Step = Arrive(user: string) | LookUp | TakeUser | TakeGlobal | TimeOut | LeaveBody | GiveGlobal | GiveUser

  predicate Enabled(s: State, id: nat, step: Step)
  {
    if step.Arrive? then id !in s.calls else
    && id in s.calls
    && var c := s.calls[id];
       match step
       case LookUp => c.pc.Starting?
       case TakeUser => c.pc.WantUser? && c.user in s.perUser && s.perUser[c.user] > 0
       case TakeGlobal => c.pc.WantGlobal? && s.global.Some? && s.global.value > 0
       case TimeOut => c.pc.WantUser? || c.pc.WantGlobal?
       case LeaveBody => c.pc.InBody?
       case GiveGlobal => c.pc.GivingGlobal? && s.global.Some?
       case GiveUser => c.pc.GivingUser? && c.user in s.perUser
       case Arrive(_) => false
  }

  function Moved(s: State, id: nat, pc: Pc): map<nat, Call>
    requires id in s.calls
  {
    s.calls[id := s.calls[id].(pc := pc)]
  }

  function Next(caps: Caps, s: State, id: nat, step: Step): State
    requires Enabled(s, id, step)
  {
    match step
    case Arrive(u) => s.(calls := s.calls[id := Call(u, Starting)])
    case LookUp =>
      var u := s.calls[id].user;
      State(
        if u in s.perUser then s.perUser else s.perUser[u := caps.perUser],
        if s.global.Some? then s.global else Some(caps.global),
        Moved(s, id, WantUser))
    case TakeUser =>
      var u := s.calls[id].user;
      s.(perUser := s.perUser[u := s.perUser[u] - 1], calls := Moved(s, id, WantGlobal))
    case TakeGlobal => s.(global := Some(s.global.value - 1), calls := Moved(s, id, InBody))
    case TimeOut =>
      s.(calls := Moved(s, id, if s.calls[id].pc.WantUser? then Finished else GivingUser))
    case LeaveBody => s.(calls := Moved(s, id, GivingGlobal))
    case GiveGlobal => s.(global := Some(s.global.value + 1), calls := Moved(s, id, GivingUser))
    case GiveUser =>
      var u := s.calls[id].user;
      s.(perUser := s.perUser[u := s.perUser[u] + 1], calls := Moved(s, id, Finished))
  }

  // ---------------------------------------------------------------------
  // Slots are conserved
  // ---------------------------------------------------------------------

  predicate HoldsUser(pc: Pc)
  {
    pc.WantGlobal? || pc.InBody? || pc.GivingGlobal? || pc.GivingUser?
  }

  predicate HoldsGlobal(pc: Pc)
  {
    pc.InBody? || pc.GivingGlobal?
  }

  function UserHolders(s: State, u: string): set<nat>
  {
    set id | id in s.calls && s.calls[id].user == u && HoldsUser(s.calls[id].pc)
  }

  function GlobalHolders(s: State): set<nat>
  {
    set id | id in s.calls && HoldsGlobal(s.calls[id].pc)
  }

  /** Past its look-up, a caller's semaphores exist. */
  ghost predicate KnowsSlots(s: State, id: nat)
    requires id in s.calls
  {
    s.calls[id].pc.Starting? || (s.calls[id].user in s.perUser && s.global.Some?)
  }

  ghost predicate Known(s: State)
  {
    forall id {:trigger KnowsSlots(s, id)} | id in s.calls :: KnowsSlots(s, id)
  }

  ghost predicate UserCounted(caps: Caps, s: State, u: string)
    requires u in s.perUser
  {
    s.perUser[u] >= 0 && s.perUser[u] + |UserHolders(s, u)| == caps.perUser
  }

  ghost predicate GlobalCounted(caps: Caps, s: State)
  {
    s.global.Some? ==> s.global.value >= 0 && s.global.value + |GlobalHolders(s)| == caps.global
  }

  ghost predicate Inv(caps: Caps, s: State)
  {
    && Known(s) && GlobalCounted(caps, s)
    && (forall u {:trigger UserCounted(caps, s, u)} | u in s.perUser :: UserCounted(caps, s, u))
  }

  /** One call moves: it alone can enter or leave the holders. */
  lemma HoldersAfter(caps: Caps, s: State, id: nat, step: Step, u: string)
    requires Enabled(s, id, step)
    ensures
      var s' := Next(caps, s, id, step);
      && UserHolders(s', u) ==
        (if step.TakeUser? && s.calls[id].user == u then UserHolders(s, u) + {id}
         else if step.GiveUser? then UserHolders(s, u) - {id}
         else UserHolders(s, u))
      && GlobalHolders(s') ==
        (if step.TakeGlobal? then GlobalHolders(s) + {id}
         else if step.GiveGlobal? then GlobalHolders(s) - {id}
         else GlobalHolders(s))
  {
  }

  lemma NewUserHoldsNothing(caps: Caps, s: State, u: string)
    requires Known(s)
    ensures u !in s.perUser ==> UserHolders(s, u) == {}
    ensures s.global.None? ==> GlobalHolders(s) == {}
  {
    forall id | id in s.calls
      ensures HoldsUser(s.calls[id].pc) ==> s.calls[id].user in s.perUser && s.global.Some?
    {
      assert KnowsSlots(s, id);
    }
  }

  /** Taking or giving back a slot changes the number of holders by one. */
  lemma HoldersCount(s: State, id: nat, step: Step, u: string)
    requires Enabled(s, id, step) && id in s.calls && s.calls[id].user == u
    ensures step.TakeUser? ==> |UserHolders(s, u) + {id}| == |UserHolders(s, u)| + 1
    ensures step.GiveUser? ==> |UserHolders(s, u) - {id}| == |UserHolders(s, u)| - 1
  {
    assert step.TakeUser? ==> id !in UserHolders(s, u);
    assert step.GiveUser? ==> id in UserHolders(s, u);
  }

  lemma UserStaysCounted(caps: Caps, s: State, id: nat, step: Step, u: string)
    requires Inv(caps, s) && Enabled(s, id, step) && u in Next(caps, s, id, step).perUser
    ensures UserCounted(caps, Next(caps, s, id, step), u)
  {
    HoldersAfter(caps, s, id, step, u);
    if u !in s.perUser {
      NewUserHoldsNothing(caps, s, u);
    } else {
      assert UserCounted(caps, s, u);
      if id in s.calls && s.calls[id].user == u {
        HoldersCount(s, id, step, u);
      } else if step.GiveUser? {
        assert UserHolders(s, u) - {id} == UserHolders(s, u);
      }
    }
  }

  lemma GlobalStaysCounted(caps: Caps, s: State, id: nat, step: Step)
    requires Inv(caps, s) && Enabled(s, id, step)
    ensures GlobalCounted(caps, Next(caps, s, id, step))
  {
    HoldersAfter(caps, s, id, step, "");
    NewUserHoldsNothing(caps, s, "");
    if step.TakeGlobal? {
      assert id !in GlobalHolders(s);
    } else if step.GiveGlobal? {
      assert id in GlobalHolders(s);
    }
  }

  lemma StaysKnown(caps: Caps, s: State, id: nat, step: Step)
    requires Known(s) && Enabled(s, id, step)
    ensures Known(Next(caps, s, id, step))
  {
    var s' := Next(caps, s, id, step);
    forall i | i in s'.calls ensures KnowsSlots(s', i) {
      assert i in s.calls ==> KnowsSlots(s, i);
    }
  }

  /** Every step keeps the counts of free and held slots in balance. */
  lemma StepKeepsInv(caps: Caps, s: State, id: nat, step: Step)
    requires Inv(caps, s) && Enabled(s, id, step)
    ensures Inv(caps, Next(caps, s, id, step))
  {
    StaysKnown(caps, s, id, step);
    GlobalStaysCounted(caps, s, id, step);
    forall u | u in Next(caps, s, id, step).perUser
      ensures UserCounted(caps, Next(caps, s, id, step), u)
    {
      UserStaysCounted(caps, s, id, step, u);
    }
  }

  // ---------------------------------------------------------------------
  // Runs
  // ---------------------------------------------------------------------

  const FRESH := State(map[], None, map[])

  datatype Event = Event(id: nat, step: Step)

  ghost predicate IsRun(caps: Caps, s: State, run: seq<Event>, end: State)
    decreases run
  {
    if run == [] then s == end
    else
      && Enabled(s, run[0].id, run[0].step)
      && IsRun(caps, Next(caps, s, run[0].id, run[0].step), run[1..], end)
  }

  lemma {:induction false} RunKeepsInv(caps: Caps, s: State, run: seq<Event>, end: State)
    requires Inv(caps, s) && IsRun(caps, s, run, end)
    ensures Inv(caps, end)
    decreases run
  {
    if run != [] {
      StepKeepsInv(caps, s, run[0].id, run[0].step);
      RunKeepsInv(caps, Next(caps, s, run[0].id, run[0].step), run[1..], end);
    }
  }

  /** In every run: free plus held is the cap, for every user the limiter knows and overall. */
  lemma SlotsAreConserved(caps: Caps, run: seq<Event>, end: State)
    requires IsRun(caps, FRESH, run, end)
    ensures forall u | u in end.perUser ::
      0 <= |UserHolders(end, u)| <= caps.perUser && end.perUser[u] == caps.perUser - |UserHolders(end, u)|
    ensures end.global.Some? ==>
      |GlobalHolders(end)| <= caps.global && end.global.value == caps.global - |GlobalHolders(end)|
    ensures end.global.None? ==> GlobalHolders(end) == {}
  {
    RunKeepsInv(caps, FRESH, run, end);
    NewUserHoldsNothing(caps, end, "");
    assert forall u | u in end.perUser :: UserCounted(caps, end, u);
  }

  /** When every call has finished, every slot is back. */
  lemma SlotsReturnAtQuiescence(caps: Caps, run: seq<Event>, end: State)
    requires IsRun(caps, FRESH, run, end)
    requires forall id | id in end.calls :: end.calls[id].pc.Finished?
    ensures forall u | u in end.perUser :: end.perUser[u] == caps.perUser
    ensures end.global.Some? ==> end.global.value == caps.global
  {
    RunKeepsInv(caps, FRESH, run, end);
    forall u | u in end.perUser ensures end.perUser[u] == caps.perUser {
      assert UserCounted(caps, end, u) && UserHolders(end, u) == {};
    }
    assert GlobalHolders(end) == {};
  }

  // ---------------------------------------------------------------------
  // Slots nest
  // ---------------------------------------------------------------------

  /** The call has taken the slot in the run and has not given it back since. */
  ghost predicate Holding(run: seq<Event>, id: nat, take: Step, give: Step)
  {
    exists j :: 0 <= j < |run| && run[j] == Event(id, take) && NotGiven(run, j, id, give)
  }

  ghost predicate NotGiven(run: seq<Event>, j: nat, id: nat, give: Step)
  {
    forall k | j < k < |run| :: run[k] != Event(id, give)
  }

  lemma HoldingKept(run: seq<Event>, e: Event, id: nat, take: Step, give: Step)
    requires Holding(run, id, take, give) && e != Event(id, give)
    ensures Holding(run + [e], id, take, give)
  {
    var j :| 0 <= j < |run| && run[j] == Event(id, take) && NotGiven(run, j, id, give);
    assert (run + [e])[j] == run[j] && NotGiven(run + [e], j, id, give);
  }

  lemma HoldingBefore(run: seq<Event>, e: Event, id: nat, take: Step, give: Step)
    requires Holding(run + [e], id, take, give) && e != Event(id, take)
    ensures Holding(run, id, take, give) && e != Event(id, give)
  {
    var next := run + [e];
    var j :| 0 <= j < |next| && next[j] == Event(id, take) && NotGiven(next, j, id, give);
    assert next[|run|] == e && run[j] == next[j];
    assert forall k | j < k < |run| :: run[k] == next[k];
    assert NotGiven(run, j, id, give);
  }

  lemma HoldingNext(run: seq<Event>, e: Event, id: nat, take: Step, give: Step)
    requires take != give
    ensures Holding(run + [e], id, take, give) <==>
      e == Event(id, take) || (Holding(run, id, take, give) && e != Event(id, give))
  {
    if e == Event(id, take) {
      assert (run + [e])[|run|] == e && NotGiven(run + [e], |run|, id, give);
    } else if Holding(run + [e], id, take, give) {
      HoldingBefore(run, e, id, take, give);
    } else if Holding(run, id, take, give) && e != Event(id, give) {
      HoldingKept(run, e, id, take, give);
    }
  }

  lemma {:induction false} SplitRun(caps: Caps, s: State, run: seq<Event>, end: State, i: nat) returns (mid: State)
    requires IsRun(caps, s, run, end) && i <= |run|
    ensures IsRun(caps, s, run[..i], mid) && IsRun(caps, mid, run[i..], end)
    decreases run
  {
    if i == 0 {
      mid := s;
      assert run[0..] == run;
    } else {
      var next := Next(caps, s, run[0].id, run[0].step);
      mid := SplitRun(caps, next, run[1..], end, i - 1);
      assert run[..i][0] == run[0] && run[..i][1..] == run[1..][..i - 1];
      assert run[i..] == run[1..][i - 1..];
    }
  }

  ghost predicate Held(s: State, id: nat, holds: Pc -> bool)
  {
    id in s.calls && holds(s.calls[id].pc)
  }

  lemma HeldNext(caps: Caps, s: State, e: Event, id: nat)
    requires Enabled(s, e.id, e.step)
    ensures
      var s' := Next(caps, s, e.id, e.step);
      && (Held(s', id, HoldsUser) <==> e == Event(id, TakeUser) || (Held(s, id, HoldsUser) && e != Event(id, GiveUser)))
      && (Held(s', id, HoldsGlobal) <==>
          e == Event(id, TakeGlobal) || (Held(s, id, HoldsGlobal) && e != Event(id, GiveGlobal)))
  {
  }

  /** Who holds a slot is who took one in the run and has not given it back. */
  lemma {:induction false} HeldByHistory(caps: Caps, run: seq<Event>, end: State, id: nat)
    requires IsRun(caps, FRESH, run, end)
    ensures Held(end, id, HoldsUser) <==> Holding(run, id, TakeUser, GiveUser)
    ensures Held(end, id, HoldsGlobal) <==> Holding(run, id, TakeGlobal, GiveGlobal)
    decreases |run|
  {
    if run != [] {
      var n := |run| - 1;
      var mid := SplitRun(caps, FRESH, run, end, n);
      HeldByHistory(caps, run[..n], mid, id);
      assert run[n..] == [run[n]] && run == run[..n] + [run[n]] && [run[n]][1..] == [];
      HeldNext(caps, mid, run[n], id);
      HoldingNext(run[..n], run[n], id, TakeUser, GiveUser);
      HoldingNext(run[..n], run[n], id, TakeGlobal, GiveGlobal);
    }
  }

  /**
   * In every run the two slots nest: a slot of the process is taken only by a call that has taken
   * a slot of its user and not given it back, and that one is given back only when the slot of
   * the process is not held.
   */
  lemma SlotsNest(caps: Caps, run: seq<Event>, end: State, i: nat)
    requires IsRun(caps, FRESH, run, end) && i < |run|
    ensures run[i].step.TakeGlobal? || run[i].step.GiveUser? || run[i].step.GiveGlobal? ==>
      Holding(run[..i], run[i].id, TakeUser, GiveUser)
    ensures run[i].step.GiveGlobal? ==> Holding(run[..i], run[i].id, TakeGlobal, GiveGlobal)
    ensures run[i].step.GiveUser? ==> !Holding(run[..i], run[i].id, TakeGlobal, GiveGlobal)
  {
    var mid := SplitRun(caps, FRESH, run, end, i);
    HeldByHistory(caps, run[..i], mid, run[i].id);
    assert run[i..][0] == run[i];
  }

  // ---------------------------------------------------------------------
  // No deadlock, and no endless wait inside
  // ---------------------------------------------------------------------

  /** Some call can move without any wait timing out. */
  ghost predicate CanProgress(s: State)
  {
    exists id, step :: Enabled(s, id, step) && !step.TimeOut? && !step.Arrive?
  }

  /**
   * Even if waits never time out: as long as some call is unfinished, some call can move.
   * The one fixed order of the two slots is what makes it so.
   */
  lemma NeverDeadlocked(caps: Caps, run: seq<Event>, end: State, id: nat)
    requires caps.Positive() && IsRun(caps, FRESH, run, end)
    requires id in end.calls && !end.calls[id].pc.Finished?
    ensures CanProgress(end)
  {
    RunKeepsInv(caps, FRESH, run, end);
    assert forall i | i in end.calls :: KnowsSlots(end, i);
    assert forall u | u in end.perUser :: UserCounted(caps, end, u);
    if i :| i in end.calls && end.calls[i].pc.Starting? {
      assert Enabled(end, i, LookUp);
    } else if i :| i in end.calls && end.calls[i].pc.GivingGlobal? {
      assert Enabled(end, i, GiveGlobal);
    } else if i :| i in end.calls && end.calls[i].pc.GivingUser? {
      assert Enabled(end, i, GiveUser);
    } else if i :| i in end.calls && end.calls[i].pc.InBody? {
      assert Enabled(end, i, LeaveBody);
    } else if i :| i in end.calls && end.calls[i].pc.WantGlobal? {
      assert GlobalHolders(end) == {};
      assert Enabled(end, i, TakeGlobal);
    } else {
      assert UserHolders(end, end.calls[id].user) == {};
      assert Enabled(end, id, TakeUser);
    }
  }

  /** Steps a call has left. */
  function Remaining(pc: Pc): nat
  {
    match pc
    case Starting => 6
    case WantUser => 5
    case WantGlobal => 4
    case InBody => 3
    case GivingGlobal => 2
    case GivingUser => 1
    case Finished => 0
  }

  ghost function Work(calls: map<nat, Call>): nat
    decreases calls.Keys
  {
    if calls == map[] then 0
    else
      var id :| id in calls;
      Remaining(calls[id].pc) + Work(calls - {id})
  }

  lemma {:induction false} WorkSplits(calls: map<nat, Call>, id: nat)
    requires id in calls
    ensures Work(calls) == Remaining(calls[id].pc) + Work(calls - {id})
    decreases calls.Keys
  {
    var first :| first in calls && Work(calls) == Remaining(calls[first].pc) + Work(calls - {first});
    if first != id {
      WorkSplits(calls - {first}, id);
      WorkSplits(calls - {id}, first);
      assert calls - {first} - {id} == calls - {id} - {first};
    }
  }

  /** Every step but an arrival uses up work, so without arrivals every run comes to rest. */
  lemma StepUsesWork(caps: Caps, s: State, id: nat, step: Step)
    requires Enabled(s, id, step) && !step.Arrive?
    ensures Work(Next(caps, s, id, step).calls) < Work(s.calls)
  {
    var s' := Next(caps, s, id, step);
    WorkSplits(s.calls, id);
    WorkSplits(s'.calls, id);
    assert s.calls - {id} == s'.calls - {id};
  }

  lemma {:induction false} RunsComeToRest(caps: Caps, s: State, run: seq<Event>, end: State)
    requires IsRun(caps, s, run, end) && forall e | e in run :: !e.step.Arrive?
    ensures |run| + Work(end.calls) <= Work(s.calls)
    decreases run
  {
    if run != [] {
      StepUsesWork(caps, s, run[0].id, run[0].step);
      RunsComeToRest(caps, Next(caps, s, run[0].id, run[0].step), run[1..], end);
    }
  }

  // ---------------------------------------------------------------------
  // The limiter object
  // ---------------------------------------------------------------------

  class ReadConcurrencyLimiter {
    const caps: Caps
    var perUser: map<string, int>
    var global: Option<int>
    ghost var calls: map<nat, Call>

    ghost predicate Valid()
      reads this
    {
      Inv(caps, View())
    }

    ghost function View(): State
      reads this
    {
      State(perUser, global, calls)
    }

    constructor (caps: Caps)
      ensures this.caps == caps && View() == FRESH && Valid()
    {
      this.caps := caps;
      perUser, global, calls := map[], None, map[];
    }

    ghost method Enter(id: nat, user: string)
      requires Valid() && id !in calls
      modifies this`calls
      ensures Valid() && View() == Next(caps, old(View()), id, Arrive(user))
    {
      StepKeepsInv(caps, View(), id, Arrive(user));
      calls := calls[id := Call(user, Starting)];
    }

    method SlotsFor(ghost id: nat, user: string)
      requires Valid() && Enabled(View(), id, LookUp) && calls[id].user == user
      modifies this
      ensures Valid() && View() == Next(caps, old(View()), id, LookUp)
    {
      StepKeepsInv(caps, View(), id, LookUp);
      if user !in perUser {
        perUser := perUser[user := caps.perUser];
      }
      if global.None? {
        global := Some(caps.global);
      }
      calls := calls[id := Call(user, WantUser)];
    }

    /** The wait for the user slot: taken if one is free, given up otherwise. */
    method AcquireUser(ghost id: nat, user: string) returns (gotUser: bool)
      requires Valid() && id in calls && calls[id] == Call(user, WantUser)
      modifies this
      ensures gotUser <==> Enabled(old(View()), id, TakeUser)
      ensures Valid() && View() == Next(caps, old(View()), id, if gotUser then TakeUser else TimeOut)
    {
      assert KnowsSlots(View(), id);
      gotUser := perUser[user] > 0;
      StepKeepsInv(caps, View(), id, if gotUser then TakeUser else TimeOut);
      if gotUser {
        perUser := perUser[user := perUser[user] - 1];
        calls := calls[id := Call(user, WantGlobal)];
      } else {
        calls := calls[id := Call(user, Finished)];
      }
    }

    /** The wait for the process slot; giving it up leaves the user slot to be returned. */
    method AcquireGlobal(ghost id: nat, ghost user: string) returns (gotGlobal: bool)
      requires Valid() && id in calls && calls[id] == Call(user, WantGlobal)
      modifies this
      ensures gotGlobal <==> Enabled(old(View()), id, TakeGlobal)
      ensures Valid() && View() == Next(caps, old(View()), id, if gotGlobal then TakeGlobal else TimeOut)
    {
      assert KnowsSlots(View(), id);
      gotGlobal := global.value > 0;
      StepKeepsInv(caps, View(), id, if gotGlobal then TakeGlobal else TimeOut);
      if gotGlobal {
        global := Some(global.value - 1);
        calls := calls[id := Call(user, InBody)];
      } else {
        calls := calls[id := Call(user, GivingUser)];
      }
    }

    method ReleaseGlobal(ghost id: nat)
      requires Valid() && Enabled(View(), id, GiveGlobal)
      modifies this`global, this`calls
      ensures Valid() && View() == Next(caps, old(View()), id, GiveGlobal)
      ensures global == Some(old(global.value) + 1) && calls == old(calls)[id := Call(old(calls)[id].user, GivingUser)]
    {
      StepKeepsInv(caps, View(), id, GiveGlobal);
      global := Some(global.value + 1);
      calls := calls[id := calls[id].(pc := GivingUser)];
    }

    method ReleaseUser(ghost id: nat, user: string)
      requires Valid() && Enabled(View(), id, GiveUser) && calls[id].user == user
      modifies this`perUser, this`calls
      ensures Valid() && View() == Next(caps, old(View()), id, GiveUser)
      ensures perUser == old(perUser)[user := old(perUser)[user] + 1]
      ensures calls == old(calls)[id := Call(user, Finished)]
    {
      StepKeepsInv(caps, View(), id, GiveUser);
      perUser := perUser[user := perUser[user] + 1];
      calls := calls[id := calls[id].(pc := Finished)];
    }

    ghost method LeaveBody(id: nat)
      requires Valid() && Enabled(View(), id, Step.LeaveBody)
      modifies this`calls
      ensures Valid() && View() == Next(caps, old(View()), id, Step.LeaveBody)
    {
      StepKeepsInv(caps, View(), id, Step.LeaveBody);
      calls := calls[id := calls[id].(pc := GivingGlobal)];
    }

    /** The `finally`: gives back whatever was taken, in reverse order. */
    method Leave(ghost id: nat, user: string, gotUser: bool, gotGlobal: bool)
      requires Valid() && id in calls && calls[id].user == user
      requires calls[id].pc == if gotGlobal then GivingGlobal else if gotUser then GivingUser else Finished
      requires gotGlobal ==> gotUser
      modifies this
      ensures Valid() && calls == old(calls)[id := Call(user, Finished)]
      ensures gotUser ==> user in old(perUser) && perUser == old(perUser)[user := old(perUser)[user] + 1]
      ensures !gotUser ==> perUser == old(perUser)
      ensures gotGlobal ==> old(global).Some? && global == Some(old(global).value + 1)
      ensures !gotGlobal ==> global == old(global)
    {
      assert KnowsSlots(View(), id);
      if gotGlobal {
        ReleaseGlobal(id);
      }
      if gotUser {
        ReleaseUser(id, user);
      }
    }

    /** The wait for the process slot and the body, when no other call comes between. */
    method Enclosed(ghost id: nat, user: string) returns (gotGlobal: bool)
      requires Valid() && id in calls && calls[id] == Call(user, WantGlobal)
      modifies this
      ensures Valid() && calls == old(calls)[id := Call(user, if gotGlobal then GivingGlobal else GivingUser)]
      ensures perUser == old(perUser) && old(global).Some?
      ensures global == Some(old(global).value - if gotGlobal then 1 else 0)
      ensures gotGlobal <==> old(global) != Some(0)
    {
      assert KnowsSlots(View(), id);
      gotGlobal := AcquireGlobal(id, user);
      if gotGlobal {
        LeaveBody(id);
      }
    }

    /** The waits, the body and the return of the slots, when no other call comes between. */
    method Bracket(ghost id: nat, user: string) returns (tooBusy: bool)
      requires Valid() && id in calls && calls[id] == Call(user, WantUser)
      modifies this
      ensures Valid() && calls == old(calls)[id := Call(user, Finished)]
      ensures perUser == old(perUser) && user in perUser && global == old(global) && global.Some?
      ensures tooBusy <==> perUser[user] == 0 || global == Some(0)
    {
      assert KnowsSlots(View(), id) && UserCounted(caps, View(), user);
      var gotGlobal := false;
      var gotUser := AcquireUser(id, user);
      if gotUser {
        gotGlobal := Enclosed(id, user);
      }
      tooBusy := !(gotUser && gotGlobal);
      Leave(id, user, gotUser, gotGlobal);
    }

    /** A whole call that no other interrupts: busy exactly when a slot is lacking, and every slot comes back. */
    method Acquire(ghost id: nat, user: string) returns (tooBusy: bool)
      requires Valid() && id !in calls
      modifies this
      ensures Valid() && calls == old(calls)[id := Call(user, Finished)]
      ensures perUser == if user in old(perUser) then old(perUser) else old(perUser)[user := caps.perUser]
      ensures global == if old(global).Some? then old(global) else Some(caps.global)
      ensures tooBusy <==> perUser[user] == 0 || global == Some(0)
    {
      Enter(id, user);
      SlotsFor(id, user);
      tooBusy := Bracket(id, user);
    }
  }
}
