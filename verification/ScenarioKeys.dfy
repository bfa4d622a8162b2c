/**
 * The scenario key language: stored scenarios, and the shifted and variance scenarios
 * generated from them by suffix and infix rules.
 */
module ScenarioKeys {
  import opened Wrappers

  // ---------------------------------------------------------------------
  // Scenarios and their keys
  // ---------------------------------------------------------------------

  datatype Real = Real(scenarioId: string, alias: string, variantOf: Option<string>)

  datatype Suffix = PriorYear | PriorPeriod

  datatype Simple = RealRef(scenario: Real) | ShiftedRef(base: Real, shift: Suffix)

  datatype Ref = Single(simple: Simple) | Variance(left: Simple, right: Simple, percent: bool)

  const PY := "_py"
  const PP := "_pp"
  const PCT := "_pct"
  const VS := "_vs_"
  const PRIOR_YEAR := "prior_year"
  const PRIOR_PERIOD := "prior_period"
  const ACTUALS := "actuals"

  function SuffixText(s: Suffix): string
  {
    match s
    case PriorYear => PY
    case PriorPeriod => PP
  }

  function OffsetMonths(s: Suffix): int
  {
    match s
    case PriorYear => -12
    case PriorPeriod => -1
  }

  function SimpleKey(s: Simple): string
  {
    match s
    case RealRef(r) => r.alias
    case ShiftedRef(b, shift) => b.alias + SuffixText(shift)
  }

  function Key(r: Ref): string
  {
    match r
    case Single(s) => SimpleKey(s)
    case Variance(a, b, pct) => SimpleKey(a) + VS + SimpleKey(b) + if pct then PCT else ""
  }

  function StoredId(s: Simple): string
  {
    match s
    case RealRef(r) => r.scenarioId
    case ShiftedRef(b, _) => b.scenarioId
  }

  /** The stored scenarios a reference is computed from. */
  function Dependencies(r: Ref): set<string>
  {
    match r
    case Single(s) => {StoredId(s)}
    case Variance(a, b, _) => {StoredId(a), StoredId(b)}
  }

  // ---------------------------------------------------------------------
  // Text
  // ---------------------------------------------------------------------

  predicate EndsWith(s: string, suffix: string)
  {
    |suffix| <= |s| && s[|s| - |suffix|..] == suffix
  }

  predicate VsAt(s: string, i: int)
  {
    0 <= i && i + 4 <= |s| && s[i] == '_' && s[i + 1] == 'v' && s[i + 2] == 's' && s[i + 3] == '_'
  }

  function FindVs(s: string, from: nat): Option<nat>
    decreases |s| - from
  {
    if from >= |s| then None
    else if VsAt(s, from) then Some(from)
    else FindVs(s, from + 1)
  }

  lemma {:induction false} FindVsFirst(s: string, from: nat, at: nat)
    requires from <= at && VsAt(s, at) && forall i | from <= i < at :: !VsAt(s, i)
    ensures FindVs(s, from) == Some(at)
    decreases at - from
  {
    if from < at {
      FindVsFirst(s, from + 1, at);
    }
  }

  lemma {:induction false} FindVsSound(s: string, from: nat)
    ensures FindVs(s, from).Some? ==> VsAt(s, FindVs(s, from).value) && FindVs(s, from).value >= from
    ensures forall i | from <= i && VsAt(s, i) :: FindVs(s, from).Some? && FindVs(s, from).value <= i
    decreases |s| - from
  {
    if from < |s| && !VsAt(s, from) {
      FindVsSound(s, from + 1);
    }
  }

  function Compatibility(value: string): string
  {
    if value == PRIOR_YEAR then ACTUALS + PY
    else if value == PRIOR_PERIOD then ACTUALS + PP
    else value
  }

  predicate IsCompatibilityName(value: string)
  {
    value == PRIOR_YEAR || value == PRIOR_PERIOD
  }

  // ---------------------------------------------------------------------
  // The registry
  // ---------------------------------------------------------------------

  datatype Registry = Registry(aliases: map<string, Real>, ids: map<string, Real>)

  datatype RegistryError = InvalidAlias(alias: string) | DuplicateAlias(alias: string) | DuplicateId(id: string)

  predicate ValidAlias(alias: string)
  {
    && alias != ""
    && FindVs(alias, 0).None?
    && !EndsWith(alias, PY) && !EndsWith(alias, PP) && !EndsWith(alias, PCT)
    && !IsCompatibilityName(alias)
  }

  ghost predicate WellFormed(reg: Registry)
  {
    && (forall a | a in reg.aliases :: reg.aliases[a].alias == a && ValidAlias(a)
          && reg.aliases[a].scenarioId in reg.ids && reg.ids[reg.aliases[a].scenarioId] == reg.aliases[a])
    && (forall i | i in reg.ids :: reg.ids[i].scenarioId == i
          && reg.ids[i].alias in reg.aliases && reg.aliases[reg.ids[i].alias] == reg.ids[i])
  }

  function Added(reg: Registry, scenario: Real): Registry
  {
    Registry(reg.aliases[scenario.alias := scenario], reg.ids[scenario.scenarioId := scenario])
  }

  lemma AddKeepsWellFormed(reg: Registry, scenario: Real)
    requires WellFormed(reg) && ValidAlias(scenario.alias)
    requires scenario.alias !in reg.aliases && scenario.scenarioId !in reg.ids
    ensures WellFormed(Added(reg, scenario))
  {
  }

  /** The registry holds exactly the listed scenarios. */
  ghost predicate Holds(reg: Registry, reals: seq<Real>)
  {
    && (forall i | 0 <= i < |reals| :: reals[i].alias in reg.aliases && reg.aliases[reals[i].alias] == reals[i])
    && (forall a | a in reg.aliases :: reg.aliases[a] in reals)
  }

  ghost predicate Loadable(reals: seq<Real>)
  {
    && (forall i | 0 <= i < |reals| :: ValidAlias(reals[i].alias))
    && (forall i, j | 0 <= i < j < |reals| :: reals[i].alias != reals[j].alias)
    && (forall i, j | 0 <= i < j < |reals| :: reals[i].scenarioId != reals[j].scenarioId)
  }

  lemma AliasTaken(reg: Registry, reals: seq<Real>, scenario: Real)
    requires Holds(reg, reals) && WellFormed(reg) && scenario.alias in reg.aliases
    ensures !Loadable(reals + [scenario])
  {
    var all, n := reals + [scenario], |reals|;
    var i :| 0 <= i < n && reals[i] == reg.aliases[scenario.alias];
    assert all[i].alias == all[n].alias;
  }

  lemma IdTaken(reg: Registry, reals: seq<Real>, scenario: Real)
    requires Holds(reg, reals) && WellFormed(reg) && scenario.scenarioId in reg.ids
    ensures !Loadable(reals + [scenario])
  {
    var all, n := reals + [scenario], |reals|;
    var i :| 0 <= i < n && reals[i] == reg.aliases[reg.ids[scenario.scenarioId].alias];
    assert all[i].scenarioId == all[n].scenarioId;
  }

  lemma ListedAreKnown(reg: Registry, reals: seq<Real>, i: nat)
    requires Holds(reg, reals) && WellFormed(reg) && i < |reals|
    ensures reals[i].alias in reg.aliases && reals[i].scenarioId in reg.ids
  {
    assert reg.aliases[reals[i].alias] == reals[i];
  }

  lemma NewIsLoadable(reg: Registry, reals: seq<Real>, scenario: Real)
    requires Holds(reg, reals) && WellFormed(reg) && Loadable(reals) && ValidAlias(scenario.alias)
    requires scenario.alias !in reg.aliases && scenario.scenarioId !in reg.ids
    ensures Loadable(reals + [scenario])
  {
    forall i | 0 <= i < |reals| ensures reals[i].alias != scenario.alias && reals[i].scenarioId != scenario.scenarioId {
      ListedAreKnown(reg, reals, i);
    }
  }

  lemma NewIsHeld(reg: Registry, reals: seq<Real>, scenario: Real)
    requires Holds(reg, reals) && WellFormed(reg) && scenario.alias !in reg.aliases
    ensures Holds(Added(reg, scenario), reals + [scenario])
  {
    var all := reals + [scenario];
    forall i | 0 <= i < |all|
      ensures all[i].alias in Added(reg, scenario).aliases && Added(reg, scenario).aliases[all[i].alias] == all[i]
    {
      if i < |reals| { ListedAreKnown(reg, reals, i); }
    }
    assert all[|reals|] == scenario;
  }

  /** One more scenario can be loaded exactly when its alias is valid and its alias and id are new. */
  lemma OneMore(reg: Registry, reals: seq<Real>, scenario: Real)
    requires WellFormed(reg) && Holds(reg, reals) && Loadable(reals)
    ensures Loadable(reals + [scenario]) <==>
      ValidAlias(scenario.alias) && scenario.alias !in reg.aliases && scenario.scenarioId !in reg.ids
    ensures Loadable(reals + [scenario]) ==> Holds(Added(reg, scenario), reals + [scenario])
  {
    assert (reals + [scenario])[|reals|] == scenario;
    if scenario.alias in reg.aliases {
      AliasTaken(reg, reals, scenario);
    } else if scenario.scenarioId in reg.ids {
      IdTaken(reg, reals, scenario);
    } else if ValidAlias(scenario.alias) {
      NewIsLoadable(reg, reals, scenario);
      NewIsHeld(reg, reals, scenario);
    }
  }

  lemma PrefixLoadable(reals: seq<Real>, i: nat)
    requires i <= |reals| && Loadable(reals)
    ensures Loadable(reals[..i])
  {
  }

  ghost predicate LoadedSoFar(reg: Registry, reals: seq<Real>, i: nat)
    requires i <= |reals|
  {
    WellFormed(reg) && Holds(reg, reals[..i]) && Loadable(reals[..i])
  }

  predicate Fits(reg: Registry, scenario: Real)
  {
    ValidAlias(scenario.alias) && scenario.alias !in reg.aliases && scenario.scenarioId !in reg.ids
  }

  lemma LoadNext(reg: Registry, reals: seq<Real>, i: nat)
    requires i < |reals| && LoadedSoFar(reg, reals, i)
    ensures Fits(reg, reals[i]) ==> LoadedSoFar(Added(reg, reals[i]), reals, i + 1)
    ensures !Fits(reg, reals[i]) ==> !Loadable(reals)
  {
    OneMore(reg, reals[..i], reals[i]);
    assert reals[..i + 1] == reals[..i] + [reals[i]];
    if Loadable(reals) {
      PrefixLoadable(reals, i + 1);
    }
    if Fits(reg, reals[i]) {
      AddKeepsWellFormed(reg, reals[i]);
    }
  }

  /** Loading: accepted exactly when aliases are valid and aliases and ids are distinct. */
  method BuildRegistry(reals: seq<Real>) returns (r: Result<Registry, RegistryError>)
    ensures r.Ok? <==> Loadable(reals)
    ensures r.Ok? ==> WellFormed(r.value) && Holds(r.value, reals)
  {
    var reg := Registry(map[], map[]);
    for i := 0 to |reals|
      invariant LoadedSoFar(reg, reals, i)
    {
      var scenario := reals[i];
      LoadNext(reg, reals, i);
      if !ValidAlias(scenario.alias) {
        return Err(InvalidAlias(scenario.alias));
      }
      if scenario.alias in reg.aliases {
        return Err(DuplicateAlias(scenario.alias));
      }
      if scenario.scenarioId in reg.ids {
        return Err(DuplicateId(scenario.scenarioId));
      }
      reg := Added(reg, scenario);
    }
    assert reals[..|reals|] == reals;
    r := Ok(reg);
  }

  // ---------------------------------------------------------------------
  // Resolving a key
  // ---------------------------------------------------------------------

  function ResolveShifted(reg: Registry, key: string): Option<Ref>
  {
    if EndsWith(key, PY) then ShiftOf(reg, key[..|key| - |PY|], PriorYear)
    else if EndsWith(key, PP) then ShiftOf(reg, key[..|key| - |PP|], PriorPeriod)
    else None
  }

  function ShiftOf(reg: Registry, baseKey: string, s: Suffix): Option<Ref>
  {
    if baseKey in reg.aliases then Some(Single(ShiftedRef(reg.aliases[baseKey], s))) else None
  }

  function ResolveKey(reg: Registry, value: string): Option<Ref>
    decreases |value|, 1
  {
    if value == "" then None else
    var key := Compatibility(value);
    if key in reg.aliases then Some(Single(RealRef(reg.aliases[key])))
    else if key in reg.ids then Some(Single(RealRef(reg.ids[key])))
    else
      var shifted := ResolveShifted(reg, key);
      if shifted.Some? then shifted else ResolveVariance(reg, key)
  }

  function ResolveVariance(reg: Registry, key: string): Option<Ref>
    decreases |key|, 0
  {
    var pct := EndsWith(key, PCT);
    var body := if pct then key[..|key| - |PCT|] else key;
    var at := FindVs(body, 0);
    FindVsSound(body, 0);
    if at.None? then None else
    var left := ResolveKey(reg, body[..at.value]);
    var right := ResolveKey(reg, body[at.value + |VS|..]);
    if left.Some? && left.value.Single? && right.Some? && right.value.Single?
    then Some(Variance(left.value.simple, right.value.simple, pct))
    else None
  }

  // ---------------------------------------------------------------------
  // What resolves is a reference over the registry
  // ---------------------------------------------------------------------

  ghost predicate KnownReal(reg: Registry, r: Real)
  {
    r.alias in reg.aliases && reg.aliases[r.alias] == r
  }

  ghost predicate KnownSimple(reg: Registry, s: Simple)
  {
    match s
    case RealRef(r) => KnownReal(reg, r)
    case ShiftedRef(b, _) => KnownReal(reg, b)
  }

  ghost predicate KnownRef(reg: Registry, r: Ref)
  {
    match r
    case Single(s) => KnownSimple(reg, s)
    case Variance(a, b, _) => KnownSimple(reg, a) && KnownSimple(reg, b)
  }

  lemma {:induction false} ResolvedIsKnown(reg: Registry, value: string)
    requires WellFormed(reg)
    ensures ResolveKey(reg, value).Some? ==> KnownRef(reg, ResolveKey(reg, value).value)
    decreases |value|, 1
  {
    var key := Compatibility(value);
    if value != "" && key !in reg.aliases && key !in reg.ids && ResolveShifted(reg, key).None? {
      VarianceIsKnown(reg, key);
    }
  }

  lemma {:induction false} VarianceIsKnown(reg: Registry, key: string)
    requires WellFormed(reg)
    ensures ResolveVariance(reg, key).Some? ==> KnownRef(reg, ResolveVariance(reg, key).value)
    decreases |key|, 0
  {
    var pct := EndsWith(key, PCT);
    var body := if pct then key[..|key| - |PCT|] else key;
    var at := FindVs(body, 0);
    FindVsSound(body, 0);
    if at.Some? {
      var left, right := body[..at.value], body[at.value + |VS|..];
      ResolvedIsKnown(reg, left);
      ResolvedIsKnown(reg, right);
      VarianceOfSides(reg, key, left, right, pct);
    }
  }

  lemma VarianceOfSides(reg: Registry, key: string, left: string, right: string, pct: bool)
    requires ResolveVariance(reg, key) ==
      var l, r := ResolveKey(reg, left), ResolveKey(reg, right);
      if l.Some? && l.value.Single? && r.Some? && r.value.Single?
      then Some(Variance(l.value.simple, r.value.simple, pct))
      else None
    requires ResolveKey(reg, left).Some? ==> KnownRef(reg, ResolveKey(reg, left).value)
    requires ResolveKey(reg, right).Some? ==> KnownRef(reg, ResolveKey(reg, right).value)
    ensures ResolveVariance(reg, key).Some? ==> KnownRef(reg, ResolveVariance(reg, key).value)
  {
  }

  // ---------------------------------------------------------------------
  // Printing and resolving are inverse
  // ---------------------------------------------------------------------

  predicate Generated(r: Ref)
  {
    r.Variance? || r.simple.ShiftedRef?
  }

  /** What the loader does not check: no alias can be read as part of a generated key. */
  ghost predicate Unambiguous(reg: Registry)
  {
    && (forall a | a in reg.aliases :: !EndsWith(a, "_vs"))
    && "pct" !in reg.aliases
    && (forall r | KnownRef(reg, r) && Generated(r) :: Key(r) !in reg.ids)
  }

  lemma NoVs(s: string)
    requires FindVs(s, 0).None?
    ensures forall i :: !VsAt(s, i)
  {
    FindVsSound(s, 0);
  }

  /** A three-letter ending, letter by letter. */
  lemma EndsWith3(s: string, t: string)
    requires |t| == 3
    ensures EndsWith(s, t) <==>
      |s| >= 3 && s[|s| - 3] == t[0] && s[|s| - 2] == t[1] && s[|s| - 1] == t[2]
  {
    if |s| >= 3 {
      var tail := s[|s| - 3..];
      assert tail == [tail[0], tail[1], tail[2]] && t == [t[0], t[1], t[2]];
    }
  }

  lemma EndsWithPct(s: string)
    ensures EndsWith(s, PCT) <==>
      |s| >= 4 && s[|s| - 4] == '_' && s[|s| - 3] == 'p' && s[|s| - 2] == 'c' && s[|s| - 1] == 't'
  {
    if |s| >= 4 {
      var tail := s[|s| - 4..];
      assert tail == [tail[0], tail[1], tail[2], tail[3]];
    }
  }

  /** Text glued on after a part without the separator can only complete it after `_vs`. */
  lemma NoVsBefore(left: string, tail: string, i: int)
    requires forall j :: !VsAt(left, j)
    requires !EndsWith(left, "_vs")
    requires |tail| >= 2 && tail[0] == '_' && tail[1] in ['v', 'p'] && i < |left|
    ensures !VsAt(left + tail, i)
  {
    EndsWith3(left, "_vs");
    assert !VsAt(left, i);
  }

  lemma SimpleKeyNoVs(reg: Registry, s: Simple)
    requires WellFormed(reg) && KnownSimple(reg, s)
    requires forall a | a in reg.aliases :: !EndsWith(a, "_vs")
    ensures forall i :: !VsAt(SimpleKey(s), i)
    ensures !EndsWith(SimpleKey(s), "_vs")
  {
    match s
    case RealRef(r) => NoVs(r.alias);
    case ShiftedRef(b, shift) =>
      NoVs(b.alias);
      var tail := SuffixText(shift);
      EndsWith3(SimpleKey(s), "_vs");
      forall i ensures !VsAt(SimpleKey(s), i) {
        if i < |b.alias| {
          NoVsBefore(b.alias, tail, i);
        }
      }
  }

  /** The separator is first found between the two sides. */
  lemma SplitsBetween(left: string, right: string)
    requires forall i :: !VsAt(left, i)
    requires !EndsWith(left, "_vs")
    ensures FindVs(left + VS + right, 0) == Some(|left|)
    ensures (left + VS + right)[..|left|] == left
    ensures (left + VS + right)[|left| + |VS|..] == right
  {
    var s, n := left + VS + right, |left|;
    assert s == left + (VS + right);
    forall i | 0 <= i < n ensures !VsAt(s, i) {
      NoVsBefore(left, VS + right, i);
    }
    SeparatorAt(left, right);
    FindVsFirst(s, 0, n);
  }

  lemma SeparatorAt(left: string, right: string)
    ensures VsAt(left + VS + right, |left|)
  {
    var s, n := left + VS + right, |left|;
    assert s[n] == VS[0] && s[n + 1] == VS[1] && s[n + 2] == VS[2] && s[n + 3] == VS[3];
  }

  lemma EndsWithLast(s: string, tail: string, suffix: string)
    requires |suffix| <= |tail|
    ensures EndsWith(s + tail, suffix) <==> EndsWith(tail, suffix)
  {
    assert (s + tail)[|s + tail| - |suffix|..] == tail[|tail| - |suffix|..];
  }

  /** A shifted key ends in its own suffix, before which it is the alias. */
  lemma ShiftedTail(b: Real, shift: Suffix)
    ensures
      var key, text := SimpleKey(ShiftedRef(b, shift)), SuffixText(shift);
      && EndsWith(key, text) && (shift.PriorPeriod? ==> !EndsWith(key, PY)) && key[..|key| - 3] == b.alias
  {
    var key, text := SimpleKey(ShiftedRef(b, shift)), SuffixText(shift);
    assert key == b.alias + text;
    EndsWithLast(b.alias, text, text);
    EndsWithLast(b.alias, text, PY);
  }

  lemma ShiftedKeyIsNew(b: Real, shift: Suffix)
    requires ValidAlias(b.alias)
    ensures var key := SimpleKey(ShiftedRef(b, shift)); Compatibility(key) == key && key != "" && !ValidAlias(key)
  {
    var key := SimpleKey(ShiftedRef(b, shift));
    ShiftedTail(b, shift);
    EndsWith3(key, SuffixText(shift));
  }

  lemma SimpleRoundTrip(reg: Registry, s: Simple)
    requires WellFormed(reg) && KnownSimple(reg, s)
    requires s.ShiftedRef? ==> SimpleKey(s) !in reg.ids
    ensures ResolveKey(reg, SimpleKey(s)) == Some(Single(s))
  {
    match s
    case RealRef(_) =>
    case ShiftedRef(b, shift) =>
      ShiftedTail(b, shift);
      ShiftedKeyIsNew(b, shift);
      assert SimpleKey(s) !in reg.aliases;
      assert ResolveShifted(reg, SimpleKey(s)) == Some(Single(s));
  }

  lemma VarianceKeyIsNew(reg: Registry, r: Ref)
    requires WellFormed(reg) && KnownRef(reg, r) && r.Variance?
    ensures Key(r) !in reg.aliases && Key(r) != "" && Compatibility(Key(r)) == Key(r)
  {
    var left, rest := SimpleKey(r.left), SimpleKey(r.right) + if r.percent then PCT else "";
    assert Key(r) == left + VS + rest;
    SeparatorAt(left, rest);
    FindVsSound(Key(r), 0);
    assert FindVs(Key(r), 0).Some?;
    CompatibilityNamesHaveNoVs();
  }

  lemma CompatibilityNamesHaveNoVs()
    ensures FindVs(PRIOR_YEAR, 0).None? && FindVs(PRIOR_PERIOD, 0).None?
  {
    FindVsSound(PRIOR_YEAR, 0);
    FindVsSound(PRIOR_PERIOD, 0);
  }

  /** A shift suffix taken off a variance key leaves the separator, or at least most of it. */
  lemma UnshiftedVarianceKey(left: string, rest: string, suffix: string)
    requires suffix == PY || suffix == PP
    requires rest != "" && EndsWith(left + VS + rest, suffix)
    ensures
      var key := left + VS + rest;
      VsAt(key[..|key| - 3], |left|) || EndsWith(key[..|key| - 3], "_vs")
  {
    var key := left + VS + rest;
    var n, base := |left|, key[..|key| - 3];
    SeparatorAt(left, rest);
    EndsWith3(key, suffix);
    EndsWith3(base, "_vs");
    if |rest| >= 3 {
      assert VsAt(base, n);
    }
  }

  lemma UnshiftedIsNoAlias(reg: Registry, left: string, rest: string, suffix: string)
    requires WellFormed(reg) && forall a | a in reg.aliases :: !EndsWith(a, "_vs")
    requires suffix == PY || suffix == PP
    requires rest != "" && EndsWith(left + VS + rest, suffix)
    ensures var key := left + VS + rest; key[..|key| - 3] !in reg.aliases
  {
    var key := left + VS + rest;
    var base := key[..|key| - 3];
    UnshiftedVarianceKey(left, rest, suffix);
    if base in reg.aliases {
      assert ValidAlias(base);
      NoVs(base);
    }
  }

  lemma VarianceKeyText(reg: Registry, r: Ref) returns (left: string, rest: string)
    requires WellFormed(reg) && KnownRef(reg, r) && r.Variance?
    ensures Key(r) == left + VS + rest && rest != ""
  {
    left, rest := SimpleKey(r.left), SimpleKey(r.right) + if r.percent then PCT else "";
    assert SimpleKey(r.right) != "";
  }

  lemma ShiftedNeedsAlias(reg: Registry, key: string) returns (suffix: string)
    requires ResolveShifted(reg, key).Some?
    ensures (suffix == PY || suffix == PP) && EndsWith(key, suffix) && key[..|key| - 3] in reg.aliases
  {
    suffix := if EndsWith(key, PY) then PY else PP;
  }

  lemma JoinedKeyNotShifted(reg: Registry, left: string, rest: string)
    requires WellFormed(reg) && forall a | a in reg.aliases :: !EndsWith(a, "_vs")
    requires rest != ""
    ensures ResolveShifted(reg, left + VS + rest).None?
  {
    if ResolveShifted(reg, left + VS + rest).Some? {
      var suffix := ShiftedNeedsAlias(reg, left + VS + rest);
      UnshiftedIsNoAlias(reg, left, rest, suffix);
    }
  }

  lemma VarianceKeyNotShifted(reg: Registry, r: Ref)
    requires WellFormed(reg) && KnownRef(reg, r) && r.Variance?
    requires forall a | a in reg.aliases :: !EndsWith(a, "_vs")
    ensures ResolveShifted(reg, Key(r)).None?
  {
    var left, rest := VarianceKeyText(reg, r);
    JoinedKeyNotShifted(reg, left, rest);
  }

  lemma SimpleKeyTail(reg: Registry, s: Simple)
    requires WellFormed(reg) && KnownSimple(reg, s)
    ensures SimpleKey(s) != "" && !EndsWith(SimpleKey(s), PCT)
    ensures SimpleKey(s) == "pct" ==> "pct" in reg.aliases
  {
    var key := SimpleKey(s);
    EndsWithPct(key);
    if s.ShiftedRef? {
      assert key[|key| - 1] == SuffixText(s.shift)[2];
    }
  }

  lemma PercentTail(left: string, right: string)
    requires right != "" && EndsWith(left + VS + right, PCT)
    ensures EndsWith(right, PCT) || right == "pct"
  {
    var key := left + VS + right;
    EndsWithPct(key);
    EndsWithPct(right);
    SeparatorAt(left, right);
    if |right| == 3 {
      assert right == [right[0], right[1], right[2]];
    }
  }

  /** Without a percent sign the key does not look as if it had one. */
  lemma PlainKeyNotPercent(reg: Registry, r: Ref)
    requires WellFormed(reg) && KnownRef(reg, r) && r.Variance? && !r.percent
    requires "pct" !in reg.aliases
    ensures !EndsWith(Key(r), PCT)
  {
    var left, right := SimpleKey(r.left), SimpleKey(r.right);
    assert Key(r) == left + VS + right;
    SimpleKeyTail(reg, r.right);
    if EndsWith(Key(r), PCT) {
      PercentTail(left, right);
      assert false;
    }
  }

  lemma VarianceRoundTrip(reg: Registry, r: Ref)
    requires WellFormed(reg) && Unambiguous(reg) && KnownRef(reg, r) && r.Variance?
    ensures ResolveKey(reg, Key(r)) == Some(r)
  {
    var left, right, key := SimpleKey(r.left), SimpleKey(r.right), Key(r);
    VarianceKeyIsNew(reg, r);
    VarianceKeyNotShifted(reg, r);
    SimpleKeyNoVs(reg, r.left);
    SplitsBetween(left, right);
    assert KnownRef(reg, Single(r.left)) && KnownRef(reg, Single(r.right));
    SimpleRoundTrip(reg, r.left);
    SimpleRoundTrip(reg, r.right);
    VarianceBody(reg, r);
    assert ResolveVariance(reg, key) == Some(r);
  }

  /** What is left of a comparison key when its percent ending, if any, is taken off. */
  lemma VarianceBody(reg: Registry, r: Ref)
    requires WellFormed(reg) && KnownRef(reg, r) && r.Variance? && "pct" !in reg.aliases
    ensures EndsWith(Key(r), PCT) <==> r.percent
    ensures
      var key, body := Key(r), SimpleKey(r.left) + VS + SimpleKey(r.right);
      body == if r.percent then key[..|key| - |PCT|] else key
  {
    var key, body := Key(r), SimpleKey(r.left) + VS + SimpleKey(r.right);
    if r.percent {
      EndsWithLast(body, PCT, PCT);
      assert key[..|key| - 4] == body;
    } else {
      assert key == body;
      PlainKeyNotPercent(reg, r);
    }
  }

  /** Resolving the key of any reference gives that reference back. */
  ghost predicate RoundTrips(reg: Registry)
  {
    forall r {:trigger Key(r)} :: KnownRef(reg, r) ==> ResolveKey(reg, Key(r)) == Some(r)
  }

  lemma UnambiguousRoundTrips(reg: Registry, r: Ref)
    requires WellFormed(reg) && Unambiguous(reg) && KnownRef(reg, r)
    ensures ResolveKey(reg, Key(r)) == Some(r)
  {
    if r.Variance? {
      VarianceRoundTrip(reg, r);
    } else {
      SimpleRoundTrip(reg, r.simple);
    }
  }

  /** The separator is then found inside the left side. */
  lemma SplitsTooEarly(a: string)
    requires EndsWith(a, "_vs") && forall i :: !VsAt(a, i)
    ensures FindVs(a + VS + a, 0) == Some(|a| - 3)
    ensures |(a + VS + a)[|a| - 3 + |VS|..]| == |a| + 3
    ensures (a + VS + a)[|a| - 3 + |VS|..][0] == 'v'
  {
    var key, n := a + VS + a, |a|;
    EndsWith3(a, "_vs");
    SeparatorAt(a, a);
    forall i | 0 <= i < n - 3 ensures !VsAt(key, i) {
      assert !VsAt(a, i);
    }
    assert VsAt(key, n - 3);
    FindVsFirst(key, 0, n - 3);
  }

  /** A plain variance was split at the first separator, and both sides resolved. */
  lemma VarianceParts(reg: Registry, key: string, r: Ref)
    requires ResolveKey(reg, key) == Some(r) && r.Variance? && !r.percent && Compatibility(key) == key
    ensures FindVs(key, 0).Some? && FindVs(key, 0).value + 4 <= |key|
    ensures ResolveKey(reg, key[..FindVs(key, 0).value]) == Some(Single(r.left))
    ensures ResolveKey(reg, key[FindVs(key, 0).value + 4..]) == Some(Single(r.right))
  {
    FindVsSound(key, 0);
    assert ResolveVariance(reg, key) == Some(r);
  }

  lemma LostReference(reg: Registry, r: Ref)
    requires KnownRef(reg, r) && ResolveKey(reg, Key(r)) != Some(r)
    ensures !RoundTrips(reg)
  {
  }

  /** An alias that ends like the separator is split too early. */
  lemma AliasEndingInVsBreaks(reg: Registry, a: string)
    requires WellFormed(reg) && a in reg.aliases && EndsWith(a, "_vs")
    ensures !RoundTrips(reg)
  {
    var scenario := reg.aliases[a];
    SplitTooEarlyIsLost(reg, a, scenario);
    LostReference(reg, Variance(RealRef(scenario), RealRef(scenario), false));
  }

  lemma SplitTooEarlyIsLost(reg: Registry, a: string, scenario: Real)
    requires WellFormed(reg) && a in reg.aliases && scenario == reg.aliases[a] && EndsWith(a, "_vs")
    ensures
      var r := Variance(RealRef(scenario), RealRef(scenario), false);
      ResolveKey(reg, Key(r)) != Some(r)
  {
    var r, key := Variance(RealRef(scenario), RealRef(scenario), false), a + VS + a;
    assert KnownRef(reg, r) && Key(r) == key;
    VarianceKeyIsNew(reg, r);
    NoVs(a);
    SplitsTooEarly(a);
    if ResolveKey(reg, key) == Some(r) {
      VarianceParts(reg, key, r);
      NotBothSides(reg, key[..|a| - 3], key[|a| - 3 + 4..], scenario);
      assert false;
    }
  }

  /** The two texts around the early cut cannot both stand for the scenario. */
  lemma NotBothSides(reg: Registry, left: string, right: string, scenario: Real)
    requires WellFormed(reg) && |left| + 3 == |scenario.alias| && |right| == |scenario.alias| + 3
    requires right[0] == 'v'
    requires ResolveKey(reg, left) == Some(Single(RealRef(scenario)))
    ensures ResolveKey(reg, right) != Some(Single(RealRef(scenario)))
  {
    RealRefKeys(reg, left, scenario);
    if ResolveKey(reg, right) == Some(Single(RealRef(scenario))) {
      RealRefKeys(reg, right, scenario);
      assert false;
    }
  }

  lemma RealRefKeys(reg: Registry, value: string, scenario: Real)
    requires WellFormed(reg) && ResolveKey(reg, value) == Some(Single(RealRef(scenario)))
    ensures Compatibility(value) in {scenario.alias, scenario.scenarioId}
  {
    var key := Compatibility(value);
    assert key in reg.aliases || key in reg.ids;
  }

  /** An alias `pct` turns a variance into a percentage. */
  lemma AliasPctBreaks(reg: Registry)
    requires WellFormed(reg) && "pct" in reg.aliases
    ensures !RoundTrips(reg)
  {
    var scenario := reg.aliases["pct"];
    var r := Variance(RealRef(scenario), RealRef(scenario), false);
    assert KnownRef(reg, r);
    VarianceKeyIsNew(reg, r);
    assert Key(r) == "pct" + VS + "pct";
    assert EndsWith(Key(r), PCT);
    assert ResolveKey(reg, Key(r)) != Some(r);
  }

  lemma IdEqualToKeyBreaks(reg: Registry, r: Ref)
    requires WellFormed(reg) && KnownRef(reg, r) && Generated(r) && Key(r) in reg.ids
    ensures !RoundTrips(reg)
  {
    var key := Key(r);
    if r.Variance? {
      VarianceKeyIsNew(reg, r);
    } else {
      ShiftedKeyIsNew(r.simple.base, r.simple.shift);
    }
    assert key !in reg.aliases && Compatibility(key) == key;
    assert ResolveKey(reg, key) == Some(Single(RealRef(reg.ids[key])));
  }

  /**
   * Resolving inverts printing, for every reference over a loaded registry, exactly when
   * no alias ends in `_vs`, none is `pct`, and no stored id is a generated key.
   */
  lemma RoundTripsIffUnambiguous(reg: Registry)
    requires WellFormed(reg)
    ensures RoundTrips(reg) <==> Unambiguous(reg)
  {
    if Unambiguous(reg) {
      forall r {:trigger Key(r)} | KnownRef(reg, r)
        ensures ResolveKey(reg, Key(r)) == Some(r)
      {
        UnambiguousRoundTrips(reg, r);
      }
    } else if a :| a in reg.aliases && EndsWith(a, "_vs") {
      AliasEndingInVsBreaks(reg, a);
    } else if "pct" in reg.aliases {
      AliasPctBreaks(reg);
    } else {
      var r :| KnownRef(reg, r) && Generated(r) && Key(r) in reg.ids;
      IdEqualToKeyBreaks(reg, r);
    }
  }

  /** Different references then have different keys. */
  lemma KeysAreDistinct(reg: Registry, r: Ref, s: Ref)
    requires WellFormed(reg) && Unambiguous(reg) && KnownRef(reg, r) && KnownRef(reg, s)
    requires Key(r) == Key(s)
    ensures r == s
  {
    UnambiguousRoundTrips(reg, r);
    UnambiguousRoundTrips(reg, s);
  }

  function NormalizeKey(reg: Registry, value: string): Option<string>
  {
    var r := ResolveKey(reg, value);
    if r.Some? then Some(Key(r.value)) else None
  }

  /** Normalising any spelling that resolves twice is normalising it once. */
  lemma NormalizeIdempotent(reg: Registry, value: string)
    requires WellFormed(reg) && Unambiguous(reg)
    requires NormalizeKey(reg, value).Some?
    ensures NormalizeKey(reg, NormalizeKey(reg, value).value) == NormalizeKey(reg, value)
    ensures ResolveKey(reg, NormalizeKey(reg, value).value) == ResolveKey(reg, value)
  {
    ResolvedIsKnown(reg, value);
    UnambiguousRoundTrips(reg, ResolveKey(reg, value).value);
  }
}
