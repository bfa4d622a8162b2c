/**
 * Two readings of one scenario reference: the scenarios the permission gate asks for,
 * and the scenarios the engine goes on to query.
 */
module ScenarioAccess {
  import opened Wrappers
  import opened ScenarioKeys

  // ---------------------------------------------------------------------
  // Modifiers
  // ---------------------------------------------------------------------

  type Modifiers = map<string, string>

  const FORK := "fork"

  const VALID_MODIFIERS: set<string> :=
    {"uncommitted", "uncommitted_delta", "commit", "commit_delta", "fork"}

  /** The text before the first `c`, and after it if there is one. */
  function Cut(s: string, c: char): (r: (string, Option<string>))
    ensures c !in r.0
    ensures r.1.None? ==> s == r.0
    ensures r.1.Some? ==> s == r.0 + [c] + r.1.value
  {
    if s == "" then ("", None)
    else if s[0] == c then ("", Some(s[1..]))
    else
      var (head, tail) := Cut(s[1..], c);
      ([s[0]] + head, tail)
  }

  function SplitAll(s: string, c: char): (parts: seq<string>)
    ensures parts != []
    decreases |s|
  {
    var (head, tail) := Cut(s, c);
    if tail.None? then [head] else [head] + SplitAll(tail.value, c)
  }

  function ParseModifiers(parts: seq<string>, found: Modifiers): Result<Modifiers, string>
  {
    if parts == [] then Ok(found) else
    var (key, value) := Cut(parts[0], '=');
    if key !in VALID_MODIFIERS then Err(key)
    else ParseModifiers(parts[1..], found[key := if value.Some? then value.value else ""])
  }

  function ParseRef(ref: string): Result<(string, Modifiers), string>
  {
    var parts := SplitAll(ref, '&');
    var mods := ParseModifiers(parts[1..], map[]);
    if mods.Err? then Err(mods.error) else Ok((parts[0], mods.value))
  }

  // ---------------------------------------------------------------------
  // The permission gate
  // ---------------------------------------------------------------------

  /** The stored scenarios a name denotes; a name that does not resolve stands for itself. */
  function Expand(reg: Registry, name: string): set<string>
  {
    var r := ResolveKey(reg, name);
    if r.Some? then Dependencies(r.value) else {name}
  }

  function Parent(reg: Registry, id: string): Option<string>
  {
    if id in reg.ids && reg.ids[id].variantOf.Some? && reg.ids[id].variantOf.value != ""
    then reg.ids[id].variantOf else None
  }

  /** The ids the caller must hold for a reference. */
  function GateIds(reg: Registry, ref: string): set<string>
  {
    var parsed := ParseRef(ref);
    var (base, mods) := if parsed.Ok? then parsed.value else (SplitAll(ref, '&')[0], map[]);
    var baseIds := Expand(reg, base);
    if FORK !in mods then baseIds
    else if mods[FORK] != "" then baseIds + Expand(reg, mods[FORK])
    else baseIds + set id | id in baseIds && Parent(reg, id).Some? :: Parent(reg, id).value
  }

  // ---------------------------------------------------------------------
  // The engine
  // ---------------------------------------------------------------------

  /** The fork substitution made on a data query just before it runs. */
  function Substitute(reg: Registry, id: string, mods: Modifiers): string
  {
    if FORK !in mods then id
    else if mods[FORK] != "" then mods[FORK]
    else if Parent(reg, id).Some? then Parent(reg, id).value
    else id
  }

  /** A side of a variance, looked up again by its key. */
  function ComponentId(reg: Registry, key: string): Option<string>
  {
    var parsed := ParseRef(key);
    if parsed.Err? then None else
    var r := ResolveKey(reg, parsed.value.0);
    if r.Some? && r.value.Single? then Some(Substitute(reg, StoredId(r.value.simple), parsed.value.1)) else None
  }

  /** The ids queried for a reference, or None when the engine refuses it. */
  function EngineIds(reg: Registry, ref: string): Option<set<string>>
  {
    var parsed := ParseRef(ref);
    if parsed.Err? then None else
    var (base, mods) := parsed.value;
    var r := ResolveKey(reg, base);
    if r.None? then None else
    match r.value
    case Single(s) => Some({Substitute(reg, StoredId(s), mods)})
    case Variance(a, b, _) =>
      if mods != map[] then None else
      var left := ComponentId(reg, SimpleKey(a));
      var right := ComponentId(reg, SimpleKey(b));
      if left.Some? && right.Some? then Some({left.value, right.value}) else None
  }

  // ---------------------------------------------------------------------
  // The gate covers the engine
  // ---------------------------------------------------------------------

  /** No alias can be cut at the modifier sign. */
  ghost predicate PlainAliases(reg: Registry)
  {
    forall a | a in reg.aliases :: '&' !in a
  }

  lemma {:induction false} CutNothing(s: string, c: char)
    requires c !in s
    ensures Cut(s, c) == (s, None)
  {
    if s != "" {
      CutNothing(s[1..], c);
    }
  }

  lemma {:induction false} CutAt(s: string, c: char, tail: string)
    requires c !in s
    ensures Cut(s + [c] + tail, c) == (s, Some(tail))
  {
    if s == "" {
      assert s + [c] + tail == [c] + tail;
    } else {
      CutAt(s[1..], c, tail);
      assert (s + [c] + tail)[1..] == s[1..] + [c] + tail;
      assert s == [s[0]] + s[1..];
    }
  }

  lemma PlainKeyParses(key: string)
    requires '&' !in key
    ensures ParseRef(key) == Ok((key, map[]))
  {
    CutNothing(key, '&');
  }

  lemma PlainSplit(s: string, c: char)
    requires c !in s
    ensures SplitAll(s, c) == [s]
  {
    CutNothing(s, c);
  }

  lemma OneModifier(key: string, value: string)
    requires key in VALID_MODIFIERS && '=' !in key
    ensures ParseModifiers([key + ['='] + value], map[]) == Ok(map[key := value])
  {
    CutAt(key, '=', value);
    assert [key + ['='] + value][1..] == [];
  }

  lemma ForkPartParses(target: string)
    requires '&' !in target
    ensures var part := FORK + ['='] + target;
      SplitAll(part, '&') == [part] && ParseModifiers([part], map[]) == Ok(map[FORK := target])
  {
    assert '&' !in FORK && '=' !in FORK;
    PlainSplit(FORK + ['='] + target, '&');
    OneModifier(FORK, target);
  }

  lemma ForkRefParses(base: string, target: string)
    requires '&' !in base && '&' !in target
    ensures ParseRef(base + "&fork=" + target) == Ok((base, map[FORK := target]))
  {
    var ref, part := base + "&fork=" + target, FORK + ['='] + target;
    assert ref == base + ['&'] + part;
    CutAt(base, '&', part);
    ForkPartParses(target);
    assert SplitAll(ref, '&') == [base] + [part];
    assert SplitAll(ref, '&')[1..] == [part];
  }

  lemma BareForkParses(base: string)
    requires '&' !in base
    ensures ParseRef(base + "&fork") == Ok((base, map[FORK := ""]))
  {
    var ref := base + "&fork";
    assert ref == base + ['&'] + FORK;
    CutAt(base, '&', FORK);
    BareForkPart();
    assert SplitAll(ref, '&') == [base] + [FORK];
    assert SplitAll(ref, '&')[1..] == [FORK];
  }

  lemma BareForkPart()
    ensures SplitAll(FORK, '&') == [FORK] && ParseModifiers([FORK], map[]) == Ok(map[FORK := ""])
  {
    assert '&' !in FORK && '=' !in FORK;
    PlainSplit(FORK, '&');
    CutNothing(FORK, '=');
    assert [FORK][1..] == [];
  }

  /**
   * A fork replaces the scenario that is queried: by the one it names, or without a name by the
   * scenario's own parent, if it has one; the gate asks for both.
   */
  lemma ForkReplaces(reg: Registry, x: Real, target: string)
    requires WellFormed(reg) && KnownReal(reg, x) && '&' !in x.alias && '&' !in target && target != ""
    ensures EngineIds(reg, x.alias) == Some({x.scenarioId}) && GateIds(reg, x.alias) == {x.scenarioId}
    ensures EngineIds(reg, x.alias + "&fork=" + target) == Some({target})
    ensures
      var parent := if x.variantOf.None? || x.variantOf.value == "" then x.scenarioId else x.variantOf.value;
      && EngineIds(reg, x.alias + "&fork") == Some({parent})
      && GateIds(reg, x.alias + "&fork") == {x.scenarioId, parent}
  {
    PlainKeyParses(x.alias);
    ForkRefParses(x.alias, target);
    BareForkParses(x.alias);
    SimpleRoundTrip(reg, RealRef(x));
  }

  /** The gate asks for the stored scenario behind a shifted key, and for both behind a comparison. */
  lemma GateAsksForStored(reg: Registry, a: string, b: string, suffix: string)
    requires WellFormed(reg) && Unambiguous(reg) && PlainAliases(reg)
    requires a in reg.aliases && b in reg.aliases && suffix in {"_py", "_pp"}
    ensures GateIds(reg, a + suffix) == {reg.aliases[a].scenarioId}
    ensures GateIds(reg, a + "_vs_" + b) == {reg.aliases[a].scenarioId, reg.aliases[b].scenarioId}
    ensures GateIds(reg, a + "_vs_" + b + "_pct") == {reg.aliases[a].scenarioId, reg.aliases[b].scenarioId}
  {
    var x, y := RealRef(reg.aliases[a]), RealRef(reg.aliases[b]);
    var shifted := ShiftedRef(reg.aliases[a], if suffix == "_py" then PriorYear else PriorPeriod);
    KeyTexts(reg.aliases[a], reg.aliases[b]);
    UnambiguousRoundTrips(reg, Single(shifted));
    UnambiguousRoundTrips(reg, Variance(x, y, false));
    UnambiguousRoundTrips(reg, Variance(x, y, true));
    PlainKeyParses(a + suffix);
    PlainKeyParses(a + "_vs_" + b);
    PlainKeyParses(a + "_vs_" + b + "_pct");
  }

  /** How keys are spelled, from the aliases of their scenarios. */
  lemma KeyTexts(a: Real, b: Real)
    ensures SimpleKey(ShiftedRef(a, PriorYear)) == a.alias + "_py"
    ensures SimpleKey(ShiftedRef(a, PriorPeriod)) == a.alias + "_pp"
    ensures Key(Variance(RealRef(a), RealRef(b), false)) == a.alias + "_vs_" + b.alias
    ensures Key(Variance(RealRef(a), RealRef(b), true)) == a.alias + "_vs_" + b.alias + "_pct"
  {
    assert a.alias + "_vs_" + b.alias + "" == a.alias + "_vs_" + b.alias;
    assert a.alias + VS + b.alias + PCT == a.alias + VS + (b.alias + PCT);
  }

  /** A reference with one modifier is read exactly when the modifier is one of five. */
  lemma FiveModifiers(base: string, name: string)
    requires '&' !in base && '&' !in name && '=' !in name
    ensures ParseRef(base + "&" + name).Ok? <==>
      name in {"uncommitted", "uncommitted_delta", "commit", "commit_delta", "fork"}
  {
    OneModifierSplits(base, name);
    ModifierIsKnown(name);
  }

  lemma OneModifierSplits(base: string, name: string)
    requires '&' !in base && '&' !in name
    ensures SplitAll(base + "&" + name, '&') == [base] + [name]
    ensures SplitAll(base + "&" + name, '&')[1..] == [name]
  {
    assert base + "&" + name == base + ['&'] + name;
    CutAt(base, '&', name);
    PlainSplit(name, '&');
  }

  lemma ModifierIsKnown(name: string)
    requires '=' !in name
    ensures ParseModifiers([name], map[]).Ok? <==>
      name in {"uncommitted", "uncommitted_delta", "commit", "commit_delta", "fork"}
  {
    CutNothing(name, '=');
    assert [name][1..] == [];
  }

  /** The sides of a resolved variance resolve to themselves when looked up again. */
  lemma SideResolvesAgain(reg: Registry, value: string, s: Simple)
    requires WellFormed(reg) && ResolveKey(reg, value) == Some(Single(s))
    ensures ResolveKey(reg, SimpleKey(s)) == Some(Single(s))
  {
    ResolvedIsKnown(reg, value);
    if s.ShiftedRef? {
      var key := Compatibility(value);
      assert ResolveShifted(reg, key) == Some(Single(s));
      assert key == SimpleKey(s);
    }
    SimpleRoundTrip(reg, s);
  }

  /** A resolved variance was cut into two keys that resolve to its sides. */
  lemma VarianceHasParts(reg: Registry, value: string) returns (left: string, right: string)
    requires ResolveKey(reg, value).Some? && ResolveKey(reg, value).value.Variance?
    ensures ResolveKey(reg, left) == Some(Single(ResolveKey(reg, value).value.left))
    ensures ResolveKey(reg, right) == Some(Single(ResolveKey(reg, value).value.right))
    ensures '&' !in value ==> '&' !in left && '&' !in right
  {
    var key := Compatibility(value);
    assert ResolveVariance(reg, key) == ResolveKey(reg, value);
    CompatibilityStaysPlain(value);
    left, right := CutVariance(reg, key);
  }

  lemma CompatibilityStaysPlain(value: string)
    ensures '&' !in value ==> '&' !in Compatibility(value)
  {
    assert '&' !in ACTUALS && '&' !in PY && '&' !in PP;
  }

  lemma CutVariance(reg: Registry, key: string) returns (left: string, right: string)
    requires ResolveVariance(reg, key).Some?
    ensures ResolveVariance(reg, key).value.Variance?
    ensures ResolveKey(reg, left) == Some(Single(ResolveVariance(reg, key).value.left))
    ensures ResolveKey(reg, right) == Some(Single(ResolveVariance(reg, key).value.right))
    ensures '&' !in key ==> '&' !in left && '&' !in right
  {
    var body := if EndsWith(key, PCT) then key[..|key| - |PCT|] else key;
    FindVsSound(body, 0);
    var at := FindVs(body, 0).value;
    left, right := body[..at], body[at + |VS|..];
  }

  lemma SidesResolve(reg: Registry, value: string)
    requires WellFormed(reg) && ResolveKey(reg, value).Some? && ResolveKey(reg, value).value.Variance?
    ensures
      var r := ResolveKey(reg, value).value;
      && ResolveKey(reg, SimpleKey(r.left)) == Some(Single(r.left))
      && ResolveKey(reg, SimpleKey(r.right)) == Some(Single(r.right))
  {
    var r := ResolveKey(reg, value).value;
    var left, right := VarianceHasParts(reg, value);
    SideResolvesAgain(reg, left, r.left);
    SideResolvesAgain(reg, right, r.right);
  }

  lemma SimpleKeyPlain(reg: Registry, s: Simple)
    requires PlainAliases(reg) && KnownSimple(reg, s)
    ensures '&' !in SimpleKey(s)
  {
  }

  /** A name another scenario answers to: its alias, or what a compatibility name stands for. */
  ghost predicate Shadowed(reg: Registry, id: string)
  {
    if IsCompatibilityName(id) then
      var key := Compatibility(id);
      key in reg.ids || (ACTUALS in reg.aliases && reg.aliases[ACTUALS].scenarioId != id)
    else
      id in reg.aliases && reg.aliases[id].scenarioId != id
  }

  lemma ShiftedActualsHasNoVs(suffix: string)
    requires suffix == PY || suffix == PP
    ensures FindVs(ACTUALS + suffix, 0).None? && !EndsWith(ACTUALS + suffix, PCT)
  {
    var key := ACTUALS + suffix;
    assert ACTUALS == ['a', 'c', 't', 'u', 'a', 'l', 's'];
    assert key[7] == '_' && key[8] == 'p' && key[9] != 't';
    forall i ensures !VsAt(key, i) {
    }
    FindVsSound(key, 0);
  }

  lemma ShiftedActualsIsNoVariance(reg: Registry, suffix: string)
    requires suffix == PY || suffix == PP
    ensures ResolveVariance(reg, ACTUALS + suffix).None?
  {
    ShiftedActualsHasNoVs(suffix);
  }

  /** An explicit fork target is authorised as itself exactly when it is not shadowed. */
  lemma StoredNameExpands(reg: Registry, id: string)
    requires WellFormed(reg) && id in reg.ids && id != ""
    ensures Shadowed(reg, id) ==> id !in Expand(reg, id)
    ensures !Shadowed(reg, id) ==> id in Expand(reg, id)
  {
    if IsCompatibilityName(id) {
      var key := Compatibility(id);
      var suffix := if id == PRIOR_YEAR then PY else PP;
      assert key == ACTUALS + suffix;
      EndsWithLast(ACTUALS, suffix, suffix);
      EndsWithLast(ACTUALS, suffix, PY);
      assert key[..|key| - 3] == ACTUALS;
      assert EndsWith(key, suffix) && (suffix == PP ==> !EndsWith(key, PY));
      assert key !in reg.aliases;
      if key !in reg.ids && ACTUALS !in reg.aliases {
        ShiftedActualsIsNoVariance(reg, suffix);
      }
    }
  }

  /** Every stored scenario the engine queries is one the gate asked for. */
  ghost predicate Covered(reg: Registry, ref: string)
  {
    EngineIds(reg, ref).Some? ==>
      forall id | id in EngineIds(reg, ref).value && id in reg.ids :: id in GateIds(reg, ref)
  }

  /** A side whose alias holds the modifier sign is read again as some other stored scenario. */
  ghost predicate SideStrays(reg: Registry, side: Simple, other: Simple)
  {
    && '&' in SimpleKey(side)
    && var again := ComponentId(reg, SimpleKey(side));
       again.Some? && again.value in reg.ids && again.value !in {StoredId(side), StoredId(other)}
  }

  /** The reference is a comparison that the engine accepts and of which a side strays. */
  ghost predicate Strays(reg: Registry, ref: string)
  {
    && EngineIds(reg, ref).Some?
    && var r := ResolveKey(reg, ParseRef(ref).value.0).value;
       r.Variance? && (SideStrays(reg, r.left, r.right) || SideStrays(reg, r.right, r.left))
  }

  /** A side without the modifier sign is read again as itself. */
  lemma PlainSideStays(reg: Registry, value: string, s: Simple)
    requires WellFormed(reg) && ResolveKey(reg, value).Some? && ResolveKey(reg, value).value.Variance?
    requires s == ResolveKey(reg, value).value.left || s == ResolveKey(reg, value).value.right
    requires '&' !in SimpleKey(s)
    ensures ComponentId(reg, SimpleKey(s)) == Some(StoredId(s))
  {
    SidesResolve(reg, value);
    PlainKeyParses(SimpleKey(s));
  }

  /** For a comparison the gate asks for both stored scenarios, and the engine for what the sides are read as. */
  lemma ComparisonIds(reg: Registry, ref: string)
    requires EngineIds(reg, ref).Some? && ResolveKey(reg, ParseRef(ref).value.0).value.Variance?
    ensures
      var r := ResolveKey(reg, ParseRef(ref).value.0).value;
      var left, right := ComponentId(reg, SimpleKey(r.left)), ComponentId(reg, SimpleKey(r.right));
      && GateIds(reg, ref) == {StoredId(r.left), StoredId(r.right)}
      && left.Some? && right.Some? && EngineIds(reg, ref).value == {left.value, right.value}
  {
  }

  /** An accepted comparison is covered exactly when no side strays. */
  lemma ComparisonCoveredIff(reg: Registry, ref: string)
    requires WellFormed(reg) && EngineIds(reg, ref).Some?
    requires ResolveKey(reg, ParseRef(ref).value.0).value.Variance?
    ensures Covered(reg, ref) <==> !Strays(reg, ref)
  {
    var base := ParseRef(ref).value.0;
    var r := ResolveKey(reg, base).value;
    if '&' !in SimpleKey(r.left) { PlainSideStays(reg, base, r.left); }
    if '&' !in SimpleKey(r.right) { PlainSideStays(reg, base, r.right); }
    ComparisonIds(reg, ref);
  }

  /** The engine's expansion stays within the gate's, when no id is shadowed, unless a side strays. */
  lemma UnshadowedCovered(reg: Registry, ref: string)
    requires WellFormed(reg) && !Strays(reg, ref)
    requires forall id | id in reg.ids && id != "" && '&' !in id :: !Shadowed(reg, id)
    ensures Covered(reg, ref)
  {
    if EngineIds(reg, ref).Some? {
      var (base, mods) := ParseRef(ref).value;
      if ResolveKey(reg, base).value.Variance? {
        ComparisonCoveredIff(reg, ref);
      } else if FORK in mods && mods[FORK] != "" && mods[FORK] in reg.ids {
        ForkValuePlain(ref);
        StoredNameExpands(reg, mods[FORK]);
      }
    }
  }

  lemma {:induction false} PartsPlain(s: string, c: char)
    ensures forall p | p in SplitAll(s, c) :: c !in p
    decreases |s|
  {
    var (head, tail) := Cut(s, c);
    if tail.Some? {
      PartsPlain(tail.value, c);
    }
  }

  lemma CutTail(s: string, c: char, x: char)
    requires x !in s
    ensures Cut(s, c).1.Some? ==> x !in Cut(s, c).1.value
  {
    var (head, tail) := Cut(s, c);
    if tail.Some? {
      forall i | 0 <= i < |tail.value| ensures tail.value[i] != x {
        assert s[|head| + 1 + i] == tail.value[i];
      }
    }
  }

  ghost predicate PlainValues(mods: Modifiers)
  {
    forall k | k in mods :: '&' !in mods[k]
  }

  lemma {:induction false} ValuesPlain(parts: seq<string>, found: Modifiers)
    requires forall p | p in parts :: '&' !in p
    requires PlainValues(found) && ParseModifiers(parts, found).Ok?
    ensures PlainValues(ParseModifiers(parts, found).value)
  {
    if parts != [] {
      var (key, value) := Cut(parts[0], '=');
      var text := if value.Some? then value.value else "";
      CutTail(parts[0], '=', '&');
      var next := found[key := text];
      assert PlainValues(next);
      ValuesPlain(parts[1..], next);
    }
  }

  lemma ForkValuePlain(ref: string)
    requires ParseRef(ref).Ok?
    ensures PlainValues(ParseRef(ref).value.1)
  {
    PartsPlain(ref, '&');
    ValuesPlain(SplitAll(ref, '&')[1..], map[]);
  }

  /** Forking to a shadowed scenario queries it while the gate asks for another. */
  lemma ShadowedNotCovered(reg: Registry, id: string)
    requires WellFormed(reg) && id in reg.ids && id != "" && '&' !in id && Shadowed(reg, id)
    ensures !Covered(reg, id + "&fork=" + id)
  {
    var ref := id + "&fork=" + id;
    ForkRefParses(id, id);
    StoredNameExpands(reg, id);
    ShadowedIsSingle(reg, id);
    assert GateIds(reg, ref) == Expand(reg, id) + Expand(reg, id);
    assert EngineIds(reg, ref) == Some({id});
  }

  lemma ShadowedIsSingle(reg: Registry, id: string)
    requires WellFormed(reg) && Shadowed(reg, id) && id != ""
    ensures ResolveKey(reg, id).Some? && ResolveKey(reg, id).value.Single?
  {
    if IsCompatibilityName(id) {
      var key := Compatibility(id);
      var suffix := if id == PRIOR_YEAR then PY else PP;
      EndsWithLast(ACTUALS, suffix, suffix);
      EndsWithLast(ACTUALS, suffix, PY);
      assert key[..|key| - 3] == ACTUALS;
      assert EndsWith(key, suffix) && (suffix == PP ==> !EndsWith(key, PY));
    }
  }

  ghost predicate NoneShadowed(reg: Registry)
  {
    forall id | id in reg.ids && id != "" && '&' !in id :: !Shadowed(reg, id)
  }

  ghost predicate NothingStrays(reg: Registry)
  {
    forall ref :: !Strays(reg, ref)
  }

  /** On every reference the gate asks for all that the engine queries. */
  ghost predicate GateCoversEngine(reg: Registry)
  {
    forall ref :: Covered(reg, ref)
  }

  lemma EscapingReference(reg: Registry) returns (ref: string)
    requires WellFormed(reg) && !(NoneShadowed(reg) && NothingStrays(reg))
    ensures !Covered(reg, ref)
  {
    if !NoneShadowed(reg) {
      var id :| id in reg.ids && id != "" && '&' !in id && Shadowed(reg, id);
      ref := id + "&fork=" + id;
      ShadowedNotCovered(reg, id);
    } else {
      ref :| Strays(reg, ref);
      ComparisonCoveredIff(reg, ref);
    }
  }

  lemma NothingStraysCovered(reg: Registry)
    requires WellFormed(reg) && NoneShadowed(reg) && NothingStrays(reg)
    ensures GateCoversEngine(reg)
  {
    forall ref ensures Covered(reg, ref) {
      UnshadowedCovered(reg, ref);
    }
  }

  /**
   * The gate covers the engine on every reference exactly when no stored id is a name another
   * scenario answers to and no comparison strays.
   */
  lemma GateCoversEngineIff(reg: Registry)
    requires WellFormed(reg)
    ensures GateCoversEngine(reg) <==> NoneShadowed(reg) && NothingStrays(reg)
  {
    if NoneShadowed(reg) && NothingStrays(reg) {
      NothingStraysCovered(reg);
    } else {
      var ref := EscapingReference(reg);
    }
  }

  /** The alias, but not the id, holds the modifier sign, and the alias is read as another stored scenario. */
  ghost predicate StrayAlias(reg: Registry, x: Real)
  {
    && KnownReal(reg, x) && '&' in x.alias && '&' !in x.scenarioId
    && var again := ComponentId(reg, x.alias);
       again.Some? && again.value in reg.ids && again.value != x.scenarioId
  }

  /** Compared with itself by its id, the scenario resolves to that comparison. */
  ghost predicate SelfComparable(reg: Registry, x: Real)
  {
    ResolveKey(reg, x.scenarioId + VS + x.scenarioId) == Some(Variance(RealRef(x), RealRef(x), false))
  }

  /** A text without the modifier sign names a scenario whose alias holds it by its id only. */
  lemma PlainTextNamesById(reg: Registry, value: string, s: Simple)
    requires WellFormed(reg) && '&' !in value && '&' in SimpleKey(s)
    requires ResolveKey(reg, value) == Some(Single(s))
    ensures s.RealRef? && KnownReal(reg, s.scenario) && '&' in s.scenario.alias && '&' !in s.scenario.scenarioId
  {
    var key := Compatibility(value);
    CompatibilityStaysPlain(value);
    assert '&' !in PY && '&' !in PP;
    if key !in reg.aliases && key !in reg.ids {
      var suffix := ShiftedNeedsAlias(reg, key);
    }
  }

  lemma StrayingSideIsStrayAlias(reg: Registry, text: string, side: Simple, other: Simple)
    requires WellFormed(reg) && '&' !in text && ResolveKey(reg, text) == Some(Single(side))
    requires SideStrays(reg, side, other)
    ensures side.RealRef? && StrayAlias(reg, side.scenario)
  {
    PlainTextNamesById(reg, text, side);
  }

  lemma StraysNeedStrayAlias(reg: Registry, ref: string) returns (x: Real)
    requires WellFormed(reg) && Strays(reg, ref)
    ensures StrayAlias(reg, x)
  {
    var base := ParseRef(ref).value.0;
    var r := ResolveKey(reg, base).value;
    PartsPlain(ref, '&');
    assert base in SplitAll(ref, '&');
    var left, right := VarianceHasParts(reg, base);
    if SideStrays(reg, r.left, r.right) {
      StrayingSideIsStrayAlias(reg, left, r.left, r.right);
      x := r.left.scenario;
    } else {
      StrayingSideIsStrayAlias(reg, right, r.right, r.left);
      x := r.right.scenario;
    }
  }

  lemma StrayAliasStrays(reg: Registry, x: Real)
    requires WellFormed(reg) && StrayAlias(reg, x) && SelfComparable(reg, x)
    ensures Strays(reg, x.scenarioId + VS + x.scenarioId)
  {
    var ref := x.scenarioId + VS + x.scenarioId;
    assert '&' !in VS;
    PlainKeyParses(ref);
    assert SideStrays(reg, RealRef(x), RealRef(x));
  }

  /**
   * In terms of aliases: the gate covers the engine exactly when no stored id is shadowed and no
   * alias strays, over a registry in which such a scenario's id can be compared with itself.
   */
  lemma GateCoversEngineIffNoStrayAlias(reg: Registry)
    requires WellFormed(reg) && forall x | StrayAlias(reg, x) :: SelfComparable(reg, x)
    ensures GateCoversEngine(reg) <==> NoneShadowed(reg) && forall x :: !StrayAlias(reg, x)
  {
    GateCoversEngineIff(reg);
    if x :| StrayAlias(reg, x) {
      StrayAliasStrays(reg, x);
    } else if !NothingStrays(reg) {
      var ref :| Strays(reg, ref);
      var x := StraysNeedStrayAlias(reg, ref);
      assert false;
    }
  }

  /** With no modifier sign in any alias, shadowed ids alone decide. */
  lemma GateCoversEngineIffUnshadowed(reg: Registry)
    requires WellFormed(reg) && PlainAliases(reg)
    ensures GateCoversEngine(reg) <==> NoneShadowed(reg)
  {
    assert forall x :: !StrayAlias(reg, x);
    GateCoversEngineIffNoStrayAlias(reg);
  }

  lemma ForkedComponent(reg: Registry, base: string, target: string)
    requires '&' !in base && '&' !in target && target != ""
    requires ResolveKey(reg, base).Some? && ResolveKey(reg, base).value.Single?
    ensures ComponentId(reg, base + "&fork=" + target) == Some(target)
  {
    ForkRefParses(base, target);
  }

  lemma StraySideNotCovered(reg: Registry, ref: string, x: Real, right: Simple, target: string)
    requires WellFormed(reg) && '&' !in ref && '&' !in SimpleKey(right)
    requires ResolveKey(reg, ref) == Some(Variance(RealRef(x), right, false))
    requires ComponentId(reg, x.alias) == Some(target)
    requires target in reg.ids && target !in {x.scenarioId, StoredId(right)}
    ensures !Covered(reg, ref)
  {
    assert ParseRef(ref) == Ok((ref, map[])) by { PlainKeyParses(ref); }
    PlainSideStays(reg, ref, right);
    assert EngineIds(reg, ref).Some?;
    ComparisonIds(reg, ref);
  }

  /** With a modifier sign inside an alias, a variance smuggles in a fork the gate never saw. */
  lemma AmpersandAliasNotCovered(reg: Registry, ref: string, x: Real, right: Simple, base: string, target: string)
    requires WellFormed(reg) && '&' !in ref
    requires ResolveKey(reg, ref) == Some(Variance(RealRef(x), right, false))
    requires '&' !in base && '&' !in target && x.alias == base + "&fork=" + target
    requires ResolveKey(reg, base).Some? && ResolveKey(reg, base).value.Single?
    requires '&' !in SimpleKey(right)
    requires target in reg.ids && target != "" && target !in {x.scenarioId, StoredId(right)}
    ensures !Covered(reg, ref)
  {
    ForkedComponent(reg, base, target);
    StraySideNotCovered(reg, ref, x, right, target);
  }

  const FORKING := Real("s1", "a&fork=t", None)
  const PLAIN := Real("a0", "a", None)
  const TARGET := Real("t", "t", None)

  /** Three scenarios, one of which is stored as `s1` under an alias that forks to `t`. */
  const STRAY_REGISTRY := Registry(
    map["a&fork=t" := FORKING, "a" := PLAIN, "t" := TARGET],
    map["s1" := FORKING, "a0" := PLAIN, "t" := TARGET])

  lemma ShortAliasIsValid(alias: string)
    requires alias in {"a&fork=t", "a", "t"}
    ensures ValidAlias(alias)
  {
    FindVsSound(alias, 0);
    EndsWithPct(alias);
    EndsWith3(alias, PY);
    EndsWith3(alias, PP);
  }

  lemma StrayRegistryIsWellFormed()
    ensures WellFormed(STRAY_REGISTRY)
  {
    ShortAliasIsValid("a&fork=t");
    ShortAliasIsValid("a");
    ShortAliasIsValid("t");
  }

  lemma StrayKeySplits()
    ensures FindVs("s1_vs_a", 0) == Some(2) && "s1_vs_a"[..2] == "s1" && "s1_vs_a"[6..] == "a"
    ensures !EndsWith("s1_vs_a", PY) && !EndsWith("s1_vs_a", PP) && !EndsWith("s1_vs_a", PCT)
  {
    FindVsFirst("s1_vs_a", 0, 2);
    EndsWithPct("s1_vs_a");
    EndsWith3("s1_vs_a", PY);
    EndsWith3("s1_vs_a", PP);
  }

  lemma StrayPartsResolve()
    ensures ResolveKey(STRAY_REGISTRY, "s1") == Some(Single(RealRef(FORKING)))
    ensures ResolveKey(STRAY_REGISTRY, "a") == Some(Single(RealRef(PLAIN)))
  {
  }

  lemma StrayReferenceResolves()
    ensures ResolveKey(STRAY_REGISTRY, "s1_vs_a") == Some(Variance(RealRef(FORKING), RealRef(PLAIN), false))
  {
    StrayKeySplits();
    StrayPartsResolve();
    assert ResolveVariance(STRAY_REGISTRY, "s1_vs_a") == Some(Variance(RealRef(FORKING), RealRef(PLAIN), false));
  }

  lemma StrayAliasText()
    ensures FORKING.alias == "a" + "&fork=" + "t" && '&' !in "a" && '&' !in "t" && '&' !in "s1_vs_a"
  {
  }

  /** There the comparison `s1_vs_a` queries `t`, for which the gate never asked. */
  lemma StrayReferenceNotCovered()
    ensures WellFormed(STRAY_REGISTRY) && !Covered(STRAY_REGISTRY, "s1_vs_a")
  {
    StrayRegistryIsWellFormed();
    StrayReferenceResolves();
    StrayPartsResolve();
    StrayAliasText();
    AmpersandAliasNotCovered(STRAY_REGISTRY, "s1_vs_a", FORKING, RealRef(PLAIN), "a", "t");
  }
}
