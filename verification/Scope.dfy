/**
 * Security scopes: allow and deny lists at any hierarchy level, resolved to one filter set that
 * every scenario of a request must agree on.
 */
module Scope {
  import opened Collections
  import opened Wrappers
  import opened Hierarchy
  import opened Breakdowns
  import opened Filters

  /** Member values under one dimension key. */
  datatype Listing = Listing(key: string, values: seq<string>)

  datatype DimensionScope = DimensionScope(allow: seq<Listing>, deny: seq<Listing>)

  datatype DomainScope = DomainScope(allow: Option<seq<string>>, deny: seq<string>)

  datatype ScopeSpec = ScopeSpec(dimensions: Option<DimensionScope>, domains: Option<DomainScope>)

  datatype ScopeError = DomainDenied | InlineScoped | Unresolvable(error: FilterError) | Inconsistent | NoScenarios

  // ---------------------------------------------------------------------
  // What a scope permits
  // ---------------------------------------------------------------------

  predicate PermitsDomain(scope: ScopeSpec, domain: string)
  {
    scope.domains.Some? ==>
      && domain !in scope.domains.value.deny
      && (scope.domains.value.allow.Some? ==> domain in scope.domains.value.allow.value)
  }

  /** The domain is on the scope's deny list. */
  predicate DeniesDomain(scope: Option<ScopeSpec>, domain: string)
  {
    scope.Some? && scope.value.domains.Some? && domain in scope.value.domains.value.deny
  }

  /** The scope has an allow list of domains, and the domain is not on it. */
  predicate OmitsDomain(scope: Option<ScopeSpec>, domain: string)
  {
    && scope.Some? && scope.value.domains.Some? && scope.value.domains.value.allow.Some?
    && domain !in scope.value.domains.value.allow.value
  }

  /** The leaf dimension a key resolves to, whatever the value. */
  function LeafOfKey(c: Context, key: string): Option<string>
  {
    var m := ResolveMembers(c, Filter(key, ""));
    if m.Ok? then Some(m.value.leaf) else None
  }

  function Pairs(key: string, values: seq<string>): seq<Filter>
  {
    seq(|values|, i requires 0 <= i < |values| => Filter(key, values[i]))
  }

  /** The list as single key and value pairs. */
  function Flat(list: seq<Listing>): seq<Filter>
  {
    if list == [] then [] else Flat(list[..|list| - 1]) + Pairs(list[|list| - 1].key, list[|list| - 1].values)
  }

  /** Some key of the list is at a level of the leaf dimension. */
  ghost predicate Mentions(c: Context, list: seq<Listing>, leaf: string)
  {
    exists e :: e in list && LeafOfKey(c, e.key) == Some(leaf)
  }

  /** The member satisfies one of the listed values. */
  ghost predicate Named(c: Context, list: seq<Listing>, leaf: string, id: string)
  {
    exists f :: f in Flat(list) && Satisfies(c, f, leaf, id)
  }

  function AllLeafIds(c: Context, leaf: string): set<string>
  {
    if IsLeaf(c.dims, leaf) then
      var s := c.dims[leaf].source.value;
      set r | r in Rows(c.tables, s.table) && s.keyColumn in r :: r[s.keyColumn]
    else {}
  }

  /** The universe of a leaf dimension is exactly the members that a filter on it can name. */
  lemma UniverseIsNameable(c: Context, leaf: string, id: string)
    requires leaf in c.dims && c.dims[leaf].source.Some?
    ensures id in AllLeafIds(c, leaf) <==> Satisfies(c, Filter(leaf, id), leaf, id)
  {
    var s := c.dims[leaf].source.value;
    if r :| r in Rows(c.tables, s.table) && s.keyColumn in r && r[s.keyColumn] == id {
      assert Has(r, s.keyColumn, id);
      assert HasRow(c.tables, s.table, s.keyColumn, id, s.keyColumn, id);
    }
  }

  /** Allowed members, or all when none is allowed by name, less the denied ones. */
  ghost predicate PermitsMember(c: Context, d: DimensionScope, leaf: string, id: string)
  {
    && (if Mentions(c, d.allow, leaf) then Named(c, d.allow, leaf, id) else id in AllLeafIds(c, leaf))
    && !Named(c, d.deny, leaf, id)
  }

  /** Every leaf dimension the scope mentions permits the fact's member; others are free. */
  ghost predicate Permits(c: Context, d: DimensionScope, fact: Record)
  {
    forall leaf | Mentions(c, d.allow, leaf) || Mentions(c, d.deny, leaf) ::
      ColumnOf(c, leaf) in fact && PermitsMember(c, d, leaf, fact[ColumnOf(c, leaf)])
  }

  ghost predicate PermitsFact(c: Context, scope: Option<ScopeSpec>, fact: Record)
  {
    scope.Some? && scope.value.dimensions.Some? ==> Permits(c, scope.value.dimensions.value, fact)
  }

  // ---------------------------------------------------------------------
  // Members of one list
  // ---------------------------------------------------------------------

  ghost predicate ListSound(c: Context, list: seq<Listing>)
  {
    forall e | e in list :: OneLeaf(c, e.key)
  }

  /** Some entry at a level of the leaf dimension has a value. */
  ghost predicate Valued(c: Context, list: seq<Listing>, leaf: string)
  {
    exists e :: e in list && e.values != [] && LeafOfKey(c, e.key) == Some(leaf)
  }

  ghost predicate Covered(c: Context, fs: seq<Filter>, leaf: string)
  {
    exists f :: f in fs && ResolveMembers(c, f).Ok? && ResolveMembers(c, f).value.leaf == leaf
  }

  ghost predicate Given(c: Context, fs: seq<Filter>, leaf: string, id: string)
  {
    exists f :: f in fs && Gives(c, f, leaf, id)
  }

  predicate Gives(c: Context, f: Filter, leaf: string, id: string)
  {
    ResolveMembers(c, f).Ok? && ResolveMembers(c, f).value.leaf == leaf && id in ResolveMembers(c, f).value.ids
  }

  predicate KnownKey(c: Context, key: string)
  {
    key in c.dims && (c.dims[key].source.Some? || c.dims[key].derived || c.dims[key].ragged)
  }

  /** A key is known exactly when there is a way to resolve filters on it, whether or not it leads to members. */
  lemma KnownKeyHasStrategy(c: Context, key: string, value: string)
    ensures KnownKey(c, key) <==> ResolveMembers(c, Filter(key, value)) !in {Err(UnknownKey), Err(NoStrategy)}
  {
  }

  predicate Resolvable(c: Context, e: Listing)
  {
    KnownKey(c, e.key) && forall v | v in e.values :: ResolveMembers(c, Filter(e.key, v)).Ok?
  }

  type LeafSets = map<string, set<string>>

  /** A set for each leaf that some value reaches, with all members that some value gives. */
  ghost predicate AreLeafSets(c: Context, fs: seq<Filter>, sets: LeafSets)
  {
    && (forall leaf :: leaf in sets <==> Covered(c, fs, leaf))
    && (forall leaf, id | leaf in sets :: id in sets[leaf] <==> Given(c, fs, leaf, id))
  }

  function AddTo(sets: LeafSets, leaf: string, ids: set<string>): LeafSets
  {
    sets[leaf := (if leaf in sets then sets[leaf] else {}) + ids]
  }

  lemma CoveredMore(c: Context, fs: seq<Filter>, f: Filter, leaf: string)
    requires ResolveMembers(c, f).Ok?
    ensures Covered(c, fs + [f], leaf) <==> Covered(c, fs, leaf) || leaf == ResolveMembers(c, f).value.leaf
  {
    assert f in fs + [f];
    if g :| g in fs && ResolveMembers(c, g).Ok? && ResolveMembers(c, g).value.leaf == leaf { assert g in fs + [f]; }
  }

  lemma GivenMore(c: Context, fs: seq<Filter>, f: Filter, leaf: string, id: string)
    ensures Given(c, fs + [f], leaf, id) <==> Given(c, fs, leaf, id) || Gives(c, f, leaf, id)
    ensures Given(c, fs, leaf, id) ==> Covered(c, fs, leaf)
  {
    assert f in fs + [f];
    if g :| g in fs && Gives(c, g, leaf, id) { assert g in fs + [f]; }
  }

  lemma AddedValue(c: Context, fs: seq<Filter>, f: Filter, sets: LeafSets)
    requires ResolveMembers(c, f).Ok? && AreLeafSets(c, fs, sets)
    ensures var m := ResolveMembers(c, f).value; AreLeafSets(c, fs + [f], AddTo(sets, m.leaf, m.ids))
  {
    var m := ResolveMembers(c, f).value;
    var after := AddTo(sets, m.leaf, m.ids);
    forall leaf ensures leaf in after <==> Covered(c, fs + [f], leaf) {
      CoveredMore(c, fs, f, leaf);
    }
    forall leaf, id | leaf in after ensures id in after[leaf] <==> Given(c, fs + [f], leaf, id) {
      GivenMore(c, fs, f, leaf, id);
    }
  }

  method AddEntry(c: Context, ghost fs: seq<Filter>, before: LeafSets, e: Listing)
    returns (after: Result<LeafSets, FilterError>)
    requires AreLeafSets(c, fs, before)
    ensures after.Ok? <==> Resolvable(c, e)
    ensures after.Ok? ==> AreLeafSets(c, fs + Pairs(e.key, e.values), after.value)
  {
    if e.key !in c.dims { return Err(UnknownKey); }
    if !KnownKey(c, e.key) { return Err(NoStrategy); }
    var sets := before;
    assert fs + Pairs(e.key, e.values[..0]) == fs;
    for i := 0 to |e.values|
      invariant forall v | v in e.values[..i] :: ResolveMembers(c, Filter(e.key, v)).Ok?
      invariant AreLeafSets(c, fs + Pairs(e.key, e.values[..i]), sets)
    {
      var v := e.values[i];
      assert e.values[..i + 1] == e.values[..i] + [v];
      assert v in e.values;
      var m := ResolveMembers(c, Filter(e.key, v));
      if m.Err? { return Err(m.error); }
      AddedValue(c, fs + Pairs(e.key, e.values[..i]), Filter(e.key, v), sets);
      assert fs + Pairs(e.key, e.values[..i + 1]) == fs + Pairs(e.key, e.values[..i]) + [Filter(e.key, v)];
      sets := AddTo(sets, m.value.leaf, m.value.ids);
    }
    assert e.values[..|e.values|] == e.values;
    after := Ok(sets);
  }

  /** The members of a list, by leaf dimension. */
  method ResolveScopeMembers(c: Context, list: seq<Listing>) returns (sets: Result<LeafSets, FilterError>)
    ensures sets.Ok? <==> forall e | e in list :: Resolvable(c, e)
    ensures sets.Ok? ==> AreLeafSets(c, Flat(list), sets.value)
  {
    var all: LeafSets := map[];
    for i := 0 to |list|
      invariant forall e | e in list[..i] :: Resolvable(c, e)
      invariant AreLeafSets(c, Flat(list[..i]), all)
    {
      assert list[..i + 1] == list[..i] + [list[i]];
      assert list[i] in list;
      var added := AddEntry(c, Flat(list[..i]), all, list[i]);
      if added.Err? { return added; }
      all := added.value;
    }
    assert list[..|list|] == list;
    sets := Ok(all);
  }

  // ---------------------------------------------------------------------
  // What the sets mean
  // ---------------------------------------------------------------------

  lemma {:induction false} FlatHolds(list: seq<Listing>, f: Filter)
    ensures f in Flat(list) <==> exists e :: e in list && e.key == f.key && f.value in e.values
  {
    if list != [] {
      var rest, last := list[..|list| - 1], list[|list| - 1];
      FlatHolds(rest, f);
      assert list == rest + [last];
      assert f in Pairs(last.key, last.values) <==> f.key == last.key && f.value in last.values by {
        if f.key == last.key && f.value in last.values {
          var i :| 0 <= i < |last.values| && last.values[i] == f.value;
          assert Pairs(last.key, last.values)[i] == f;
        }
      }
    }
  }

  lemma LeafOfKeyIsLeaf(c: Context, f: Filter)
    ensures ResolveMembers(c, f).Ok? <==> LeafOfKey(c, f.key).Some?
    ensures ResolveMembers(c, f).Ok? ==> LeafOfKey(c, f.key) == Some(ResolveMembers(c, f).value.leaf)
  {
  }

  /** The sets hold the leaf dimensions with a value, and for each the members that the list names. */
  lemma LeafSetsMean(c: Context, list: seq<Listing>, sets: LeafSets)
    requires IsClosure(c.dims, c.transitive) && ListSound(c, list)
    requires AreLeafSets(c, Flat(list), sets)
    ensures forall leaf :: leaf in sets <==> Valued(c, list, leaf)
    ensures forall leaf, id :: (leaf in sets && id in sets[leaf]) <==> Named(c, list, leaf, id)
  {
    forall leaf ensures leaf in sets <==> Valued(c, list, leaf) {
      if f :| f in Flat(list) && ResolveMembers(c, f).Ok? && ResolveMembers(c, f).value.leaf == leaf {
        FlatHolds(list, f);
        LeafOfKeyIsLeaf(c, f);
      }
      if e :| e in list && e.values != [] && LeafOfKey(c, e.key) == Some(leaf) {
        var f := Filter(e.key, e.values[0]);
        FlatHolds(list, f);
        LeafOfKeyIsLeaf(c, f);
      }
    }
    forall leaf, id ensures (leaf in sets && id in sets[leaf]) <==> Named(c, list, leaf, id) {
      GivenIsNamed(c, list, leaf, id);
      GivenMore(c, Flat(list), Filter("", ""), leaf, id);
    }
  }

  lemma GivenIsNamed(c: Context, list: seq<Listing>, leaf: string, id: string)
    requires IsClosure(c.dims, c.transitive) && ListSound(c, list)
    ensures Given(c, Flat(list), leaf, id) <==> Named(c, list, leaf, id)
  {
    forall f | f in Flat(list) ensures Gives(c, f, leaf, id) <==> Satisfies(c, f, leaf, id) {
      FlatHolds(list, f);
      if ResolveMembers(c, f).Ok? { MembersSatisfy(c, f, id); }
      if Satisfies(c, f, leaf, id) { SatisfiedLeaf(c, f, leaf, id); }
    }
  }

  // ---------------------------------------------------------------------
  // Filter sets of one scope
  // ---------------------------------------------------------------------

  function SetOf(sets: LeafSets, leaf: string): set<string>
  {
    if leaf in sets then sets[leaf] else {}
  }

  function Effective(c: Context, allow: LeafSets, deny: LeafSets, leaf: string): set<string>
  {
    (if leaf in allow then allow[leaf] else AllLeafIds(c, leaf)) - SetOf(deny, leaf)
  }

  /** Each column holds the effective set of some leaf that maps to it, and no leaf is without its column. */
  ghost predicate Built(c: Context, allow: LeafSets, deny: LeafSets, leaves: set<string>, result: ColumnSets)
  {
    && (forall leaf | leaf in leaves && leaf in c.dims :: MapToViewColumn(c, leaf) in result)
    && (forall column | column in result :: IsEffective(c, allow, deny, leaves, column, result[column]))
  }

  ghost predicate IsEffective(c: Context, allow: LeafSets, deny: LeafSets, leaves: set<string>, column: string,
          ids: set<string>)
  {
    exists leaf :: leaf in leaves && leaf in c.dims && MapToViewColumn(c, leaf) == column
      && ids == Effective(c, allow, deny, leaf)
  }

  method BuildColumns(c: Context, allow: LeafSets, deny: LeafSets) returns (result: ColumnSets)
    ensures Built(c, allow, deny, allow.Keys + deny.Keys, result)
  {
    result := map[];
    var rest := allow.Keys + deny.Keys;
    ghost var done: set<string> := {};
    while rest != {}
      invariant rest + done == allow.Keys + deny.Keys
      invariant Built(c, allow, deny, done, result)
      decreases rest
    {
      var leaf :| leaf in rest;
      ghost var doneBefore := done;
      rest := rest - {leaf};
      done := done + {leaf};
      if leaf in c.dims {
        ghost var before := result;
        var column := MapToViewColumn(c, leaf);
        result := result[column := Effective(c, allow, deny, leaf)];
        forall col | col in result
          ensures IsEffective(c, allow, deny, done, col, result[col])
        {
          if col != column {
            assert IsEffective(c, allow, deny, doneBefore, col, before[col]);
          }
        }
      }
    }
  }

  function ScopedKeys(d: DimensionScope): set<string>
  {
    (set e | e in d.allow :: e.key) + (set e | e in d.deny :: e.key)
  }

  ghost predicate ScopeResolves(c: Context, d: DimensionScope)
  {
    (forall e | e in d.allow :: Resolvable(c, e)) && (forall e | e in d.deny :: Resolvable(c, e))
  }

  /** The columns are built from the leaf sets of the two lists. */
  ghost predicate FromLists(c: Context, d: DimensionScope, allow: LeafSets, deny: LeafSets, result: ColumnSets)
  {
    && AreLeafSets(c, Flat(d.allow), allow) && AreLeafSets(c, Flat(d.deny), deny)
    && Built(c, allow, deny, allow.Keys + deny.Keys, result)
  }

  method ResolveScopeFilters(c: Context, inline: set<string>, scope: Option<ScopeSpec>)
    returns (result: Result<ColumnSets, ScopeError>, ghost allow: LeafSets, ghost deny: LeafSets)
    ensures scope.None? || scope.value.dimensions.None? ==> result == Ok(map[])
    ensures result.Err? ==> result.error.InlineScoped? || result.error.Unresolvable?
    ensures scope.Some? && scope.value.dimensions.Some? ==>
      var d := scope.value.dimensions.value;
      && (result.Ok? <==> ScopedKeys(d) * inline == {} && ScopeResolves(c, d))
      && (result.Ok? ==> FromLists(c, d, allow, deny, result.value))
      && (result == Err(InlineScoped) <==> exists e :: (e in d.allow || e in d.deny) && e.key in inline)
  {
    allow, deny := map[], map[];
    if scope.Some? && scope.value.dimensions.Some? && ScopedKeys(scope.value.dimensions.value) * inline != {} {
      ghost var key :| key in ScopedKeys(scope.value.dimensions.value) * inline;
      return Err(InlineScoped), allow, deny;
    }
    if scope.None? || scope.value.dimensions.None? {
      return Ok(map[]), allow, deny;
    }
    var d := scope.value.dimensions.value;
    assert forall e | (e in d.allow || e in d.deny) && e.key in inline :: e.key in ScopedKeys(d) * inline;
    if d.allow == [] && d.deny == [] {
      return Ok(map[]), allow, deny;
    }
    var allowed := ResolveScopeMembers(c, d.allow);
    if allowed.Err? { return Err(Unresolvable(allowed.error)), allow, deny; }
    var denied := ResolveScopeMembers(c, d.deny);
    if denied.Err? { return Err(Unresolvable(denied.error)), allow, deny; }
    allow, deny := allowed.value, denied.value;
    var columns := BuildColumns(c, allowed.value, denied.value);
    result := Ok(columns);
  }

  /** Lists over dimensions with one leaf, each mentioned leaf with its own column. */
  ghost predicate ScopeSound(c: Context, d: DimensionScope)
  {
    && IsClosure(c.dims, c.transitive) && ListSound(c, d.allow) && ListSound(c, d.deny)
    && (forall a, b | IsMentioned(c, d, a) && IsMentioned(c, d, b) && ColumnOf(c, a) == ColumnOf(c, b) :: a == b)
  }

  ghost predicate IsMentioned(c: Context, d: DimensionScope, leaf: string)
  {
    Mentions(c, d.allow, leaf) || Mentions(c, d.deny, leaf)
  }

  lemma MentionedIsLeaf(c: Context, list: seq<Listing>, leaf: string)
    requires IsClosure(c.dims, c.transitive) && ListSound(c, list) && Mentions(c, list, leaf)
    ensures IsLeaf(c.dims, leaf) && MapToViewColumn(c, leaf) == ColumnOf(c, leaf)
  {
    var e :| e in list && LeafOfKey(c, e.key) == Some(leaf);
    MembersSatisfy(c, Filter(e.key, ""), "");
  }

  ghost predicate IsValued(c: Context, d: DimensionScope, leaf: string)
  {
    Valued(c, d.allow, leaf) || Valued(c, d.deny, leaf)
  }

  /** A permitted member is in the effective set, and the other way round unless all allow entries are empty. */
  lemma EffectiveIsPermitted(c: Context, d: DimensionScope, allow: LeafSets, deny: LeafSets, leaf: string, id: string)
    requires IsClosure(c.dims, c.transitive) && ListSound(c, d.allow) && ListSound(c, d.deny)
    requires AreLeafSets(c, Flat(d.allow), allow) && AreLeafSets(c, Flat(d.deny), deny)
    ensures leaf in allow.Keys + deny.Keys <==> IsValued(c, d, leaf)
    ensures PermitsMember(c, d, leaf, id) ==> id in Effective(c, allow, deny, leaf)
    ensures Valued(c, d.allow, leaf) || !Mentions(c, d.allow, leaf) ==>
      (id in Effective(c, allow, deny, leaf) <==> PermitsMember(c, d, leaf, id))
  {
    ListMeans(c, d.allow, allow, leaf, id);
    ListMeans(c, d.deny, deny, leaf, id);
    ValuedIsMentioned(c, d.allow, leaf);
  }

  lemma ListMeans(c: Context, list: seq<Listing>, sets: LeafSets, leaf: string, id: string)
    requires IsClosure(c.dims, c.transitive) && ListSound(c, list) && AreLeafSets(c, Flat(list), sets)
    ensures leaf in sets <==> Valued(c, list, leaf)
    ensures Named(c, list, leaf, id) <==> leaf in sets && id in sets[leaf]
  {
    LeafSetsMean(c, list, sets);
  }

  lemma ValuedIsMentioned(c: Context, list: seq<Listing>, leaf: string)
    ensures Valued(c, list, leaf) ==> Mentions(c, list, leaf)
  {
  }

  /** Without a value at the leaf no member is named. */
  lemma NamedIsValued(c: Context, list: seq<Listing>, leaf: string, id: string)
    requires IsClosure(c.dims, c.transitive) && ListSound(c, list) && Named(c, list, leaf, id)
    ensures Valued(c, list, leaf)
  {
    var f :| f in Flat(list) && Satisfies(c, f, leaf, id);
    FlatHolds(list, f);
    SatisfiedLeaf(c, f, leaf, id);
    LeafOfKeyIsLeaf(c, f);
  }

  lemma MentionedLeaf(c: Context, d: DimensionScope, leaf: string)
    requires IsClosure(c.dims, c.transitive) && ListSound(c, d.allow) && ListSound(c, d.deny) && IsMentioned(c, d, leaf)
    ensures leaf in c.dims && MapToViewColumn(c, leaf) == ColumnOf(c, leaf)
  {
    if Mentions(c, d.allow, leaf) { MentionedIsLeaf(c, d.allow, leaf); } else { MentionedIsLeaf(c, d.deny, leaf); }
  }

  /** The leaf whose set a column holds has a value. */
  lemma ColumnOfValued(c: Context, d: DimensionScope, allow: LeafSets, deny: LeafSets, result: ColumnSets,
          column: string)
    returns (leaf: string)
    requires ScopeSound(c, d) && FromLists(c, d, allow, deny, result) && column in result
    ensures IsValued(c, d, leaf) && IsMentioned(c, d, leaf)
    ensures ColumnOf(c, leaf) == column && result[column] == Effective(c, allow, deny, leaf)
  {
    assert IsEffective(c, allow, deny, allow.Keys + deny.Keys, column, result[column]);
    leaf :| leaf in allow.Keys + deny.Keys && leaf in c.dims && MapToViewColumn(c, leaf) == column
      && result[column] == Effective(c, allow, deny, leaf);
    EffectiveIsPermitted(c, d, allow, deny, leaf, "");
    ValuedIsMentioned(c, d.allow, leaf);
    ValuedIsMentioned(c, d.deny, leaf);
    MentionedLeaf(c, d, leaf);
  }

  lemma ValuedHasColumn(c: Context, d: DimensionScope, allow: LeafSets, deny: LeafSets, result: ColumnSets,
          leaf: string)
    requires ScopeSound(c, d) && FromLists(c, d, allow, deny, result) && IsMentioned(c, d, leaf)
    ensures ColumnOf(c, leaf) in result <==> IsValued(c, d, leaf)
    ensures IsValued(c, d, leaf) ==> result[ColumnOf(c, leaf)] == Effective(c, allow, deny, leaf)
  {
    MentionedLeaf(c, d, leaf);
    EffectiveIsPermitted(c, d, allow, deny, leaf, "");
    if ColumnOf(c, leaf) in result {
      var other := ColumnOfValued(c, d, allow, deny, result, ColumnOf(c, leaf));
      assert other == leaf;
    }
  }

  /** Whatever a scope permits, its columns admit. */
  lemma PermittedIsAdmitted(c: Context, d: DimensionScope, allow: LeafSets, deny: LeafSets, result: ColumnSets,
          fact: Record)
    requires ScopeSound(c, d) && FromLists(c, d, allow, deny, result) && Permits(c, d, fact)
    ensures Admits(result, fact)
  {
    forall column | column in result
      ensures column in fact && fact[column] in result[column]
    {
      var leaf := ColumnOfValued(c, d, allow, deny, result, column);
      EffectiveIsPermitted(c, d, allow, deny, leaf, fact[column]);
    }
  }

  // ---------------------------------------------------------------------
  // When the columns admit no more than is permitted
  // ---------------------------------------------------------------------

  /** The user's own filter on the leaf's column lets members of its table through only. */
  predicate KnownToUser(c: Context, user: ColumnSets, leaf: string)
  {
    ColumnOf(c, leaf) in user && user[ColumnOf(c, leaf)] <= AllLeafIds(c, leaf)
  }

  /** Every leaf that allow mentions has a value there, and every other that deny mentions has one, or a user filter. */
  ghost predicate Filled(c: Context, d: DimensionScope, user: ColumnSets)
  {
    && (forall leaf | Mentions(c, d.allow, leaf) :: Valued(c, d.allow, leaf))
    && (forall leaf | Mentions(c, d.deny, leaf) && !Mentions(c, d.allow, leaf) ::
      Valued(c, d.deny, leaf) || KnownToUser(c, user, leaf))
  }

  ghost predicate SomeEmpty(sets: ColumnSets)
  {
    exists column :: column in sets && sets[column] == {}
  }

  /** The merged sets admit a fact exactly when the user's filters admit it and the scope permits it. */
  ghost predicate ExactScope(c: Context, d: DimensionScope, user: ColumnSets, sets: ColumnSets)
  {
    forall fact :: Admits(sets, fact) <==> Admits(user, fact) && Permits(c, d, fact)
  }

  lemma FilledPermits(c: Context, d: DimensionScope, allow: LeafSets, deny: LeafSets, filters: ColumnSets,
          user: ColumnSets, fact: Record)
    requires ScopeSound(c, d) && FromLists(c, d, allow, deny, filters) && Filled(c, d, user)
    requires Admits(filters, fact) && Admits(user, fact)
    ensures Permits(c, d, fact)
  {
    forall leaf | Mentions(c, d.allow, leaf) || Mentions(c, d.deny, leaf)
      ensures ColumnOf(c, leaf) in fact && PermitsMember(c, d, leaf, fact[ColumnOf(c, leaf)])
    {
      assert IsMentioned(c, d, leaf);
      ValuedHasColumn(c, d, allow, deny, filters, leaf);
      var column := ColumnOf(c, leaf);
      assert column in fact;
      if IsValued(c, d, leaf) {
        EffectiveIsPermitted(c, d, allow, deny, leaf, fact[column]);
      } else if Named(c, d.deny, leaf, fact[column]) {
        NamedIsValued(c, d.deny, leaf, fact[column]);
      }
    }
  }

  ghost function AnyOf(s: set<string>): (x: string)
    requires s != {}
    ensures x in s
  {
    var x :| x in s;
    x
  }

  /** A fact that the sets admit, with no other columns. */
  ghost function Witness(sets: ColumnSets): (fact: Record)
    requires !SomeEmpty(sets)
    ensures Admits(sets, fact) && fact.Keys == sets.Keys
  {
    map column | column in sets :: AnyOf(sets[column])
  }

  /** A leaf whose allow entries are all empty permits nothing. */
  lemma UnvaluedAllowPermitsNothing(c: Context, d: DimensionScope, leaf: string, fact: Record)
    requires ScopeSound(c, d) && Mentions(c, d.allow, leaf) && !Valued(c, d.allow, leaf)
    ensures !Permits(c, d, fact)
  {
    if Permits(c, d, fact) {
      assert ColumnOf(c, leaf) in fact && PermitsMember(c, d, leaf, fact[ColumnOf(c, leaf)]);
      NamedIsValued(c, d.allow, leaf, fact[ColumnOf(c, leaf)]);
    }
  }

  /** Without a value at the leaf its column is the user's own. */
  lemma UnvaluedColumn(c: Context, d: DimensionScope, allow: LeafSets, deny: LeafSets, filters: ColumnSets,
          user: ColumnSets, sets: ColumnSets, leaf: string)
    requires ScopeSound(c, d) && FromLists(c, d, allow, deny, filters) && Intersected(user, filters, sets)
    requires IsMentioned(c, d, leaf) && !IsValued(c, d, leaf)
    ensures ColumnOf(c, leaf) in sets <==> ColumnOf(c, leaf) in user
    ensures ColumnOf(c, leaf) in user ==> sets[ColumnOf(c, leaf)] == user[ColumnOf(c, leaf)]
  {
    ValuedHasColumn(c, d, allow, deny, filters, leaf);
  }

  /** Changed in one column to a member of its set, an admitted fact stays admitted. */
  lemma AdmittedWith(sets: ColumnSets, fact: Record, column: string, id: string)
    requires Admits(sets, fact) && (column in sets ==> id in sets[column])
    ensures Admits(sets, fact[column := id])
  {
  }

  /** A leaf whose deny entries are all empty still permits no stranger to its table. */
  lemma StrangerIsAdmitted(c: Context, d: DimensionScope, allow: LeafSets, deny: LeafSets, filters: ColumnSets,
          user: ColumnSets, sets: ColumnSets, leaf: string)
    returns (fact: Record)
    requires ScopeSound(c, d) && FromLists(c, d, allow, deny, filters) && Intersected(user, filters, sets)
    requires Mentions(c, d.deny, leaf) && !Mentions(c, d.allow, leaf)
    requires !Valued(c, d.deny, leaf) && !KnownToUser(c, user, leaf) && !SomeEmpty(sets)
    ensures Admits(sets, fact) && !Permits(c, d, fact)
  {
    var column := ColumnOf(c, leaf);
    ValuedIsMentioned(c, d.allow, leaf);
    UnvaluedColumn(c, d, allow, deny, filters, user, sets, leaf);
    fact := Witness(sets);
    if column in user {
      var id :| id in user[column] && id !in AllLeafIds(c, leaf);
      AdmittedWith(sets, fact, column, id);
      fact := fact[column := id];
      StrangerIsNotPermitted(c, d, leaf, fact);
    }
  }

  lemma StrangerIsNotPermitted(c: Context, d: DimensionScope, leaf: string, fact: Record)
    requires Mentions(c, d.deny, leaf) && !Mentions(c, d.allow, leaf) && ColumnOf(c, leaf) in fact
    requires fact[ColumnOf(c, leaf)] !in AllLeafIds(c, leaf)
    ensures !Permits(c, d, fact)
  {
    assert !PermitsMember(c, d, leaf, fact[ColumnOf(c, leaf)]);
  }

  lemma UnfilledIsInexact(c: Context, d: DimensionScope, allow: LeafSets, deny: LeafSets, filters: ColumnSets,
          user: ColumnSets, sets: ColumnSets)
    requires ScopeSound(c, d) && FromLists(c, d, allow, deny, filters) && Intersected(user, filters, sets)
    requires !Filled(c, d, user) && !SomeEmpty(sets)
    ensures !ExactScope(c, d, user, sets)
  {
    var fact := Witness(sets);
    if leaf :| Mentions(c, d.allow, leaf) && !Valued(c, d.allow, leaf) {
      UnvaluedAllowPermitsNothing(c, d, leaf, fact);
    } else {
      var leaf :| Mentions(c, d.deny, leaf) && !Mentions(c, d.allow, leaf)
        && !Valued(c, d.deny, leaf) && !KnownToUser(c, user, leaf);
      fact := StrangerIsAdmitted(c, d, allow, deny, filters, user, sets, leaf);
    }
    assert Admits(sets, fact) && !Permits(c, d, fact);
  }

  lemma FilledOrEmptyIsExact(c: Context, d: DimensionScope, allow: LeafSets, deny: LeafSets, filters: ColumnSets,
          user: ColumnSets, sets: ColumnSets)
    requires ScopeSound(c, d) && FromLists(c, d, allow, deny, filters) && Intersected(user, filters, sets)
    requires Filled(c, d, user) || SomeEmpty(sets)
    ensures ExactScope(c, d, user, sets)
  {
    forall fact
      ensures Admits(sets, fact) <==> Admits(user, fact) && Permits(c, d, fact)
    {
      IntersectedAdmitsBoth(user, filters, sets, fact);
      if Permits(c, d, fact) { PermittedIsAdmitted(c, d, allow, deny, filters, fact); }
      if Filled(c, d, user) && Admits(sets, fact) { FilledPermits(c, d, allow, deny, filters, user, fact); }
    }
  }

  /**
   * Merged with the user's filters, a scope's columns admit exactly what both let through if and
   * only if no leaf is mentioned without a value where it counts, or some merged set is empty.
   */
  lemma MergedScopeExactIff(c: Context, d: DimensionScope, allow: LeafSets, deny: LeafSets, filters: ColumnSets,
          user: ColumnSets, sets: ColumnSets)
    requires ScopeSound(c, d) && FromLists(c, d, allow, deny, filters) && Intersected(user, filters, sets)
    ensures ExactScope(c, d, user, sets) <==> Filled(c, d, user) || SomeEmpty(sets)
  {
    if Filled(c, d, user) || SomeEmpty(sets) {
      FilledOrEmptyIsExact(c, d, allow, deny, filters, user, sets);
    } else {
      UnfilledIsInexact(c, d, allow, deny, filters, user, sets);
    }
  }

  /** Every leaf that allow mentions has a value in allow, and every leaf that only deny mentions has one in deny. */
  ghost predicate FilledAlone(c: Context, d: DimensionScope)
  {
    && (forall leaf | Mentions(c, d.allow, leaf) :: Valued(c, d.allow, leaf))
    && (forall leaf | Mentions(c, d.deny, leaf) && !Mentions(c, d.allow, leaf) :: Valued(c, d.deny, leaf))
  }

  lemma WithoutUserFilters(c: Context, d: DimensionScope, result: ColumnSets)
    ensures Filled(c, d, map[]) <==> FilledAlone(c, d)
    ensures ExactScope(c, d, map[], result) <==> forall fact :: Admits(result, fact) <==> Permits(c, d, fact)
    ensures Intersected(map[], result, result)
  {
    assert forall leaf :: !KnownToUser(c, map[], leaf);
    assert forall fact :: Admits(map[], fact);
  }

  /**
   * The columns of a scope admit exactly the facts it permits if and only if no leaf is
   * mentioned without a value where it counts, or some returned set is empty.
   */
  lemma ScopeFiltersAreExact(c: Context, d: DimensionScope, allow: LeafSets, deny: LeafSets, result: ColumnSets)
    requires ScopeSound(c, d) && FromLists(c, d, allow, deny, result)
    ensures (forall fact :: Admits(result, fact) <==> Permits(c, d, fact)) <==> FilledAlone(c, d) || SomeEmpty(result)
  {
    WithoutUserFilters(c, d, result);
    MergedScopeExactIff(c, d, allow, deny, result, map[], result);
  }

  // ---------------------------------------------------------------------
  // Merging with the user's filters
  // ---------------------------------------------------------------------

  function Ids(sets: Option<ColumnSets>): ColumnSets
  {
    if sets.Some? then sets.value else map[]
  }

  /** The merged sets keep every column, and common members where both sides have it. */
  ghost predicate Intersected(user: ColumnSets, scope: ColumnSets, merged: ColumnSets)
  {
    && merged.Keys == user.Keys + scope.Keys
    && forall col | col in merged ::
      merged[col] == if col !in scope then user[col] else if col !in user then scope[col] else user[col] * scope[col]
  }

  method MergeDimensionFilters(user: Option<ColumnSets>, scope: ColumnSets) returns (merged: Option<ColumnSets>)
    ensures Intersected(Ids(user), scope, Ids(merged))
  {
    if scope == map[] {
      return user;
    }
    if user.None? {
      return Some(scope);
    }
    var sets := user.value;
    var rest := scope.Keys;
    while rest != {}
      invariant rest <= scope.Keys
      invariant Intersected(user.value, map col | col in scope && col !in rest :: scope[col], sets)
      decreases rest
    {
      var col :| col in rest;
      rest := rest - {col};
      sets := sets[col := if col in sets then sets[col] * scope[col] else scope[col]];
    }
    assert (map col | col in scope && col !in rest :: scope[col]) == scope;
    merged := Some(sets);
  }

  lemma IntersectedAdmitsBoth(user: ColumnSets, scope: ColumnSets, merged: ColumnSets, fact: Record)
    requires Intersected(user, scope, merged)
    ensures Admits(merged, fact) <==> Admits(user, fact) && Admits(scope, fact)
  {
    assert forall col | col in user || col in scope :: col in merged;
  }

  // ---------------------------------------------------------------------
  // All scenarios of a request
  // ---------------------------------------------------------------------

  datatype Entry = Entry(scenario: string, scope: Option<ScopeSpec>)

  /** The filters in effect for one scenario. */
  ghost predicate EffectiveFor(c: Context, user: Option<ColumnSets>, scope: Option<ScopeSpec>,
          effective: Option<ColumnSets>)
  {
    if scope.None? || scope.value.dimensions.None? then Ids(effective) == Ids(user)
    else
      exists allow, deny, filters :: FromLists(c, scope.value.dimensions.value, allow, deny, filters)
        && Intersected(Ids(user), filters, Ids(effective))
  }

  method EffectiveFilters(c: Context, inline: set<string>, domain: string, user: Option<ColumnSets>,
          scope: Option<ScopeSpec>)
    returns (effective: Result<Option<ColumnSets>, ScopeError>)
    ensures effective.Ok? <==> ScopeAccepted(c, inline, domain, scope)
    ensures effective.Ok? ==> EffectiveFor(c, user, scope, effective.value)
    ensures effective.Err? ==> !effective.error.Inconsistent? && !effective.error.NoScenarios?
    ensures effective == Err(DomainDenied) <==> DeniesDomain(scope, domain) || OmitsDomain(scope, domain)
  {
    if scope.None? {
      return Ok(user);
    }
    if !PermitsDomain(scope.value, domain) {
      return Err(DomainDenied);
    }
    var filters, allow, deny := ResolveScopeFilters(c, inline, scope);
    if filters.Err? {
      return Err(filters.error);
    }
    var merged := MergeDimensionFilters(user, filters.value);
    if scope.value.dimensions.None? {
      assert Ids(merged) == Ids(user);
    } else {
      assert FromLists(c, scope.value.dimensions.value, allow, deny, filters.value);
    }
    effective := Ok(merged);
  }

  /** The scope grants the domain and its keys resolve. */
  ghost predicate ScopeAccepted(c: Context, inline: set<string>, domain: string, scope: Option<ScopeSpec>)
  {
    scope.Some? ==>
      && PermitsDomain(scope.value, domain)
      && (scope.value.dimensions.Some? ==>
        ScopedKeys(scope.value.dimensions.value) * inline == {} && ScopeResolves(c, scope.value.dimensions.value))
  }

  /** Every scenario's scope is accepted, and the given filters are in effect for all of them. */
  ghost predicate AgreedBy(c: Context, inline: set<string>, domain: string, user: Option<ColumnSets>,
          entries: seq<Entry>, sets: ColumnSets)
  {
    forall e | e in entries :: ScopeAccepted(c, inline, domain, e.scope)
      && exists effective :: EffectiveFor(c, user, e.scope, effective) && Ids(effective) == sets
  }

  ghost predicate AllAccepted(c: Context, inline: set<string>, domain: string, entries: seq<Entry>)
  {
    forall e | e in entries :: ScopeAccepted(c, inline, domain, e.scope)
  }

  ghost predicate InEffect(c: Context, inline: set<string>, domain: string, user: Option<ColumnSets>, e: Entry,
          effective: Option<ColumnSets>)
  {
    ScopeAccepted(c, inline, domain, e.scope) && EffectiveFor(c, user, e.scope, effective)
  }

  /** Two scenarios have different filters in effect. */
  ghost predicate Disagree(c: Context, inline: set<string>, domain: string, user: Option<ColumnSets>,
          entries: seq<Entry>)
  {
    exists d, e, a, b :: d in entries && e in entries && InEffect(c, inline, domain, user, d, a)
      && InEffect(c, inline, domain, user, e, b) && Ids(a) != Ids(b)
  }

  function Normalised(all: seq<Option<ColumnSets>>): set<ColumnSets>
  {
    set i | 0 <= i < |all| :: Ids(all[i])
  }

  /** One filter set for all scenarios, or the reason there is none. */
  method EnforceCrossScenarioScope(c: Context, inline: set<string>, domain: string, user: Option<ColumnSets>,
          entries: seq<Entry>)
    returns (result: Result<Option<ColumnSets>, ScopeError>)
    ensures result.Ok? ==> entries != [] && AgreedBy(c, inline, domain, user, entries, Ids(result.value))
    ensures !AllAccepted(c, inline, domain, entries) ==> result.Err?
    ensures result == Err(Inconsistent) ==> Disagree(c, inline, domain, user, entries)
    ensures entries == [] ==> result == Err(NoScenarios)
    ensures (exists e :: e in entries && (DeniesDomain(e.scope, domain) || OmitsDomain(e.scope, domain))) ==>
      result.Err?
    ensures result == Err(DomainDenied) ==>
      exists e :: e in entries && (DeniesDomain(e.scope, domain) || OmitsDomain(e.scope, domain))
    ensures result.Err? ==>
      entries == [] || !AllAccepted(c, inline, domain, entries) || Disagree(c, inline, domain, user, entries)
    ensures (forall e | e in entries :: SoundEntry(c, e.scope)) ==> (result.Ok? <==>
      entries != [] && AllAccepted(c, inline, domain, entries) && !Disagree(c, inline, domain, user, entries))
  {
    var all: seq<Option<ColumnSets>> := [];
    for i := 0 to |entries|
      invariant |all| == i
      invariant forall j | 0 <= j < i :: InEffect(c, inline, domain, user, entries[j], all[j])
    {
      var effective := EffectiveFilters(c, inline, domain, user, entries[i].scope);
      if effective.Err? {
        assert entries[i] in entries;
        return Err(effective.error);
      }
      all := all + [effective.value];
    }
    if entries == [] {
      return Err(NoScenarios);
    }
    var unique := Normalised(all);
    if |unique| > 1 {
      SomeDisagree(c, inline, domain, user, entries, all);
      return Err(Inconsistent);
    }
    AllAgree(c, inline, domain, user, entries, all);
    result := Ok(all[0]);
    if forall e | e in entries :: SoundEntry(c, e.scope) {
      AgreedDoNotDisagree(c, inline, domain, user, entries, Ids(all[0]));
    }
  }

  ghost predicate EachInEffect(c: Context, inline: set<string>, domain: string, user: Option<ColumnSets>,
          entries: seq<Entry>, all: seq<Option<ColumnSets>>)
  {
    |all| == |entries| && forall j | 0 <= j < |all| :: InEffect(c, inline, domain, user, entries[j], all[j])
  }

  lemma SomeDisagree(c: Context, inline: set<string>, domain: string, user: Option<ColumnSets>, entries: seq<Entry>,
          all: seq<Option<ColumnSets>>)
    requires EachInEffect(c, inline, domain, user, entries, all) && |Normalised(all)| > 1
    ensures Disagree(c, inline, domain, user, entries)
  {
    assert all != [];
    TwoElements(Normalised(all), Ids(all[0]));
    var other :| other in Normalised(all) && other != Ids(all[0]);
    var j :| 0 <= j < |all| && Ids(all[j]) == other;
    assert entries[0] in entries && entries[j] in entries;
  }

  lemma AllAgree(c: Context, inline: set<string>, domain: string, user: Option<ColumnSets>, entries: seq<Entry>,
          all: seq<Option<ColumnSets>>)
    requires EachInEffect(c, inline, domain, user, entries, all) && entries != [] && |Normalised(all)| <= 1
    ensures AgreedBy(c, inline, domain, user, entries, Ids(all[0]))
  {
    forall e | e in entries
      ensures ScopeAccepted(c, inline, domain, e.scope)
      ensures exists effective :: EffectiveFor(c, user, e.scope, effective) && Ids(effective) == Ids(all[0])
    {
      var j :| 0 <= j < |entries| && entries[j] == e;
      OneElement(Normalised(all), Ids(all[j]), Ids(all[0]));
      assert InEffect(c, inline, domain, user, entries[j], all[j]);
    }
  }

  /** The same lists give the same columns. */
  lemma SameListsSameColumns(c: Context, d: DimensionScope, allow: LeafSets, deny: LeafSets, result: ColumnSets,
          allow': LeafSets, deny': LeafSets, result': ColumnSets)
    requires ScopeSound(c, d) && FromLists(c, d, allow, deny, result) && FromLists(c, d, allow', deny', result')
    ensures result == result'
  {
    SameLeafSets(c, Flat(d.allow), allow, allow');
    SameLeafSets(c, Flat(d.deny), deny, deny');
    ColumnsWithin(c, d, allow, deny, result, result');
    ColumnsWithin(c, d, allow, deny, result', result);
  }

  lemma SameLeafSets(c: Context, fs: seq<Filter>, sets: LeafSets, sets': LeafSets)
    requires AreLeafSets(c, fs, sets) && AreLeafSets(c, fs, sets')
    ensures sets == sets'
  {
    assert sets.Keys == sets'.Keys;
    forall leaf | leaf in sets ensures sets[leaf] == sets'[leaf] {
      assert forall id :: id in sets[leaf] <==> id in sets'[leaf];
    }
  }

  lemma ColumnsWithin(c: Context, d: DimensionScope, allow: LeafSets, deny: LeafSets, result: ColumnSets,
          result': ColumnSets)
    requires ScopeSound(c, d) && FromLists(c, d, allow, deny, result) && FromLists(c, d, allow, deny, result')
    ensures forall column | column in result :: column in result' && result'[column] == result[column]
  {
    forall column | column in result ensures column in result' && result'[column] == result[column] {
      var leaf := ColumnOfValued(c, d, allow, deny, result, column);
      ValuedHasColumn(c, d, allow, deny, result', leaf);
    }
  }

  lemma SameColumnsSameMerge(user: ColumnSets, filters: ColumnSets, a: ColumnSets, b: ColumnSets)
    requires Intersected(user, filters, a) && Intersected(user, filters, b)
    ensures a == b
  {
  }

  lemma ScopeEffectIsUnique(c: Context, d: DimensionScope, user: ColumnSets, allow: LeafSets, deny: LeafSets,
          filters: ColumnSets, a: ColumnSets, allow': LeafSets, deny': LeafSets, filters': ColumnSets, b: ColumnSets)
    requires ScopeSound(c, d)
    requires FromLists(c, d, allow, deny, filters) && Intersected(user, filters, a)
    requires FromLists(c, d, allow', deny', filters') && Intersected(user, filters', b)
    ensures a == b
  {
    SameListsSameColumns(c, d, allow, deny, filters, allow', deny', filters');
    SameColumnsSameMerge(user, filters, a, b);
  }

  lemma EffectiveIsUnique(c: Context, user: Option<ColumnSets>, scope: Option<ScopeSpec>, a: Option<ColumnSets>,
          b: Option<ColumnSets>)
    requires SoundEntry(c, scope) && EffectiveFor(c, user, scope, a) && EffectiveFor(c, user, scope, b)
    ensures Ids(a) == Ids(b)
  {
    if scope.Some? && scope.value.dimensions.Some? {
      var d := scope.value.dimensions.value;
      var al, de, fs :| FromLists(c, d, al, de, fs) && Intersected(Ids(user), fs, Ids(a));
      var al', de', fs' :| FromLists(c, d, al', de', fs') && Intersected(Ids(user), fs', Ids(b));
      ScopeEffectIsUnique(c, d, Ids(user), al, de, fs, Ids(a), al', de', fs', Ids(b));
    }
  }

  lemma AgreedDoNotDisagree(c: Context, inline: set<string>, domain: string, user: Option<ColumnSets>,
          entries: seq<Entry>, sets: ColumnSets)
    requires AgreedBy(c, inline, domain, user, entries, sets)
    requires forall e | e in entries :: SoundEntry(c, e.scope)
    ensures !Disagree(c, inline, domain, user, entries)
  {
    forall e, a | e in entries && InEffect(c, inline, domain, user, e, a) ensures Ids(a) == sets {
      var effective :| EffectiveFor(c, user, e.scope, effective) && Ids(effective) == sets;
      EffectiveIsUnique(c, user, e.scope, a, effective);
    }
  }

  lemma TwoElements<T>(s: set<T>, a: T)
    requires |s| > 1 && a in s
    ensures exists b :: b in s && b != a
  {
    assert |s - {a}| == |s| - 1;
    var b :| b in s - {a};
  }

  lemma OneElement<T>(s: set<T>, a: T, b: T)
    requires |s| <= 1 && a in s && b in s
    ensures a == b
  {
    assert b == a || b in s - {a};
    assert s - {a} == {} by { assert |s - {a}| == |s| - 1; }
  }

  /** The scope restricts no dimension, or its lists are filled where it counts. */
  ghost predicate FilledEntry(c: Context, scope: Option<ScopeSpec>, user: ColumnSets)
  {
    scope.Some? && scope.value.dimensions.Some? ==> Filled(c, scope.value.dimensions.value, user)
  }

  ghost predicate SoundEntry(c: Context, scope: Option<ScopeSpec>)
  {
    scope.Some? && scope.value.dimensions.Some? ==> ScopeSound(c, scope.value.dimensions.value)
  }

  /** The sets admit a fact exactly when the user's filters admit it and the scope permits it. */
  ghost predicate ExactFor(c: Context, scope: Option<ScopeSpec>, user: ColumnSets, sets: ColumnSets)
  {
    forall fact :: Admits(sets, fact) <==> Admits(user, fact) && PermitsFact(c, scope, fact)
  }

  lemma ExactForDimensions(c: Context, scope: Option<ScopeSpec>, user: ColumnSets, sets: ColumnSets)
    requires scope.Some? && scope.value.dimensions.Some?
    ensures ExactFor(c, scope, user, sets) <==> ExactScope(c, scope.value.dimensions.value, user, sets)
  {
    forall fact ensures PermitsFact(c, scope, fact) == Permits(c, scope.value.dimensions.value, fact) {
    }
  }

  lemma EffectiveExactIff(c: Context, user: Option<ColumnSets>, scope: Option<ScopeSpec>, effective: Option<ColumnSets>)
    requires SoundEntry(c, scope) && EffectiveFor(c, user, scope, effective)
    ensures ExactFor(c, scope, Ids(user), Ids(effective)) <==>
      FilledEntry(c, scope, Ids(user)) || SomeEmpty(Ids(effective))
  {
    if scope.Some? && scope.value.dimensions.Some? {
      var d := scope.value.dimensions.value;
      var allow, deny, filters :| FromLists(c, d, allow, deny, filters)
        && Intersected(Ids(user), filters, Ids(effective));
      MergedScopeExactIff(c, d, allow, deny, filters, Ids(user), Ids(effective));
      ExactForDimensions(c, scope, Ids(user), Ids(effective));
    } else {
      assert Ids(effective) == Ids(user) && ExactFor(c, scope, Ids(user), Ids(effective));
    }
  }

  /**
   * A filter set that is returned admits a fact exactly when the user's filters admit it and
   * the scope of the scenario permits it, for all facts, if and only if the scenario's lists
   * are filled where it counts or the set admits nothing.
   */
  lemma EnforcementIsExact(c: Context, inline: set<string>, domain: string, user: Option<ColumnSets>,
          entries: seq<Entry>, sets: ColumnSets, e: Entry)
    requires AgreedBy(c, inline, domain, user, entries, sets) && e in entries && SoundEntry(c, e.scope)
    ensures ExactFor(c, e.scope, Ids(user), sets) <==> FilledEntry(c, e.scope, Ids(user)) || SomeEmpty(sets)
    ensures !DeniesDomain(e.scope, domain) && !OmitsDomain(e.scope, domain)
  {
    assert ScopeAccepted(c, inline, domain, e.scope);
    var effective :| EffectiveFor(c, user, e.scope, effective) && Ids(effective) == sets;
    EffectiveExactIff(c, user, e.scope, effective);
  }

  /** An allow list without values restricts nothing, though its key is mentioned and no member is named. */
  lemma EmptyAllowListIsIgnored(c: Context, key: string, leaf: string, allow: LeafSets, deny: LeafSets,
          result: ColumnSets, fact: Record)
    requires LeafOfKey(c, key) == Some(leaf)
    requires FromLists(c, DimensionScope([Listing(key, [])], []), allow, deny, result)
    ensures Admits(result, fact) && !Permits(c, DimensionScope([Listing(key, [])], []), fact)
  {
    var list := [Listing(key, [])];
    assert list[..0] == [] && Flat(list) == [];
    assert forall l :: !Covered(c, [], l);
    assert allow.Keys + deny.Keys == {};
    assert forall column, ids :: !IsEffective(c, allow, deny, {}, column, ids);
    assert list[0] in list && Mentions(c, list, leaf);
  }
}
