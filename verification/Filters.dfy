/**
 * Dimension filters at any level of a hierarchy, resolved to sets of leaf members keyed by the
 * columns of a domain's view.
 */
module Filters {
  import opened Collections
  import opened Wrappers
  import Graphs
  import opened Hierarchy
  import opened Breakdowns

  type Record = map<string, string>

  type Tables = map<string, seq<Record>>

  datatype FilterError = UnknownKey | NoStrategy | NoResolution | NoRecords

  /** Members of a leaf dimension. */
  datatype Members = Members(leaf: string, ids: set<string>)

  datatype Filter = Filter(key: string, value: string)

  /** The filters of one request resolve against one snapshot. */
  datatype Context = Context(dims: Dimensions, transitive: Closure, tables: Tables, cubes: seq<Cube>)

  // ---------------------------------------------------------------------
  // One filter
  // ---------------------------------------------------------------------

  predicate Has(r: Record, column: string, value: string)
  {
    column in r && r[column] == value
  }

  function Rows(tables: Tables, table: string): seq<Record>
  {
    if table in tables then tables[table] else []
  }

  /** The distinct values of a column in the rows where another column has a value. */
  function Select(rows: seq<Record>, wanted: string, column: string, value: string): set<string>
  {
    set r | r in rows && Has(r, column, value) && wanted in r :: r[wanted]
  }

  function RollupView(d: Dimension, key: string): string
  {
    if d.providedView.Some? && d.providedView.value != "" then d.providedView.value
    else "semantic.dim_" + d.leafDimension + "_" + key + "_rollup"
  }

  /** A ragged hierarchy is read from the view provided for it, or from one named after the leaf and itself. */
  lemma ViewProvidedOrNamed(d: Dimension, key: string, name: string)
    requires name != ""
    ensures RollupView(d.(providedView := Some(name)), key) == name
    ensures RollupView(d.(providedView := None), key) == RollupView(d.(providedView := Some("")), key)
    ensures RollupView(d.(providedView := None), key) == "semantic.dim_" + d.leafDimension + "_" + key + "_rollup"
  {
  }

  function ResolutionFor(rs: seq<Resolution>, leaf: string): Option<Resolution>
  {
    if rs == [] then None else if rs[0].leaf == leaf then Some(rs[0]) else ResolutionFor(rs[1..], leaf)
  }

  function TransitiveOf(c: Context, key: string): seq<Resolution>
  {
    if key in c.transitive then c.transitive[key] else []
  }

  function ResolveMembers(c: Context, f: Filter): Result<Members, FilterError>
  {
    if f.key !in c.dims then Err(UnknownKey)
    else
      var d := c.dims[f.key];
      if d.source.Some? then
        var s := d.source.value;
        Ok(Members(f.key, Select(Rows(c.tables, s.table), s.keyColumn, s.keyColumn, f.value)))
      else if d.derived then
        var rs := TransitiveOf(c, f.key);
        if rs == [] then Err(NoResolution)
        else
          var rows := Rows(c.tables, rs[0].source.table);
          Ok(Members(rs[0].leaf, Select(rows, rs[0].source.keyColumn, rs[0].column, f.value)))
      else if d.ragged then
        if d.leafDimension == "" then Err(NoResolution)
        else
          var r := ResolutionFor(TransitiveOf(c, f.key), d.leafDimension);
          if r.None? then Err(NoResolution)
          else
            var rows := Rows(c.tables, RollupView(d, f.key));
            Ok(Members(d.leafDimension, Select(rows, r.value.source.keyColumn, "node_id", f.value)))
      else Err(NoStrategy)
  }

  /** As ResolveMembers, and an error when nothing matches. */
  function ResolveSingleValue(c: Context, f: Filter): Result<Members, FilterError>
  {
    var m := ResolveMembers(c, f);
    if m.Ok? && m.value.ids == {} then Err(NoRecords) else m
  }

  // ---------------------------------------------------------------------
  // What a filter means
  // ---------------------------------------------------------------------

  /** A row of the table holds the member with the value in the column. */
  predicate HasRow(tables: Tables, table: string, keyColumn: string, id: string, column: string, value: string)
  {
    exists r :: r in Rows(tables, table) && Has(r, keyColumn, id) && Has(r, column, value)
  }

  /**
   * The member of the leaf dimension satisfies the filter: it is the value itself, it has the
   * value in a column that a parent link above it declares, or the rollup view puts it under
   * the value.
   */
  ghost predicate Satisfies(c: Context, f: Filter, leaf: string, id: string)
  {
    && f.key in c.dims && IsLeaf(c.dims, leaf)
    && var d := c.dims[f.key];
       var s := c.dims[leaf].source.value;
       if d.source.Some? then
         leaf == f.key && id == f.value && HasRow(c.tables, s.table, s.keyColumn, id, s.keyColumn, f.value)
       else if d.derived then
         exists column :: LinkColumn(c.dims, leaf, Link(f.key, column))
           && HasRow(c.tables, s.table, s.keyColumn, id, column, f.value)
       else
         RaggedOver(c.dims, f.key, leaf) && HasRow(c.tables, RollupView(d, f.key), s.keyColumn, id, "node_id", f.value)
  }

  /** A dimension that is not a leaf lies above one leaf only, by links that agree on the column. */
  ghost predicate OneLeaf(c: Context, key: string)
  {
    key in c.dims && c.dims[key].source.None? ==>
      && (forall a, b | LeafBelow(c.dims, key, a) && LeafBelow(c.dims, key, b) :: a == b)
      && (c.dims[key].derived ==> !c.dims[key].ragged)
      && (forall leaf, a, b | LinkColumn(c.dims, leaf, Link(key, a)) && LinkColumn(c.dims, leaf, Link(key, b))
        && IsLeaf(c.dims, leaf) :: a == b)
  }

  lemma {:induction false} ResolutionForIs(rs: seq<Resolution>, leaf: string)
    ensures ResolutionFor(rs, leaf).Some? <==> leaf in LeavesOf(rs)
    ensures ResolutionFor(rs, leaf).Some? ==>
      ResolutionFor(rs, leaf).value in rs && ResolutionFor(rs, leaf).value.leaf == leaf
  {
    if rs != [] {
      ResolutionForIs(rs[1..], leaf);
      if leaf in LeavesOf(rs) {
        var r :| r in rs && r.leaf == leaf;
        assert r == rs[0] || r in rs[1..];
      }
    }
  }

  lemma SelectIsHasRow(tables: Tables, table: string, keyColumn: string, id: string, column: string, value: string)
    ensures id in Select(Rows(tables, table), keyColumn, column, value) <==>
      HasRow(tables, table, keyColumn, id, column, value)
  {
  }

  /** The members found are exactly those that satisfy the filter. */
  lemma MembersSatisfy(c: Context, f: Filter, id: string)
    requires IsClosure(c.dims, c.transitive) && OneLeaf(c, f.key) && ResolveMembers(c, f).Ok?
    ensures var m := ResolveMembers(c, f).value;
      IsLeaf(c.dims, m.leaf) && (id in m.ids <==> Satisfies(c, f, m.leaf, id))
  {
    var d, m := c.dims[f.key], ResolveMembers(c, f).value;
    var rs := TransitiveOf(c, f.key);
    assert Closed(c.dims, f.key, rs);
    if d.source.Some? {
      SelectIsHasRow(c.tables, d.source.value.table, d.source.value.keyColumn, id, d.source.value.keyColumn, f.value);
    } else if d.derived {
      assert rs[0] in rs && Resolves(c.dims, f.key, rs[0]);
      SelectIsHasRow(c.tables, rs[0].source.table, rs[0].source.keyColumn, id, rs[0].column, f.value);
    } else {
      ResolutionForIs(rs, d.leafDimension);
      SelectIsHasRow(c.tables, RollupView(d, f.key), c.dims[m.leaf].source.value.keyColumn, id, "node_id", f.value);
    }
  }

  /** A filter fails when its key is unknown or reaches no leaf, or when no member satisfies it. */
  lemma FailsIffNothingSatisfies(c: Context, f: Filter)
    requires IsClosure(c.dims, c.transitive) && OneLeaf(c, f.key)
    ensures ResolveSingleValue(c, f).Err? <==> forall leaf, id :: !Satisfies(c, f, leaf, id)
  {
    if ResolveMembers(c, f).Ok? {
      var m := ResolveMembers(c, f).value;
      forall leaf, id
        ensures Satisfies(c, f, leaf, id) ==> leaf == m.leaf && id in m.ids
      {
        MembersSatisfy(c, f, id);
        if Satisfies(c, f, leaf, id) { SatisfiedLeaf(c, f, leaf, id); }
      }
      if m.ids != {} {
        var id :| id in m.ids;
        MembersSatisfy(c, f, id);
      }
    } else {
      forall leaf, id ensures !Satisfies(c, f, leaf, id) {
        if Satisfies(c, f, leaf, id) { SatisfiedLeaf(c, f, leaf, id); }
      }
    }
  }

  /** The leaf of a satisfying member is the one the filter resolves to. */
  lemma SatisfiedLeaf(c: Context, f: Filter, leaf: string, id: string)
    requires IsClosure(c.dims, c.transitive) && OneLeaf(c, f.key) && Satisfies(c, f, leaf, id)
    ensures ResolveMembers(c, f).Ok? && leaf == ResolveMembers(c, f).value.leaf
  {
    var d, rs := c.dims[f.key], TransitiveOf(c, f.key);
    assert Closed(c.dims, f.key, rs);
    if d.source.Some? {
    } else if d.derived {
      var column :| LinkColumn(c.dims, leaf, Link(f.key, column));
      LinkIsAncestor(c.dims, leaf, Link(f.key, column));
      assert LeafBelow(c.dims, f.key, leaf);
      assert leaf in LeavesOf(rs);
      assert rs[0].leaf in LeavesOf(rs) by { assert rs[0] in rs; }
      assert LeafBelow(c.dims, f.key, rs[0].leaf);
    } else {
      ResolutionForIs(rs, d.leafDimension);
    }
  }

  lemma LinkIsAncestor(dims: Dimensions, leaf: string, l: Link)
    requires LinkColumn(dims, leaf, l)
    ensures Ancestor(dims, leaf, l.parent)
  {
    var c :| c in dims && Graphs.Reaches(ParentGraph(dims), leaf, c) && l in dims[c].links;
    assert l.parent in ParentKeys(dims[c].links);
  }

  // ---------------------------------------------------------------------
  // All filters of a request
  // ---------------------------------------------------------------------

  type ColumnSets = map<string, set<string>>

  function FirstCube(cubes: seq<Cube>, key: string): Option<string>
  {
    if cubes == [] then None else if cubes[0].key == key then Some(cubes[0].column) else FirstCube(cubes[1..], key)
  }

  /** The view column of the leaf dimension that a filter key resolves to. */
  function MapToViewColumn(c: Context, key: string): string
  {
    var d := if key in c.dims then Some(c.dims[key]) else None;
    var rs := TransitiveOf(c, key);
    var lookup :=
      if d.Some? && d.value.source.None? && (d.value.derived || d.value.ragged) then
        if rs != [] then rs[0].leaf else if d.value.ragged then d.value.leafDimension else key
      else key;
    ColumnOf(c, lookup)
  }

  function ColumnOf(c: Context, leaf: string): string
  {
    var bound := FirstCube(c.cubes, leaf);
    if bound.Some? then bound.value
    else if IsLeaf(c.dims, leaf) then c.dims[leaf].source.value.keyColumn
    else leaf
  }

  /** A binding of its own for each dimension. */
  ghost predicate BoundOnce(cubes: seq<Cube>)
  {
    forall i, j | 0 <= i < j < |cubes| :: cubes[i].key != cubes[j].key
  }

  lemma {:induction false} FirstCubeIs(cubes: seq<Cube>, key: string)
    ensures FirstCube(cubes, key).Some? <==> exists c :: c in cubes && c.key == key
    ensures FirstCube(cubes, key).Some? ==> Cube(key, FirstCube(cubes, key).value) in cubes
  {
    if cubes != [] {
      FirstCubeIs(cubes[1..], key);
      assert forall c :: c in cubes <==> c == cubes[0] || c in cubes[1..];
    }
  }

  /**
   * A filter restricts the very fact column that a breakdown by the same leaf reads: the one the
   * leaf is bound to.  Without a binding it is the key column of the leaf's own table.
   */
  lemma FilterAndBreakdownAgree(c: Context, leaf: string)
    requires BoundOnce(c.cubes)
    ensures leaf in Bound(c.cubes) ==> ColumnOf(c, leaf) == Bound(c.cubes)[leaf]
    ensures forall b | b in c.cubes && b.key == leaf :: ColumnOf(c, leaf) == b.column
    ensures IsLeaf(c.dims, leaf) && (forall b | b in c.cubes :: b.key != leaf) ==>
      ColumnOf(c, leaf) == c.dims[leaf].source.value.keyColumn
  {
    BoundAre(c.cubes);
    FirstCubeIs(c.cubes, leaf);
    forall b | b in c.cubes && b.key == leaf ensures ColumnOf(c, leaf) == b.column {
      var i :| 0 <= i < |c.cubes| && c.cubes[i] == b;
      var j :| 0 <= j < |c.cubes| && c.cubes[j] == Cube(leaf, FirstCube(c.cubes, leaf).value);
      assert i == j;
    }
    if leaf in Bound(c.cubes) {
      assert Cube(leaf, Bound(c.cubes)[leaf]) in c.cubes;
    }
  }

  /** The leaf dimensions of the filters, by first appearance. */
  function LeafKeys(c: Context, fs: seq<Filter>): seq<string>
    requires forall f | f in fs :: ResolveSingleValue(c, f).Ok?
  {
    if fs == [] then []
    else
      assert forall f | f in fs[..|fs| - 1] :: f in fs;
      var rest := LeafKeys(c, fs[..|fs| - 1]);
      var leaf := ResolveSingleValue(c, fs[|fs| - 1]).value.leaf;
      if leaf in rest then rest else rest + [leaf]
  }

  lemma {:induction false} LeafKeysAre(c: Context, fs: seq<Filter>)
    requires forall f | f in fs :: ResolveSingleValue(c, f).Ok?
    ensures Distinct(LeafKeys(c, fs))
    ensures forall leaf :: leaf in LeafKeys(c, fs) <==>
      exists f :: f in fs && ResolveSingleValue(c, f).value.leaf == leaf
  {
    if fs != [] {
      assert fs == fs[..|fs| - 1] + [fs[|fs| - 1]];
      LeafKeysAre(c, fs[..|fs| - 1]);
    }
  }

  /** The member is in the members of every filter of the leaf. */
  predicate InAll(c: Context, fs: seq<Filter>, leaf: string, id: string)
  {
    forall f | f in fs && ResolveSingleValue(c, f).Ok? && ResolveSingleValue(c, f).value.leaf == leaf ::
      id in ResolveSingleValue(c, f).value.ids
  }

  /** Some sets stand for the filters of a leaf: their common members are the members of all. */
  ghost predicate StandFor(c: Context, fs: seq<Filter>, leaf: string, sets: seq<set<string>>)
  {
    forall id :: InAll(c, fs, leaf, id) <==> forall s | s in sets :: id in s
  }

  /** The first filter of each leaf maps to its column. */
  ghost predicate Gathered(c: Context, fs: seq<Filter>, order: seq<string>, leafSets: map<string, seq<set<string>>>,
          mapping: map<string, string>)
    requires forall f | f in fs :: ResolveSingleValue(c, f).Ok?
  {
    && order == LeafKeys(c, fs)
    && (forall leaf :: leaf in leafSets <==> leaf in order)
    && (forall leaf :: leaf in mapping <==> leaf in order)
    && (forall leaf | leaf in leafSets :: leafSets[leaf] != [] && StandFor(c, fs, leaf, leafSets[leaf]))
    && (forall leaf | leaf in mapping :: IsFilterOf(c, fs, mapping[leaf], leaf))
  }

  ghost predicate IsFilterOf(c: Context, fs: seq<Filter>, key: string, leaf: string)
  {
    exists f :: f in fs && f.key == key && ResolveSingleValue(c, f).Ok? && ResolveSingleValue(c, f).value.leaf == leaf
  }

  lemma MoreStand(c: Context, fs: seq<Filter>, f: Filter, leaf: string, sets: seq<set<string>>)
    requires ResolveSingleValue(c, f).Ok? && StandFor(c, fs, leaf, sets)
    ensures
      var m := ResolveSingleValue(c, f).value;
      StandFor(c, fs + [f], leaf, if m.leaf == leaf then sets + [m.ids] else sets)
  {
    var m := ResolveSingleValue(c, f).value;
    forall id
      ensures InAll(c, fs + [f], leaf, id) <==> InAll(c, fs, leaf, id) && (m.leaf == leaf ==> id in m.ids)
    {
      assert f in fs + [f];
      assert forall g | g in fs :: g in fs + [f];
    }
  }

  lemma NoneStand(c: Context, fs: seq<Filter>, leaf: string)
    requires forall f | f in fs :: ResolveSingleValue(c, f).Ok?
    requires leaf !in LeafKeys(c, fs)
    ensures StandFor(c, fs, leaf, [])
  {
    LeafKeysAre(c, fs);
  }

  method Gather(c: Context, ghost fs: seq<Filter>, f: Filter, order0: seq<string>, sets0: map<string, seq<set<string>>>,
          mapping0: map<string, string>)
    returns (order: seq<string>, leafSets: map<string, seq<set<string>>>, mapping: map<string, string>)
    requires forall g | g in fs :: ResolveSingleValue(c, g).Ok?
    requires ResolveSingleValue(c, f).Ok? && Gathered(c, fs, order0, sets0, mapping0)
    ensures (forall g | g in fs + [f] :: ResolveSingleValue(c, g).Ok?)
      && Gathered(c, fs + [f], order, leafSets, mapping)
  {
    var m := ResolveSingleValue(c, f).value;
    order, leafSets, mapping := order0, sets0, mapping0;
    if m.leaf !in mapping {
      NoneStand(c, fs, m.leaf);
      mapping := mapping[m.leaf := f.key];
      order := order + [m.leaf];
    }
    if m.leaf !in leafSets {
      leafSets := leafSets[m.leaf := []];
    }
    leafSets := leafSets[m.leaf := leafSets[m.leaf] + [m.ids]];
    assert (fs + [f])[..|fs|] == fs;
    forall leaf | leaf in leafSets
      ensures leafSets[leaf] != [] && StandFor(c, fs + [f], leaf, leafSets[leaf])
    {
      if leaf in sets0 { MoreStand(c, fs, f, leaf, sets0[leaf]); } else { MoreStand(c, fs, f, leaf, []); }
    }
    forall leaf | leaf in mapping
      ensures IsFilterOf(c, fs + [f], mapping[leaf], leaf)
    {
      if leaf in mapping0 {
        assert IsFilterOf(c, fs, mapping0[leaf], leaf);
        var g :| g in fs && g.key == mapping0[leaf] && ResolveSingleValue(c, g).Ok?
          && ResolveSingleValue(c, g).value.leaf == leaf;
        assert g in fs + [f];
      } else {
        assert f in fs + [f];
      }
    }
  }

  method Intersect(sets: seq<set<string>>) returns (common: set<string>)
    requires sets != []
    ensures forall id :: id in common <==> forall s | s in sets :: id in s
  {
    common := sets[0];
    for i := 1 to |sets|
      invariant forall id :: id in common <==> forall s | s in sets[..i] :: id in s
    {
      assert sets[..i + 1] == sets[..i] + [sets[i]];
      common := common * sets[i];
    }
    assert sets[..|sets|] == sets;
  }

  /** The view column of a leaf is that of some filter on it. */
  ghost predicate IsColumnFor(c: Context, fs: seq<Filter>, leaf: string, column: string)
  {
    exists key :: IsFilterOf(c, fs, key, leaf) && MapToViewColumn(c, key) == column
  }

  ghost predicate IsCommon(c: Context, fs: seq<Filter>, leaf: string, ids: set<string>)
  {
    forall id :: id in ids <==> InAll(c, fs, leaf, id)
  }

  /** Some columns and sets: each the common members of a leaf, and no leaf missing unless a later took its column. */
  ghost predicate Resolved(c: Context, fs: seq<Filter>, leaves: seq<string>, columns: seq<string>, result: ColumnSets)
  {
    && |columns| == |leaves| && result.Keys == Elements(columns)
    && (forall i | 0 <= i < |leaves| :: IsColumnFor(c, fs, leaves[i], columns[i]))
    && (forall i {:trigger IsLast(columns, i)} | 0 <= i < |leaves| && IsLast(columns, i) ::
      columns[i] in result && IsCommon(c, fs, leaves[i], result[columns[i]]))
  }

  method ResolveFilters(c: Context, fs: seq<Filter>)
    returns (result: Result<ColumnSets, FilterError>, ghost columns: seq<string>)
    ensures result.Ok? <==> forall f | f in fs :: ResolveSingleValue(c, f).Ok?
    ensures result.Err? ==> exists f :: f in fs && ResolveSingleValue(c, f) == Err(result.error)
    ensures result.Ok? ==> Resolved(c, fs, LeafKeys(c, fs), columns, result.value)
  {
    var order, leafSets, mapping := [], map[], map[];
    columns := [];
    for i := 0 to |fs|
      invariant forall f | f in fs[..i] :: ResolveSingleValue(c, f).Ok?
      invariant Gathered(c, fs[..i], order, leafSets, mapping)
    {
      assert fs[..i + 1] == fs[..i] + [fs[i]];
      if ResolveSingleValue(c, fs[i]).Err? {
        assert fs[i] in fs;
        return Err(ResolveSingleValue(c, fs[i]).error), [];
      }
      order, leafSets, mapping := Gather(c, fs[..i], fs[i], order, leafSets, mapping);
    }
    assert fs[..|fs|] == fs;
    var found;
    found, columns := MapSets(c, fs, order, leafSets, mapping);
    result := Ok(found);
  }

  method MapSets(c: Context, fs: seq<Filter>, order: seq<string>, leafSets: map<string, seq<set<string>>>,
          mapping: map<string, string>)
    returns (result: ColumnSets, ghost columns: seq<string>)
    requires forall f | f in fs :: ResolveSingleValue(c, f).Ok?
    requires Gathered(c, fs, order, leafSets, mapping)
    ensures Resolved(c, fs, order, columns, result)
  {
    result, columns := map[], [];
    for i := 0 to |order|
      invariant Resolved(c, fs, order[..i], columns, result)
    {
      var leaf := order[i];
      var column, common := MapLeaf(c, fs, order, leafSets, mapping, leaf);
      ResolvedNext(c, fs, order, i, columns, result, column, common);
      result, columns := result[column := common], columns + [column];
    }
    assert order[..|order|] == order;
  }

  /** The column of one leaf and the members common to its filters. */
  method MapLeaf(c: Context, ghost fs: seq<Filter>, ghost order: seq<string>, leafSets: map<string, seq<set<string>>>,
          mapping: map<string, string>, leaf: string)
    returns (column: string, common: set<string>)
    requires forall f | f in fs :: ResolveSingleValue(c, f).Ok?
    requires Gathered(c, fs, order, leafSets, mapping) && leaf in order
    ensures IsColumnFor(c, fs, leaf, column) && IsCommon(c, fs, leaf, common)
  {
    assert leaf in leafSets && StandFor(c, fs, leaf, leafSets[leaf]) && IsFilterOf(c, fs, mapping[leaf], leaf);
    common := Intersect(leafSets[leaf]);
    column := MapToViewColumn(c, mapping[leaf]);
  }

  lemma ResolvedNext(c: Context, fs: seq<Filter>, order: seq<string>, i: nat, columns: seq<string>, result: ColumnSets,
          column: string, common: set<string>)
    requires i < |order| && Resolved(c, fs, order[..i], columns, result)
    requires IsColumnFor(c, fs, order[i], column) && IsCommon(c, fs, order[i], common)
    ensures Resolved(c, fs, order[..i + 1], columns + [column], result[column := common])
  {
    ResolvedStep(c, fs, order[..i], columns, result, order[i], column, common);
    assert order[..i + 1] == order[..i] + [order[i]];
  }

  lemma ResolvedStep(c: Context, fs: seq<Filter>, leaves: seq<string>, columns: seq<string>, result: ColumnSets,
          leaf: string, column: string, common: set<string>)
    requires Resolved(c, fs, leaves, columns, result) && IsColumnFor(c, fs, leaf, column)
    requires IsCommon(c, fs, leaf, common)
    ensures Resolved(c, fs, leaves + [leaf], columns + [column], result[column := common])
  {
    var all, after := columns + [column], result[column := common];
    assert Elements(all) == Elements(columns) + {column};
    forall i | 0 <= i < |all| && IsLast(all, i)
      ensures all[i] in after && IsCommon(c, fs, (leaves + [leaf])[i], after[all[i]])
    {
      if i < |columns| {
        assert all[|columns|] != all[i];
        assert IsLast(columns, i) by {
          assert forall j | i < j < |columns| :: all[j] == columns[j];
        }
      }
    }
  }

  // ---------------------------------------------------------------------
  // Exactness
  // ---------------------------------------------------------------------

  /** A fact row, by view column, passes the column sets. */
  predicate Admits(sets: ColumnSets, fact: Record)
  {
    forall column | column in sets :: column in fact && fact[column] in sets[column]
  }

  /** The fact's member of the filter's leaf satisfies the filter. */
  ghost predicate Meets(c: Context, f: Filter, fact: Record)
  {
    exists leaf :: ColumnOf(c, leaf) in fact && Satisfies(c, f, leaf, fact[ColumnOf(c, leaf)])
  }

  ghost predicate OwnColumns(c: Context, leaves: seq<string>)
  {
    forall a, b | a in leaves && b in leaves && ColumnOf(c, a) == ColumnOf(c, b) :: a == b
  }

  /** The snapshot holds the closure of its dimensions, and every filtered dimension has one leaf. */
  ghost predicate Sound(c: Context, fs: seq<Filter>)
  {
    IsClosure(c.dims, c.transitive) && forall f | f in fs :: OneLeaf(c, f.key)
  }

  lemma KeyColumnIsLeafColumn(c: Context, f: Filter)
    requires IsClosure(c.dims, c.transitive) && OneLeaf(c, f.key) && ResolveMembers(c, f).Ok?
    ensures MapToViewColumn(c, f.key) == ColumnOf(c, ResolveMembers(c, f).value.leaf)
  {
    var d, rs := c.dims[f.key], TransitiveOf(c, f.key);
    assert Closed(c.dims, f.key, rs);
    if d.source.None? && !d.derived {
      ResolutionForIs(rs, d.leafDimension);
      assert rs[0] in rs && rs[0].leaf in LeavesOf(rs);
    }
  }

  lemma ColumnsAreLeafColumns(c: Context, fs: seq<Filter>, leaf: string, column: string)
    requires Sound(c, fs) && IsColumnFor(c, fs, leaf, column)
    ensures column == ColumnOf(c, leaf)
  {
    var key :| IsFilterOf(c, fs, key, leaf) && MapToViewColumn(c, key) == column;
    var f :| f in fs && f.key == key && ResolveSingleValue(c, f).Ok? && ResolveSingleValue(c, f).value.leaf == leaf;
    KeyColumnIsLeafColumn(c, f);
  }

  lemma MeetsIffInAll(c: Context, f: Filter, fact: Record)
    requires IsClosure(c.dims, c.transitive) && OneLeaf(c, f.key) && ResolveSingleValue(c, f).Ok?
    requires ColumnOf(c, ResolveSingleValue(c, f).value.leaf) in fact
    ensures var m := ResolveSingleValue(c, f).value;
      Meets(c, f, fact) <==> fact[ColumnOf(c, m.leaf)] in m.ids
  {
    var m := ResolveSingleValue(c, f).value;
    MembersSatisfy(c, f, fact[ColumnOf(c, m.leaf)]);
    if leaf :| ColumnOf(c, leaf) in fact && Satisfies(c, f, leaf, fact[ColumnOf(c, leaf)]) {
      SatisfiedLeaf(c, f, leaf, fact[ColumnOf(c, leaf)]);
    }
  }

  /** With a column for each leaf, the result holds the common members of each leaf under its column. */
  lemma ResolvedHolds(c: Context, fs: seq<Filter>, columns: seq<string>, result: ColumnSets)
    requires Sound(c, fs) && forall f | f in fs :: ResolveSingleValue(c, f).Ok?
    requires OwnColumns(c, LeafKeys(c, fs)) && Resolved(c, fs, LeafKeys(c, fs), columns, result)
    ensures forall leaf | leaf in LeafKeys(c, fs) ::
      ColumnOf(c, leaf) in result && IsCommon(c, fs, leaf, result[ColumnOf(c, leaf)])
    ensures forall column | column in result :: exists leaf :: leaf in LeafKeys(c, fs) && ColumnOf(c, leaf) == column
  {
    var leaves := LeafKeys(c, fs);
    LeafKeysAre(c, fs);
    forall i | 0 <= i < |leaves| ensures columns[i] == ColumnOf(c, leaves[i]) {
      ColumnsAreLeafColumns(c, fs, leaves[i], columns[i]);
    }
    forall leaf | leaf in leaves
      ensures ColumnOf(c, leaf) in result && IsCommon(c, fs, leaf, result[ColumnOf(c, leaf)])
    {
      var i :| 0 <= i < |leaves| && leaves[i] == leaf;
      assert IsLast(columns, i) by {
        forall j | i < j < |columns| ensures columns[j] != columns[i] {
          assert leaves[i] in leaves && leaves[j] in leaves && leaves[i] != leaves[j];
        }
      }
    }
    forall column | column in result ensures exists leaf :: leaf in leaves && ColumnOf(c, leaf) == column {
      assert column in Elements(columns);
      var i :| 0 <= i < |columns| && columns[i] == column;
      assert leaves[i] in leaves;
    }
  }

  /** A fact row passes the resolved sets exactly when it meets every filter. */
  lemma ResolvedIsExact(c: Context, fs: seq<Filter>, columns: seq<string>, result: ColumnSets, fact: Record)
    requires Sound(c, fs) && forall f | f in fs :: ResolveSingleValue(c, f).Ok?
    requires OwnColumns(c, LeafKeys(c, fs)) && Resolved(c, fs, LeafKeys(c, fs), columns, result)
    requires forall leaf | leaf in LeafKeys(c, fs) :: ColumnOf(c, leaf) in fact
    ensures Admits(result, fact) <==> forall f | f in fs :: Meets(c, f, fact)
  {
    LeafKeysAre(c, fs);
    ResolvedHolds(c, fs, columns, result);
    forall f | f in fs
      ensures ResolveSingleValue(c, f).value.leaf in LeafKeys(c, fs)
      ensures Meets(c, f, fact) <==>
        fact[ColumnOf(c, ResolveSingleValue(c, f).value.leaf)] in ResolveSingleValue(c, f).value.ids
    {
      MeetsIffInAll(c, f, fact);
    }
    if Admits(result, fact) {
      forall f | f in fs ensures Meets(c, f, fact) {
        var leaf := ResolveSingleValue(c, f).value.leaf;
        assert InAll(c, fs, leaf, fact[ColumnOf(c, leaf)]);
      }
    }
    if forall f | f in fs :: Meets(c, f, fact) {
      forall column | column in result ensures column in fact && fact[column] in result[column] {
        var leaf :| leaf in LeafKeys(c, fs) && ColumnOf(c, leaf) == column;
        assert InAll(c, fs, leaf, fact[column]);
      }
    }
  }

  lemma TwoLeafKeys(c: Context, f: Filter, g: Filter)
    requires ResolveSingleValue(c, f).Ok? && ResolveSingleValue(c, g).Ok?
    requires ResolveSingleValue(c, f).value.leaf != ResolveSingleValue(c, g).value.leaf
    ensures LeafKeys(c, [f, g]) == [ResolveSingleValue(c, f).value.leaf, ResolveSingleValue(c, g).value.leaf]
  {
    assert [f, g][..1] == [f] && [f][..0] == [];
    assert LeafKeys(c, []) == [];
    assert LeafKeys(c, [f]) == [ResolveSingleValue(c, f).value.leaf];
  }

  lemma LastOfTwoIsCommon(c: Context, f: Filter, g: Filter, ids: set<string>)
    requires ResolveSingleValue(c, f).Ok? && ResolveSingleValue(c, g).Ok?
    requires ResolveSingleValue(c, f).value.leaf != ResolveSingleValue(c, g).value.leaf
    requires IsCommon(c, [f, g], ResolveSingleValue(c, g).value.leaf, ids)
    ensures ids == ResolveSingleValue(c, g).value.ids
  {
    var m := ResolveSingleValue(c, g).value;
    assert g in [f, g];
    forall id ensures id in ids <==> id in m.ids {
      assert InAll(c, [f, g], m.leaf, id) <==> id in m.ids;
    }
  }

  /** Two leaf dimensions on one column leave that column only, and the later takes it. */
  lemma SharedColumns(c: Context, f: Filter, g: Filter, columns: seq<string>, result: ColumnSets)
    requires Sound(c, [f, g]) && ResolveSingleValue(c, f).Ok? && ResolveSingleValue(c, g).Ok?
    requires
      var a, b := ResolveSingleValue(c, f).value.leaf, ResolveSingleValue(c, g).value.leaf;
      ColumnOf(c, a) == ColumnOf(c, b) && Resolved(c, [f, g], [a, b], columns, result)
    ensures |columns| == 2 && columns[1] == ColumnOf(c, ResolveSingleValue(c, g).value.leaf)
    ensures result.Keys == {columns[1]} && IsCommon(c, [f, g], ResolveSingleValue(c, g).value.leaf, result[columns[1]])
  {
    var a, b := ResolveSingleValue(c, f).value.leaf, ResolveSingleValue(c, g).value.leaf;
    assert IsColumnFor(c, [f, g], [a, b][0], columns[0]) && IsColumnFor(c, [f, g], [a, b][1], columns[1]);
    ColumnsAreLeafColumns(c, [f, g], a, columns[0]);
    ColumnsAreLeafColumns(c, [f, g], b, columns[1]);
    assert columns == [columns[0], columns[1]] && IsLast(columns, 1);
  }

  /** Two leaf dimensions on one column: the filter on the earlier is forgotten. */
  lemma SharedColumnForgetsFilter(c: Context, f: Filter, g: Filter, columns: seq<string>, result: ColumnSets)
    requires Sound(c, [f, g]) && ResolveSingleValue(c, f).Ok? && ResolveSingleValue(c, g).Ok?
    requires var a, b := ResolveSingleValue(c, f).value.leaf, ResolveSingleValue(c, g).value.leaf;
      a != b && ColumnOf(c, a) == ColumnOf(c, b)
    requires Resolved(c, [f, g], LeafKeys(c, [f, g]), columns, result)
    ensures var m := ResolveSingleValue(c, g).value; result == map[ColumnOf(c, m.leaf) := m.ids]
  {
    TwoLeafKeys(c, f, g);
    SharedColumns(c, f, g, columns, result);
    LastOfTwoIsCommon(c, f, g, result[columns[1]]);
  }

  // ---------------------------------------------------------------------
  // When filters are exact
  // ---------------------------------------------------------------------

  /** Every leaf dimension of the catalogue has a view column of its own. */
  ghost predicate LeavesHaveOwnColumns(c: Context)
  {
    forall a, b | IsLeaf(c.dims, a) && IsLeaf(c.dims, b) && ColumnOf(c, a) == ColumnOf(c, b) :: a == b
  }

  /** Sets that a successful resolution of the filters returns, and a fact row with their columns. */
  ghost predicate Returns(c: Context, fs: seq<Filter>, columns: seq<string>, result: ColumnSets, fact: Record)
  {
    && Sound(c, fs) && (forall f | f in fs :: ResolveSingleValue(c, f).Ok?)
    && Resolved(c, fs, LeafKeys(c, fs), columns, result)
    && (forall leaf | leaf in LeafKeys(c, fs) :: ColumnOf(c, leaf) in fact)
  }

  ghost predicate MeetsAll(c: Context, fs: seq<Filter>, fact: Record)
  {
    forall f | f in fs :: Meets(c, f, fact)
  }

  /** Over a catalogue, whatever its tables hold, filters let through exactly the facts that meet them. */
  ghost predicate AlwaysExact(dims: Dimensions, transitive: Closure, cubes: seq<Cube>)
  {
    forall tables, fs, columns, result, fact |
      Returns(Context(dims, transitive, tables, cubes), fs, columns, result, fact) ::
      Admits(result, fact) <==> MeetsAll(Context(dims, transitive, tables, cubes), fs, fact)
  }

  lemma OwnColumnsOfFilters(c: Context, fs: seq<Filter>)
    requires Sound(c, fs) && LeavesHaveOwnColumns(c) && forall f | f in fs :: ResolveSingleValue(c, f).Ok?
    ensures OwnColumns(c, LeafKeys(c, fs))
  {
    LeafKeysAre(c, fs);
    forall leaf | leaf in LeafKeys(c, fs) ensures IsLeaf(c.dims, leaf) {
      var f :| f in fs && ResolveSingleValue(c, f).value.leaf == leaf;
      MembersSatisfy(c, f, "");
    }
  }

  /** Two rows that hold "x" and "y" as members of both leaf dimensions. */
  function TwoMembers(a: Source, b: Source): Tables
  {
    var rows: seq<Record> := [map[a.keyColumn := "x", b.keyColumn := "x"], map[a.keyColumn := "y", b.keyColumn := "y"]];
    map[a.table := rows, b.table := rows]
  }

  function TwoMembersContext(dims: Dimensions, transitive: Closure, cubes: seq<Cube>, a: string, b: string): Context
    requires IsLeaf(dims, a) && IsLeaf(dims, b)
  {
    Context(dims, transitive, TwoMembers(dims[a].source.value, dims[b].source.value), cubes)
  }

  lemma OneMemberResolves(dims: Dimensions, transitive: Closure, cubes: seq<Cube>, a: string, b: string, leaf: string,
          value: string)
    requires IsLeaf(dims, a) && IsLeaf(dims, b) && (leaf == a || leaf == b) && (value == "x" || value == "y")
    ensures ResolveSingleValue(TwoMembersContext(dims, transitive, cubes, a, b), Filter(leaf, value)) ==
      Ok(Members(leaf, {value}))
  {
    var s := dims[leaf].source.value;
    var rows := TwoMembers(dims[a].source.value, dims[b].source.value)[s.table];
    assert Has(rows[0], s.keyColumn, "x") && Has(rows[1], s.keyColumn, "y");
    assert rows[0] in rows && rows[1] in rows;
    assert Select(rows, s.keyColumn, s.keyColumn, value) == {value};
  }

  /** With a shared column only the later filter's members are left, and they pass without meeting the earlier. */
  lemma SharedColumnAdmitsWrongFact(dims: Dimensions, transitive: Closure, cubes: seq<Cube>, a: string, b: string)
    returns (fs: seq<Filter>, columns: seq<string>, result: ColumnSets, fact: Record)
    requires IsClosure(dims, transitive) && IsLeaf(dims, a) && IsLeaf(dims, b) && a != b
    requires ColumnOf(TwoMembersContext(dims, transitive, cubes, a, b), a) ==
      ColumnOf(TwoMembersContext(dims, transitive, cubes, a, b), b)
    ensures Returns(TwoMembersContext(dims, transitive, cubes, a, b), fs, columns, result, fact)
    ensures Admits(result, fact) && !MeetsAll(TwoMembersContext(dims, transitive, cubes, a, b), fs, fact)
  {
    var c := TwoMembersContext(dims, transitive, cubes, a, b);
    var f, g, column := Filter(a, "x"), Filter(b, "y"), ColumnOf(c, a);
    fs, columns, result, fact := [f, g], [column, column], map[column := {"y"}], map[column := "y"];
    OneMemberResolves(dims, transitive, cubes, a, b, a, "x");
    OneMemberResolves(dims, transitive, cubes, a, b, b, "y");
    TwoLeafKeys(c, f, g);
    SharedColumnResolves(c, f, g, column);
    MeetsIffInAll(c, f, fact);
    assert f in fs;
  }

  lemma SharedColumnResolves(c: Context, f: Filter, g: Filter, column: string)
    requires ResolveSingleValue(c, f) == Ok(Members(f.key, {f.value})) && IsLeaf(c.dims, f.key)
    requires ResolveSingleValue(c, g) == Ok(Members(g.key, {g.value})) && IsLeaf(c.dims, g.key)
    requires f.key != g.key && ColumnOf(c, f.key) == column == ColumnOf(c, g.key)
    ensures Resolved(c, [f, g], [f.key, g.key], [column, column], map[column := {g.value}])
  {
    var fs := [f, g];
    assert f in fs && g in fs;
    assert IsFilterOf(c, fs, f.key, f.key) && IsFilterOf(c, fs, g.key, g.key);
    assert IsColumnFor(c, fs, f.key, column) && IsColumnFor(c, fs, g.key, column);
    assert !IsLast([column, column], 0) by { assert [column, column][1] == [column, column][0]; }
    assert IsCommon(c, fs, g.key, {g.value});
  }

  /**
   * For a fixed catalogue: filters are exact, for all tables, filters, results and facts, if and
   * only if no two leaf dimensions map to one view column.
   */
  lemma FiltersExactIffOwnColumns(dims: Dimensions, transitive: Closure, cubes: seq<Cube>)
    requires IsClosure(dims, transitive)
    ensures AlwaysExact(dims, transitive, cubes) <==> LeavesHaveOwnColumns(Context(dims, transitive, map[], cubes))
  {
    var empty := Context(dims, transitive, map[], cubes);
    if LeavesHaveOwnColumns(empty) {
      forall tables, fs, columns, result, fact |
        Returns(Context(dims, transitive, tables, cubes), fs, columns, result, fact)
        ensures Admits(result, fact) <==> MeetsAll(Context(dims, transitive, tables, cubes), fs, fact)
      {
        var c := Context(dims, transitive, tables, cubes);
        assert forall leaf :: ColumnOf(c, leaf) == ColumnOf(empty, leaf);
        OwnColumnsOfFilters(c, fs);
        ResolvedIsExact(c, fs, columns, result, fact);
      }
    } else {
      var a, b :| IsLeaf(dims, a) && IsLeaf(dims, b) && ColumnOf(empty, a) == ColumnOf(empty, b) && a != b;
      var fs, columns, result, fact := SharedColumnAdmitsWrongFact(dims, transitive, cubes, a, b);
    }
  }
}
