/**
 * Breakdown axes: which the resolver accepts for a domain, and how the retriever turns each
 * into a column of the fact view or of a joined leaf table.
 */
module Breakdowns {
  import opened Collections
  import opened Wrappers
  import opened Graphs
  import opened Hierarchy

  /** A dimension bound to a column of the domain's view; inline dimensions may have none. */
  datatype Cube = Cube(key: string, column: string)

  datatype Join = Join(table: string, factColumn: string, keyColumn: string)

  datatype Expr = Fact(column: string) | Joined(join: nat, column: string)

  predicate IsTime(name: string)
  {
    name == "period" || name == "quarter" || name == "fiscal_year"
  }

  function CubeKeys(cubes: seq<Cube>): set<string>
  {
    set c | c in cubes :: c.key
  }

  // ---------------------------------------------------------------------
  // What the resolver accepts
  // ---------------------------------------------------------------------

  /** Everything visited since a set has its parents visited and valid. */
  ghost predicate Followed(dims: Dimensions, since: set<string>, visited: set<string>, valid: set<string>)
  {
    since <= visited && forall v | v in visited && v !in since && v in dims ::
      ParentKeys(dims[v].links) <= visited * valid
  }

  /** Everything visited or made valid since lies above the root. */
  ghost predicate Above(dims: Dimensions, root: string, since: set<string>, visited: set<string>, before: set<string>,
          valid: set<string>)
  {
    && before <= valid && (forall x | x in valid && x !in before :: Ancestor(dims, root, x))
    && (forall v | v in visited && v !in since && v in dims :: Reaches(ParentGraph(dims), root, v))
  }

  lemma FollowedJoins(dims: Dimensions, a: set<string>, b: set<string>, c: set<string>, valid: set<string>,
          valid': set<string>)
    requires Followed(dims, a, b, valid) && Followed(dims, b, c, valid') && valid <= valid'
    ensures Followed(dims, a, c, valid')
  {
    forall v | v in c && v !in a && v in dims ensures ParentKeys(dims[v].links) <= c * valid' {
      if v in b {
        assert ParentKeys(dims[v].links) <= b * valid;
      }
    }
  }

  /** The visit of one more parent extends what was visited and made valid so far. */
  lemma ParentVisited(dims: Dimensions, root: string, entered: set<string>, before: set<string>, visited: set<string>,
          valid0: set<string>, validBefore: set<string>, parent: string, valid: set<string>)
    requires Followed(dims, entered, before, validBefore) && Followed(dims, before, visited, valid)
    requires Above(dims, root, entered, before, valid0, validBefore) && Ancestor(dims, root, parent)
    requires Above(dims, root, before, visited, validBefore + {parent}, valid)
    ensures Followed(dims, entered, visited, valid) && Above(dims, root, entered, visited, valid0, valid)
  {
    FollowedJoins(dims, entered, before, visited, validBefore, valid);
  }

  lemma KeyEntered(dims: Dimensions, root: string, key: string, visited: set<string>, valid: set<string>)
    requires key in Universe(dims, root) && visited <= Universe(dims, root) && key !in visited
    ensures |Universe(dims, root) - (visited + {key})| < |Universe(dims, root) - visited|
    ensures key !in dims ==> Followed(dims, visited, visited + {key}, valid)
    ensures key !in dims ==> Above(dims, root, visited, visited + {key}, valid, valid)
    ensures Followed(dims, visited + {key}, visited + {key}, valid)
    ensures Above(dims, root, visited + {key}, visited + {key}, valid, valid)
  {
    assert Grew(visited, visited + {key});
    ShrinksWhenGrown(Universe(dims, root), visited, visited + {key});
  }

  /** With all its parents visited and valid, so is the walk from a key. */
  lemma KeyVisited(dims: Dimensions, root: string, key: string, visited0: set<string>, visited: set<string>,
          valid0: set<string>, valid: set<string>)
    requires key in dims && Reaches(ParentGraph(dims), root, key)
    requires forall l | l in dims[key].links :: l.parent in visited && l.parent in valid
    requires Followed(dims, visited0 + {key}, visited, valid)
    requires Above(dims, root, visited0 + {key}, visited, valid0, valid)
    ensures Followed(dims, visited0, visited, valid) && Above(dims, root, visited0, visited, valid0, valid)
  {
    assert ParentKeys(dims[key].links) <= visited * valid;
  }

  /** The walk from a key: each parent is made valid, then walked from in turn. */
  method AddParents(dims: Dimensions, key: string, visited0: set<string>, valid0: set<string>, ghost root: string)
    returns (visited: set<string>, valid: set<string>)
    requires key in Universe(dims, root) && visited0 <= Universe(dims, root)
    requires key in dims ==> Reaches(ParentGraph(dims), root, key)
    ensures visited <= Universe(dims, root) && key in visited
    ensures Followed(dims, visited0, visited, valid)
    ensures Above(dims, root, visited0, visited, valid0, valid)
    decreases |Universe(dims, root) - visited0|, 0
  {
    visited, valid := visited0, valid0;
    if key in visited {
      return;
    }
    visited := visited + {key};
    ghost var entered := visited;
    KeyEntered(dims, root, key, visited0, valid0);
    if key in dims {
      var links := dims[key].links;
      for i := 0 to |links|
        invariant visited <= Universe(dims, root)
        invariant Followed(dims, entered, visited, valid)
        invariant Above(dims, root, entered, visited, valid0, valid)
        invariant forall j | 0 <= j < i :: links[j].parent in visited && links[j].parent in valid
      {
        ShrinksWhenGrown(Universe(dims, root), entered, visited);
        visited, valid := AddParent(dims, key, links[i], entered, visited, valid0, valid, root);
      }
      KeyVisited(dims, root, key, visited0, visited, valid0, valid);
    }
  }

  method AddParent(dims: Dimensions, ghost key: string, l: Link, ghost entered: set<string>, before: set<string>,
          ghost valid0: set<string>, validBefore: set<string>, ghost root: string)
    returns (visited: set<string>, valid: set<string>)
    requires before <= Universe(dims, root)
    requires key in dims && l in dims[key].links && Reaches(ParentGraph(dims), root, key)
    requires Followed(dims, entered, before, validBefore)
    requires Above(dims, root, entered, before, valid0, validBefore)
    ensures before <= visited <= Universe(dims, root) && l.parent in visited
    ensures validBefore <= valid && l.parent in valid
    ensures Followed(dims, entered, visited, valid) && Above(dims, root, entered, visited, valid0, valid)
    decreases |Universe(dims, root) - before|, 1
  {
    ParentIsAbove(dims, root, key, l);
    valid := validBefore + {l.parent};
    visited, valid := AddParents(dims, l.parent, before, valid, root);
    ParentVisited(dims, root, entered, before, visited, valid0, validBefore, l.parent, valid);
  }

  lemma ParentIsAbove(dims: Dimensions, root: string, key: string, l: Link)
    requires key in dims && l in dims[key].links && Reaches(ParentGraph(dims), root, key)
    ensures Ancestor(dims, root, l.parent) && l.parent in Universe(dims, root)
    ensures l.parent in dims ==> Reaches(ParentGraph(dims), root, l.parent)
  {
    assert l.parent in ParentKeys(dims[key].links);
    if l.parent in dims {
      assert l.parent in ParentGraph(dims)[key];
      PathStep(ParentGraph(dims), root, key, l.parent);
    }
  }

  /** The axis is bound to the domain, or lies above a dimension that is. */
  ghost predicate Acceptable(dims: Dimensions, cubes: seq<Cube>, axis: string)
  {
    exists c :: c in cubes && (c.key == axis || Ancestor(dims, c.key, axis))
  }

  method ValidAxes(dims: Dimensions, cubes: seq<Cube>) returns (valid: set<string>)
    ensures forall axis :: axis in valid <==> Acceptable(dims, cubes, axis)
  {
    valid := CubeKeys(cubes);
    for i := 0 to |cubes|
      invariant CubeKeys(cubes) <= valid
      invariant forall axis | axis in valid :: Acceptable(dims, cubes, axis)
      invariant forall j, axis | 0 <= j < i && Ancestor(dims, cubes[j].key, axis) :: axis in valid
    {
      var key := cubes[i].key;
      if key in dims { SinglePath(ParentGraph(dims), key); }
      ghost var before := valid;
      var visited;
      visited, valid := AddParents(dims, key, {}, valid, key);
      forall axis | Ancestor(dims, key, axis) ensures axis in valid {
        AncestorIsValid(dims, visited, valid, key, axis);
      }
      forall axis | axis in valid ensures Acceptable(dims, cubes, axis) {
        if axis !in before { assert cubes[i] in cubes && Ancestor(dims, cubes[i].key, axis); }
      }
    }
    forall axis | Acceptable(dims, cubes, axis) ensures axis in valid {
      var c :| c in cubes && (c.key == axis || Ancestor(dims, c.key, axis));
      assert c.key in CubeKeys(cubes);
    }
  }

  lemma AncestorIsValid(dims: Dimensions, visited: set<string>, valid: set<string>, key: string, axis: string)
    requires key in visited && Followed(dims, {}, visited, valid) && Ancestor(dims, key, axis)
    ensures axis in valid
  {
    var c :| c in dims && Reaches(ParentGraph(dims), key, c) && axis in ParentKeys(dims[c].links);
    var path :| IsPathBetween(ParentGraph(dims), key, c, path);
    assert forall v | v in visited && v in dims :: ParentKeys(dims[v].links) <= visited;
    ClosedHoldsPath(dims, visited, path);
  }

  /** The strict check: every axis is acceptable, or the first that is not is reported. */
  method CheckAxes(dims: Dimensions, cubes: seq<Cube>, axes: seq<string>) returns (refused: Option<string>)
    ensures refused.None? <==> forall a | a in axes :: Acceptable(dims, cubes, a)
    ensures refused.Some? ==> refused.value in axes && !Acceptable(dims, cubes, refused.value)
  {
    var valid := ValidAxes(dims, cubes);
    for i := 0 to |axes|
      invariant forall j | 0 <= j < i :: Acceptable(dims, cubes, axes[j])
    {
      if axes[i] !in valid {
        return Some(axes[i]);
      }
    }
    return None;
  }

  // ---------------------------------------------------------------------
  // What the retriever resolves
  // ---------------------------------------------------------------------

  /** The bound columns; of two bindings of one key the later counts. */
  function Bound(cubes: seq<Cube>): map<string, string>
  {
    if cubes == [] then map[]
    else
      var rest := Bound(cubes[..|cubes| - 1]);
      var c := cubes[|cubes| - 1];
      if c.column != "" then rest[c.key := c.column] else rest
  }

  lemma {:induction false} BoundAre(cubes: seq<Cube>)
    ensures forall k :: k in Bound(cubes) <==> exists c :: c in cubes && c.key == k && c.column != ""
    ensures forall k | k in Bound(cubes) :: Cube(k, Bound(cubes)[k]) in cubes && Bound(cubes)[k] != ""
  {
    if cubes != [] {
      BoundAre(cubes[..|cubes| - 1]);
      assert cubes == cubes[..|cubes| - 1] + [cubes[|cubes| - 1]];
    }
  }

  /** The first resolution whose leaf is bound. */
  function FirstBound(rs: seq<Resolution>, bound: map<string, string>): Option<Resolution>
  {
    if rs == [] then None else if rs[0].leaf in bound then Some(rs[0]) else FirstBound(rs[1..], bound)
  }

  lemma {:induction false} FirstBoundIs(rs: seq<Resolution>, bound: map<string, string>)
    ensures FirstBound(rs, bound).Some? <==> exists r :: r in rs && r.leaf in bound
    ensures FirstBound(rs, bound).Some? ==>
      FirstBound(rs, bound).value in rs && FirstBound(rs, bound).value.leaf in bound
  {
    if rs != [] {
      FirstBoundIs(rs[1..], bound);
      if r :| r in rs && r.leaf in bound {
        assert r == rs[0] || r in rs[1..];
      }
    }
  }

  predicate Groupable(transitive: Closure, cubes: seq<Cube>, axis: string)
  {
    || axis in Bound(cubes) || IsTime(axis)
    || (axis in transitive && FirstBound(transitive[axis], Bound(cubes)).Some?)
  }

  /** The expression reads the axis from the fact view or from the joined table of a bound leaf below it. */
  predicate Reads(transitive: Closure, cubes: seq<Cube>, axis: string, e: Expr, joins: seq<Join>)
  {
    var bound := Bound(cubes);
    if axis in bound then e == Fact(bound[axis])
    else if IsTime(axis) then e == Fact(axis)
    else
      && axis in transitive && FirstBound(transitive[axis], bound).Some?
      && var r := FirstBound(transitive[axis], bound).value;
         r.leaf in bound && e.Joined? && e.column == r.column && e.join < |joins|
         && joins[e.join].table == r.source.table && joins[e.join].factColumn == bound[r.leaf]
  }

  /** The join is that of the first bound leaf below some axis: its table, its fact column, its key column. */
  ghost predicate IsJoinFor(transitive: Closure, cubes: seq<Cube>, axes: seq<string>, j: Join)
  {
    exists a :: a in axes && a in transitive && JoinOf(transitive[a], Bound(cubes)) == Some(j)
  }

  function JoinOf(rs: seq<Resolution>, bound: map<string, string>): Option<Join>
  {
    var r := FirstBound(rs, bound);
    if r.None? || r.value.leaf !in bound then None
    else Some(Join(r.value.source.table, bound[r.value.leaf], r.value.source.keyColumn))
  }

  /** One join for each table and fact column. */
  ghost predicate JoinsOnce(joins: seq<Join>)
  {
    forall i, j | 0 <= i < j < |joins| :: joins[i].table != joins[j].table || joins[i].factColumn != joins[j].factColumn
  }

  /** The place of a join in the list, added when it is new. */
  method FindJoin(joins0: seq<Join>, wanted: Join) returns (at: nat, joins: seq<Join>)
    requires JoinsOnce(joins0)
    ensures JoinsOnce(joins) && joins0 <= joins && at < |joins|
    ensures joins == joins0 || joins == joins0 + [wanted]
    ensures joins[at].table == wanted.table && joins[at].factColumn == wanted.factColumn
  {
    joins := joins0;
    for i := 0 to |joins|
      invariant joins == joins0
      invariant forall j | 0 <= j < i :: joins[j].table != wanted.table || joins[j].factColumn != wanted.factColumn
    {
      if joins[i].table == wanted.table && joins[i].factColumn == wanted.factColumn {
        return i, joins;
      }
    }
    at := |joins|;
    joins := joins + [wanted];
  }

  method ResolveBreakdowns(transitive: Closure, cubes: seq<Cube>, axes: seq<string>)
    returns (failed: Option<string>, exprs: map<string, Expr>, joins: seq<Join>)
    ensures failed.None? <==> forall a | a in axes :: Groupable(transitive, cubes, a)
    ensures failed.Some? ==> failed.value in axes && !Groupable(transitive, cubes, failed.value)
    ensures failed.None? ==> exprs.Keys == Elements(axes) && JoinsOnce(joins)
    ensures failed.None? ==> forall a | a in axes :: a in exprs && Reads(transitive, cubes, a, exprs[a], joins)
    ensures failed.None? ==> forall j | j in joins :: IsJoinFor(transitive, cubes, axes, j)
  {
    var bound := Bound(cubes);
    exprs, joins := map[], [];
    for i := 0 to |axes|
      invariant exprs.Keys == Elements(axes[..i]) && JoinsOnce(joins)
      invariant forall a | a in axes[..i] :: Groupable(transitive, cubes, a)
      invariant forall a | a in exprs :: Reads(transitive, cubes, a, exprs[a], joins)
      invariant forall j | j in joins :: IsJoinFor(transitive, cubes, axes, j)
    {
      var name := axes[i];
      assert axes[..i + 1] == axes[..i] + [name];
      if name in bound {
        exprs := exprs[name := Fact(bound[name])];
      } else if IsTime(name) {
        exprs := exprs[name := Fact(name)];
      } else {
        var resolution := if name in transitive then FirstBound(transitive[name], bound) else None;
        if resolution.None? {
          assert name in axes && !Groupable(transitive, cubes, name);
          return Some(name), exprs, joins;
        }
        var r := resolution.value;
        FirstBoundIs(transitive[name], bound);
        ghost var before := joins;
        var at;
        at, joins := FindJoin(joins, Join(r.source.table, bound[r.leaf], r.source.keyColumn));
        JoinsKept(transitive, cubes, exprs, before, joins);
        assert name in axes;
        assert IsJoinFor(transitive, cubes, axes, Join(r.source.table, bound[r.leaf], r.source.keyColumn));
        exprs := exprs[name := Joined(at, r.column)];
      }
    }
    assert axes[..|axes|] == axes;
    failed := None;
  }

  lemma JoinsKept(transitive: Closure, cubes: seq<Cube>, exprs: map<string, Expr>, before: seq<Join>, after: seq<Join>)
    requires before <= after && forall a | a in exprs :: Reads(transitive, cubes, a, exprs[a], before)
    ensures forall a | a in exprs :: Reads(transitive, cubes, a, exprs[a], after)
  {
  }

  /** Without bindings or links just the period, the quarter and the fiscal year can be grouped, each as itself. */
  lemma TimeLevelsNeedNoBinding(axis: string, e: Expr)
    ensures Groupable(map[], [], axis) <==> axis in {"period", "quarter", "fiscal_year"}
    ensures Groupable(map[], [], axis) ==> (Reads(map[], [], axis, e, []) <==> e == Fact(axis))
  {
  }

  /** A join is of a bound leaf: its own table, joined on its fact column by its own key column. */
  lemma JoinIsOfBoundLeaf(dims: Dimensions, transitive: Closure, cubes: seq<Cube>, axes: seq<string>, j: Join)
    returns (axis: string, leaf: string)
    requires IsClosure(dims, transitive) && IsJoinFor(transitive, cubes, axes, j)
    ensures axis in axes && LeafBelow(dims, axis, leaf)
    ensures Cube(leaf, j.factColumn) in cubes && j.factColumn != ""
    ensures
      leaf in dims && dims[leaf].source.Some? && j.table == dims[leaf].source.value.table
      && j.keyColumn == dims[leaf].source.value.keyColumn
  {
    axis :| axis in axes && axis in transitive && JoinOf(transitive[axis], Bound(cubes)) == Some(j);
    BoundAre(cubes);
    FirstBoundIs(transitive[axis], Bound(cubes));
    var r := FirstBound(transitive[axis], Bound(cubes)).value;
    leaf := r.leaf;
    assert Closed(dims, axis, transitive[axis]) && Resolves(dims, axis, r);
    assert leaf in LeavesOf(transitive[axis]);
  }

  // ---------------------------------------------------------------------
  // Accepted axes resolve
  // ---------------------------------------------------------------------

  /** Every parent is a dimension, and every native binding is one with a column. */
  ghost predicate Validated(dims: Dimensions, cubes: seq<Cube>)
  {
    && (forall k | k in dims :: ParentKeys(dims[k].links) <= dims.Keys)
    && (forall c | c in cubes :: c.column != "" && c.key in dims)
  }

  /** The closure as the catalogue computes it. */
  ghost predicate IsClosure(dims: Dimensions, transitive: Closure)
  {
    transitive.Keys == dims.Keys && forall k | k in dims :: Closed(dims, k, transitive[k])
  }

  lemma AboveBoundLeafIsGroupable(dims: Dimensions, transitive: Closure, cubes: seq<Cube>, c: Cube, axis: string)
    requires IsClosure(dims, transitive) && Validated(dims, cubes)
    requires c in cubes && (c.key == axis || (IsLeaf(dims, c.key) && Ancestor(dims, c.key, axis)))
    ensures Groupable(transitive, cubes, axis)
  {
    BoundAre(cubes);
    if c.key != axis {
      assert axis in dims;
      assert LeafBelow(dims, axis, c.key);
      assert c.key in LeavesOf(transitive[axis]);
      FirstBoundIs(transitive[axis], Bound(cubes));
    }
  }

  /** The axis is bound, a time level, or lies above a leaf dimension that is bound. */
  ghost predicate HasWay(dims: Dimensions, cubes: seq<Cube>, axis: string)
  {
    || IsTime(axis)
    || exists c :: c in cubes && (c.key == axis || LeafBelow(dims, axis, c.key))
  }

  /** An axis can be grouped exactly when links and bindings lead to a column for it. */
  lemma GroupableIffHasWay(dims: Dimensions, transitive: Closure, cubes: seq<Cube>, axis: string)
    requires IsClosure(dims, transitive) && Validated(dims, cubes)
    ensures Groupable(transitive, cubes, axis) <==> HasWay(dims, cubes, axis)
  {
    BoundAre(cubes);
    if axis in transitive {
      FirstBoundIs(transitive[axis], Bound(cubes));
      assert Closed(dims, axis, transitive[axis]);
      if r :| r in transitive[axis] && r.leaf in Bound(cubes) {
        assert r.leaf in LeavesOf(transitive[axis]);
        var c :| c in cubes && c.key == r.leaf && c.column != "";
        assert LeafBelow(dims, axis, c.key);
      }
    }
    if c :| c in cubes && LeafBelow(dims, axis, c.key) {
      BelowIsClosed(dims, transitive, axis, c.key);
    }
  }

  /** A dimension with a leaf below it is one of the catalogue, and holds a resolution for the leaf. */
  lemma BelowIsClosed(dims: Dimensions, transitive: Closure, axis: string, leaf: string)
    requires IsClosure(dims, transitive) && LeafBelow(dims, axis, leaf)
    requires forall k | k in dims :: ParentKeys(dims[k].links) <= dims.Keys
    ensures axis in transitive && exists r :: r in transitive[axis] && r.leaf == leaf
  {
    assert axis in dims;
    assert Closed(dims, axis, transitive[axis]);
    assert leaf in LeavesOf(transitive[axis]);
  }

  /** Each dimension above a binding that is no leaf is bound, a time level, or above a bound leaf. */
  ghost predicate DerivedBindingsCovered(dims: Dimensions, cubes: seq<Cube>)
  {
    forall c, axis | c in cubes && !IsLeaf(dims, c.key) && Ancestor(dims, c.key, axis) :: HasWay(dims, cubes, axis)
  }

  /**
   * Every accepted axis resolves if and only if each dimension above a binding that is no leaf
   * is bound, a time level, or has a bound leaf below it; with bindings of leaves only, all do.
   */
  lemma AcceptedAxesResolveIff(dims: Dimensions, transitive: Closure, cubes: seq<Cube>)
    requires IsClosure(dims, transitive) && Validated(dims, cubes)
    ensures (forall axis | Acceptable(dims, cubes, axis) :: Groupable(transitive, cubes, axis))
      <==> DerivedBindingsCovered(dims, cubes)
    ensures (forall c | c in cubes :: IsLeaf(dims, c.key)) ==> DerivedBindingsCovered(dims, cubes)
  {
    forall axis ensures Groupable(transitive, cubes, axis) <==> HasWay(dims, cubes, axis) {
      GroupableIffHasWay(dims, transitive, cubes, axis);
    }
    if DerivedBindingsCovered(dims, cubes) {
      forall axis | Acceptable(dims, cubes, axis) ensures Groupable(transitive, cubes, axis) {
        var c :| c in cubes && (c.key == axis || Ancestor(dims, c.key, axis));
        if c.key == axis || IsLeaf(dims, c.key) {
          AboveBoundLeafIsGroupable(dims, transitive, cubes, c, axis);
        }
      }
    } else {
      var c, axis :| c in cubes && !IsLeaf(dims, c.key) && Ancestor(dims, c.key, axis) && !HasWay(dims, cubes, axis);
      assert Acceptable(dims, cubes, axis) && !Groupable(transitive, cubes, axis);
    }
  }

  /** A domain that binds only a derived dimension accepts the dimensions above it and cannot group by them. */
  lemma LoneDerivedBindingFails(dims: Dimensions, transitive: Closure, c: Cube, axis: string)
    requires IsClosure(dims, transitive) && Validated(dims, [c])
    requires !IsLeaf(dims, c.key) && Ancestor(dims, c.key, axis) && axis != c.key && !IsTime(axis)
    ensures Acceptable(dims, [c], axis) && !Groupable(transitive, [c], axis)
  {
    assert c in [c];
    GroupableIffHasWay(dims, transitive, [c], axis);
  }
}
