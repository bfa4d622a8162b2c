/**
 * Dimensions with parent links, and the closure that tells every ancestor how to reach the
 * members of the leaf dimensions below it.
 */
module Hierarchy {
  import opened Collections
  import opened Wrappers
  import opened Graphs

  datatype Source = Source(table: string, keyColumn: string)

  /** A link to a parent, and the column of the leaf table that holds its members. */
  datatype Link = Link(parent: string, column: string)

  /** A dimension with its own table, one derived from a column, or a ragged hierarchy over a leaf. */
  datatype Dimension = Dimension(source: Option<Source>, derived: bool, ragged: bool, links: seq<Link>,
    leafDimension: string, providedView: Option<string>)

  type Dimensions = map<string, Dimension>

  /** How a filter on an ancestor becomes members of a leaf. */
  datatype Resolution = Resolution(leaf: string, source: Source, column: string)

  predicate IsLeaf(dims: Dimensions, key: string)
  {
    key in dims && dims[key].source.Some?
  }

  function ParentKeys(links: seq<Link>): set<string>
  {
    set l | l in links :: l.parent
  }

  function ParentGraph(dims: Dimensions): Graph<string>
  {
    map k | k in dims :: ParentKeys(dims[k].links)
  }

  /** A chain of parent links leads from the dimension to its ancestor. */
  ghost predicate Ancestor(dims: Dimensions, key: string, ancestor: string)
  {
    exists c :: c in dims && Reaches(ParentGraph(dims), key, c) && ancestor in ParentKeys(dims[c].links)
  }

  /** The column of some link into the ancestor, from the dimension or from above it. */
  ghost predicate LinkColumn(dims: Dimensions, key: string, found: Link)
  {
    exists c :: c in dims && Reaches(ParentGraph(dims), key, c) && found in dims[c].links
  }

  /** A set that holds the parents of its dimensions holds all ancestors of its dimensions. */
  lemma {:induction false} ClosedHoldsPath(dims: Dimensions, held: set<string>, path: seq<string>)
    requires IsPath(ParentGraph(dims), path) && path[0] in held
    requires forall c | c in held && c in dims :: ParentKeys(dims[c].links) <= held
    ensures path[|path| - 1] in held
  {
    if |path| > 1 {
      ClosedHoldsPath(dims, held, path[..|path| - 1]);
      var n := |path|;
      assert path[n - 1] in ParentGraph(dims)[path[n - 2]];
      assert path[..n - 1][n - 2] == path[n - 2];
    }
  }

  lemma ClosedHoldsAncestors(dims: Dimensions, held: set<string>, key: string, ancestor: string)
    requires key in held && Ancestor(dims, key, ancestor)
    requires forall c | c in held && c in dims :: ParentKeys(dims[c].links) <= held
    ensures ancestor in held
  {
    var c :| c in dims && Reaches(ParentGraph(dims), key, c) && ancestor in ParentKeys(dims[c].links);
    var path :| IsPathBetween(ParentGraph(dims), key, c, path);
    ClosedHoldsPath(dims, held, path);
  }

  // ---------------------------------------------------------------------
  // Walking up
  // ---------------------------------------------------------------------

  /** Every key the walk can meet. */
  function Universe(dims: Dimensions, key: string): set<string>
  {
    dims.Keys + (set k, l | k in dims && l in dims[k].links :: l.parent) + {key}
  }

  /** What the walk has found: all of it above the start, and each key once. */
  ghost predicate Found(dims: Dimensions, key: string, visited: set<string>, ancestors: seq<Link>)
  {
    && visited == {key} + ParentKeys(ancestors) && visited <= Universe(dims, key)
    && ParentsOnce(ancestors) && key !in ParentKeys(ancestors)
    && (forall a | a in ancestors :: LinkColumn(dims, key, a))
  }

  ghost predicate ParentsOnce(links: seq<Link>)
  {
    forall i, j | 0 <= i < j < |links| :: links[i].parent != links[j].parent
  }

  ghost predicate Queued(dims: Dimensions, key: string, visited: set<string>, queue: seq<string>)
  {
    forall q | q in queue :: q in dims && q in visited && Reaches(ParentGraph(dims), key, q)
  }

  /** Everything visited is waiting, is being scanned, or has all its parents visited. */
  ghost predicate Expanded(dims: Dimensions, visited: set<string>, queue: seq<string>, scanning: set<string>)
  {
    forall v | v in visited && v in dims && v !in queue && v !in scanning :: ParentKeys(dims[v].links) <= visited
  }

  ghost predicate WalkInv(dims: Dimensions, key: string, visited: set<string>, queue: seq<string>, ancestors: seq<Link>,
          scanning: set<string>)
  {
    && Found(dims, key, visited, ancestors) && Queued(dims, key, visited, queue)
    && Expanded(dims, visited, queue, scanning)
  }

  lemma FindLink(dims: Dimensions, key: string, current: string, l: Link, visited: set<string>, ancestors: seq<Link>)
    requires current in dims && l in dims[current].links && Reaches(ParentGraph(dims), key, current)
    requires Found(dims, key, visited, ancestors) && l.parent !in visited
    ensures Found(dims, key, visited + {l.parent}, ancestors + [l])
  {
    assert LinkColumn(dims, key, l);
    assert ParentKeys(ancestors + [l]) == ParentKeys(ancestors) + {l.parent};
    forall i | 0 <= i < |ancestors| ensures ancestors[i].parent != l.parent {
      assert ancestors[i].parent in ParentKeys(ancestors);
    }
  }

  lemma QueueLink(dims: Dimensions, key: string, current: string, l: Link, visited: set<string>, queue: seq<string>)
    requires current in dims && l in dims[current].links && Reaches(ParentGraph(dims), key, current) && l.parent in dims
    requires Queued(dims, key, visited, queue)
    ensures Queued(dims, key, visited + {l.parent}, queue + [l.parent])
  {
    assert l.parent in ParentGraph(dims)[current];
    PathStep(ParentGraph(dims), key, current, l.parent);
  }

  lemma ExpandLink(dims: Dimensions, parent: string, visited: set<string>, queue: seq<string>, scanning: set<string>)
    requires Expanded(dims, visited, queue, scanning)
    ensures Expanded(dims, visited + {parent}, if parent in dims then queue + [parent] else queue, scanning)
  {
    var queue' := if parent in dims then queue + [parent] else queue;
    forall v | v in visited + {parent} && v in dims && v !in queue' && v !in scanning
      ensures ParentKeys(dims[v].links) <= visited + {parent}
    {
      assert v != parent;
      assert v !in queue;
      assert ParentKeys(dims[v].links) <= visited;
    }
  }

  lemma StartScan(dims: Dimensions, key: string, visited: set<string>, queue: seq<string>, ancestors: seq<Link>)
    requires queue != [] && WalkInv(dims, key, visited, queue, ancestors, {})
    ensures WalkInv(dims, key, visited, queue[1..], ancestors, {queue[0]})
    ensures queue[0] in dims && Reaches(ParentGraph(dims), key, queue[0])
  {
    assert queue[0] in queue && queue == [queue[0]] + queue[1..];
  }

  lemma EndScan(dims: Dimensions, current: string, visited: set<string>, queue: seq<string>)
    requires current in dims && Expanded(dims, visited, queue, {current})
    requires ScannedTo(dims[current].links, |dims[current].links|, visited)
    ensures Expanded(dims, visited, queue, {})
  {
    assert ParentKeys(dims[current].links) <= visited;
  }

  ghost predicate Grew(before: set<string>, after: set<string>)
  {
    exists x :: x in after && x !in before
  }

  ghost predicate ScannedTo(links: seq<Link>, i: nat, visited: set<string>)
    requires i <= |links|
  {
    forall j | 0 <= j < i :: links[j].parent in visited
  }

  lemma ScannedMore(links: seq<Link>, i: nat, before: set<string>, after: set<string>)
    requires i < |links| && ScannedTo(links, i, before) && before <= after && links[i].parent in after
    ensures ScannedTo(links, i + 1, after)
  {
  }

  lemma GrewFurther(first: set<string>, before: set<string>, after: set<string>)
    requires first <= before <= after
    ensures Grew(first, before) || Grew(before, after) ==> Grew(first, after)
  {
  }

  method ScanLink(dims: Dimensions, ghost key: string, ghost current: string, l: Link, visited0: set<string>,
          queue0: seq<string>, ancestors0: seq<Link>)
    returns (visited: set<string>, queue: seq<string>, ancestors: seq<Link>)
    requires current in dims && l in dims[current].links && Reaches(ParentGraph(dims), key, current)
    requires WalkInv(dims, key, visited0, queue0, ancestors0, {current})
    ensures WalkInv(dims, key, visited, queue, ancestors, {current})
    ensures visited0 <= visited && l.parent in visited && (Grew(visited0, visited) || queue == queue0)
  {
    visited, queue, ancestors := visited0, queue0, ancestors0;
    if l.parent !in visited {
      FindLink(dims, key, current, l, visited, ancestors);
      ExpandLink(dims, l.parent, visited, queue, {current});
      if l.parent in dims {
        QueueLink(dims, key, current, l, visited, queue);
        queue := queue + [l.parent];
      }
      visited := visited + {l.parent};
      ancestors := ancestors + [l];
    }
  }

  method ScanParents(dims: Dimensions, ghost key: string, current: string, visited0: set<string>, queue0: seq<string>,
          ancestors0: seq<Link>)
    returns (visited: set<string>, queue: seq<string>, ancestors: seq<Link>)
    requires current in dims && Reaches(ParentGraph(dims), key, current)
    requires WalkInv(dims, key, visited0, queue0, ancestors0, {current})
    ensures WalkInv(dims, key, visited, queue, ancestors, {})
    ensures visited0 <= visited && (Grew(visited0, visited) || queue == queue0)
  {
    visited, queue, ancestors := visited0, queue0, ancestors0;
    var links := dims[current].links;
    for i := 0 to |links|
      invariant WalkInv(dims, key, visited, queue, ancestors, {current})
      invariant ScannedTo(links, i, visited)
      invariant visited0 <= visited && (Grew(visited0, visited) || queue == queue0)
    {
      ghost var before := visited;
      visited, queue, ancestors := ScanLink(dims, key, current, links[i], visited, queue, ancestors);
      GrewFurther(visited0, before, visited);
      ScannedMore(links, i, before, visited);
    }
    EndScan(dims, current, visited, queue);
  }

  /** The ancestors of a dimension, each once, with the column of the link that was met first. */
  method WalkParents(dims: Dimensions, key: string) returns (ancestors: seq<Link>)
    requires key in dims
    ensures ParentsOnce(ancestors)
    ensures forall a :: a in ParentKeys(ancestors) <==> a != key && Ancestor(dims, key, a)
    ensures forall a | a in ancestors :: LinkColumn(dims, key, a)
  {
    ancestors := [];
    var visited, queue := {key}, [key];
    SinglePath(ParentGraph(dims), key);
    while queue != []
      invariant WalkInv(dims, key, visited, queue, ancestors, {})
      decreases |Universe(dims, key) - visited|, |queue|
    {
      StartScan(dims, key, visited, queue, ancestors);
      var current := queue[0];
      ghost var before := visited;
      queue := queue[1..];
      visited, queue, ancestors := ScanParents(dims, key, current, visited, queue, ancestors);
      ShrinksWhenGrown(Universe(dims, key), before, visited);
    }
    AncestorsAreFound(dims, key, visited, ancestors);
  }

  lemma AncestorsAreFound(dims: Dimensions, key: string, visited: set<string>, ancestors: seq<Link>)
    requires key in dims && WalkInv(dims, key, visited, [], ancestors, {})
    ensures forall a :: a in ParentKeys(ancestors) <==> a != key && Ancestor(dims, key, a)
  {
    forall a
      ensures a in ParentKeys(ancestors) <==> a != key && Ancestor(dims, key, a)
    {
      if a in ParentKeys(ancestors) {
        var l :| l in ancestors && l.parent == a;
        assert LinkColumn(dims, key, l);
      }
      if Ancestor(dims, key, a) {
        ClosedHoldsAncestors(dims, visited, key, a);
      }
    }
  }

  lemma ShrinksWhenGrown(universe: set<string>, before: set<string>, after: set<string>)
    requires before <= after <= universe
    ensures |universe - after| <= |universe - before|
    ensures Grew(before, after) ==> |universe - after| < |universe - before|
  {
    if Grew(before, after) {
      StrictlySmaller(universe - after, universe - before);
    } else {
      assert after == before;
    }
  }

  lemma StrictlySmaller(small: set<string>, large: set<string>)
    requires small < large
    ensures |small| < |large|
  {
    assert large == small + (large - small);
    assert large - small != {};
  }

  // ---------------------------------------------------------------------
  // The closure
  // ---------------------------------------------------------------------

  type Closure = map<string, seq<Resolution>>

  function LeavesOf(rs: seq<Resolution>): set<string>
  {
    set r | r in rs :: r.leaf
  }

  /** A resolution for its leaf, in place of an earlier one for the same leaf. */
  function Put(rs: seq<Resolution>, r: Resolution): seq<Resolution>
  {
    if rs == [] then [r]
    else if rs[0].leaf == r.leaf then [r] + rs[1..]
    else [rs[0]] + Put(rs[1..], r)
  }

  ghost predicate LeavesOnce(rs: seq<Resolution>)
  {
    forall i, j | 0 <= i < j < |rs| :: rs[i].leaf != rs[j].leaf
  }

  lemma {:induction false} PutIs(rs: seq<Resolution>, r: Resolution)
    requires LeavesOnce(rs)
    ensures LeavesOnce(Put(rs, r)) && r in Put(rs, r)
    ensures forall x :: x in Put(rs, r) <==> x == r || (x in rs && x.leaf != r.leaf)
  {
    if rs != [] {
      assert forall j | 0 <= j < |rs[1..]| :: rs[1..][j] == rs[j + 1];
      assert forall x | x in rs[1..] :: x.leaf != rs[0].leaf;
      PutIs(rs[1..], r);
    }
  }

  predicate RaggedOver(dims: Dimensions, key: string, leaf: string)
  {
    key in dims && dims[key].ragged && dims[key].leafDimension == leaf && leaf != "" && IsLeaf(dims, leaf)
  }

  /** The leaf lies below the dimension: by parent links, or by its ragged hierarchy. */
  ghost predicate LeafBelow(dims: Dimensions, key: string, leaf: string)
  {
    (IsLeaf(dims, leaf) && leaf != key && Ancestor(dims, leaf, key)) || RaggedOver(dims, key, leaf)
  }

  /** A resolution names its leaf's table, and a column that some link to the dimension declares. */
  ghost predicate Resolves(dims: Dimensions, key: string, r: Resolution)
  {
    && IsLeaf(dims, r.leaf) && r.source == dims[r.leaf].source.value
    && (if RaggedOver(dims, key, r.leaf) then r.column == "" || LinkColumn(dims, r.leaf, Link(key, r.column))
        else LinkColumn(dims, r.leaf, Link(key, r.column)))
  }

  /** The resolutions held for a dimension, when some leaves have been walked. */
  ghost predicate Walked(dims: Dimensions, key: string, rs: seq<Resolution>, leaves: set<string>)
  {
    && LeavesOnce(rs)
    && (forall leaf :: leaf in LeavesOf(rs) <==>
        leaf in leaves && IsLeaf(dims, leaf) && leaf != key && Ancestor(dims, leaf, key))
    && (forall r | r in rs :: Resolves(dims, key, r))
  }

  /** The resolutions of a dimension are exactly those of the leaves below it. */
  ghost predicate Closed(dims: Dimensions, key: string, rs: seq<Resolution>)
  {
    && LeavesOnce(rs)
    && (forall leaf :: leaf in LeavesOf(rs) <==> LeafBelow(dims, key, leaf))
    && (forall r | r in rs :: Resolves(dims, key, r))
    && (forall r | r in rs && RaggedOver(dims, key, r.leaf) :: r.column == "")
  }

  /** Some dimensions point at their ragged leaf already; the others have been walked. */
  ghost predicate RaggedDone(dims: Dimensions, done: seq<string>, transitive: Closure)
  {
    && transitive.Keys == dims.Keys && (forall k | k in done :: k in dims)
    && (forall k | k in dims ::
        if k in done then Closed(dims, k, transitive[k]) else Walked(dims, k, transitive[k], dims.Keys))
  }

  lemma OneMoreDone(dims: Dimensions, done: seq<string>, key: string, transitive: Closure, rs: seq<Resolution>)
    requires RaggedDone(dims, done, transitive) && key in dims && Closed(dims, key, rs)
    ensures RaggedDone(dims, done + [key], transitive[key := rs])
  {
  }

  lemma NextToDo(dims: Dimensions, done: seq<string>, key: string, transitive: Closure)
    requires RaggedDone(dims, done, transitive) && key in dims && key !in done
    ensures Walked(dims, key, transitive[key], dims.Keys)
  {
  }

  lemma AllDone(dims: Dimensions, order: seq<string>, transitive: Closure)
    requires RaggedDone(dims, order, transitive) && Elements(order) == dims.Keys
    ensures forall k | k in dims :: Closed(dims, k, transitive[k])
  {
    assert forall k | k in dims :: k in Elements(order);
  }

  class Catalogue {
    const dims: Dimensions
    const order: seq<string>
    var transitive: Closure

    ghost predicate Valid()
      reads this
    {
      Distinct(order) && Elements(order) == dims.Keys && transitive.Keys == dims.Keys
    }

    constructor (dims: Dimensions, order: seq<string>)
      requires Distinct(order) && Elements(order) == dims.Keys
      ensures Valid() && this.dims == dims && this.order == order
      ensures forall k | k in dims :: transitive[k] == []
    {
      this.dims, this.order := dims, order;
      transitive := map k | k in dims :: [];
    }

    /** Each ancestor of the leaf learns how to reach it. */
    method TagAncestors(leaf: string, ghost done: set<string>)
      requires Valid() && IsLeaf(dims, leaf) && leaf !in done
      requires forall k | k in dims :: Walked(dims, k, transitive[k], done)
      modifies this`transitive
      ensures Valid()
      ensures forall k | k in dims :: Walked(dims, k, transitive[k], done + {leaf})
    {
      var ancestors := WalkParents(dims, leaf);
      ghost var before := transitive;
      for i := 0 to |ancestors|
        invariant Tagging(dims, before, transitive, leaf, done, ParentKeys(ancestors[..i]))
      {
        var a := ancestors[i];
        NextParent(ancestors, i);
        assert a in ancestors && a.parent in ParentKeys(ancestors);
        ghost var parents := ParentKeys(ancestors[..i]);
        if a.parent in dims {
          var r := Resolution(leaf, dims[leaf].source.value, a.column);
          TagOne(dims, a.parent, transitive[a.parent], r, done);
          TaggedNext(dims, before, transitive, leaf, done, parents, a.parent, Put(transitive[a.parent], r));
          transitive := transitive[a.parent := Put(transitive[a.parent], r)];
        } else {
          TaggedNext(dims, before, transitive, leaf, done, parents, a.parent, []);
        }
      }
      assert ancestors[..|ancestors|] == ancestors;
      forall k | k in dims && k !in ParentKeys(ancestors)
        ensures Walked(dims, k, transitive[k], done + {leaf})
      {
        WalkedWithout(dims, k, before[k], leaf, done);
      }
    }

    /** A ragged hierarchy is pointed at its leaf. */
    method PointAtLeaf(key: string) returns (rs: seq<Resolution>)
      requires Valid() && key in dims && Walked(dims, key, transitive[key], dims.Keys)
      ensures Closed(dims, key, rs)
    {
      var d := dims[key];
      rs := transitive[key];
      if d.ragged && d.leafDimension != "" && d.leafDimension in dims && dims[d.leafDimension].source.Some? {
        var r := Resolution(d.leafDimension, dims[d.leafDimension].source.value, "");
        PointRagged(dims, key, rs, r);
        rs := Put(rs, r);
      } else {
        NotRagged(dims, key, rs);
      }
    }

    method TagRagged()
      requires Valid()
      requires forall k | k in dims :: Walked(dims, k, transitive[k], dims.Keys)
      modifies this`transitive
      ensures Valid()
      ensures forall k | k in dims :: Closed(dims, k, transitive[k])
    {
      for i := 0 to |order|
        invariant Valid()
        invariant RaggedDone(dims, order[..i], transitive)
      {
        var key := order[i];
        NextIsNew(order, i);
        NextToDo(dims, order[..i], key, transitive);
        var rs := PointAtLeaf(key);
        OneMoreDone(dims, order[..i], key, transitive, rs);
        transitive := transitive[key := rs];
      }
      assert order[..|order|] == order;
      AllDone(dims, order, transitive);
    }

    method ComputeTransitiveClosure()
      requires Valid() && forall k | k in dims :: transitive[k] == []
      modifies this`transitive
      ensures Valid()
      ensures forall k | k in dims :: Closed(dims, k, transitive[k])
    {
      for i := 0 to |order|
        invariant Valid()
        invariant forall k | k in dims :: Walked(dims, k, transitive[k], Elements(order[..i]))
      {
        var key := order[i];
        assert key in Elements(order);
        assert Elements(order[..i + 1]) == Elements(order[..i]) + {key} by {
          assert order[..i + 1] == order[..i] + [key];
        }
        if dims[key].source.Some? {
          TagAncestors(key, Elements(order[..i]));
        }
      }
      assert order[..|order|] == order;
      TagRagged();
    }
  }

  lemma PutLeaves(rs: seq<Resolution>, r: Resolution)
    requires LeavesOnce(rs)
    ensures LeavesOf(Put(rs, r)) == LeavesOf(rs) + {r.leaf}
  {
    PutIs(rs, r);
    forall leaf
      ensures leaf in LeavesOf(Put(rs, r)) <==> leaf in LeavesOf(rs) || leaf == r.leaf
    {
      if leaf in LeavesOf(rs) {
        var x :| x in rs && x.leaf == leaf;
        assert leaf != r.leaf ==> x in Put(rs, r);
      }
    }
  }

  /** The leaf has been added at the given parents and nowhere else. */
  ghost predicate Tagging(dims: Dimensions, before: Closure, now: Closure, leaf: string, done: set<string>,
          parents: set<string>)
    requires before.Keys == dims.Keys
  {
    && now.Keys == dims.Keys
    && (forall k | k in dims && k !in parents :: now[k] == before[k])
    && (forall k | k in dims && k in parents :: Walked(dims, k, now[k], done + {leaf}))
  }

  lemma NextParent(links: seq<Link>, i: nat)
    requires i < |links| && ParentsOnce(links)
    ensures links[i].parent !in ParentKeys(links[..i])
    ensures ParentKeys(links[..i + 1]) == ParentKeys(links[..i]) + {links[i].parent}
  {
    assert links[..i + 1] == links[..i] + [links[i]];
  }

  lemma TaggedNext(dims: Dimensions, before: Closure, now: Closure, leaf: string, done: set<string>,
          parents: set<string>, parent: string, rs: seq<Resolution>)
    requires before.Keys == dims.Keys && Tagging(dims, before, now, leaf, done, parents)
    requires parent in dims ==> Walked(dims, parent, rs, done + {leaf})
    ensures Tagging(dims, before, if parent in dims then now[parent := rs] else now, leaf, done, parents + {parent})
  {
  }

  lemma TagOne(dims: Dimensions, key: string, rs: seq<Resolution>, r: Resolution, done: set<string>)
    requires key in dims && Walked(dims, key, rs, done) && r.leaf !in done
    requires IsLeaf(dims, r.leaf) && r.source == dims[r.leaf].source.value
    requires r.leaf != key && Ancestor(dims, r.leaf, key) && LinkColumn(dims, r.leaf, Link(key, r.column))
    ensures Walked(dims, key, Put(rs, r), done + {r.leaf})
  {
    PutIs(rs, r);
    PutLeaves(rs, r);
    assert Resolves(dims, key, r);
  }

  lemma WalkedWithout(dims: Dimensions, key: string, rs: seq<Resolution>, leaf: string, done: set<string>)
    requires Walked(dims, key, rs, done) && (leaf == key || !Ancestor(dims, leaf, key))
    ensures Walked(dims, key, rs, done + {leaf})
  {
  }

  lemma PointRagged(dims: Dimensions, key: string, rs: seq<Resolution>, r: Resolution)
    requires Walked(dims, key, rs, dims.Keys) && RaggedOver(dims, key, r.leaf)
    requires r.source == dims[r.leaf].source.value && r.column == ""
    ensures Closed(dims, key, Put(rs, r))
  {
    PutIs(rs, r);
    PutLeaves(rs, r);
    assert Resolves(dims, key, r);
  }

  lemma NotRagged(dims: Dimensions, key: string, rs: seq<Resolution>)
    requires Walked(dims, key, rs, dims.Keys) && forall leaf :: !RaggedOver(dims, key, leaf)
    ensures Closed(dims, key, rs)
  {
  }
}
