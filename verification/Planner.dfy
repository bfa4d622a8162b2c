/**
 * Metric planning: the closure of a request under formula references, and Kahn's
 * sort that puts every dependency before its dependents.
 */
module Planner {
  import opened Collections
  import opened Wrappers
  import opened Formulas
  import opened Graphs
  import opened TextOrder

  datatype Metric = Base | Derived(formula: Expr)

  type Catalogue = map<string, Metric>

  function Refs(cat: Catalogue, key: string): set<string>
    requires key in cat
  {
    match cat[key]
    case Base => {}
    case Derived(f) => MetricRefs(f)
  }

  /** The graph the loader checks for cycles. */
  function DependencyGraph(cat: Catalogue): Graph<string>
  {
    map key | key in cat :: Refs(cat, key) * cat.Keys
  }

  // ---------------------------------------------------------------------
  // What Kahn's sort produces
  // ---------------------------------------------------------------------

  ghost predicate ClosedGraph(g: Graph<string>)
  {
    forall k | k in g :: g[k] <= g.Keys
  }

  ghost function Ready(g: Graph<string>, done: set<string>): set<string>
  {
    set k | k in g && k !in done && g[k] <= done
  }

  /** Repeatedly take the alphabetically first node whose dependencies are all taken. */
  ghost function KahnOrder(g: Graph<string>, done: set<string>): seq<string>
    decreases g.Keys - done
  {
    var ready := Ready(g, done);
    if ready == {} then [] else [Least(ready)] + KahnOrder(g, done + {Least(ready)})
  }

  ghost predicate DependenciesFirst(g: Graph<string>, order: seq<string>)
  {
    && (forall i | 0 <= i < |order| :: order[i] in g)
    && (forall i, d | 0 <= i < |order| && d in g[order[i]] :: d in order[..i])
  }

  lemma {:induction false} KahnOrderSteps(g: Graph<string>, before: seq<string>, done: set<string>)
    requires done == set k | k in before
    requires Distinct(before) && DependenciesFirst(g, before)
    ensures
      var order := before + KahnOrder(g, done);
      && Distinct(order) && DependenciesFirst(g, order)
      && Ready(g, set k | k in order) == {}
    decreases g.Keys - done
  {
    var ready := Ready(g, done);
    if ready == {} {
      assert before + KahnOrder(g, done) == before;
    } else {
      var n := Least(ready);
      var next := before + [n];
      forall i, d | 0 <= i < |next| && d in g[next[i]]
        ensures d in next[..i]
      {
        if i < |before| {
          assert d in before[..i];
          assert next[..i] == before[..i];
        } else {
          assert next[..i] == before;
        }
      }
      KahnOrderSteps(g, next, done + {n});
      assert before + KahnOrder(g, done) == next + KahnOrder(g, done + {n});
    }
  }

  /** Every edge turned round. */
  ghost function Reverse(g: Graph<string>): Graph<string>
  {
    map n | n in g :: set k | k in g && n in g[k]
  }

  ghost function Reversed<T>(p: seq<T>): seq<T>
  {
    seq(|p|, i requires 0 <= i < |p| => p[|p| - 1 - i])
  }

  lemma ReversePath(g: Graph<string>, p: seq<string>)
    requires IsPath(g, p)
    ensures IsPath(Reverse(g), Reversed(p))
  {
    var q := Reversed(p);
    forall i, j | 0 <= i < |q| && 0 <= j < |q| && j == i + 1
      ensures q[j] in Reverse(g)[q[i]]
    {
      assert p[|p| - 1 - i] in g[p[|p| - 1 - j]];
    }
  }

  lemma ReverseTwice(g: Graph<string>)
    requires ClosedGraph(g)
    ensures Reverse(Reverse(g)) == g
  {
    forall n | n in g
      ensures Reverse(Reverse(g))[n] == g[n]
    {
    }
  }

  lemma AboveIsBelowReversed(g: Graph<string>, h: Graph<string>, n: string)
    requires h == Reverse(g) && n in AboveCycle(g)
    ensures n in BelowCycle(h)
  {
    var c :| IsCycle(g, c) && Reaches(g, n, c[0]);
    var p :| IsPathBetween(g, n, c[0], p);
    var d := Reversed(c);
    ReversePath(g, c);
    ReversePath(g, p);
    assert c[0] in g[c[|c| - 1]];
    assert IsCycle(h, d);
    assert IsPathBetween(h, c[0], n, Reversed(p));
    // Turn the reversed cycle so that it starts where the path does.
    var whole := [c[0]] + d[..|d| - 1];
    assert d == d[..|d| - 1] + [c[0]];
    RotateCycle(h, d);
    assert IsCycle(h, whole);
    assert whole[0] == c[0];
  }

  lemma RotateCycle(g: Graph<string>, c: seq<string>)
    requires IsCycle(g, c)
    ensures IsCycle(g, [c[|c| - 1]] + c[..|c| - 1])
  {
    var d := [c[|c| - 1]] + c[..|c| - 1];
    forall i, j | 0 <= i < |d| && 0 <= j < |d| && j == i + 1
      ensures d[j] in g[d[i]]
    {
      if i > 0 {
        assert c[i] in g[c[i - 1]];
      }
    }
    if |c| > 1 {
      assert c[|c| - 1] in g[c[|c| - 2]];
    }
  }

  lemma BelowReversedIsAbove(g: Graph<string>, n: string)
    requires ClosedGraph(g) && n in BelowCycle(Reverse(g))
    ensures n in AboveCycle(g)
  {
    var h := Reverse(g);
    ReverseTwice(g);
    var c :| IsCycle(h, c) && Reaches(h, c[0], n);
    var p :| IsPathBetween(h, c[0], n, p);
    RotateCycle(h, c);
    var d := [c[|c| - 1]] + c[..|c| - 1];
    ReversePath(h, c);
    ReversePath(h, p);
    var e := Reversed(c);
    assert c[0] in h[c[|c| - 1]];
    assert IsCycle(g, e);
    RotateCycle(g, e);
    var whole := [e[|e| - 1]] + e[..|e| - 1];
    assert whole[0] == c[0];
    assert IsPathBetween(g, n, c[0], Reversed(p));
  }

  lemma SortedAvoidsCycles(g: Graph<string>, order: seq<string>, n: string)
    requires DependenciesFirst(g, order) && n in order
    ensures n !in AboveCycle(g)
  {
    var h := Reverse(g);
    forall i, k | 0 <= i < |order| && k in h && order[i] in h[k]
      ensures k in order[..i]
    {
      assert k in g[order[i]];
    }
    OrderAvoidsCycles(h, order, n);
    if n in AboveCycle(g) {
      AboveIsBelowReversed(g, h, n);
      assert false;
    }
  }

  lemma DroppedDependsOnCycle(g: Graph<string>, listed: set<string>, n: string)
    requires ClosedGraph(g) && Ready(g, listed) == {}
    requires n in g && n !in listed
    ensures n in AboveCycle(g)
  {
    var h := Reverse(g);
    var live := g.Keys - listed;
    forall m {:trigger HasDependent(h, live, m)} | m in live
      ensures HasDependent(h, live, m)
    {
      assert m !in Ready(g, listed);
      var d :| d in g[m] && d !in listed;
      assert d in live && m in h[d];
    }
    BackClosedIsBelowCycle(h, live, n);
    BelowReversedIsAbove(g, n);
  }

  /**
   * The sort lists, once each and after their dependencies, exactly the nodes that do not
   * depend on a cycle; the others it drops without a word.
   */
  lemma KahnOrderExact(g: Graph<string>)
    requires ClosedGraph(g)
    ensures Distinct(KahnOrder(g, {})) && DependenciesFirst(g, KahnOrder(g, {}))
    ensures forall n | n in g :: n in KahnOrder(g, {}) <==> n !in AboveCycle(g)
  {
    var order := KahnOrder(g, {});
    KahnOrderSteps(g, [], {});
    assert [] + order == order;
    forall n | n in g
      ensures n in order <==> n !in AboveCycle(g)
    {
      if n in order {
        SortedAvoidsCycles(g, order, n);
      } else {
        DroppedDependsOnCycle(g, (set k | k in order), n);
      }
    }
  }

  lemma AboveCycleEmptyIffAcyclic(g: Graph<string>)
    ensures AboveCycle(g) == {} <==> Acyclic(g)
  {
    if !Acyclic(g) {
      var c :| IsCycle(g, c);
      SinglePath(g, c[0]);
      assert c[0] in AboveCycle(g);
    }
  }

  /** Nothing is dropped exactly when there is no cycle. */
  lemma SortKeepsAllIffAcyclic(g: Graph<string>)
    requires ClosedGraph(g)
    ensures |KahnOrder(g, {})| == |g| <==> Acyclic(g)
  {
    var order := KahnOrder(g, {});
    var listed := set k | k in order;
    KahnOrderExact(g);
    AboveCycleEmptyIffAcyclic(g);
    DistinctSize(order);
    assert |listed| == |order| && |g| == |g.Keys|;
    if listed == g.Keys {
      assert AboveCycle(g) == {};
    } else {
      var n :| n in g && n !in listed;
      assert n in AboveCycle(g);
      SubsetSize(listed, g.Keys - {n});
    }
  }

  lemma {:induction false} DistinctSize(s: seq<string>)
    requires Distinct(s)
    ensures |set x | x in s| == |s|
  {
    if s != [] {
      var front := s[..|s| - 1];
      DistinctSize(front);
      assert (set x | x in s) == (set x | x in front) + {s[|s| - 1]};
    }
  }

  lemma {:induction false} SubsetSize(a: set<string>, b: set<string>)
    requires a <= b
    ensures |a| <= |b|
  {
    if a != {} {
      var x :| x in a;
      SubsetSize(a - {x}, b - {x});
    }
  }

  // ---------------------------------------------------------------------
  // Kahn's sort
  // ---------------------------------------------------------------------

  /** Sorting the queue and taking its head: the alphabetically first member leaves. */
  method PopLeast(queue: seq<string>) returns (node: string, rest: seq<string>)
    requires queue != [] && Distinct(queue)
    ensures IsLeast(node, set k | k in queue)
    ensures Distinct(rest) && forall k :: k in rest <==> k in queue && k != node
  {
    var at := 0;
    AtMostTotal(queue[0], queue[0]);
    for i := 1 to |queue|
      invariant 0 <= at < i
      invariant forall j | 0 <= j < i :: AtMost(queue[at], queue[j])
    {
      AtMostTotal(queue[at], queue[i]);
      AtMostTotal(queue[i], queue[i]);
      if !AtMost(queue[at], queue[i]) {
        forall j | 0 <= j < i ensures AtMost(queue[i], queue[j]) {
          AtMostTransitive(queue[i], queue[at], queue[j]);
        }
        at := i;
      }
    }
    node, rest := queue[at], queue[..at] + queue[at + 1..];
    assert queue == queue[..at] + [node] + queue[at + 1..];
  }

  ghost function Pending(g: Graph<string>, done: set<string>, k: string): nat
    requires k in g
  {
    |g[k] - done|
  }

  lemma PendingAfter(g: Graph<string>, done: set<string>, node: string, k: string)
    requires k in g && node !in done
    ensures Pending(g, done + {node}, k) == Pending(g, done, k) - if node in g[k] then 1 else 0
    ensures Pending(g, done + {node}, k) == 0 <==> g[k] <= done + {node}
  {
    assert g[k] - (done + {node}) == g[k] - done - {node};
    if !(g[k] <= done + {node}) {
      var x :| x in g[k] && x !in done + {node};
      assert x in g[k] - (done + {node});
    } else {
      assert g[k] - (done + {node}) == {};
    }
  }

  /** Degrees count the dependencies not yet listed; the queue holds what is ready. */
  ghost predicate SortState(g: Graph<string>, degree: map<string, int>, queue: seq<string>, done: set<string>)
  {
    && degree.Keys == g.Keys
    && (forall k | k in g :: degree[k] == Pending(g, done, k))
    && Distinct(queue)
    && (forall k :: k in queue <==> k in Ready(g, done))
    && (forall k | k in done && k in g :: g[k] <= done)
  }

  /** Lowers the degree of everything that depends on the listed node, queueing what reaches zero. */
  method ReleaseDependents(g: Graph<string>, node: string, degree0: map<string, int>, queue0: seq<string>)
    returns (degree: map<string, int>, queue: seq<string>)
    requires degree0.Keys == g.Keys && Distinct(queue0)
    requires forall k | k in queue0 :: k in g && degree0[k] == 0
    ensures degree.Keys == g.Keys && Distinct(queue)
    ensures forall k | k in g :: degree[k] == degree0[k] - if node in g[k] then 1 else 0
    ensures forall k :: k in queue <==> k in queue0 || (k in g && node in g[k] && degree0[k] == 1)
  {
    degree, queue := degree0, queue0;
    var rest := g.Keys;
    while rest != {}
      invariant rest <= g.Keys && degree.Keys == g.Keys
      invariant forall k | k in g :: degree[k] == degree0[k] - if k !in rest && node in g[k] then 1 else 0
      invariant Distinct(queue)
      invariant forall k :: k in queue <==>
        k in queue0 || (k in g && k !in rest && node in g[k] && degree0[k] == 1)
    {
      var k :| k in rest;
      rest := rest - {k};
      if node in g[k] {
        degree := degree[k := degree[k] - 1];
        if degree[k] == 0 {
          queue := queue + [k];
        }
      }
    }
  }

  lemma ReleasedKey(g: Graph<string>, done: set<string>, node: string, degree0: map<string, int>, queue0: seq<string>,
          k: string)
    requires SortState(g, degree0, queue0, done) && node in Ready(g, done) && k in g
    ensures degree0[k] - (if node in g[k] then 1 else 0) == Pending(g, done + {node}, k)
    ensures (k in queue0 && k != node) || (node in g[k] && degree0[k] == 1) <==> k in Ready(g, done + {node})
  {
    PendingAfter(g, done, node, k);
    if k in done {
      assert g[k] - done == {};
    }
  }

  lemma ReleaseAdvances(g: Graph<string>, done: set<string>, node: string, degree0: map<string, int>,
          queue0: seq<string>, waiting: seq<string>, degree: map<string, int>, queue: seq<string>)
    requires SortState(g, degree0, queue0, done) && node in Ready(g, done)
    requires forall k :: k in waiting <==> k in queue0 && k != node
    requires degree.Keys == g.Keys && Distinct(queue)
    requires forall k | k in g :: degree[k] == degree0[k] - if node in g[k] then 1 else 0
    requires forall k :: k in queue <==> k in waiting || (k in g && node in g[k] && degree0[k] == 1)
    ensures SortState(g, degree, queue, done + {node})
  {
    forall k | k in g
      ensures degree[k] == Pending(g, done + {node}, k)
      ensures k in queue <==> k in Ready(g, done + {node})
    {
      ReleasedKey(g, done, node, degree0, queue0, k);
    }
  }

  lemma ReadyHaveNoDegree(g: Graph<string>, degree: map<string, int>, queue: seq<string>, done: set<string>)
    requires SortState(g, degree, queue, done)
    ensures forall k | k in queue :: k in g && degree[k] == 0
    ensures (set k | k in queue) == Ready(g, done)
  {
    forall k | k in queue ensures degree[k] == 0 {
      assert g[k] - done == {};
    }
  }

  lemma StartOne(g: Graph<string>, k: string)
    requires k in g
    ensures Pending(g, {}, k) == |g[k]|
    ensures |g[k]| == 0 <==> k in Ready(g, {})
  {
    var deps := g[k];
    assert deps - {} == deps;
    assert |deps| == 0 <==> deps <= {};
  }

  lemma StartState(g: Graph<string>, degree: map<string, int>, queue: seq<string>)
    requires degree.Keys == g.Keys && forall k | k in g :: degree[k] == |g[k]|
    requires Distinct(queue) && forall k :: k in queue <==> k in degree && degree[k] == 0
    ensures SortState(g, degree, queue, {})
  {
    forall k | k in g
      ensures degree[k] == Pending(g, {}, k) && (k in queue <==> k in Ready(g, {}))
    {
      StartOne(g, k);
    }
  }

  lemma TakeLeast(g: Graph<string>, done: set<string>, node: string, order: seq<string>)
    requires IsLeast(node, Ready(g, done))
    ensures order + KahnOrder(g, done) == order + [node] + KahnOrder(g, done + {node})
  {
    LeastUnique(node, Ready(g, done));
  }

  /** One round: the first ready node leaves the queue and its dependents are released. */
  method TakeNext(g: Graph<string>, degree0: map<string, int>, queue0: seq<string>, ghost done: set<string>)
    returns (node: string, degree: map<string, int>, queue: seq<string>)
    requires SortState(g, degree0, queue0, done) && queue0 != []
    ensures IsLeast(node, Ready(g, done))
    ensures SortState(g, degree, queue, done + {node})
  {
    ReadyHaveNoDegree(g, degree0, queue0, done);
    var waiting;
    node, waiting := PopLeast(queue0);
    degree, queue := ReleaseDependents(g, node, degree0, waiting);
    ReleaseAdvances(g, done, node, degree0, queue0, waiting, degree, queue);
  }

  /** In-degrees, and the nodes without dependencies queued. */
  method Start(g: Graph<string>) returns (degree: map<string, int>, queue: seq<string>)
    ensures SortState(g, degree, queue, {})
  {
    degree := map k | k in g :: |g[k]|;
    queue := KeysWhere(degree, d => d == 0);
    StartState(g, degree, queue);
  }

  lemma NothingReady(g: Graph<string>, degree: map<string, int>, done: set<string>)
    requires SortState(g, degree, [], done)
    ensures KahnOrder(g, done) == []
  {
    assert Ready(g, done) == {};
  }

  /** Kahn's sort over in-degrees computes exactly the order specified above. */
  method KahnSort(g: Graph<string>) returns (order: seq<string>)
    ensures order == KahnOrder(g, {})
  {
    var degree, queue := Start(g);
    ghost var done: set<string> := {};
    order := [];
    assert [] + KahnOrder(g, {}) == KahnOrder(g, {});
    while queue != []
      invariant SortState(g, degree, queue, done)
      invariant order + KahnOrder(g, done) == KahnOrder(g, {})
      decreases g.Keys - done
    {
      var node;
      node, degree, queue := TakeNext(g, degree, queue, done);
      TakeLeast(g, done, node, order);
      order, done := order + [node], done + {node};
    }
    NothingReady(g, degree, done);
    assert order + [] == order;
  }

  // ---------------------------------------------------------------------
  // The closure of a request
  // ---------------------------------------------------------------------

  /** Everything the requested keys need, themselves included. */
  ghost function Closure(cat: Catalogue, requested: set<string>): set<string>
  {
    set n | n in cat && exists r :: r in requested && Reaches(DependencyGraph(cat), r, n)
  }

  /** A key the request needs is not in the catalogue. */
  ghost predicate NeedsUnknown(cat: Catalogue, requested: set<string>)
  {
    || !(requested <= cat.Keys)
    || exists n :: n in Closure(cat, requested) && !(Refs(cat, n) <= cat.Keys)
  }

  ghost predicate Wanted(cat: Catalogue, requested: set<string>, key: string)
  {
    key in requested || exists n :: n in Closure(cat, requested) && key in Refs(cat, n)
  }

  lemma WantedIsClosure(cat: Catalogue, requested: set<string>, key: string)
    requires Wanted(cat, requested, key) && key in cat
    ensures key in Closure(cat, requested)
  {
    var g := DependencyGraph(cat);
    if key in requested {
      SinglePath(g, key);
    } else {
      var n :| n in Closure(cat, requested) && key in Refs(cat, n);
      var r :| r in requested && Reaches(g, r, n);
      PathStep(g, r, n, key);
    }
  }

  lemma {:induction false} ClosedHoldsPaths(cat: Catalogue, all: set<string>, p: seq<string>)
    requires all <= cat.Keys && forall k | k in all :: Refs(cat, k) <= all
    requires IsPath(DependencyGraph(cat), p) && p[0] in all
    ensures p[|p| - 1] in all
    decreases |p|
  {
    if |p| > 1 {
      assert p[1] in DependencyGraph(cat)[p[0]];
      ClosedHoldsPaths(cat, all, p[1..]);
    }
  }

  /** What the worklist has still to do: everything wanted is either taken or waiting. */
  ghost predicate WorkState(cat: Catalogue, requested: set<string>, all: set<string>, waiting: set<string>)
  {
    && all <= Closure(cat, requested)
    && (forall k | k in waiting :: Wanted(cat, requested, k))
    && requested <= all + waiting
    && (forall n | n in all :: Refs(cat, n) <= all + waiting)
  }

  lemma NothingWaiting(cat: Catalogue, requested: set<string>, all: set<string>)
    requires WorkState(cat, requested, all, {})
    ensures all == Closure(cat, requested) && !NeedsUnknown(cat, requested)
  {
    forall n | n in Closure(cat, requested)
      ensures n in all
    {
      var a :| a in requested && Reaches(DependencyGraph(cat), a, n);
      var p :| IsPathBetween(DependencyGraph(cat), a, n, p);
      ClosedHoldsPaths(cat, all, p);
    }
  }

  lemma AlreadyTaken(cat: Catalogue, requested: set<string>, all: set<string>, waiting: set<string>, key: string)
    requires WorkState(cat, requested, all, waiting) && key in all
    ensures WorkState(cat, requested, all, waiting - {key})
  {
  }

  lemma TakeKey(cat: Catalogue, requested: set<string>, all: set<string>, waiting: set<string>, key: string)
    requires WorkState(cat, requested, all, waiting) && key in waiting && key in cat
    ensures WorkState(cat, requested, all + {key}, waiting - {key} + (Refs(cat, key) - all))
    ensures WorkState(cat, requested, all + {key}, waiting + (Refs(cat, key) - all))
  {
    WantedIsClosure(cat, requested, key);
    forall k | k in Refs(cat, key) - all ensures Wanted(cat, requested, k) {
    }
  }

  /** The worklist: the closure, or failure exactly when something needed is unknown. */
  method CollectKeys(cat: Catalogue, requested: set<string>) returns (r: Result<set<string>, string>)
    ensures r.Err? <==> NeedsUnknown(cat, requested)
    ensures r.Ok? ==> r.value == Closure(cat, requested)
  {
    var all: set<string> := {};
    var toVisit := ListOf(requested);
    while toVisit != []
      invariant WorkState(cat, requested, all, Elements(toVisit))
      decreases cat.Keys - all, |toVisit|
    {
      var key := toVisit[|toVisit| - 1];
      var rest := toVisit[..|toVisit| - 1];
      assert key in toVisit && Wanted(cat, requested, key);
      LastOut(toVisit);
      if key in all {
        AlreadyTaken(cat, requested, all, Elements(toVisit), key);
        toVisit := rest;
      } else if key !in cat {
        return Err(key);
      } else {
        TakeKey(cat, requested, all, Elements(toVisit), key);
        var more := ListOf(Refs(cat, key) - all);
        assert Elements(rest + more) == Elements(rest) + (Refs(cat, key) - all);
        all := all + {key};
        toVisit := rest + more;
      }
    }
    assert Elements(toVisit) == {};
    NothingWaiting(cat, requested, all);
    r := Ok(all);
  }

  lemma LastOut(s: seq<string>)
    requires s != []
    ensures Elements(s[..|s| - 1]) == Elements(s) - {s[|s| - 1]} || Elements(s[..|s| - 1]) == Elements(s)
  {
    assert s == s[..|s| - 1] + [s[|s| - 1]];
  }

  method ListOf(keys: set<string>) returns (s: seq<string>)
    ensures forall k :: k in s <==> k in keys
  {
    s := [];
    var rest := keys;
    while rest != {}
      invariant rest <= keys
      invariant forall k :: k in s <==> k in keys && k !in rest
    {
      var k :| k in rest;
      rest := rest - {k};
      s := s + [k];
    }
  }

  // ---------------------------------------------------------------------
  // The plan
  // ---------------------------------------------------------------------

  datatype Plan = Plan(all: seq<string>, base: seq<string>, derived: seq<string>)

  /** The graph the planner sorts: needed keys only. */
  function PlanGraph(cat: Catalogue, all: set<string>): Graph<string>
  {
    map key | key in all && key in cat :: Refs(cat, key) * all
  }

  function DerivedOnly(cat: Catalogue, keys: seq<string>): seq<string>
  {
    if keys == [] then []
    else if keys[0] in cat && cat[keys[0]].Derived? then [keys[0]] + DerivedOnly(cat, keys[1..])
    else DerivedOnly(cat, keys[1..])
  }

  function BaseOnly(cat: Catalogue, keys: seq<string>): seq<string>
  {
    if keys == [] then []
    else if keys[0] in cat && cat[keys[0]].Base? then [keys[0]] + BaseOnly(cat, keys[1..])
    else BaseOnly(cat, keys[1..])
  }

  /** The two parts of a plan hold its base and its derived keys, and no others. */
  lemma {:induction false} PlanParts(cat: Catalogue, keys: seq<string>)
    ensures forall k :: k in BaseOnly(cat, keys) <==> k in keys && k in cat && cat[k].Base?
    ensures forall k :: k in DerivedOnly(cat, keys) <==> k in keys && k in cat && cat[k].Derived?
    ensures |BaseOnly(cat, keys)| + |DerivedOnly(cat, keys)| <= |keys|
  {
    if keys != [] {
      PlanParts(cat, keys[1..]);
      assert forall k :: k in keys <==> k == keys[0] || k in keys[1..];
    }
  }

  method ResolveDependencies(cat: Catalogue, requested: set<string>) returns (r: Result<Plan, string>)
    ensures r.Err? <==> NeedsUnknown(cat, requested)
    ensures r.Ok? ==>
      && r.value.all == KahnOrder(PlanGraph(cat, Closure(cat, requested)), {})
      && r.value.base == BaseOnly(cat, r.value.all)
      && r.value.derived == DerivedOnly(cat, r.value.all)
      && (forall k | k in r.value.all :: k in cat)
      && (forall k :: k in r.value.base <==> k in r.value.all && cat[k].Base?)
      && (forall k :: k in r.value.derived <==> k in r.value.all && cat[k].Derived?)
  {
    var keys := CollectKeys(cat, requested);
    if keys.Err? {
      return Err(keys.error);
    }
    var order := KahnSort(PlanGraph(cat, keys.value));
    PlanParts(cat, order);
    PlanExact(cat, requested);
    r := Ok(Plan(order, BaseOnly(cat, order), DerivedOnly(cat, order)));
  }

  lemma {:induction false} PathStaysInClosure(cat: Catalogue, requested: set<string>, p: seq<string>)
    requires IsPath(DependencyGraph(cat), p) && p[0] in Closure(cat, requested)
    ensures IsPath(PlanGraph(cat, Closure(cat, requested)), p)
  {
    var g, all := DependencyGraph(cat), Closure(cat, requested);
    var r :| r in requested && Reaches(g, r, p[0]);
    forall i | 0 <= i < |p|
      ensures p[i] in all
    {
      assert IsPathBetween(g, p[0], p[i], p[..i + 1]);
      ReachesTransitive(g, r, p[0], p[i]);
    }
    forall i, j | 0 <= i < |p| && 0 <= j < |p| && j == i + 1
      ensures p[j] in PlanGraph(cat, all)[p[i]]
    {
      assert p[j] in g[p[i]];
    }
  }

  lemma PlanPathIsPath(cat: Catalogue, all: set<string>, p: seq<string>)
    requires IsPath(PlanGraph(cat, all), p)
    ensures IsPath(DependencyGraph(cat), p)
  {
    var h := PlanGraph(cat, all);
    forall i, j | 0 <= i < |p| && 0 <= j < |p| && j == i + 1
      ensures p[j] in DependencyGraph(cat)[p[i]]
    {
      assert p[j] in h[p[i]];
    }
  }

  lemma PlanCyclesAreCatalogueCycles(cat: Catalogue, requested: set<string>, n: string)
    requires n in Closure(cat, requested)
    ensures n in AboveCycle(PlanGraph(cat, Closure(cat, requested))) <==> n in AboveCycle(DependencyGraph(cat))
  {
    var g, all := DependencyGraph(cat), Closure(cat, requested);
    var h := PlanGraph(cat, all);
    if n in AboveCycle(h) {
      var c :| IsCycle(h, c) && Reaches(h, n, c[0]);
      var p :| IsPathBetween(h, n, c[0], p);
      PlanPathIsPath(cat, all, c);
      PlanPathIsPath(cat, all, p);
      assert IsCycle(g, c) && IsPathBetween(g, n, c[0], p);
    }
    if n in AboveCycle(g) {
      var c :| IsCycle(g, c) && Reaches(g, n, c[0]);
      var p :| IsPathBetween(g, n, c[0], p);
      PathStaysInClosure(cat, requested, p);
      assert c[0] in h;
      PathStaysInClosure(cat, requested, c);
      assert c[0] in g[c[|c| - 1]];
      assert IsCycle(h, c) && IsPathBetween(h, n, c[0], p);
    }
  }

  /** Every reference of a listed key is listed before it. */
  ghost predicate RefsFirst(cat: Catalogue, order: seq<string>)
  {
    && (forall i | 0 <= i < |order| :: order[i] in cat)
    && (forall i, d | 0 <= i < |order| && d in Refs(cat, order[i]) :: d in order[..i])
  }

  /**
   * The plan of a known request: distinct keys, references first, and a needed key is left
   * out exactly when it depends on a formula cycle.
   */
  lemma PlanExact(cat: Catalogue, requested: set<string>)
    requires !NeedsUnknown(cat, requested)
    ensures
      var order := KahnOrder(PlanGraph(cat, Closure(cat, requested)), {});
      && Distinct(order) && RefsFirst(cat, order)
      && forall n :: n in order <==> n in Closure(cat, requested) && n !in AboveCycle(DependencyGraph(cat))
  {
    var all := Closure(cat, requested);
    var h := PlanGraph(cat, all);
    var order := KahnOrder(h, {});
    KahnOrderExact(h);
    assert h.Keys == all;
    forall n
      ensures n in order <==> n in all && n !in AboveCycle(DependencyGraph(cat))
    {
      if n in all {
        PlanCyclesAreCatalogueCycles(cat, requested, n);
      }
    }
    PlanOrderIsRefsFirst(cat, requested, order);
  }

  lemma PlanOrderIsRefsFirst(cat: Catalogue, requested: set<string>, order: seq<string>)
    requires !NeedsUnknown(cat, requested)
    requires DependenciesFirst(PlanGraph(cat, Closure(cat, requested)), order)
    ensures RefsFirst(cat, order)
  {
    var h := PlanGraph(cat, Closure(cat, requested));
    forall i, d | 0 <= i < |order| && d in Refs(cat, order[i])
      ensures d in order[..i]
    {
      assert Wanted(cat, requested, d);
      WantedIsClosure(cat, requested, d);
      assert d in h[order[i]];
    }
  }

  /** With the loader's check passed, the plan is the whole closure, dependencies first. */
  lemma CheckedPlanIsComplete(cat: Catalogue, requested: set<string>)
    requires !NeedsUnknown(cat, requested) && Acyclic(DependencyGraph(cat))
    ensures
      var order := KahnOrder(PlanGraph(cat, Closure(cat, requested)), {});
      && Distinct(order) && RefsFirst(cat, order)
      && (set n | n in order) == Closure(cat, requested)
  {
    PlanExact(cat, requested);
    AboveCycleEmptyIffAcyclic(DependencyGraph(cat));
  }

  /** Without it the sort drops keys in silence: a metric that refers to itself is planned away. */
  lemma UncheckedPlanDropsKeys()
    ensures
      var cat: Catalogue := map["m" := Derived(Name("m"))];
      !NeedsUnknown(cat, {"m"}) && KahnOrder(PlanGraph(cat, Closure(cat, {"m"})), {}) == []
  {
    var cat: Catalogue := map["m" := Derived(Name("m"))];
    var g := DependencyGraph(cat);
    SinglePath(g, "m");
    var order := KahnOrder(PlanGraph(cat, Closure(cat, {"m"})), {});
    assert IsCycle(g, ["m"]);
    assert "m" in AboveCycle(g);
    PlanExact(cat, {"m"});
    DistinctSize(order);
    assert (set n | n in order) == {};
  }
}
