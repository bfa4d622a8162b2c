/**
 * Dependency graphs and the catalogue loader's cycle check.
 *
 * A graph maps every node to the nodes it depends on.  A dependency that is not
 * itself a node is ignored, as the loader ignores it.
 */
module Graphs {
  import opened Collections
  import opened Wrappers

  type Graph<T(==)> = map<T, set<T>>

  // ---------------------------------------------------------------------
  // Paths and cycles
  // ---------------------------------------------------------------------

  ghost predicate IsPath<T(!new)>(g: Graph<T>, p: seq<T>)
  {
    && p != []
    && (forall i | 0 <= i < |p| :: p[i] in g)
    && (forall i, j | 0 <= i < |p| && 0 <= j < |p| && j == i + 1 :: p[j] in g[p[i]])
  }

  ghost predicate IsPathBetween<T(!new)>(g: Graph<T>, a: T, b: T, p: seq<T>)
  {
    IsPath(g, p) && p[0] == a && p[|p| - 1] == b
  }

  ghost predicate Reaches<T(!new)>(g: Graph<T>, a: T, b: T)
  {
    exists p :: IsPathBetween(g, a, b, p)
  }

  ghost predicate IsCycle<T(!new)>(g: Graph<T>, p: seq<T>)
  {
    IsPath(g, p) && p[0] in g[p[|p| - 1]]
  }

  ghost predicate Acyclic<T(!new)>(g: Graph<T>)
  {
    forall p :: !IsCycle(g, p)
  }

  /** The nodes some cycle depends on, directly or through others. */
  ghost function BelowCycle<T(!new)>(g: Graph<T>): set<T>
  {
    set n | n in g && exists p :: IsCycle(g, p) && Reaches(g, p[0], n)
  }

  /** The nodes that depend on some cycle, directly or through others. */
  ghost function AboveCycle<T(!new)>(g: Graph<T>): set<T>
  {
    set n | n in g && exists p :: IsCycle(g, p) && Reaches(g, n, p[0])
  }

  lemma SinglePath<T(!new)>(g: Graph<T>, n: T)
    requires n in g
    ensures IsPathBetween(g, n, n, [n]) && Reaches(g, n, n)
  {
    assert IsPathBetween(g, n, n, [n]);
  }

  lemma PathStep<T(!new)>(g: Graph<T>, a: T, b: T, d: T)
    requires Reaches(g, a, b) && d in g && d in g[b]
    ensures Reaches(g, a, d)
  {
    var p :| IsPathBetween(g, a, b, p);
    assert IsPathBetween(g, a, d, p + [d]);
  }

  lemma PathPrepend<T(!new)>(g: Graph<T>, a: T, d: T, b: T)
    requires a in g && d in g[a] && Reaches(g, d, b)
    ensures Reaches(g, a, b)
  {
    var p :| IsPathBetween(g, d, b, p);
    assert IsPathBetween(g, a, b, [a] + p);
  }

  lemma ReachesTransitive<T(!new)>(g: Graph<T>, a: T, b: T, c: T)
    requires Reaches(g, a, b) && Reaches(g, b, c)
    ensures Reaches(g, a, c)
  {
    var p :| IsPathBetween(g, a, b, p);
    var q :| IsPathBetween(g, b, c, q);
    assert IsPathBetween(g, a, c, p + q[1..]);
  }

  /** A sequence longer than the set it draws from repeats an element. */
  lemma {:induction false} Pigeonhole<T(!new)>(s: seq<T>, pool: set<T>) returns (i: nat, j: nat)
    requires forall k | 0 <= k < |s| :: s[k] in pool
    requires |s| > |pool|
    ensures i < j < |s| && s[i] == s[j]
  {
    var last := |s| - 1;
    if k :| 0 <= k < last && s[k] == s[last] {
      return k, last;
    }
    i, j := Pigeonhole(s[..last], pool - {s[last]});
  }

  /** A node that reaches itself through one of its dependencies closes a cycle. */
  lemma LoopIsCycle<T(!new)>(g: Graph<T>, a: T, d: T)
    requires a in g && d in g[a] && Reaches(g, d, a)
    ensures !Acyclic(g)
  {
    var p :| IsPathBetween(g, d, a, p);
    assert IsCycle(g, p);
  }

  // ---------------------------------------------------------------------
  // Sets with no first and no last element
  // ---------------------------------------------------------------------

  ghost predicate HasDependent<T(!new)>(g: Graph<T>, live: set<T>, n: T)
    requires live <= g.Keys
  {
    exists k :: k in live && n in g[k]
  }

  /** Every member has a dependent inside the set. */
  ghost predicate BackClosed<T(!new)>(g: Graph<T>, live: set<T>)
  {
    live <= g.Keys && forall n {:trigger HasDependent(g, live, n)} :: n in live ==> HasDependent(g, live, n)
  }

  lemma {:induction false} WalkBack<T(!new)>(g: Graph<T>, live: set<T>, n: T, len: nat) returns (p: seq<T>)
    requires BackClosed(g, live) && n in live && len > 0
    ensures |p| == len && IsPath(g, p) && p[len - 1] == n
    ensures forall i | 0 <= i < len :: p[i] in live
    decreases len
  {
    if len == 1 {
      p := [n];
    } else {
      assert HasDependent(g, live, n);
      var k :| k in live && n in g[k];
      var q := WalkBack(g, live, k, len - 1);
      p := q + [n];
      assert forall i | 0 <= i < len - 1 :: p[i] == q[i];
    }
  }

  /** Walking back for ever inside a finite set must close a cycle. */
  lemma BackClosedIsBelowCycle<T(!new)>(g: Graph<T>, live: set<T>, n: T)
    requires BackClosed(g, live) && n in live
    ensures n in BelowCycle(g)
  {
    var p := WalkBack(g, live, n, |live| + 1);
    var i, j := Pigeonhole(p, live);
    var c := p[i..j];
    assert c[|c| - 1] == p[j - 1];
    assert IsCycle(g, c);
    assert IsPathBetween(g, c[0], n, p[i..]);
  }

  // ---------------------------------------------------------------------
  // Peeling orders
  // ---------------------------------------------------------------------

  /** Nodes listed so that every dependent of a listed node comes before it. */
  ghost predicate DependentsFirst<T(!new)>(g: Graph<T>, order: seq<T>)
  {
    && (forall i | 0 <= i < |order| :: order[i] in g)
    && (forall i, k | 0 <= i < |order| && k in g && order[i] in g[k] :: k in order[..i])
  }

  lemma {:induction false} NoCycleReachesOrder<T(!new)>(g: Graph<T>, order: seq<T>, p: seq<T>, i: nat)
    requires DependentsFirst(g, order) && IsPath(g, p)
    requires i < |order| && p[|p| - 1] == order[i]
    ensures p[0] in order[..i + 1]
    decreases |p|
  {
    if |p| > 1 {
      var q := p[..|p| - 1];
      assert p[|p| - 1] in g[q[|q| - 1]];
      assert q[|q| - 1] in order[..i];
      var j :| 0 <= j < i && order[j] == q[|q| - 1];
      NoCycleReachesOrder(g, order, q, j);
    }
  }

  lemma {:induction false} CycleAvoidsOrder<T(!new)>(g: Graph<T>, order: seq<T>, c: seq<T>, i: nat)
    requires DependentsFirst(g, order) && IsCycle(g, c) && i < |order|
    ensures c[0] != order[i]
    decreases i
  {
    if c[0] == order[i] {
      assert c[|c| - 1] in order[..i];
      var j :| 0 <= j < i && order[j] == c[|c| - 1];
      NoCycleReachesOrder(g, order, c, j);
      var k :| 0 <= k < j + 1 && order[k] == c[0];
      CycleAvoidsOrder(g, order, c, k);
      assert false;
    }
  }

  lemma OrderAvoidsCycles<T(!new)>(g: Graph<T>, order: seq<T>, n: T)
    requires DependentsFirst(g, order) && n in order
    ensures n !in BelowCycle(g)
  {
    if n in BelowCycle(g) {
      var c :| IsCycle(g, c) && Reaches(g, c[0], n);
      var p :| IsPathBetween(g, c[0], n, p);
      var i :| 0 <= i < |order| && order[i] == n;
      NoCycleReachesOrder(g, order, p, i);
      var k :| 0 <= k < i + 1 && order[k] == c[0];
      CycleAvoidsOrder(g, order, c, k);
      assert false;
    }
  }

  lemma BelowCycleEmptyIffAcyclic<T(!new)>(g: Graph<T>)
    ensures BelowCycle(g) == {} <==> Acyclic(g)
  {
    if !Acyclic(g) {
      var c :| IsCycle(g, c);
      SinglePath(g, c[0]);
      assert c[0] in BelowCycle(g);
    }
  }

  // ---------------------------------------------------------------------
  // Kahn's check
  // ---------------------------------------------------------------------

  /** The members of `live` that depend on `n`. */
  ghost function Dependents<T(!new)>(g: Graph<T>, live: set<T>, n: T): set<T>
  {
    set k | k in live && k in g && n in g[k]
  }

  ghost function DependentCount<T(!new)>(g: Graph<T>, live: set<T>, n: T): nat
  {
    |Dependents(g, live, n)|
  }

  lemma DependentsAdd<T(!new)>(g: Graph<T>, live: set<T>, k: T)
    requires k in g && k !in live
    ensures forall n :: DependentCount(g, live + {k}, n) == DependentCount(g, live, n) + if n in g[k] then 1 else 0
  {
    forall n
      ensures DependentCount(g, live + {k}, n) == DependentCount(g, live, n) + if n in g[k] then 1 else 0
    {
      assert Dependents(g, live + {k}, n) == Dependents(g, live, n) + if n in g[k] then {k} else {};
    }
  }

  method CountDependents<T(==,!new)>(g: Graph<T>) returns (degree: map<T, int>)
    ensures degree.Keys == g.Keys
    ensures forall n | n in g :: degree[n] == DependentCount(g, g.Keys, n)
  {
    degree := map n | n in g :: 0;
    var rest := g.Keys;
    ghost var seen: set<T> := {};
    while rest != {}
      invariant forall n :: n in g <==> n in rest || n in seen
      invariant forall n :: n in rest ==> n !in seen
      invariant degree.Keys == g.Keys
      invariant forall n | n in g :: degree[n] == DependentCount(g, seen, n)
    {
      var k :| k in rest;
      degree := AddEach(degree, g[k]);
      DependentsAdd(g, seen, k);
      rest := rest - {k};
      seen := seen + {k};
    }
    assert seen == g.Keys;
  }

  method AddEach<T(==)>(before: map<T, int>, deps: set<T>) returns (degree: map<T, int>)
    ensures degree.Keys == before.Keys
    ensures forall n | n in before :: degree[n] == before[n] + if n in deps then 1 else 0
  {
    degree := before;
    var rest := deps;
    while rest != {}
      invariant rest <= deps && degree.Keys == before.Keys
      invariant forall n | n in before :: degree[n] == before[n] + if n in deps - rest then 1 else 0
    {
      var dep :| dep in rest;
      if dep in degree {
        degree := degree[dep := degree[dep] + 1];
      }
      rest := rest - {dep};
    }
  }

  /** What holds between two pops: degrees count the live dependents, and the queue holds the live nodes without any. */
  ghost predicate PeelState<T(!new)>(g: Graph<T>, degree: map<T, int>, queue: seq<T>, live: set<T>)
  {
    && degree.Keys == g.Keys
    && live <= g.Keys
    && (forall n | n in g :: degree[n] == DependentCount(g, live, n))
    && Distinct(queue)
    && (forall n :: n in queue <==> n in live && degree[n] == 0)
    && (forall n | n in g && n !in live :: degree[n] == 0)
  }

  /** Takes one dependent away from each dependency of the popped node, queueing those left with none. */
  method Release<T(==,!new)>(g: Graph<T>, node: T, degree0: map<T, int>, queue0: seq<T>, ghost live: set<T>)
    returns (degree: map<T, int>, queue: seq<T>)
    requires node in g && live <= g.Keys && degree0.Keys == g.Keys
    requires forall n | n in g :: degree0[n] == DependentCount(g, live, n) + if n in g[node] then 1 else 0
    requires Distinct(queue0)
    requires forall n :: n in queue0 <==> n in live && degree0[n] == 0
    requires forall n | n in g && n !in live :: degree0[n] == 0
    ensures PeelState(g, degree, queue, live)
  {
    degree, queue := degree0, queue0;
    var rest := g[node];
    while rest != {}
      invariant degree.Keys == g.Keys
      invariant rest <= g[node]
      invariant forall n | n in g :: degree[n] == DependentCount(g, live, n) + if n in rest then 1 else 0
      invariant Distinct(queue)
      invariant forall n :: n in queue <==> n in live && degree[n] == 0
      invariant forall n | n in g && n !in live :: degree[n] == 0
    {
      var dep :| dep in rest;
      rest := rest - {dep};
      if dep in degree {
        assert dep !in queue;
        degree := degree[dep := degree[dep] - 1];
        if degree[dep] == 0 {
          queue := queue + [dep];
        }
      }
    }
  }

  /** What the pop of the last queued node leaves to be released. */
  lemma PopLast<T(!new)>(g: Graph<T>, degree: map<T, int>, queue: seq<T>, live: set<T>)
    requires PeelState(g, degree, queue, live) && queue != []
    ensures
      var node, rest, live' := queue[|queue| - 1], queue[..|queue| - 1], live - {queue[|queue| - 1]};
      && node in live && DependentCount(g, live, node) == 0
      && (forall n | n in g :: degree[n] == DependentCount(g, live', n) + if n in g[node] then 1 else 0)
      && Distinct(rest)
      && (forall n :: n in rest <==> n in live' && degree[n] == 0)
      && (forall n | n in g && n !in live' :: degree[n] == 0)
  {
    var node, rest := queue[|queue| - 1], queue[..|queue| - 1];
    assert queue == rest + [node];
    assert node in queue;
    DependentsAdd(g, live - {node}, node);
    assert live - {node} + {node} == live;
  }

  ghost predicate Listed<T(!new)>(g: Graph<T>, order: seq<T>, live: set<T>)
  {
    DependentsFirst(g, order) && forall n | n in g :: n in live <==> n !in order
  }

  lemma ListNext<T(!new)>(g: Graph<T>, order: seq<T>, live: set<T>, node: T)
    requires live <= g.Keys && Listed(g, order, live)
    requires node in live && DependentCount(g, live, node) == 0
    ensures Listed(g, order + [node], live - {node})
  {
    var next := order + [node];
    forall i, k | 0 <= i < |next| && k in g && next[i] in g[k]
      ensures k in next[..i]
    {
      if i < |order| {
        assert k in order[..i];
        assert next[..i] == order[..i];
      } else {
        assert k !in Dependents(g, live, node);
        assert next[..i] == order;
      }
    }
  }

  /** When the queue runs dry the live nodes are exactly those a cycle depends on. */
  lemma LeftOverIsBelowCycle<T(!new)>(g: Graph<T>, degree: map<T, int>, order: seq<T>, live: set<T>)
    requires PeelState(g, degree, [], live) && Listed(g, order, live)
    ensures live == BelowCycle(g)
    ensures forall n | n in g :: n in live <==> degree[n] > 0
  {
    forall n {:trigger HasDependent(g, live, n)} | n in live
      ensures HasDependent(g, live, n)
    {
      var k :| k in Dependents(g, live, n);
    }
    forall n | n in g
      ensures n in live <==> n in BelowCycle(g)
    {
      if n in live {
        BackClosedIsBelowCycle(g, live, n);
      } else {
        OrderAvoidsCycles(g, order, n);
      }
    }
  }

  /** One turn of the loader's loop: the last queued node is popped and released. */
  method TakeLast<T(==,
          !new)>(g: Graph<T>, degree0: map<T, int>, queue0: seq<T>, ghost order0: seq<T>, ghost live0: set<T>)
    returns (degree: map<T, int>, queue: seq<T>, ghost order: seq<T>, ghost live: set<T>)
    requires PeelState(g, degree0, queue0, live0) && Listed(g, order0, live0) && queue0 != []
    ensures PeelState(g, degree, queue, live) && Listed(g, order, live) && live < live0
  {
    var node := queue0[|queue0| - 1];
    PopLast(g, degree0, queue0, live0);
    ListNext(g, order0, live0, node);
    order, live := order0 + [node], live0 - {node};
    degree, queue := Release(g, node, degree0, queue0[..|queue0| - 1], live);
  }

  /**
   * The loader's cycle check: nothing is reported exactly when there is no cycle, and
   * otherwise the report lists, once each, the nodes some cycle depends on.
   */
  method HasCycle<T(==,!new)>(g: Graph<T>) returns (report: Option<seq<T>>)
    ensures report.None? <==> Acyclic(g)
    ensures report.Some? ==> Distinct(report.value) && forall n :: n in report.value <==> n in BelowCycle(g)
  {
    var degree := CountDependents(g);
    var queue := KeysWhere(degree, d => d == 0);
    ghost var order: seq<T> := [];
    ghost var live := g.Keys;
    while queue != []
      invariant PeelState(g, degree, queue, live)
      invariant Listed(g, order, live)
      decreases live
    {
      degree, queue, order, live := TakeLast(g, degree, queue, order, live);
    }
    LeftOverIsBelowCycle(g, degree, order, live);
    BelowCycleEmptyIffAcyclic(g);
    var cycleNodes := KeysWhere(degree, d => d > 0);
    assert live == BelowCycle(g) && (cycleNodes != [] ==> cycleNodes[0] in live);
    report := if cycleNodes != [] then Some(cycleNodes) else None;
  }

  method KeysWhere<T(==,!new)>(degree: map<T, int>, keep: int -> bool) returns (s: seq<T>)
    ensures Distinct(s)
    ensures forall n :: n in s <==> n in degree && keep(degree[n])
  {
    s := [];
    var rest := degree.Keys;
    while rest != {}
      invariant rest <= degree.Keys
      invariant Distinct(s)
      invariant forall n :: n in s <==> n in degree && n !in rest && keep(degree[n])
    {
      var n :| n in rest;
      rest := rest - {n};
      if keep(degree[n]) {
        s := s + [n];
      }
    }
  }
}
