/**
 * Closing balances are not summed over time, so their query is split in two: grains that keep
 * every time dimension, and totals taken at the end of the period. Which grains the two
 * queries return together, and which key each returned row decodes to.
 */
module ClosingSplit {
  import opened Collections
  import opened Wrappers
  import opened Grouping

  /** A summand of a rebuilt tag: a constant weight, or the weight times whether the query rolls the dimension up. */
  datatype Term = Constant(weight: nat) | Grouped(dim: string, weight: nat)

  datatype Query = Normal(sets: seq<seq<string>>) | Totals(sets: seq<seq<string>>, terms: seq<Term>)

  // ---------------------------------------------------------------------
  // Tags
  // ---------------------------------------------------------------------

  /** The database's tag for a grouping set, over all dimensions. */
  function GroupingTag(dims: seq<string>, s: seq<string>): nat
  {
    FromDigits(seq(|dims|, i requires 0 <= i < |dims| => dims[i] !in s))
  }

  function Contribution(term: Term, s: seq<string>): nat
  {
    match term
    case Constant(w) => w
    case Grouped(d, w) => if d in s then 0 else w
  }

  function Sum(terms: seq<Term>, s: seq<string>): nat
  {
    if terms == [] then 0 else Sum(terms[..|terms| - 1], s) + Contribution(terms[|terms| - 1], s)
  }

  /** The tag of the rows of a set; a plain query over all dimensions has none. */
  function TagOf(q: Query, dims: seq<string>, s: seq<string>): Option<nat>
  {
    match q
    case Normal(sets) => if dims == [] || sets == [dims] then None else Some(GroupingTag(dims, s))
    case Totals(_, terms) => Some(Sum(terms, s))
  }

  method FullGroupingExpr(dims: seq<string>, grouped: set<string>) returns (terms: seq<Term>)
    ensures |terms| == |dims|
    ensures forall i | 0 <= i < |dims| :: terms[i] == TermOf(dims, grouped, i)
  {
    terms := [];
    for i := 0 to |dims|
      invariant |terms| == i
      invariant forall j | 0 <= j < i :: terms[j] == TermOf(dims, grouped, j)
    {
      var weight := ShiftLeft(1, |dims| - 1 - i);
      if dims[i] in grouped {
        terms := terms + [Grouped(dims[i], weight)];
      } else {
        terms := terms + [Constant(weight)];
      }
    }
  }

  function TermOf(dims: seq<string>, grouped: set<string>, i: nat): Term
    requires i < |dims|
  {
    var weight := ShiftLeft(1, |dims| - 1 - i);
    if dims[i] in grouped then Grouped(dims[i], weight) else Constant(weight)
  }

  /** The weighted sum is the number with the same digits. */
  lemma {:induction false} SumIsDigits(terms: seq<Term>, dims: seq<string>, grouped: set<string>, s: seq<string>,
          digits: seq<bool>, i: nat)
    requires |terms| == |dims| == |digits| && i <= |dims|
    requires forall j | 0 <= j < |dims| :: terms[j] == TermOf(dims, grouped, j)
    requires forall j | 0 <= j < |dims| :: digits[j] <==> !(dims[j] in grouped && dims[j] in s)
    ensures Sum(terms[..i], s) == FromDigits(digits[..i]) * ShiftLeft(1, |dims| - i)
  {
    if i > 0 {
      SumIsDigits(terms, dims, grouped, s, digits, i - 1);
      assert terms[..i][..i - 1] == terms[..i - 1] && digits[..i][..i - 1] == digits[..i - 1];
      assert terms[i - 1] == TermOf(dims, grouped, i - 1);
      var unit := ShiftLeft(1, |dims| - i);
      var bit := if digits[i - 1] then 1 else 0;
      assert Contribution(terms[i - 1], s) == bit * unit;
      OneMoreDigit(FromDigits(digits[..i - 1]), unit, bit);
    }
  }

  lemma OneMoreDigit(high: nat, unit: nat, bit: nat)
    ensures high * (2 * unit) + bit * unit == (2 * high + bit) * unit
  {
  }

  /** The rebuilt tag has a bit for exactly the dimensions the set does not hold. */
  lemma RebuiltTagMarks(terms: seq<Term>, dims: seq<string>, grouped: set<string>, s: seq<string>)
    requires |terms| == |dims|
    requires forall j | 0 <= j < |dims| :: terms[j] == TermOf(dims, grouped, j)
    requires forall d | d in s :: d in grouped
    ensures Marks(Sum(terms, s), dims, Elements(s))
  {
    var digits := seq(|dims|, j requires 0 <= j < |dims| => !(dims[j] in grouped && dims[j] in s));
    SumIsDigits(terms, dims, grouped, s, digits, |dims|);
    assert terms[..|dims|] == terms && digits[..|dims|] == digits;
    assert Sum(terms, s) == FromDigits(digits);
    forall i {:trigger dims[i]} | 0 <= i < |dims|
      ensures BitSet(Sum(terms, s), |dims| - 1 - i) <==> dims[i] !in Elements(s)
    {
      DigitIsBit(digits, i);
    }
  }

  lemma GroupingTagMarks(dims: seq<string>, s: seq<string>)
    ensures Marks(GroupingTag(dims, s), dims, Elements(s))
  {
    var digits := seq(|dims|, i requires 0 <= i < |dims| => dims[i] !in s);
    forall i {:trigger dims[i]} | 0 <= i < |dims|
      ensures BitSet(FromDigits(digits), |dims| - 1 - i) <==> dims[i] !in Elements(s)
    {
      DigitIsBit(digits, i);
    }
  }

  // ---------------------------------------------------------------------
  // The split
  // ---------------------------------------------------------------------

  predicate HoldsAll(s: seq<string>, time: seq<string>)
  {
    forall t | t in time :: t in s
  }

  predicate HoldsNone(s: seq<string>, time: seq<string>)
  {
    forall t | t in time :: t !in s
  }

  function Without(s: seq<string>, time: seq<string>): seq<string>
  {
    if s == [] then [] else (if s[0] !in time then [s[0]] else []) + Without(s[1..], time)
  }

  /** The sets that keep every time dimension, or those that do not. */
  function Keep(sets: seq<seq<string>>, time: seq<string>, live: bool): seq<seq<string>>
  {
    if sets == [] then []
    else (if HoldsAll(sets[0], time) == live then [sets[0]] else []) + Keep(sets[1..], time, live)
  }

  /** The sets without their time dimensions, each once. */
  function Projections(sets: seq<seq<string>>, time: seq<string>): seq<seq<string>>
  {
    if sets == [] then []
    else
      var rest := Projections(sets[..|sets| - 1], time);
      var p := Without(sets[|sets| - 1], time);
      if p in rest then rest else rest + [p]
  }

  method ProjectSets(sets: seq<seq<string>>, time: seq<string>)
    returns (projected: seq<seq<string>>, grouped: set<string>)
    ensures projected == Projections(sets, time)
    ensures forall s, d | s in projected && d in s :: d in grouped
  {
    var seen: set<seq<string>> := {};
    projected := [];
    for i := 0 to |sets|
      invariant projected == Projections(sets[..i], time) && seen == Elements(projected)
    {
      assert sets[..i + 1][..i] == sets[..i];
      var p := Without(sets[i], time);
      if p !in seen {
        seen := seen + {p};
        projected := projected + [p];
      }
    }
    assert sets[..|sets|] == sets;
    grouped := set s, d | s in projected && d in s :: d;
  }

  /** Parents of the period among the dimensions, and the period itself. */
  function TimeDims(dims: seq<string>, parents: set<string>): seq<string>
  {
    ParentsAmong(dims, parents) + if "period" in dims then ["period"] else []
  }

  function ParentsAmong(dims: seq<string>, parents: set<string>): seq<string>
  {
    if dims == [] then [] else (if dims[0] in parents then [dims[0]] else []) + ParentsAmong(dims[1..], parents)
  }

  lemma {:induction false} ParentsAmongAre(dims: seq<string>, parents: set<string>)
    ensures forall d :: d in ParentsAmong(dims, parents) <==> d in dims && d in parents
  {
    if dims != [] { ParentsAmongAre(dims[1..], parents); }
  }

  /** The time dimensions asked for are the period and its parents. */
  lemma TimeDimsAre(dims: seq<string>, parents: set<string>, d: string)
    ensures d in TimeDims(dims, parents) <==> d in dims && (d == "period" || d in parents)
  {
    ParentsAmongAre(dims, parents);
  }

  /** The grains that the closing queries return. */
  function Returned(dims: seq<string>, parents: set<string>, g: Grains): seq<seq<string>>
  {
    var time := TimeDims(dims, parents);
    var sets := GroupingSets(dims, g);
    if time == [] then sets else Keep(sets, time, true) + Projections(Keep(sets, time, false), time)
  }

  function SetsOf(queries: seq<Query>): seq<seq<string>>
  {
    if queries == [] then [] else SetsOf(queries[..|queries| - 1]) + queries[|queries| - 1].sets
  }

  /** Every row of the query decodes to a key with marks at exactly the dimensions its set leaves out. */
  ghost predicate Faithful(q: Query, dims: seq<string>)
  {
    forall s, row: Row | s in q.sets && row.tag == TagOf(q, dims, s) && (forall d | d in dims :: d in row.cells) ::
      && Decodable(row, dims)
      && DimensionKey(row, dims) ==
        seq(|dims|, i requires 0 <= i < |dims| => if dims[i] in s then row.cells[dims[i]] else ROLLED_UP)
  }

  lemma MarkedIsFaithful(q: Query, dims: seq<string>)
    requires forall s | s in q.sets :: TagOf(q, dims, s).Some? ==> Marks(TagOf(q, dims, s).value, dims, Elements(s))
    requires forall s | s in q.sets :: TagOf(q, dims, s).None? ==> forall d | d in dims :: d in s
    ensures Faithful(q, dims)
  {
    forall s, row: Row | s in q.sets && row.tag == TagOf(q, dims, s) && (forall d | d in dims :: d in row.cells)
      ensures Decodable(row, dims)
      ensures DimensionKey(row, dims) ==
        seq(|dims|, i requires 0 <= i < |dims| => if dims[i] in s then row.cells[dims[i]] else ROLLED_UP)
    {
      if row.tag.None? {
        PlainKeyIsWhole(row.cells, dims);
      } else {
        assert forall i {:trigger dims[i]} | 0 <= i < |dims| ::
          BitSet(row.tag.value, |dims| - 1 - i) <==> dims[i] !in Elements(s);
      }
    }
  }

  lemma NormalIsFaithful(dims: seq<string>, sets: seq<seq<string>>)
    ensures Faithful(Normal(sets), dims)
  {
    forall s | s in sets ensures Marks(GroupingTag(dims, s), dims, Elements(s)) {
      GroupingTagMarks(dims, s);
    }
    MarkedIsFaithful(Normal(sets), dims);
  }

  method ClosingTotalsQuery(dims: seq<string>, time: seq<string>, rolled: seq<seq<string>>) returns (q: Query)
    ensures q.Totals? && q.sets == Projections(rolled, time) && Faithful(q, dims)
  {
    var sets, grouped := ProjectSets(rolled, time);
    var terms := FullGroupingExpr(dims, grouped);
    q := Totals(sets, terms);
    forall s | s in sets ensures Marks(Sum(terms, s), dims, Elements(s)) {
      RebuiltTagMarks(terms, dims, grouped, s);
    }
    MarkedIsFaithful(q, dims);
  }

  lemma SetsOfAppended(queries: seq<Query>, q: Query)
    ensures SetsOf(queries + [q]) == SetsOf(queries) + q.sets
  {
    assert (queries + [q])[..|queries|] == queries;
  }

  /** The normal query keeps every time dimension, and the totals query none. */
  ghost predicate FitsTime(q: Query, time: seq<string>)
  {
    forall s | s in q.sets :: if q.Normal? then HoldsAll(s, time) else HoldsNone(s, time)
  }

  /** The queries for closing metrics: each row's key tells its grain, and the grains are those listed. */
  method ClosingQueries(dims: seq<string>, parents: set<string>, g: Grains) returns (queries: seq<Query>)
    ensures SetsOf(queries) == Returned(dims, parents, g)
    ensures forall q | q in queries :: Faithful(q, dims) && FitsTime(q, TimeDims(dims, parents))
  {
    var sets := RequestedGroupingSets(dims, g);
    var time := TimeDims(dims, parents);
    queries := [];
    if time == [] {
      NormalIsFaithful(dims, sets);
      SetsOfAppended([], Normal(sets));
      return [Normal(sets)];
    }
    var live, rolled := Keep(sets, time, true), Keep(sets, time, false);
    KeepIs(sets, time, true);
    ProjectionsHoldNoTime(rolled, time);
    if live != [] {
      NormalIsFaithful(dims, live);
      SetsOfAppended(queries, Normal(live));
      queries := queries + [Normal(live)];
    }
    assert SetsOf(queries) == live;
    if rolled != [] {
      var totals := ClosingTotalsQuery(dims, time, rolled);
      SetsOfAppended(queries, totals);
      queries := queries + [totals];
    }
  }

  // ---------------------------------------------------------------------
  // Exactly the requested grains
  // ---------------------------------------------------------------------

  lemma {:induction false} WithoutIs(s: seq<string>, time: seq<string>)
    ensures HoldsNone(Without(s, time), time)
    ensures HoldsNone(s, time) ==> Without(s, time) == s
    ensures forall d :: d in Without(s, time) <==> d in s && d !in time
  {
    if s != [] {
      WithoutIs(s[1..], time);
      assert forall d :: d in s <==> d == s[0] || d in s[1..];
      assert HoldsNone(s, time) ==> s[0] in s && HoldsNone(s[1..], time);
    }
  }

  lemma {:induction false} ProjectionsHoldNoTime(sets: seq<seq<string>>, time: seq<string>)
    ensures forall p | p in Projections(sets, time) :: HoldsNone(p, time)
  {
    if sets != [] {
      ProjectionsHoldNoTime(sets[..|sets| - 1], time);
      WithoutIs(sets[|sets| - 1], time);
    }
  }

  lemma {:induction false} ProjectionsAre(sets: seq<seq<string>>, time: seq<string>)
    ensures forall p :: p in Projections(sets, time) <==> exists s :: s in sets && Without(s, time) == p
  {
    if sets != [] {
      var rest, last := sets[..|sets| - 1], sets[|sets| - 1];
      ProjectionsAre(rest, time);
      assert sets == rest + [last];
      forall p ensures p in Projections(sets, time) <==> exists s :: s in sets && Without(s, time) == p {
        assert p in Projections(sets, time) <==> p in Projections(rest, time) || p == Without(last, time);
        if s :| s in sets && Without(s, time) == p { assert s in rest || s == last; }
        if p == Without(last, time) { assert last in sets; }
      }
    }
  }

  /** The set holds every time dimension and is returned as it is, or is returned less those it holds. */
  ghost predicate ReturnedAs(s: seq<string>, time: seq<string>, p: seq<string>)
  {
    if HoldsAll(s, time) then p == s else forall d :: d in p <==> d in s && d !in time
  }

  /**
   * Every grain returned is a requested one that holds all time dimensions, or what one that
   * does not leaves without them; and every requested grain is returned as one or the other.
   */
  lemma ReturnedAreRequestedOrRolled(dims: seq<string>, parents: set<string>, g: Grains)
    requires TimeDims(dims, parents) != []
    ensures forall p | p in Returned(dims, parents, g) ::
      exists s :: s in GroupingSets(dims, g) && ReturnedAs(s, TimeDims(dims, parents), p)
    ensures forall s | s in GroupingSets(dims, g) ::
      exists p :: p in Returned(dims, parents, g) && ReturnedAs(s, TimeDims(dims, parents), p)
  {
    var time, sets := TimeDims(dims, parents), GroupingSets(dims, g);
    KeepAre(sets, time, true);
    KeepAre(sets, time, false);
    ProjectionsAre(Keep(sets, time, false), time);
    forall p | p in Returned(dims, parents, g) ensures exists s :: s in sets && ReturnedAs(s, time, p) {
      if p in Keep(sets, time, true) {
        assert ReturnedAs(p, time, p);
      } else {
        var s :| s in Keep(sets, time, false) && Without(s, time) == p;
        WithoutIs(s, time);
        assert ReturnedAs(s, time, p);
      }
    }
    forall s | s in sets ensures exists p :: p in Returned(dims, parents, g) && ReturnedAs(s, time, p) {
      var p := if HoldsAll(s, time) then s else Without(s, time);
      WithoutIs(s, time);
      assert p in Returned(dims, parents, g) && ReturnedAs(s, time, p);
    }
  }

  lemma {:induction false} KeepAre(sets: seq<seq<string>>, time: seq<string>, live: bool)
    ensures forall s :: s in Keep(sets, time, live) <==> s in sets && HoldsAll(s, time) == live
  {
    if sets != [] {
      KeepAre(sets[1..], time, live);
      assert forall s :: s in sets <==> s == sets[0] || s in sets[1..];
    }
  }

  lemma {:induction false} ProjectionsOfTimeless(sets: seq<seq<string>>, time: seq<string>)
    requires forall i | 0 <= i < |sets| :: HoldsNone(sets[i], time)
    requires FinestFirst(sets)
    ensures Projections(sets, time) == sets
  {
    if sets != [] {
      var rest := sets[..|sets| - 1];
      ProjectionsOfTimeless(rest, time);
      WithoutIs(sets[|sets| - 1], time);
      forall j | 0 <= j < |rest| ensures rest[j] != sets[|sets| - 1] {
        assert |sets[j]| > |sets[|sets| - 1]|;
      }
    }
  }

  lemma {:induction false} KeepSplits(sets: seq<seq<string>>, time: seq<string>)
    ensures multiset(sets) == multiset(Keep(sets, time, true)) + multiset(Keep(sets, time, false))
  {
    if sets != [] {
      KeepSplits(sets[1..], time);
      assert sets == [sets[0]] + sets[1..];
    }
  }

  lemma {:induction false} KeepIs(sets: seq<seq<string>>, time: seq<string>, live: bool)
    ensures forall s | s in Keep(sets, time, live) :: s in sets && HoldsAll(s, time) == live
  {
    if sets != [] { KeepIs(sets[1..], time, live); }
  }

  lemma {:induction false} KeepKeepsOrder(sets: seq<seq<string>>, time: seq<string>, live: bool)
    requires FinestFirst(sets)
    ensures FinestFirst(Keep(sets, time, live))
  {
    if sets != [] {
      assert forall j | 0 <= j < |sets[1..]| :: sets[1..][j] == sets[j + 1];
      KeepKeepsOrder(sets[1..], time, live);
      KeepIs(sets[1..], time, live);
      forall s | s in Keep(sets[1..], time, live) ensures |s| < |sets[0]| {
        var j :| 0 <= j < |sets[1..]| && sets[1..][j] == s;
      }
      FinestFirstJoined([sets[0]], Keep(sets[1..], time, live));
    }
  }

  /** Subtotals cut through the time dimensions as soon as there are two of them. */
  predicate Splits(dims: seq<string>, parents: set<string>, g: Grains)
  {
    g.subtotals ==> forall t, u | t in TimeDims(dims, parents) && u in TimeDims(dims, parents) :: t == u
  }

  lemma RequestedSetsHoldAllOrNone(dims: seq<string>, parents: set<string>, g: Grains)
    requires dims != [] && Splits(dims, parents, g)
    ensures forall s | s in GroupingSets(dims, g) ::
      HoldsAll(s, TimeDims(dims, parents)) || HoldsNone(s, TimeDims(dims, parents))
  {
    GroupingSetsAreRequested(dims, g);
    ParentsAmongAre(dims, parents);
    forall s | s in GroupingSets(dims, g)
      ensures HoldsAll(s, TimeDims(dims, parents)) || HoldsNone(s, TimeDims(dims, parents))
    {
      assert |s| == |dims| ==> s == dims;
    }
  }

  /** With two time dimensions, the prefix that ends at the first holds it and not the other. */
  lemma SomeSetIsTorn(dims: seq<string>, parents: set<string>, g: Grains) returns (s: seq<string>)
    requires Distinct(dims) && dims != [] && !Splits(dims, parents, g)
    ensures s in GroupingSets(dims, g)
    ensures !HoldsAll(s, TimeDims(dims, parents)) && !HoldsNone(s, TimeDims(dims, parents))
  {
    var time := TimeDims(dims, parents);
    var t, u :| t in time && u in time && t != u;
    ParentsAmongAre(dims, parents);
    var p :| 0 <= p < |dims| && dims[p] == t;
    var q :| 0 <= q < |dims| && dims[q] == u;
    var first := if p < q then p else q;
    s := dims[..first + 1];
    GroupingSetsAreRequested(dims, g);
    assert Requested(|dims|, g, first + 1);
    assert s[first] in s;
    var last := if p < q then u else t;
    forall i | 0 <= i <= first ensures s[i] != last {
    }
  }

  lemma UntornSetsAreReturned(dims: seq<string>, parents: set<string>, g: Grains)
    requires dims != [] && Splits(dims, parents, g)
    ensures multiset(Returned(dims, parents, g)) == multiset(GroupingSets(dims, g))
  {
    var time, sets := TimeDims(dims, parents), GroupingSets(dims, g);
    if time != [] {
      var rolled := Keep(sets, time, false);
      KeepSplits(sets, time);
      assert FinestFirst(rolled) by {
        FinestFirstSets(dims, g);
        KeepKeepsOrder(sets, time, false);
      }
      KeepIs(sets, time, false);
      RequestedSetsHoldAllOrNone(dims, parents, g);
      ProjectionsOfTimeless(rolled, time);
    }
  }

  lemma TornSetIsNotReturned(dims: seq<string>, parents: set<string>, g: Grains)
    requires Distinct(dims) && dims != [] && !Splits(dims, parents, g)
    ensures exists s :: s in GroupingSets(dims, g) && s !in Returned(dims, parents, g)
  {
    var time, sets := TimeDims(dims, parents), GroupingSets(dims, g);
    var s := SomeSetIsTorn(dims, parents, g);
    KeepIs(sets, time, true);
    ProjectionsHoldNoTime(Keep(sets, time, false), time);
    assert s !in Keep(sets, time, true) && s !in Projections(Keep(sets, time, false), time);
  }

  /**
   * The closing queries return every requested grain once and nothing else exactly when
   * subtotals are not asked for or there is only one time dimension.
   */
  lemma ReturnsRequestedIffOneTimeDimension(dims: seq<string>, parents: set<string>, g: Grains)
    requires Distinct(dims) && dims != []
    ensures multiset(Returned(dims, parents, g)) == multiset(GroupingSets(dims, g)) <==> Splits(dims, parents, g)
  {
    if Splits(dims, parents, g) {
      UntornSetsAreReturned(dims, parents, g);
    } else {
      TornSetIsNotReturned(dims, parents, g);
      var s :| s in GroupingSets(dims, g) && s !in Returned(dims, parents, g);
      assert s in multiset(GroupingSets(dims, g)) && s !in multiset(Returned(dims, parents, g));
    }
  }

  lemma QuarterMonthTime()
    ensures TimeDims(["quarter", "period"], {"quarter", "fiscal_year"}) == ["quarter", "period"]
  {
    var dims := ["quarter", "period"];
    assert dims[1..] == ["period"] && dims[1..][1..] == [];
  }

  lemma QuarterMonthSets()
    ensures GroupingSets(["quarter", "period"], Grains(true, true, false)) == [["quarter", "period"], ["quarter"]]
  {
    var dims := ["quarter", "period"];
    assert Prefixes(dims, 0) == [] && dims[..1] == ["quarter"];
    assert Prefixes(dims, 1) == [["quarter"]];
  }

  lemma QuarterMonthSplit()
    ensures var sets, time: seq<string> := [["quarter", "period"], ["quarter"]], ["quarter", "period"];
      Keep(sets, time, true) == [["quarter", "period"]] && Projections(Keep(sets, time, false), time) == [[]]
  {
    var sets, time: seq<string> := [["quarter", "period"], ["quarter"]], ["quarter", "period"];
    assert sets[1..] == [["quarter"]] && sets[1..][1..] == [];
    assert HoldsAll(sets[0], time) && !HoldsAll(sets[1], time) by {
      assert "period" in time && "period" !in sets[1];
    }
    var rolled := Keep(sets, time, false);
    assert rolled == [["quarter"]];
    assert rolled[..0] == [] && ["quarter"][1..] == [];
    assert Without(["quarter"], time) == [];
  }

  /** Quarter and month with subtotals: the quarter subtotal is lost and an unasked grand total appears. */
  lemma QuarterSubtotalIsLost()
    ensures GroupingSets(["quarter", "period"], Grains(true, true, false)) == [["quarter", "period"], ["quarter"]]
    ensures Returned(["quarter", "period"], {"quarter", "fiscal_year"}, Grains(true, true, false)) ==
      [["quarter", "period"], []]
  {
    QuarterMonthTime();
    QuarterMonthSets();
    QuarterMonthSplit();
  }
}
