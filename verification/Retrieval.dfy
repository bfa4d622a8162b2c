/**
 * Rows merged into the results of a scenario, and how the totals in those results relate
 * from grain to grain.
 */
module Retrieval {
  import opened Collections
  import opened Wrappers
  import opened Grouping
  import opened Rollup

  type Results = map<Key, map<string, Option<real>>>

  // ---------------------------------------------------------------------
  // Merging
  // ---------------------------------------------------------------------

  function Entry(results: Results, key: Key): map<string, Option<real>>
  {
    if key in results then results[key] else map[]
  }

  /** The row's metrics are in the entry, and whatever else was there before is still there. */
  ghost predicate Merged(entry: map<string, Option<real>>, before: map<string, Option<real>>, row: Row,
          metrics: seq<string>)
  {
    forall m ::
      if m in metrics && m in row.values then m in entry && entry[m] == row.values[m] else Same(entry, before, m)
  }

  predicate Same(entry: map<string, Option<real>>, before: map<string, Option<real>>, metric: string)
  {
    (metric in entry <==> metric in before) && (metric in entry ==> entry[metric] == before[metric])
  }

  method MergeRowIntoResults(results: Results, row: Row, metrics: seq<string>, dims: seq<string>)
    returns (results': Results)
    requires Decodable(row, dims)
    ensures var key := DimensionKey(row, dims);
      && results' == results[key := Entry(results', key)]
      && Merged(Entry(results', key), Entry(results, key), row, metrics)
  {
    var key := DimensionKey(row, dims);
    results' := results;
    if key !in results' {
      results' := results'[key := map[]];
    }
    for i := 0 to |metrics|
      invariant key in results' && results' == results[key := results'[key]]
      invariant Merged(results'[key], Entry(results, key), row, metrics[..i])
    {
      var metric := metrics[i];
      assert metrics[..i + 1] == metrics[..i] + [metric];
      if metric in row.values {
        results' := results'[key := results'[key][metric := row.values[metric]]];
      }
    }
    assert metrics[..|metrics|] == metrics;
  }

  ghost predicate MergedSoFar(results: Results, start: Results, rows: seq<Row>, keys: seq<Key>, metrics: seq<string>,
          done: nat)
    requires done <= |rows| == |keys|
  {
    && results.Keys == start.Keys + Elements(keys[..done])
    && (forall j | 0 <= j < done :: Merged(Entry(results, keys[j]), Entry(start, keys[j]), rows[j], metrics))
    && (forall key | key !in keys[..done] :: Entry(results, key) == Entry(start, key))
  }

  lemma EntriesAfterUpdate(results: Results, k: Key, entry: map<string, Option<real>>)
    ensures Entry(results[k := entry], k) == entry
    ensures forall key | key != k :: Entry(results[k := entry], key) == Entry(results, key)
  {
  }

  lemma NextElement(keys: seq<Key>, i: nat)
    requires i < |keys| && Distinct(keys)
    ensures keys[i] !in keys[..i] && Elements(keys[..i + 1]) == Elements(keys[..i]) + {keys[i]}
    ensures forall key :: key in keys[..i + 1] <==> key in keys[..i] || key == keys[i]
  {
    NextIsNew(keys, i);
    assert keys[..i + 1] == keys[..i] + [keys[i]];
  }

  lemma MergeStep(results: Results, entry: map<string, Option<real>>, start: Results, rows: seq<Row>, keys: seq<Key>,
          metrics: seq<string>, i: nat)
    requires i < |rows| == |keys| && Distinct(keys)
    requires MergedSoFar(results, start, rows, keys, metrics, i)
    requires Merged(entry, Entry(results, keys[i]), rows[i], metrics)
    ensures MergedSoFar(results[keys[i] := entry], start, rows, keys, metrics, i + 1)
  {
    var after := results[keys[i] := entry];
    EntriesAfterUpdate(results, keys[i], entry);
    NextElement(keys, i);
    assert after.Keys == start.Keys + Elements(keys[..i + 1]);
    forall j | 0 <= j < i + 1
      ensures Merged(Entry(after, keys[j]), Entry(start, keys[j]), rows[j], metrics)
    {
      if j < i {
        MergedEarlier(results, entry, start, rows, keys, metrics, i, j);
      } else {
        assert Entry(results, keys[i]) == Entry(start, keys[i]);
      }
    }
    forall key | key !in keys[..i + 1] ensures Entry(after, key) == Entry(start, key) {
      assert key !in keys[..i] && key != keys[i];
    }
  }

  lemma MergedEarlier(results: Results, entry: map<string, Option<real>>, start: Results, rows: seq<Row>,
          keys: seq<Key>, metrics: seq<string>, i: nat, j: nat)
    requires j < i < |rows| == |keys| && Distinct(keys)
    requires MergedSoFar(results, start, rows, keys, metrics, i)
    ensures Merged(Entry(results[keys[i] := entry], keys[j]), Entry(start, keys[j]), rows[j], metrics)
  {
    assert keys[j] != keys[i];
    EntriesAfterUpdate(results, keys[i], entry);
  }

  /** Rows whose keys differ do not disturb each other. */
  method MergeRows(start: Results, rows: seq<Row>, metrics: seq<string>, dims: seq<string>, ghost keys: seq<Key>)
    returns (results: Results)
    requires |keys| == |rows| && Distinct(keys)
    requires forall i | 0 <= i < |rows| :: Decodable(rows[i], dims) && DimensionKey(rows[i], dims) == keys[i]
    ensures MergedSoFar(results, start, rows, keys, metrics, |rows|)
  {
    results := start;
    for i := 0 to |rows|
      invariant MergedSoFar(results, start, rows, keys, metrics, i)
    {
      ghost var before := results;
      results := MergeRowIntoResults(results, rows[i], metrics, dims);
      MergeStep(before, Entry(results, keys[i]), start, rows, keys, metrics, i);
    }
  }

  // ---------------------------------------------------------------------
  // What a federated retrieval leaves
  // ---------------------------------------------------------------------

  /** Every requested grain and key holds its totals; entries of other keys and metrics are untouched. */
  ghost predicate HoldsGrains(results: Results, start: Results, details: seq<Row>, dims: seq<string>,
          metrics: seq<string>, g: Grains)
  {
    && (forall key | IsKey(details, dims, g, key) ::
      var k := Pad(key, |dims|);
      k in results && HoldsTotals(results[k], Entry(start, k), details, dims, metrics, key))
    && (forall k | !IsPadded(details, dims, g, k) ::
        (k in results <==> k in start) && Entry(results, k) == Entry(start, k))
  }

  ghost predicate HoldsTotals(entry: map<string, Option<real>>, before: map<string, Option<real>>, details: seq<Row>,
          dims: seq<string>, metrics: seq<string>, key: Key)
    requires |key| <= |dims|
  {
    forall m ::
      if m in metrics then m in entry && entry[m] == ValueAt(details, dims, key, m) else Same(entry, before, m)
  }

  ghost predicate IsPadded(details: seq<Row>, dims: seq<string>, g: Grains, k: Key)
  {
    exists key :: IsKey(details, dims, g, key) && Pad(key, |dims|) == k
  }

  /** The rollup of one data query merged into what the scenario already holds. */
  method RetrieveFederated(start: Results, details: seq<Row>, dims: seq<string>, metrics: seq<string>, g: Grains)
    returns (results: Results)
    requires (g.subtotals ==> Distinct(dims)) && Distinct(metrics) && IsDetail(details, dims, metrics)
    requires GrainsApart(details, dims, g)
    ensures HoldsGrains(results, start, details, dims, metrics, g)
  {
    var rows := RollupDetailRows(details, dims, metrics, g);
    ghost var keys := RolledKeys(details, dims, g);
    RolledKeysAre(details, dims, g);
    ghost var pads := seq(|keys|, i requires 0 <= i < |keys| && |keys[i]| <= |dims| => Pad(keys[i], |dims|));
    KeysApartIffGrainsApart(details, dims, g);
    results := MergeRows(start, rows, metrics, dims, pads);
    HoldsGrainsNow(results, start, rows, keys, pads, details, dims, metrics, g);
  }

  lemma HoldsGrainsNow(results: Results, start: Results, rows: seq<Row>, keys: seq<Key>, pads: seq<Key>,
          details: seq<Row>, dims: seq<string>, metrics: seq<string>, g: Grains)
    requires Rolled(rows, keys, details, dims, metrics) && |pads| == |keys|
    requires forall i | 0 <= i < |keys| :: |keys[i]| <= |dims| && pads[i] == Pad(keys[i], |dims|)
    requires forall key :: key in keys <==> IsKey(details, dims, g, key)
    requires MergedSoFar(results, start, rows, pads, metrics, |rows|)
    ensures HoldsGrains(results, start, details, dims, metrics, g)
  {
    assert pads[..|rows|] == pads;
    forall key | IsKey(details, dims, g, key)
      ensures Pad(key, |dims|) in results
      ensures HoldsTotals(results[Pad(key, |dims|)], Entry(start, Pad(key, |dims|)), details, dims, metrics, key)
    {
      var i :| 0 <= i < |keys| && keys[i] == key;
      assert pads[i] in pads;
      assert Produced(rows[i], details, dims, metrics, key);
    }
    forall i | 0 <= i < |pads|
      ensures IsPadded(details, dims, g, pads[i])
    {
      assert IsKey(details, dims, g, keys[i]);
    }
  }

  // ---------------------------------------------------------------------
  // Totals across grains
  // ---------------------------------------------------------------------

  /** The sum of the totals of some keys of a grain. */
  function SumOfTotals(rows: seq<Row>, live: seq<string>, keys: seq<Key>, metric: string): Option<real>
  {
    if keys == [] then None
    else Add(Total(rows, live, keys[0], metric), SumOfTotals(rows, live, keys[1..], metric))
  }

  lemma {:induction false} EmptySum(live: seq<string>, keys: seq<Key>, metric: string)
    ensures SumOfTotals([], live, keys, metric) == None
  {
    if keys != [] { EmptySum(live, keys[1..], metric); }
  }

  /** One more row adds to the sum once, when its key is among the keys. */
  lemma {:induction false} SumWithRow(rows: seq<Row>, live: seq<string>, keys: seq<Key>, metric: string)
    requires rows != [] && Distinct(keys)
    ensures var row := rows[|rows| - 1];
      SumOfTotals(rows, live, keys, metric) ==
        var rest := SumOfTotals(rows[..|rows| - 1], live, keys, metric);
        if LiveKey(row, live) in keys then Add(rest, Get(row, metric)) else rest
  {
    if keys != [] {
      assert forall j | 0 <= j < |keys[1..]| :: keys[1..][j] == keys[j + 1];
      SumWithRow(rows, live, keys[1..], metric);
    }
  }

  /**
   * The total of a coarser grain is the sum of the finer totals under it, for any two grains,
   * when the finer keys under it are all given.
   */
  lemma {:induction false} CoarserIsSumOfFiner(rows: seq<Row>, dims: seq<string>, coarse: nat, fine: nat, key: Key,
          keys: seq<Key>, metric: string)
    requires coarse <= fine <= |dims| && Distinct(keys) && |key| == coarse
    requires forall k | k in keys :: |k| == fine && k[..coarse] == key
    requires forall r | r in rows && LiveKey(r, dims[..coarse]) == key :: LiveKey(r, dims[..fine]) in keys
    ensures Total(rows, dims[..coarse], key, metric) == SumOfTotals(rows, dims[..fine], keys, metric)
  {
    if rows == [] {
      EmptySum(dims[..fine], keys, metric);
    } else {
      var row := rows[|rows| - 1];
      CoarserIsSumOfFiner(rows[..|rows| - 1], dims, coarse, fine, key, keys, metric);
      SumWithRow(rows, dims[..fine], keys, metric);
      assert row in rows;
      assert LiveKey(row, dims[..fine])[..coarse] == LiveKey(row, dims[..coarse]);
    }
  }

  /** The plain sums at some keys, added up. */
  function PlainSumOver(rows: seq<Row>, live: seq<string>, keys: seq<Key>, metric: string): real
  {
    if keys == [] then 0.0
    else PlainSum(rows, live, keys[0], metric) + PlainSumOver(rows, live, keys[1..], metric)
  }

  lemma {:induction false} SumOfTotalsIsPlain(rows: seq<Row>, live: seq<string>, keys: seq<Key>, metric: string)
    ensures SumOfTotals(rows, live, keys, metric) ==
      if exists k :: k in keys && SomeContributes(rows, live, k, metric)
      then Some(PlainSumOver(rows, live, keys, metric)) else None
    ensures (forall k | k in keys :: !SomeContributes(rows, live, k, metric)) ==>
      PlainSumOver(rows, live, keys, metric) == 0.0
  {
    if keys != [] {
      SumOfTotalsIsPlain(rows, live, keys[1..], metric);
      TotalIsPlainSum(rows, live, keys[0], metric);
      assert forall k :: k in keys <==> k == keys[0] || k in keys[1..];
      if !SomeContributes(rows, live, keys[0], metric) {
        NoneContributeNothing(rows, live, keys[0], metric);
      }
    }
  }

  /** In plain numbers: what is under the coarser key adds up over the finer keys under it. */
  lemma CoarserIsPlainSumOfFiner(rows: seq<Row>, dims: seq<string>, coarse: nat, fine: nat, key: Key, keys: seq<Key>,
          metric: string)
    requires coarse <= fine <= |dims| && Distinct(keys) && |key| == coarse
    requires forall k | k in keys :: |k| == fine && k[..coarse] == key
    requires forall r | r in rows && LiveKey(r, dims[..coarse]) == key :: LiveKey(r, dims[..fine]) in keys
    ensures PlainSum(rows, dims[..coarse], key, metric) == PlainSumOver(rows, dims[..fine], keys, metric)
  {
    CoarserIsSumOfFiner(rows, dims, coarse, fine, key, keys, metric);
    TotalIsPlainSum(rows, dims[..coarse], key, metric);
    SumOfTotalsIsPlain(rows, dims[..fine], keys, metric);
    if !SomeContributes(rows, dims[..coarse], key, metric) {
      NoneContributeNothing(rows, dims[..coarse], key, metric);
    }
  }

  /** The keys under a coarser key. */
  function Under(keys: seq<Key>, key: Key): seq<Key>
  {
    if keys == [] then []
    else (if key <= keys[0] then [keys[0]] else []) + Under(keys[1..], key)
  }

  lemma {:induction false} UnderIs(keys: seq<Key>, key: Key)
    requires Distinct(keys)
    ensures Distinct(Under(keys, key))
    ensures forall k :: k in Under(keys, key) <==> k in keys && key <= k
  {
    if keys != [] {
      assert forall j | 0 <= j < |keys[1..]| :: keys[1..][j] == keys[j + 1];
      UnderIs(keys[1..], key);
      assert keys[0] !in keys[1..];
    }
  }

  /** The sum of merged entries. */
  function SumOfEntries(results: Results, keys: seq<Key>, n: nat, metric: string): Option<real>
    requires forall k | k in keys :: |k| <= n && Pad(k, n) in results && metric in results[Pad(k, n)]
  {
    if keys == [] then None
    else
      assert forall k | k in keys[1..] :: k in keys;
      Add(results[Pad(keys[0], n)][metric], SumOfEntries(results, keys[1..], n, metric))
  }

  /** The present values among some entries, added up as numbers. */
  function PlainSumOfEntries(results: Results, keys: seq<Key>, n: nat, metric: string): real
    requires forall k | k in keys :: |k| <= n && Pad(k, n) in results && metric in results[Pad(k, n)]
  {
    if keys == [] then 0.0
    else
      assert forall k | k in keys[1..] :: k in keys;
      var entry := results[Pad(keys[0], n)][metric];
      (if entry.Some? then entry.value else 0.0) + PlainSumOfEntries(results, keys[1..], n, metric)
  }

  predicate SomeEntry(results: Results, keys: seq<Key>, n: nat, metric: string)
    requires forall k | k in keys :: |k| <= n && Pad(k, n) in results && metric in results[Pad(k, n)]
  {
    exists k :: k in keys && results[Pad(k, n)][metric].Some?
  }

  lemma {:induction false} SumOfEntriesIsPlain(results: Results, keys: seq<Key>, n: nat, metric: string)
    requires Present(results, keys, n, metric)
    ensures SumOfEntries(results, keys, n, metric) ==
      if SomeEntry(results, keys, n, metric) then Some(PlainSumOfEntries(results, keys, n, metric)) else None
    ensures !SomeEntry(results, keys, n, metric) ==> PlainSumOfEntries(results, keys, n, metric) == 0.0
  {
    if keys == [] {
      assert !SomeEntry(results, keys, n, metric);
    } else {
      SomeEntryUnfolds(results, keys, n, metric);
      SumOfEntriesIsPlain(results, keys[1..], n, metric);
      var first := results[Pad(keys[0], n)][metric];
      var rest := PlainSumOfEntries(results, keys[1..], n, metric);
      assert PlainSumOfEntries(results, keys, n, metric) == (if first.Some? then first.value else 0.0) + rest;
    }
  }

  lemma SomeEntryUnfolds(results: Results, keys: seq<Key>, n: nat, metric: string)
    requires Present(results, keys, n, metric) && keys != []
    ensures keys[0] in keys && Present(results, keys[1..], n, metric)
    ensures SomeEntry(results, keys, n, metric) <==>
      results[Pad(keys[0], n)][metric].Some? || SomeEntry(results, keys[1..], n, metric)
  {
    assert keys == [keys[0]] + keys[1..];
  }

  ghost predicate Present(results: Results, keys: seq<Key>, n: nat, metric: string)
  {
    forall k | k in keys :: |k| <= n && Pad(k, n) in results && metric in results[Pad(k, n)]
  }

  lemma HeldValue(results: Results, start: Results, details: seq<Row>, dims: seq<string>, metrics: seq<string>,
          g: Grains, key: Key, metric: string)
    requires details != [] && dims != [] && metric in metrics
    requires HoldsGrains(results, start, details, dims, metrics, g) && IsKey(details, dims, g, key)
    ensures Pad(key, |dims|) in results && metric in results[Pad(key, |dims|)]
    ensures results[Pad(key, |dims|)][metric] == Total(details, dims[..|key|], key, metric)
  {
    assert HoldsTotals(results[Pad(key, |dims|)], Entry(start, Pad(key, |dims|)), details, dims, metrics, key);
  }

  lemma {:induction false} EntriesSumTotals(results: Results, start: Results, details: seq<Row>, dims: seq<string>,
          metrics: seq<string>, g: Grains, level: nat, keys: seq<Key>, metric: string)
    requires details != [] && dims != [] && level <= |dims| && metric in metrics
    requires HoldsGrains(results, start, details, dims, metrics, g)
    requires forall k | k in keys :: IsKey(details, dims, g, k) && |k| == level
    ensures Present(results, keys, |dims|, metric)
    ensures SumOfEntries(results, keys, |dims|, metric) == SumOfTotals(details, dims[..level], keys, metric)
  {
    forall k | k in keys
      ensures |k| <= |dims| && Pad(k, |dims|) in results && metric in results[Pad(k, |dims|)]
      ensures results[Pad(k, |dims|)][metric] == Total(details, dims[..level], k, metric)
    {
      HeldValue(results, start, details, dims, metrics, g, k, metric);
    }
    if keys != [] {
      assert keys[0] in keys;
      assert forall k | k in keys[1..] :: k in keys;
      EntriesSumTotals(results, start, details, dims, metrics, g, level, keys[1..], metric);
    }
  }

  /** The keys of a finer grain under a key. */
  function Finer(details: seq<Row>, dims: seq<string>, fine: nat, key: Key): seq<Key>
    requires fine <= |dims|
  {
    Under(GroupKeys(details, dims[..fine]), key)
  }

  lemma FinerAre(details: seq<Row>, dims: seq<string>, g: Grains, key: Key, fine: nat)
    requires details != [] && dims != [] && |key| <= fine <= |dims| && RequestedLevel(dims, g, fine)
    ensures Distinct(Finer(details, dims, fine, key))
    ensures forall k :: k in Finer(details, dims, fine, key) <==> IsKey(details, dims, g, k) && |k| == fine && key <= k
    ensures forall r | r in details && LiveKey(r, dims[..|key|]) == key ::
      LiveKey(r, dims[..fine]) in Finer(details, dims, fine, key)
  {
    GroupKeysAreRowKeys(details, dims[..fine]);
    UnderIs(GroupKeys(details, dims[..fine]), key);
    forall r | r in details && LiveKey(r, dims[..|key|]) == key
      ensures LiveKey(r, dims[..fine]) in Finer(details, dims, fine, key)
    {
      assert LiveKey(r, dims[..fine])[..|key|] == key;
    }
  }

  lemma TotalIsFinerTotals(details: seq<Row>, dims: seq<string>, g: Grains, key: Key, fine: nat, metric: string)
    requires details != [] && dims != [] && |key| <= fine <= |dims| && RequestedLevel(dims, g, fine)
    ensures Total(details, dims[..|key|], key, metric)
      == SumOfTotals(details, dims[..fine], Finer(details, dims, fine, key), metric)
  {
    FinerAre(details, dims, g, key, fine);
    CoarserIsSumOfFiner(details, dims, |key|, fine, key, Finer(details, dims, fine, key), metric);
  }

  /**
   * In the results, each coarser entry is the sum of the finer entries under it: a subtotal of
   * the next finer grain, the grand total of the details, and so on for any two grains.
   */
  lemma ResultsAddUp(results: Results, start: Results, details: seq<Row>, dims: seq<string>, metrics: seq<string>,
          g: Grains, key: Key, fine: nat, metric: string)
    requires details != [] && dims != [] && metric in metrics
    requires HoldsGrains(results, start, details, dims, metrics, g)
    requires IsKey(details, dims, g, key) && |key| <= fine <= |dims| && RequestedLevel(dims, g, fine)
    ensures Present(results, Finer(details, dims, fine, key), |dims|, metric)
    ensures Pad(key, |dims|) in results && metric in results[Pad(key, |dims|)]
    ensures results[Pad(key, |dims|)][metric] == SumOfEntries(results, Finer(details, dims, fine, key), |dims|, metric)
    ensures
      var keys := Finer(details, dims, fine, key);
      results[Pad(key, |dims|)][metric] ==
        if SomeEntry(results, keys, |dims|, metric) then Some(PlainSumOfEntries(results, keys, |dims|, metric))
        else None
  {
    HeldValue(results, start, details, dims, metrics, g, key, metric);
    TotalIsFinerTotals(details, dims, g, key, fine, metric);
    var keys := Finer(details, dims, fine, key);
    assert forall k | k in keys :: IsKey(details, dims, g, k) && |k| == fine by {
      FinerAre(details, dims, g, key, fine);
    }
    EntriesSumTotals(results, start, details, dims, metrics, g, fine, keys, metric);
    SumOfEntriesIsPlain(results, keys, |dims|, metric);
  }

  /** After merging, an entry is the plain sum of the details' values under its key, and missing without any. */
  lemma EntryIsPlainSum(results: Results, start: Results, details: seq<Row>, dims: seq<string>, metrics: seq<string>,
          g: Grains, key: Key, metric: string)
    requires details != [] && dims != [] && metric in metrics
    requires HoldsGrains(results, start, details, dims, metrics, g) && IsKey(details, dims, g, key)
    ensures Pad(key, |dims|) in results && metric in results[Pad(key, |dims|)]
    ensures results[Pad(key, |dims|)][metric] ==
      if SomeContributes(details, dims[..|key|], key, metric) then Some(PlainSum(details, dims[..|key|], key, metric))
      else None
  {
    HeldValue(results, start, details, dims, metrics, g, key, metric);
    TotalIsPlainSum(details, dims[..|key|], key, metric);
  }

  // ---------------------------------------------------------------------
  // One detail raised
  // ---------------------------------------------------------------------

  /** The detail with a present value of the metric raised. */
  function Raised(row: Row, metric: string, delta: real): Row
    requires metric in row.values && row.values[metric].Some?
  {
    row.(values := row.values[metric := Some(row.values[metric].value + delta)])
  }

  lemma RaisedKeepsKey(row: Row, metric: string, delta: real, live: seq<string>)
    requires metric in row.values && row.values[metric].Some?
    ensures LiveKey(Raised(row, metric, delta), live) == LiveKey(row, live)
  {
  }

  lemma {:induction false} RaisedKeepsKeys(details: seq<Row>, i: nat, metric: string, delta: real, live: seq<string>)
    requires i < |details| && metric in details[i].values && details[i].values[metric].Some?
    ensures GroupKeys(details[i := Raised(details[i], metric, delta)], live) == GroupKeys(details, live)
  {
    var n, after := |details| - 1, details[i := Raised(details[i], metric, delta)];
    RaisedKeepsKey(details[i], metric, delta, live);
    if i < n {
      RaisedKeepsKeys(details[..n], i, metric, delta, live);
      assert after[..n] == details[..n][i := Raised(details[i], metric, delta)];
    } else {
      assert after[..n] == details[..n];
    }
  }

  lemma RaisedIsKey(details: seq<Row>, i: nat, dims: seq<string>, g: Grains, metric: string, delta: real, key: Key)
    requires i < |details| && metric in details[i].values && details[i].values[metric].Some?
    ensures IsKey(details[i := Raised(details[i], metric, delta)], dims, g, key) <==> IsKey(details, dims, g, key)
  {
    if |key| <= |dims| {
      RaisedKeepsKeys(details, i, metric, delta, dims[..|key|]);
      RaisedKeepsKeys(details, i, metric, delta, dims);
    }
  }

  /** The plain sum of the metric grows by as much under the row's own key, and by nothing elsewhere. */
  lemma {:induction false} RaisedPlainSum(details: seq<Row>, i: nat, live: seq<string>, key: Key, metric: string,
          delta: real, other: string)
    requires i < |details| && metric in details[i].values && details[i].values[metric].Some?
    ensures
      PlainSum(details[i := Raised(details[i], metric, delta)], live, key, other) ==
      PlainSum(details, live, key, other) + if other == metric && LiveKey(details[i], live) == key then delta else 0.0
  {
    var after := details[i := Raised(details[i], metric, delta)];
    RaisedKeepsKey(details[i], metric, delta, live);
    if i == 0 {
      assert after[1..] == details[1..];
    } else {
      RaisedPlainSum(details[1..], i - 1, live, key, metric, delta, other);
      assert after[1..] == details[1..][i - 1 := Raised(details[i], metric, delta)];
    }
  }

  lemma RaisedContributes(details: seq<Row>, i: nat, live: seq<string>, key: Key, metric: string, delta: real,
          other: string)
    requires i < |details| && metric in details[i].values && details[i].values[metric].Some?
    ensures SomeContributes(details[i := Raised(details[i], metric, delta)], live, key, other) <==>
      SomeContributes(details, live, key, other)
  {
    var after := details[i := Raised(details[i], metric, delta)];
    RaisedKeepsKey(details[i], metric, delta, live);
    if r :| r in details && Contributes(r, live, key, other) {
      var j :| 0 <= j < |details| && details[j] == r;
      assert after[j] in after && Contributes(after[j], live, key, other);
    }
    if r :| r in after && Contributes(r, live, key, other) {
      var j :| 0 <= j < |after| && after[j] == r;
      assert details[j] in details && Contributes(details[j], live, key, other);
    }
  }

  function Plus(x: Option<real>, delta: real): Option<real>
  {
    if x.None? then None else Some(x.value + delta)
  }

  lemma RaisedTotal(details: seq<Row>, i: nat, live: seq<string>, key: Key, metric: string, delta: real, other: string)
    requires i < |details| && metric in details[i].values && details[i].values[metric].Some?
    ensures Total(details[i := Raised(details[i], metric, delta)], live, key, other) ==
      if other == metric && LiveKey(details[i], live) == key then Plus(Total(details, live, key, other), delta)
      else Total(details, live, key, other)
  {
    TotalIsPlainSum(details, live, key, other);
    TotalIsPlainSum(details[i := Raised(details[i], metric, delta)], live, key, other);
    RaisedPlainSum(details, i, live, key, metric, delta, other);
    RaisedContributes(details, i, live, key, metric, delta, other);
  }

  /**
   * Raising one detail's value of a metric raises that metric by exactly as much in the entry of
   * every requested grain above the detail, and changes no other entry of the results.
   */
  lemma RaisedDetailRaisesEntries(results: Results, after: Results, start: Results, details: seq<Row>, i: nat,
          dims: seq<string>, metrics: seq<string>, g: Grains, metric: string, delta: real, key: Key, other: string)
    requires dims != [] && metric in metrics && other in metrics
    requires i < |details| && metric in details[i].values && details[i].values[metric].Some?
    requires HoldsGrains(results, start, details, dims, metrics, g)
    requires HoldsGrains(after, start, details[i := Raised(details[i], metric, delta)], dims, metrics, g)
    requires IsKey(details, dims, g, key)
    ensures
      var k := Pad(key, |dims|);
      && k in results && k in after && other in results[k] && other in after[k]
      && after[k][other] ==
        if other == metric && LiveKey(details[i], dims[..|key|]) == key then Plus(results[k][other], delta)
        else results[k][other]
  {
    var raised := details[i := Raised(details[i], metric, delta)];
    RaisedIsKey(details, i, dims, g, metric, delta, key);
    HeldValue(results, start, details, dims, metrics, g, key, other);
    HeldValue(after, start, raised, dims, metrics, g, key, other);
    RaisedTotal(details, i, dims[..|key|], key, metric, delta, other);
  }

  /** What the query does not write stays the same with the raised detail. */
  lemma RaisedDetailKeepsOthers(results: Results, after: Results, start: Results, details: seq<Row>, i: nat,
          dims: seq<string>, metrics: seq<string>, g: Grains, metric: string, delta: real, k: Key)
    requires i < |details| && metric in details[i].values && details[i].values[metric].Some?
    requires HoldsGrains(results, start, details, dims, metrics, g)
    requires HoldsGrains(after, start, details[i := Raised(details[i], metric, delta)], dims, metrics, g)
    requires !IsPadded(details, dims, g, k)
    ensures (k in after <==> k in results) && Entry(after, k) == Entry(results, k)
  {
    forall key | IsKey(details[i := Raised(details[i], metric, delta)], dims, g, key) ensures Pad(key, |dims|) != k {
      RaisedIsKey(details, i, dims, g, metric, delta, key);
    }
  }

  /** Over no rows the grand total is there and zero, and no other key of the query is. */
  lemma NoRowsGrandTotalIsZero(results: Results, start: Results, dims: seq<string>, metrics: seq<string>, g: Grains)
    requires dims != [] && HoldsGrains(results, start, [], dims, metrics, g)
    ensures forall key :: IsKey([], dims, g, key) <==> g.grandTotal && key == []
    ensures g.grandTotal ==>
      var entry := Entry(results, Pad([], |dims|));
      forall m | m in metrics :: m in entry && entry[m] == Some(0.0)
  {
    assert dims[..0] == [];
    if g.grandTotal {
      assert IsKey([], dims, g, []);
    }
  }
}
