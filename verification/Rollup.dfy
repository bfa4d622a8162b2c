/**
 * Subtotals and grand totals summed in memory from detail rows, and their merge into the
 * results of a scenario.
 */
module Rollup {
  import opened Collections
  import opened Wrappers
  import opened Grouping

  // ---------------------------------------------------------------------
  // What a grain holds
  // ---------------------------------------------------------------------

  function Cell(row: Row, dim: string): string
  {
    if dim in row.cells then row.cells[dim] else ""
  }

  function Get(row: Row, metric: string): Option<real>
  {
    if metric in row.values then row.values[metric] else None
  }

  function LiveKey(row: Row, live: seq<string>): Key
  {
    seq(|live|, i requires 0 <= i < |live| => Cell(row, live[i]))
  }

  /** A sum that passes over missing values, and is missing when there is no value at all. */
  function Add(a: Option<real>, b: Option<real>): Option<real>
  {
    if a.None? then b else if b.None? then a else Some(a.value + b.value)
  }

  /** The sum of the metric over the rows under a key. */
  function Total(rows: seq<Row>, live: seq<string>, key: Key, metric: string): Option<real>
  {
    if rows == [] then None
    else
      var row := rows[|rows| - 1];
      var rest := Total(rows[..|rows| - 1], live, key, metric);
      if LiveKey(row, live) == key then Add(rest, Get(row, metric)) else rest
  }

  /** The keys of the rows, by first appearance. */
  function GroupKeys(rows: seq<Row>, live: seq<string>): seq<Key>
  {
    if rows == [] then []
    else
      var rest := GroupKeys(rows[..|rows| - 1], live);
      var key := LiveKey(rows[|rows| - 1], live);
      if key in rest then rest else rest + [key]
  }

  /** The grand total has a row even when there are no rows to sum. */
  function OutKeys(rows: seq<Row>, live: seq<string>): seq<Key>
  {
    if rows == [] && live == [] then [[]] else GroupKeys(rows, live)
  }

  function Value(rows: seq<Row>, live: seq<string>, key: Key, metric: string): Option<real>
  {
    if rows == [] && live == [] then Some(0.0) else Total(rows, live, key, metric)
  }

  lemma {:induction false} GroupKeysAreRowKeys(rows: seq<Row>, live: seq<string>)
    ensures Distinct(GroupKeys(rows, live))
    ensures forall key | key in GroupKeys(rows, live) :: exists r :: r in rows && LiveKey(r, live) == key
    ensures forall r | r in rows :: LiveKey(r, live) in GroupKeys(rows, live)
  {
    if rows != [] {
      GroupKeysAreRowKeys(rows[..|rows| - 1], live);
      assert rows == rows[..|rows| - 1] + [rows[|rows| - 1]];
      assert rows[|rows| - 1] in rows;
    }
  }

  // ---------------------------------------------------------------------
  // Totals are sums of real numbers
  // ---------------------------------------------------------------------

  /** The row is under the key and has a value of the metric. */
  predicate Contributes(row: Row, live: seq<string>, key: Key, metric: string)
  {
    LiveKey(row, live) == key && metric in row.values && row.values[metric].Some?
  }

  /** The values of the metric under the key, added up as numbers. */
  function PlainSum(rows: seq<Row>, live: seq<string>, key: Key, metric: string): real
  {
    if rows == [] then 0.0
    else
      PlainSum(rows[1..], live, key, metric)
      + if Contributes(rows[0], live, key, metric) then rows[0].values[metric].value else 0.0
  }

  predicate SomeContributes(rows: seq<Row>, live: seq<string>, key: Key, metric: string)
  {
    exists r :: r in rows && Contributes(r, live, key, metric)
  }

  lemma {:induction false} PlainSumAppended(rows: seq<Row>, row: Row, live: seq<string>, key: Key, metric: string)
    ensures PlainSum(rows + [row], live, key, metric) ==
      PlainSum(rows, live, key, metric)
      + if Contributes(row, live, key, metric) then row.values[metric].value else 0.0
  {
    if rows == [] {
      assert [row][1..] == [];
    } else {
      assert (rows + [row])[1..] == rows[1..] + [row];
      PlainSumAppended(rows[1..], row, live, key, metric);
    }
  }

  /** A total is the plain sum of the values under its key, and missing when there is none. */
  lemma {:induction false} TotalIsPlainSum(rows: seq<Row>, live: seq<string>, key: Key, metric: string)
    ensures Total(rows, live, key, metric) ==
      if SomeContributes(rows, live, key, metric) then Some(PlainSum(rows, live, key, metric)) else None
  {
    if rows != [] {
      var rest, row := rows[..|rows| - 1], rows[|rows| - 1];
      assert rows == rest + [row];
      TotalIsPlainSum(rest, live, key, metric);
      PlainSumAppended(rest, row, live, key, metric);
      SomeContributesAppended(rest, row, live, key, metric);
      if !SomeContributes(rest, live, key, metric) {
        NoneContributeNothing(rest, live, key, metric);
      }
    }
  }

  lemma SomeContributesAppended(rows: seq<Row>, row: Row, live: seq<string>, key: Key, metric: string)
    ensures SomeContributes(rows + [row], live, key, metric) <==>
      SomeContributes(rows, live, key, metric) || Contributes(row, live, key, metric)
  {
    assert forall r :: r in rows + [row] <==> r in rows || r == row;
    if SomeContributes(rows, live, key, metric) {
      var r :| r in rows && Contributes(r, live, key, metric);
      assert r in rows + [row];
    } else if Contributes(row, live, key, metric) {
      assert row in rows + [row];
    }
  }

  lemma {:induction false} NoneContributeNothing(rows: seq<Row>, live: seq<string>, key: Key, metric: string)
    requires !SomeContributes(rows, live, key, metric)
    ensures PlainSum(rows, live, key, metric) == 0.0
  {
    if rows != [] {
      assert rows[0] in rows;
      NoneContributeNothing(rows[1..], live, key, metric);
    }
  }

  // ---------------------------------------------------------------------
  // One grain, as computed
  // ---------------------------------------------------------------------

  /** The columns of a rolled-up row hold the key at the live dimensions. */
  ghost predicate Holds(row: Row, dims: seq<string>, live: seq<string>, key: Key)
  {
    && |key| == |live|
    && (forall d | d in dims :: d in row.cells)
    && (forall i | 0 <= i < |live| :: live[i] in row.cells && row.cells[live[i]] == key[i])
  }

  /** As Marks, for the dimensions before a position. */
  ghost predicate MarksBefore(tag: nat, dims: seq<string>, live: set<string>, idx: nat)
  {
    forall i {:trigger dims[i]} | 0 <= i < |dims| :: BitSet(tag, |dims| - 1 - i) <==> i < idx && dims[i] !in live
  }

  lemma MarkOne(tag: nat, dims: seq<string>, live: set<string>, idx: nat)
    requires idx < |dims| && dims[idx] !in live && MarksBefore(tag, dims, live, idx)
    ensures MarksBefore(BitOr(tag, ShiftLeft(1, |dims| - 1 - idx)), dims, live, idx + 1)
  {
    forall i {:trigger dims[i]} | 0 <= i < |dims|
      ensures BitSet(BitOr(tag, ShiftLeft(1, |dims| - 1 - idx)), |dims| - 1 - i) <==> i < idx + 1 && dims[i] !in live
    {
      OrSetsOneBit(tag, |dims| - 1 - idx, |dims| - 1 - i);
      assert BitSet(tag, |dims| - 1 - i) <==> i < idx && dims[i] !in live;
    }
  }

  /** A column of a rolled-up row: from the source row where the dimension is live, blank elsewhere. */
  function RolledCell(d: string, live: set<string>, source: Option<Row>): string
  {
    if d in live && source.Some? then Cell(source.value, d) else ""
  }

  method EmptyRollupRow(dims: seq<string>, metrics: seq<string>, live: set<string>, source: Option<Row>)
    returns (row: Row)
    ensures row.tag.Some? && Marks(row.tag.value, dims, live)
    ensures row.cells == map d | d in dims :: if d in live && source.Some? then Cell(source.value, d) else ""
    ensures row.values == map m | m in metrics :: Some(0.0)
  {
    var cells: map<string, string>, mask := map[], 0;
    forall j ensures !BitSet(0, j) {
      ZeroHasNoBits(j);
    }
    for idx := 0 to |dims|
      invariant MarksBefore(mask, dims, live, idx)
      invariant forall d :: d in cells <==> d in dims[..idx]
      invariant forall d | d in cells :: cells[d] == RolledCell(d, live, source)
    {
      var dim := dims[idx];
      TakesOneMore(dims, idx);
      if dim in live {
        cells := cells[dim := if source.None? then "" else Cell(source.value, dim)];
      } else {
        cells := cells[dim := ""];
        MarkOne(mask, dims, live, idx);
        mask := BitOr(mask, ShiftLeft(1, |dims| - 1 - idx));
      }
    }
    assert dims[..|dims|] == dims;
    row := Row(cells, map m | m in metrics :: Some(0.0), Some(mask));
  }

  lemma TakesOneMore(s: seq<string>, i: nat)
    requires i < |s|
    ensures forall x :: x in s[..i + 1] <==> x in s[..i] || x == s[i]
  {
    assert s[..i + 1] == s[..i] + [s[i]];
  }

  /** A running sum and whether anything was added to it stand for a total. */
  predicate Stands(values: map<string, Option<real>>, seen: set<string>, metric: string, total: Option<real>)
  {
    && metric in values && values[metric] == Some(if total.Some? then total.value else 0.0)
    && (metric in seen <==> total.Some?)
  }

  method AddRow(out: Row, seen: set<string>, row: Row, metrics: seq<string>, ghost totals: map<string, Option<real>>)
    returns (out': Row, seen': set<string>)
    requires Distinct(metrics)
    requires forall m | m in metrics :: m in totals && Stands(out.values, seen, m, totals[m])
    ensures out' == out.(values := out'.values) && out'.values.Keys == out.values.Keys
    ensures forall m | m in metrics :: Stands(out'.values, seen', m, Add(totals[m], Get(row, m)))
  {
    out', seen' := out, seen;
    for i := 0 to |metrics|
      invariant out' == out.(values := out'.values) && out'.values.Keys == out.values.Keys
      invariant forall j | 0 <= j < i ::
        Stands(out'.values, seen', metrics[j], Add(totals[metrics[j]], Get(row, metrics[j])))
      invariant forall j | i <= j < |metrics| :: Stands(out'.values, seen', metrics[j], totals[metrics[j]])
    {
      var metric := metrics[i];
      assert Stands(out'.values, seen', metric, totals[metric]);
      var val := Get(row, metric);
      if val.Some? {
        var sum := out'.values[metric].value + val.value;
        out' := out'.(values := out'.values[metric := Some(sum)]);
        seen' := seen' + {metric};
      }
    }
  }

  method NullUnset(out: Row, seen: set<string>, metrics: seq<string>, ghost totals: map<string, Option<real>>)
    returns (out': Row)
    requires forall m | m in metrics :: m in totals && Stands(out.values, seen, m, totals[m])
    requires forall m | m in metrics :: m in out.values
    ensures out' == out.(values := out'.values) && out'.values.Keys == out.values.Keys
    ensures forall m | m in metrics :: out'.values[m] == totals[m]
  {
    out' := out;
    for i := 0 to |metrics|
      invariant out' == out.(values := out'.values) && out'.values.Keys == out.values.Keys
      invariant forall m | m in metrics :: out'.values[m] == (if m in metrics[..i] then totals[m] else out.values[m])
    {
      var metric := metrics[i];
      assert Stands(out.values, seen, metric, totals[metric]);
      if metric !in seen {
        out' := out'.(values := out'.values[metric := None]);
      }
      assert metrics[..i + 1] == metrics[..i] + [metric];
    }
  }

  // ---------------------------------------------------------------------
  // All groups of one grain
  // ---------------------------------------------------------------------

  lemma {:induction false} NoRowsNoTotal(rows: seq<Row>, live: seq<string>, key: Key, metric: string)
    requires key !in GroupKeys(rows, live)
    ensures Total(rows, live, key, metric) == None
  {
    if rows != [] {
      NoRowsNoTotal(rows[..|rows| - 1], live, key, metric);
    }
  }

  /** A group after some rows: its columns, its tag, and its running sums. */
  ghost predicate Running(out: Row, seen: set<string>, rows: seq<Row>, dims: seq<string>, metrics: seq<string>,
          live: seq<string>, key: Key)
  {
    && Shaped(out, dims, metrics, live, key)
    && (forall m | m in metrics :: Stands(out.values, seen, m, Total(rows, live, key, m)))
  }

  ghost predicate Shaped(out: Row, dims: seq<string>, metrics: seq<string>, live: seq<string>, key: Key)
  {
    && Holds(out, dims, live, key)
    && out.tag.Some? && Marks(out.tag.value, dims, Elements(live))
    && (forall m | m in metrics :: m in out.values)
  }

  /** A finished row of a grain. */
  ghost predicate Finished(out: Row, rows: seq<Row>, dims: seq<string>, metrics: seq<string>, live: seq<string>,
          key: Key)
  {
    && Shaped(out, dims, metrics, live, key)
    && (forall m | m in metrics :: out.values[m] == Value(rows, live, key, m))
  }

  ghost predicate Grouped(order: seq<Key>, groups: map<Key, Row>, nonNull: map<Key, set<string>>, rows: seq<Row>,
          dims: seq<string>, metrics: seq<string>, live: seq<string>)
  {
    && order == GroupKeys(rows, live)
    && groups.Keys == nonNull.Keys
    && (forall k | k in order :: k in groups)
    && (forall k | k in groups :: k in order && Running(groups[k], nonNull[k], rows, dims, metrics, live, k))
  }

  /** A row under another key leaves a group as it is. */
  lemma OthersKeepRunning(out: Row, seen: set<string>, done: seq<Row>, row: Row, dims: seq<string>,
          metrics: seq<string>, live: seq<string>, key: Key)
    requires Running(out, seen, done, dims, metrics, live, key) && LiveKey(row, live) != key
    ensures Running(out, seen, done + [row], dims, metrics, live, key)
  {
    assert (done + [row])[..|done|] == done;
  }

  method AddToRunning(out: Row, seen: set<string>, ghost done: seq<Row>, row: Row, dims: seq<string>,
          metrics: seq<string>, live: seq<string>)
    returns (out': Row, seen': set<string>)
    requires Distinct(metrics)
    requires Running(out, seen, done, dims, metrics, live, LiveKey(row, live))
    ensures Running(out', seen', done + [row], dims, metrics, live, LiveKey(row, live))
  {
    ghost var totals := map m | m in metrics :: Total(done, live, LiveKey(row, live), m);
    out', seen' := AddRow(out, seen, row, metrics, totals);
    assert (done + [row])[..|done|] == done;
  }

  method NewGroup(ghost done: seq<Row>, row: Row, dims: seq<string>, metrics: seq<string>, live: seq<string>)
    returns (out: Row)
    requires forall d | d in live :: d in dims
    requires LiveKey(row, live) !in GroupKeys(done, live)
    ensures Running(out, {}, done, dims, metrics, live, LiveKey(row, live))
  {
    out := EmptyRollupRow(dims, metrics, Elements(live), Some(row));
    forall m | m in metrics ensures Total(done, live, LiveKey(row, live), m) == None {
      NoRowsNoTotal(done, live, LiveKey(row, live), m);
    }
  }

  method AddToGroup(order: seq<Key>, groups: map<Key, Row>, nonNull: map<Key, set<string>>, ghost done: seq<Row>,
          row: Row, dims: seq<string>, metrics: seq<string>, live: seq<string>)
    returns (order': seq<Key>, groups': map<Key, Row>, nonNull': map<Key, set<string>>)
    requires Distinct(metrics) && (forall d | d in live :: d in dims)
    requires Grouped(order, groups, nonNull, done, dims, metrics, live)
    ensures Grouped(order', groups', nonNull', done + [row], dims, metrics, live)
  {
    var key := LiveKey(row, live);
    var out, seen;
    if key !in groups {
      out := NewGroup(done, row, dims, metrics, live);
      seen, order' := {}, order + [key];
    } else {
      out, seen, order' := groups[key], nonNull[key], order;
    }
    var out', seen' := AddToRunning(out, seen, done, row, dims, metrics, live);
    groups', nonNull' := groups[key := out'], nonNull[key := seen'];
    assert (done + [row])[..|done|] == done;
    forall k | k in groups'
      ensures k in order' && Running(groups'[k], nonNull'[k], done + [row], dims, metrics, live, k)
    {
      if k != key {
        OthersKeepRunning(groups[k], nonNull[k], done, row, dims, metrics, live, k);
      }
    }
  }

  method FinishGroup(out: Row, seen: set<string>, ghost rows: seq<Row>, dims: seq<string>, metrics: seq<string>,
          live: seq<string>, key: Key)
    returns (row: Row)
    requires rows != [] || live != []
    requires Running(out, seen, rows, dims, metrics, live, key)
    ensures Finished(row, rows, dims, metrics, live, key)
  {
    ghost var totals := map m | m in metrics :: Total(rows, live, key, m);
    row := NullUnset(out, seen, metrics, totals);
  }

  method FinishGroups(order: seq<Key>, groups: map<Key, Row>, nonNull: map<Key, set<string>>, ghost rows: seq<Row>,
          dims: seq<string>, metrics: seq<string>, live: seq<string>)
    returns (out: seq<Row>)
    requires rows != [] || live != []
    requires Grouped(order, groups, nonNull, rows, dims, metrics, live)
    ensures |out| == |order|
    ensures forall i | 0 <= i < |out| :: Finished(out[i], rows, dims, metrics, live, order[i])
  {
    out := [];
    for i := 0 to |order|
      invariant |out| == i
      invariant forall j | 0 <= j < i :: Finished(out[j], rows, dims, metrics, live, order[j])
    {
      var row := FinishGroup(groups[order[i]], nonNull[order[i]], rows, dims, metrics, live, order[i]);
      out := out + [row];
    }
  }

  /** One row per key of the grain, in order of first appearance, with its totals. */
  method AggregateRowsForSet(rows: seq<Row>, dims: seq<string>, metrics: seq<string>, live: seq<string>)
    returns (out: seq<Row>)
    requires Distinct(metrics) && (forall d | d in live :: d in dims)
    ensures |out| == |OutKeys(rows, live)|
    ensures forall i | 0 <= i < |out| :: Finished(out[i], rows, dims, metrics, live, OutKeys(rows, live)[i])
  {
    if rows == [] && live == [] {
      var row := EmptyRollupRow(dims, metrics, Elements(live), None);
      return [row];
    }
    var order: seq<Key>, groups, nonNull := [], map[], map[];
    for i := 0 to |rows|
      invariant Grouped(order, groups, nonNull, rows[..i], dims, metrics, live)
    {
      order, groups, nonNull := AddToGroup(order, groups, nonNull, rows[..i], rows[i], dims, metrics, live);
      assert rows[..i] + [rows[i]] == rows[..i + 1];
    }
    assert rows[..|rows|] == rows;
    out := FinishGroups(order, groups, nonNull, rows, dims, metrics, live);
  }

  // ---------------------------------------------------------------------
  // All requested grains
  // ---------------------------------------------------------------------

  predicate RequestedLevel(dims: seq<string>, g: Grains, level: nat)
  {
    if dims == [] then level == 0 else Requested(|dims|, g, level)
  }

  /** The keys of one grain; without dimensions only what the query returned. */
  function KeysAt(details: seq<Row>, dims: seq<string>, level: nat): seq<Key>
    requires level <= |dims|
  {
    if dims == [] then GroupKeys(details, dims) else OutKeys(details, dims[..level])
  }

  /** What a requested grain should hold at a key. */
  function ValueAt(details: seq<Row>, dims: seq<string>, key: Key, metric: string): Option<real>
    requires |key| <= |dims|
  {
    if dims == [] then Total(details, dims, key, metric) else Value(details, dims[..|key|], key, metric)
  }

  predicate IsKey(details: seq<Row>, dims: seq<string>, g: Grains, key: Key)
  {
    |key| <= |dims| && RequestedLevel(dims, g, |key|) && key in KeysAt(details, dims, |key|)
  }

  predicate IsWhole(row: Row, dims: seq<string>, metrics: seq<string>)
  {
    row.tag.None? && (forall d | d in dims :: d in row.cells) && (forall m | m in metrics :: m in row.values)
  }

  /** Rows of a query grouped by all dimensions: every column is there, and keys differ. */
  predicate IsDetail(details: seq<Row>, dims: seq<string>, metrics: seq<string>)
  {
    && (forall r | r in details :: IsWhole(r, dims, metrics))
    && (forall i, j | 0 <= i < j < |details| :: LiveKey(details[i], dims) != LiveKey(details[j], dims))
  }

  /** A row that will be merged under its key with the right values. */
  ghost predicate Produced(row: Row, details: seq<Row>, dims: seq<string>, metrics: seq<string>, key: Key)
  {
    && |key| <= |dims|
    && Decodable(row, dims) && DimensionKey(row, dims) == Pad(key, |dims|)
    && (forall m | m in metrics :: m in row.values && row.values[m] == ValueAt(details, dims, key, m))
  }

  /** The grain keeps one copy of a dimension and rolls up another. */
  ghost predicate Torn(dims: seq<string>, level: nat)
  {
    exists i, j :: 0 <= i < level <= j < |dims| && dims[i] == dims[j]
  }

  lemma LiveBefore(dims: seq<string>, level: nat, i: nat)
    requires level <= |dims| && i < |dims|
    ensures i < level ==> dims[..level][i] == dims[i] && dims[i] in Elements(dims[..level])
    ensures i >= level && dims[i] in Elements(dims[..level]) ==> exists k :: 0 <= k < level && dims[k] == dims[i]
  {
    if i < level { assert dims[..level][i] == dims[i]; }
  }

  /** A rolled-up row reads as its key, then marks, but a second copy of a live dimension as its value. */
  lemma DecodedAt(row: Row, dims: seq<string>, metrics: seq<string>, level: nat, key: Key, i: nat)
    requires level <= |dims| && Shaped(row, dims, metrics, dims[..level], key) && i < |dims|
    ensures Decodable(row, dims) && |DimensionKey(row, dims)| == |dims|
    ensures i < level ==> DimensionKey(row, dims)[i] == key[i]
    ensures i >= level && dims[i] !in Elements(dims[..level]) ==> DimensionKey(row, dims)[i] == ROLLED_UP
  {
    LiveBefore(dims, level, i);
    assert BitSet(row.tag.value, |dims| - 1 - i) <==> dims[i] !in Elements(dims[..level]);
    assert Decodable(row, dims);
  }

  /** A second copy, asked for beyond the grain, shows the value of the first where the mark should be. */
  lemma RepeatedDimensionHidesSubtotal(row: Row, dims: seq<string>, metrics: seq<string>, level: nat, key: Key, i: nat,
          j: nat)
    requires i < level <= j < |dims| && dims[i] == dims[j]
    requires Shaped(row, dims, metrics, dims[..level], key)
    ensures Decodable(row, dims) && |DimensionKey(row, dims)| == |dims|
    ensures DimensionKey(row, dims)[j] == key[i] && Pad(key, |dims|)[j] == ROLLED_UP
  {
    DecodedAt(row, dims, metrics, level, key, j);
    LiveBefore(dims, level, i);
    assert !BitSet(row.tag.value, |dims| - 1 - j);
  }

  /** A grain that separates no two copies decodes to its padded keys. */
  lemma UntornDecodes(row: Row, dims: seq<string>, metrics: seq<string>, level: nat, key: Key)
    requires level <= |dims| && !Torn(dims, level)
    requires Shaped(row, dims, metrics, dims[..level], key)
    ensures Decodable(row, dims) && DimensionKey(row, dims) == Pad(key, |dims|)
  {
    if dims == [] {
      assert TaggedKey(row, dims) == [];
    } else {
      DecodedAt(row, dims, metrics, level, key, 0);
    }
    forall i | 0 <= i < |dims| ensures DimensionKey(row, dims)[i] == Pad(key, |dims|)[i] {
      DecodedAt(row, dims, metrics, level, key, i);
      LiveBefore(dims, level, i);
    }
  }

  /** Every row of the grain with real values in its key is read back under that key. */
  ghost predicate Readable(dims: seq<string>, level: nat)
    requires level <= |dims|
  {
    forall row, key | ROLLED_UP !in key && Shaped(row, dims, [], dims[..level], key) ::
      Decodable(row, dims) && DimensionKey(row, dims) == Pad(key, |dims|)
  }

  lemma SomeRowIsShaped(dims: seq<string>, level: nat) returns (row: Row, key: Key)
    requires level <= |dims|
    ensures Shaped(row, dims, [], dims[..level], key) && ROLLED_UP !in key
  {
    var live := Elements(dims[..level]);
    var digits := seq(|dims|, i requires 0 <= i < |dims| => dims[i] !in live);
    row := Row(map d | d in dims :: "", map[], Some(FromDigits(digits)));
    key := seq(level, _ => "");
    forall i {:trigger dims[i]} | 0 <= i < |dims|
      ensures BitSet(row.tag.value, |dims| - 1 - i) <==> dims[i] !in live
    {
      DigitIsBit(digits, i);
    }
  }

  lemma ReadableIffUntorn(dims: seq<string>, level: nat)
    requires level <= |dims|
    ensures Readable(dims, level) <==> !Torn(dims, level)
  {
    if Torn(dims, level) {
      var i, j :| 0 <= i < level <= j < |dims| && dims[i] == dims[j];
      var row, key := SomeRowIsShaped(dims, level);
      RepeatedDimensionHidesSubtotal(row, dims, [], level, key, i, j);
      assert key[i] in key;
    } else {
      forall row, key | ROLLED_UP !in key && Shaped(row, dims, [], dims[..level], key)
        ensures Decodable(row, dims) && DimensionKey(row, dims) == Pad(key, |dims|)
      {
        UntornDecodes(row, dims, [], level, key);
      }
    }
  }

  /** All subtotals are read back under their keys exactly when no dimension is asked for twice. */
  lemma SubtotalsReadableIffDistinct(dims: seq<string>)
    ensures (forall level: nat | 0 < level < |dims| :: Readable(dims, level)) <==> Distinct(dims)
  {
    forall level: nat | 0 < level < |dims|
      ensures Readable(dims, level) <==> !Torn(dims, level)
    {
      ReadableIffUntorn(dims, level);
    }
    if !Distinct(dims) {
      var i, j :| 0 <= i < j < |dims| && dims[i] == dims[j];
      assert Torn(dims, j);
    }
  }

  lemma FinishedIsProduced(row: Row, details: seq<Row>, dims: seq<string>, metrics: seq<string>, level: nat, key: Key)
    requires dims != [] && level <= |dims| && !Torn(dims, level)
    requires Finished(row, details, dims, metrics, dims[..level], key)
    ensures Produced(row, details, dims, metrics, key)
  {
    UntornDecodes(row, dims, metrics, level, key);
    assert |key| == level;
  }

  /** With one detail row per key, the row's own values are the totals. */
  lemma {:induction false} LoneRowIsTotal(details: seq<Row>, dims: seq<string>, i: nat, metric: string)
    requires i < |details|
    requires forall i, j | 0 <= i < j < |details| :: LiveKey(details[i], dims) != LiveKey(details[j], dims)
    ensures GroupKeys(details, dims) == seq(|details|, j requires 0 <= j < |details| => LiveKey(details[j], dims))
    ensures Total(details, dims, LiveKey(details[i], dims), metric) == Get(details[i], metric)
  {
    var n := |details|;
    if n > 1 {
      LoneRowIsTotal(details[..n - 1], dims, if i < n - 1 then i else 0, metric);
    }
    if i == n - 1 {
      NoRowsNoTotal(details[..n - 1], dims, LiveKey(details[i], dims), metric);
    }
  }

  lemma DetailIsProduced(details: seq<Row>, dims: seq<string>, metrics: seq<string>, i: nat)
    requires IsDetail(details, dims, metrics) && i < |details|
    ensures |GroupKeys(details, dims)| == |details|
    ensures Produced(details[i], details, dims, metrics, GroupKeys(details, dims)[i])
  {
    assert details[i] in details;
    PlainKeyIsWhole(details[i].cells, dims);
    LoneRowIsTotal(details, dims, i, "");
    var key := LiveKey(details[i], dims);
    assert PlainKey(details[i].cells, dims) == key == Pad(key, |dims|);
    assert dims[..|dims|] == dims;
    forall m | m in metrics
      ensures m in details[i].values && details[i].values[m] == ValueAt(details, dims, key, m)
    {
      LoneRowIsTotal(details, dims, i, m);
    }
  }

  /** The keys of several grains, one grain after the other. */
  function AllKeys(details: seq<Row>, sets: seq<seq<string>>): seq<Key>
  {
    if sets == [] then [] else AllKeys(details, sets[..|sets| - 1]) + OutKeys(details, sets[|sets| - 1])
  }

  predicate InSet(details: seq<Row>, live: seq<string>, key: Key)
  {
    |key| == |live| && key in OutKeys(details, live)
  }

  lemma {:induction false} AllKeysAre(details: seq<Row>, sets: seq<seq<string>>, key: Key)
    ensures key in AllKeys(details, sets) <==> exists s | s in sets :: InSet(details, s, key)
  {
    if sets != [] {
      var rest, last := sets[..|sets| - 1], sets[|sets| - 1];
      AllKeysAre(details, rest, key);
      GroupKeysAreRowKeys(details, last);
      assert sets == rest + [last];
      if key in OutKeys(details, last) { assert InSet(details, last, key); }
    }
  }

  lemma {:induction false} AllKeysDiffer(details: seq<Row>, sets: seq<seq<string>>)
    requires FinestFirst(sets)
    ensures Distinct(AllKeys(details, sets))
  {
    if sets != [] {
      var rest, last := sets[..|sets| - 1], sets[|sets| - 1];
      AllKeysDiffer(details, rest);
      GroupKeysAreRowKeys(details, last);
      forall key | key in AllKeys(details, rest)
        ensures key !in OutKeys(details, last)
      {
        AllKeysAre(details, rest, key);
        var s :| s in rest && InSet(details, s, key);
        var j :| 0 <= j < |rest| && rest[j] == s;
        assert |sets[j]| > |sets[|rest|]|;
      }
      DistinctJoined(AllKeys(details, rest), OutKeys(details, last));
    }
  }

  lemma DistinctJoined(a: seq<Key>, b: seq<Key>)
    requires Distinct(a) && Distinct(b) && (forall x | x in a :: x !in b)
    ensures Distinct(a + b)
  {
    forall i, j | 0 <= i < j < |a + b|
      ensures (a + b)[i] != (a + b)[j]
    {
      if i < |a| <= j { assert a[i] in a && b[j - |a|] in b; }
    }
  }

  /** The keys of all requested grains, finest grain first. */
  function RolledKeys(details: seq<Row>, dims: seq<string>, g: Grains): seq<Key>
  {
    if dims == [] then GroupKeys(details, dims) else AllKeys(details, GroupingSets(dims, g))
  }

  /** They are the keys of the requested grains, each once. */
  lemma RolledKeysAre(details: seq<Row>, dims: seq<string>, g: Grains)
    ensures Distinct(RolledKeys(details, dims, g))
    ensures forall key :: key in RolledKeys(details, dims, g) <==> IsKey(details, dims, g, key)
  {
    if dims == [] {
      GroupKeysAreRowKeys(details, dims);
    } else {
      RequestedKeysAreAllKeys(details, dims, g);
    }
  }

  /** The rows of every requested grain, each carrying its grain in its tag. */
  method RollupDetailRows(details: seq<Row>, dims: seq<string>, metrics: seq<string>, g: Grains)
    returns (rows: seq<Row>)
    requires (g.subtotals ==> Distinct(dims)) && Distinct(metrics) && IsDetail(details, dims, metrics)
    ensures Rolled(rows, RolledKeys(details, dims, g), details, dims, metrics)
  {
    DetailsAreProduced(details, dims, metrics);
    if dims == [] {
      return details;
    }
    var sets := RequestedGroupingSets(dims, g);
    RequestedKeysAreAllKeys(details, dims, g);
    if sets == [] {
      return [];
    }
    if sets == [dims] {
      assert AllKeys(details, [dims]) == AllKeys(details, []) + GroupKeys(details, dims) by {
        assert [dims][..0] == [];
      }
      return details;
    }
    forall s | s in sets ensures !Torn(dims, |s|) {
      GroupingSetsAreRequested(dims, g);
    }
    rows := RollUpSets(details, dims, metrics, sets);
  }

  ghost predicate Rolled(rows: seq<Row>, keys: seq<Key>, details: seq<Row>, dims: seq<string>, metrics: seq<string>)
  {
    |rows| == |keys| && forall i | 0 <= i < |rows| :: Produced(rows[i], details, dims, metrics, keys[i])
  }

  lemma DetailsAreProduced(details: seq<Row>, dims: seq<string>, metrics: seq<string>)
    requires IsDetail(details, dims, metrics)
    ensures Rolled(details, GroupKeys(details, dims), details, dims, metrics)
  {
    if details != [] { DetailIsProduced(details, dims, metrics, 0); }
    forall i | 0 <= i < |details|
      ensures Produced(details[i], details, dims, metrics, GroupKeys(details, dims)[i])
    {
      DetailIsProduced(details, dims, metrics, i);
    }
  }

  lemma RolledJoins(a: seq<Row>, ka: seq<Key>, b: seq<Row>, kb: seq<Key>, details: seq<Row>, dims: seq<string>,
          metrics: seq<string>)
    requires Rolled(a, ka, details, dims, metrics) && Rolled(b, kb, details, dims, metrics)
    ensures Rolled(a + b, ka + kb, details, dims, metrics)
  {
    forall i | 0 <= i < |a + b| ensures Produced((a + b)[i], details, dims, metrics, (ka + kb)[i]) {
      if i < |a| {
        assert Produced(a[i], details, dims, metrics, ka[i]);
      } else {
        assert Produced(b[i - |a|], details, dims, metrics, kb[i - |a|]);
      }
    }
  }

  lemma SetRolled(details: seq<Row>, sets: seq<seq<string>>, i: nat)
    requires i < |sets|
    ensures AllKeys(details, sets[..i + 1]) == AllKeys(details, sets[..i]) + OutKeys(details, sets[i])
  {
    assert sets[..i + 1][..i] == sets[..i];
  }

  method RollUpSets(details: seq<Row>, dims: seq<string>, metrics: seq<string>, sets: seq<seq<string>>)
    returns (rows: seq<Row>)
    requires dims != [] && Distinct(metrics)
    requires forall s | s in sets :: |s| <= |dims| && s == dims[..|s|] && !Torn(dims, |s|)
    ensures Rolled(rows, AllKeys(details, sets), details, dims, metrics)
  {
    rows := [];
    for i := 0 to |sets|
      invariant Rolled(rows, AllKeys(details, sets[..i]), details, dims, metrics)
    {
      assert sets[i] in sets;
      var grain := AggregateForLevel(details, dims, metrics, |sets[i]|);
      RolledJoins(rows, AllKeys(details, sets[..i]), grain, OutKeys(details, sets[i]), details, dims, metrics);
      SetRolled(details, sets, i);
      rows := rows + grain;
    }
    assert sets[..|sets|] == sets;
  }

  method AggregateForLevel(details: seq<Row>, dims: seq<string>, metrics: seq<string>, level: nat)
    returns (rows: seq<Row>)
    requires dims != [] && Distinct(metrics) && level <= |dims| && !Torn(dims, level)
    ensures Rolled(rows, OutKeys(details, dims[..level]), details, dims, metrics)
  {
    rows := AggregateRowsForSet(details, dims, metrics, dims[..level]);
    forall i | 0 <= i < |rows|
      ensures Produced(rows[i], details, dims, metrics, OutKeys(details, dims[..level])[i])
    {
      FinishedIsProduced(rows[i], details, dims, metrics, level, OutKeys(details, dims[..level])[i]);
    }
  }

  lemma RequestedKeysAreAllKeys(details: seq<Row>, dims: seq<string>, g: Grains)
    requires dims != []
    ensures forall s | s in GroupingSets(dims, g) :: |s| <= |dims| && s == dims[..|s|]
    ensures Distinct(AllKeys(details, GroupingSets(dims, g)))
    ensures forall key :: key in AllKeys(details, GroupingSets(dims, g)) <==> IsKey(details, dims, g, key)
  {
    var sets := GroupingSets(dims, g);
    GroupingSetsAreRequested(dims, g);
    AllKeysDiffer(details, sets);
    forall key
      ensures key in AllKeys(details, sets) <==> IsKey(details, dims, g, key)
    {
      AllKeysAre(details, sets, key);
      if key in AllKeys(details, sets) {
        var s :| s in sets && InSet(details, s, key);
        assert s == dims[..|s|];
      }
      if IsKey(details, dims, g, key) {
        assert InSet(details, dims[..|key|], key);
      }
    }
  }

  // ---------------------------------------------------------------------
  // Grains that stay apart
  // ---------------------------------------------------------------------

  /** Between two requested grains some live value is not the rolled-up mark. */
  ghost predicate GrainsApart(details: seq<Row>, dims: seq<string>, g: Grains)
  {
    forall coarse: nat, fine: nat, r | coarse < fine <= |dims| && RequestedLevel(dims, g, coarse)
      && RequestedLevel(dims, g, fine) && r in details ::
      exists i :: coarse <= i < fine && Cell(r, dims[i]) != ROLLED_UP
  }

  ghost predicate KeysApart(details: seq<Row>, dims: seq<string>, g: Grains)
  {
    forall a, b | IsKey(details, dims, g, a) && IsKey(details, dims, g, b) && Pad(a, |dims|) == Pad(b, |dims|) :: a == b
  }

  lemma LevelKey(details: seq<Row>, dims: seq<string>, g: Grains, r: Row, level: nat)
    requires r in details && level <= |dims| && RequestedLevel(dims, g, level)
    ensures IsKey(details, dims, g, LiveKey(r, dims[..level]))
  {
    GroupKeysAreRowKeys(details, dims[..level]);
    assert dims[..0] == [];
    assert dims == [] ==> dims[..level] == dims;
  }

  lemma KeyHasRow(details: seq<Row>, dims: seq<string>, g: Grains, key: Key) returns (r: Row)
    requires IsKey(details, dims, g, key) && key != []
    ensures r in details && LiveKey(r, dims[..|key|]) == key
  {
    GroupKeysAreRowKeys(details, dims[..|key|]);
    r :| r in details && LiveKey(r, dims[..|key|]) == key;
  }

  lemma CoarserKeyDiffers(details: seq<Row>, dims: seq<string>, g: Grains, a: Key, b: Key)
    requires GrainsApart(details, dims, g)
    requires IsKey(details, dims, g, a) && IsKey(details, dims, g, b) && |a| < |b|
    ensures Pad(a, |dims|) != Pad(b, |dims|)
  {
    var r := KeyHasRow(details, dims, g, b);
    var coarse: nat, fine: nat := |a|, |b|;
    var i :| coarse <= i < fine && Cell(r, dims[i]) != ROLLED_UP;
    assert dims[..|b|][i] == dims[i];
    assert b[i] == Cell(r, dims[i]);
    assert Pad(a, |dims|)[i] == ROLLED_UP && Pad(b, |dims|)[i] == b[i];
  }

  /** No key is written by two grains exactly when the mark does not stand in for a run of values. */
  lemma KeysApartIffGrainsApart(details: seq<Row>, dims: seq<string>, g: Grains)
    ensures KeysApart(details, dims, g) <==> GrainsApart(details, dims, g)
  {
    if GrainsApart(details, dims, g) {
      forall a, b | IsKey(details, dims, g, a) && IsKey(details, dims, g, b) && Pad(a, |dims|) == Pad(b, |dims|)
        ensures a == b
      {
        if |a| < |b| {
          CoarserKeyDiffers(details, dims, g, a, b);
        } else if |b| < |a| {
          CoarserKeyDiffers(details, dims, g, b, a);
        } else {
          assert a == Pad(a, |dims|)[..|a|] == b;
        }
      }
    }
    if KeysApart(details, dims, g) {
      forall coarse: nat, fine: nat, r | coarse < fine <= |dims| && RequestedLevel(dims, g, coarse)
        && RequestedLevel(dims, g, fine) && r in details
        ensures exists i :: coarse <= i < fine && Cell(r, dims[i]) != ROLLED_UP
      {
        var a, b := LiveKey(r, dims[..coarse]), LiveKey(r, dims[..fine]);
        LevelKey(details, dims, g, r, coarse);
        LevelKey(details, dims, g, r, fine);
        assert Pad(a, |dims|) != Pad(b, |dims|);
        var i :| 0 <= i < |dims| && Pad(a, |dims|)[i] != Pad(b, |dims|)[i];
        assert coarse <= i < fine && Cell(r, dims[i]) != ROLLED_UP;
      }
    }
  }
}
