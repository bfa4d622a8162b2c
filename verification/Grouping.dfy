/**
 * Result rows of one or several grains: the bitmask tag that says which dimensions a row rolls
 * up, and the dimension key read back from it.
 */
module Grouping {
  import opened Collections
  import opened Wrappers

  /** Stands in a key for a dimension that the row sums over. */
  const ROLLED_UP := "\U{0}__rolled_up__"

  type Key = seq<string>

  /** One result row; the tag is present when more than the detail grain was asked for. */
  datatype Row = Row(cells: map<string, string>, values: map<string, Option<real>>, tag: Option<nat>)

  datatype Grains = Grains(detail: bool, subtotals: bool, grandTotal: bool)

  // ---------------------------------------------------------------------
  // Bits
  // ---------------------------------------------------------------------

  function ShiftLeft(a: nat, k: nat): nat
  {
    if k == 0 then a else 2 * ShiftLeft(a, k - 1)
  }

  function ShiftRight(a: nat, k: nat): nat
  {
    if k == 0 then a else ShiftRight(a / 2, k - 1)
  }

  function BitOr(a: nat, b: nat): nat
    decreases a + b
  {
    if a == 0 && b == 0 then 0
    else 2 * BitOr(a / 2, b / 2) + if a % 2 == 1 || b % 2 == 1 then 1 else 0
  }

  predicate BitSet(a: nat, k: nat)
  {
    ShiftRight(a, k) % 2 == 1
  }

  lemma {:induction false} ZeroHasNoBits(k: nat)
    ensures !BitSet(0, k)
  {
    if k > 0 { ZeroHasNoBits(k - 1); }
  }

  lemma {:induction false} OneBit(k: nat, j: nat)
    ensures BitSet(ShiftLeft(1, k), j) <==> j == k
  {
    if k == 0 {
      if j > 0 { ZeroHasNoBits(j - 1); }
    } else if j > 0 {
      OneBit(k - 1, j - 1);
    }
  }

  lemma {:induction false} OrUnitesBits(a: nat, b: nat, j: nat)
    ensures BitSet(BitOr(a, b), j) <==> BitSet(a, j) || BitSet(b, j)
  {
    if a == 0 && b == 0 {
      ZeroHasNoBits(j);
    } else if j > 0 {
      OrUnitesBits(a / 2, b / 2, j - 1);
    }
  }

  lemma OrSetsOneBit(a: nat, k: nat, j: nat)
    ensures BitSet(BitOr(a, ShiftLeft(1, k)), j) <==> BitSet(a, j) || j == k
  {
    OrUnitesBits(a, ShiftLeft(1, k), j);
    OneBit(k, j);
  }

  /** The number whose binary digits are given, highest first. */
  function FromDigits(digits: seq<bool>): nat
  {
    if digits == [] then 0
    else 2 * FromDigits(digits[..|digits| - 1]) + if digits[|digits| - 1] then 1 else 0
  }

  lemma {:induction false} DigitIsBit(digits: seq<bool>, i: nat)
    requires i < |digits|
    ensures BitSet(FromDigits(digits), |digits| - 1 - i) <==> digits[i]
  {
    var n := |digits|;
    if i < n - 1 {
      DigitIsBit(digits[..n - 1], i);
    }
  }

  // ---------------------------------------------------------------------
  // Decoding
  // ---------------------------------------------------------------------

  /** The tag has a bit for exactly the dimensions that are not live, first dimension highest. */
  ghost predicate Marks(tag: nat, dims: seq<string>, live: set<string>)
  {
    forall i {:trigger dims[i]} | 0 <= i < |dims| :: BitSet(tag, |dims| - 1 - i) <==> dims[i] !in live
  }

  /** A tagged row has a column for every dimension it does not roll up. */
  predicate Decodable(row: Row, dims: seq<string>)
  {
    row.tag.Some? ==>
      forall i | 0 <= i < |dims| :: BitSet(row.tag.value, |dims| - 1 - i) || dims[i] in row.cells
  }

  function PlainKey(cells: map<string, string>, dims: seq<string>): Key
  {
    if dims == [] then []
    else (if dims[0] in cells then [cells[dims[0]]] else []) + PlainKey(cells, dims[1..])
  }

  function TaggedKey(row: Row, dims: seq<string>): Key
    requires row.tag.Some? && Decodable(row, dims)
  {
    seq(|dims|, i requires 0 <= i < |dims| =>
      if BitSet(row.tag.value, |dims| - 1 - i) then ROLLED_UP else row.cells[dims[i]])
  }

  function DimensionKey(row: Row, dims: seq<string>): Key
    requires Decodable(row, dims)
  {
    if row.tag.None? then PlainKey(row.cells, dims) else TaggedKey(row, dims)
  }

  /** The key of a grain: its live values, then rolled-up marks. */
  function Pad(key: Key, n: nat): (padded: Key)
    requires |key| <= n
    ensures |padded| == n
  {
    key + seq(n - |key|, _ => ROLLED_UP)
  }

  /** Every row with the tag decodes to its values at the live dimensions and to the mark elsewhere. */
  ghost predicate Decodes(tag: nat, dims: seq<string>, live: set<string>)
  {
    forall row: Row | row.tag == Some(tag) && HasLiveCells(row, dims, live) :: DecodesTo(row, dims, live)
  }

  ghost predicate HasLiveCells(row: Row, dims: seq<string>, live: set<string>)
  {
    forall d | d in dims && d in live :: d in row.cells && row.cells[d] != ROLLED_UP
  }

  ghost predicate DecodesTo(row: Row, dims: seq<string>, live: set<string>)
    requires HasLiveCells(row, dims, live) && row.tag.Some?
  {
    && Decodable(row, dims) && |DimensionKey(row, dims)| == |dims|
    && forall i | 0 <= i < |dims| ::
      DimensionKey(row, dims)[i] == if dims[i] in live then row.cells[dims[i]] else ROLLED_UP
  }

  /** For any number of dimensions, decoding gives a row's own key back exactly under the tag with these bits. */
  lemma DecodesIffMarks(tag: nat, dims: seq<string>, live: set<string>)
    ensures Decodes(tag, dims, live) <==> Marks(tag, dims, live)
  {
    if Decodes(tag, dims, live) {
      var row := Row(map d | d in dims :: "", map[], Some(tag));
      assert HasLiveCells(row, dims, live) && DecodesTo(row, dims, live);
      forall i {:trigger dims[i]} | 0 <= i < |dims|
        ensures BitSet(tag, |dims| - 1 - i) <==> dims[i] !in live
      {
        assert TaggedKey(row, dims)[i] == if BitSet(tag, |dims| - 1 - i) then ROLLED_UP else "";
      }
    } else {
      var row: Row :| row.tag == Some(tag) && HasLiveCells(row, dims, live) && !DecodesTo(row, dims, live);
      if Marks(tag, dims, live) {
        MarksDecode(row, dims, live);
        assert false;
      }
    }
  }

  lemma MarksDecode(row: Row, dims: seq<string>, live: set<string>)
    requires row.tag.Some? && Marks(row.tag.value, dims, live) && HasLiveCells(row, dims, live)
    ensures DecodesTo(row, dims, live)
  {
    forall i | 0 <= i < |dims|
      ensures BitSet(row.tag.value, |dims| - 1 - i) <==> dims[i] !in live
    {
    }
  }

  lemma {:induction false} PlainKeyIsWhole(cells: map<string, string>, dims: seq<string>)
    requires forall d | d in dims :: d in cells
    ensures PlainKey(cells, dims) == seq(|dims|, i requires 0 <= i < |dims| => cells[dims[i]])
  {
    if dims != [] {
      PlainKeyIsWhole(cells, dims[1..]);
    }
  }

  // ---------------------------------------------------------------------
  // What a reader makes of a key
  // ---------------------------------------------------------------------

  datatype Grain = Detail | Subtotal | GrandTotal

  function LiveDimensions(key: Key, dims: seq<string>): seq<string>
  {
    if dims == [] || key == [] then []
    else (if key[0] != ROLLED_UP then [dims[0]] else []) + LiveDimensions(key[1..], dims[1..])
  }

  function GrainOf(key: Key, dims: seq<string>): Grain
  {
    var live := |LiveDimensions(key, dims)|;
    if |dims| == 0 || live == |dims| then Detail else if live == 0 then GrandTotal else Subtotal
  }

  lemma {:induction false} NothingLive(n: nat, dims: seq<string>)
    ensures LiveDimensions(seq(n, _ => ROLLED_UP), dims) == []
  {
    if n > 0 && dims != [] {
      assert seq(n, _ => ROLLED_UP)[1..] == seq(n - 1, _ => ROLLED_UP);
      NothingLive(n - 1, dims[1..]);
    }
  }

  /** The leading dimensions are live in a padded key, and its grain is told by their number. */
  lemma {:induction false} PaddedKeyTellsGrain(key: Key, dims: seq<string>)
    requires |key| <= |dims| && ROLLED_UP !in key
    ensures LiveDimensions(Pad(key, |dims|), dims) == dims[..|key|]
    ensures GrainOf(Pad(key, |dims|), dims) ==
      if |key| == |dims| then Detail else if key == [] then GrandTotal else Subtotal
  {
    if key == [] {
      assert Pad(key, |dims|) == seq(|dims|, _ => ROLLED_UP);
      NothingLive(|dims|, dims);
    } else {
      PaddedKeyTellsGrain(key[1..], dims[1..]);
      assert Pad(key, |dims|)[1..] == Pad(key[1..], |dims| - 1);
      assert dims[..|key|] == [dims[0]] + dims[1..][..|key| - 1];
    }
  }

  // ---------------------------------------------------------------------
  // The requested grains
  // ---------------------------------------------------------------------

  /** The proper, non-empty prefixes up to a length, longest first. */
  function Prefixes(dims: seq<string>, upto: nat): seq<seq<string>>
    requires upto <= |dims|
  {
    if upto == 0 then [] else [dims[..upto]] + Prefixes(dims, upto - 1)
  }

  function GroupingSets(dims: seq<string>, g: Grains): seq<seq<string>>
  {
    (if g.detail then [dims] else [])
    + (if g.subtotals && dims != [] then Prefixes(dims, |dims| - 1) else [])
    + (if g.grandTotal then [[]] else [])
  }

  method RequestedGroupingSets(dims: seq<string>, g: Grains) returns (sets: seq<seq<string>>)
    ensures sets == GroupingSets(dims, g)
  {
    sets := [];
    if g.detail {
      sets := sets + [dims];
    }
    if g.subtotals {
      ghost var before := sets;
      var level := |dims| - 1;
      while level > 0
        invariant level >= 0 || dims == []
        invariant dims != [] ==> level < |dims| && sets + Prefixes(dims, level) == before + Prefixes(dims, |dims| - 1)
        invariant dims == [] ==> sets == before
      {
        sets := sets + [dims[..level]];
        level := level - 1;
      }
      if dims != [] {
        assert sets + Prefixes(dims, 0) == sets;
      }
      assert sets == before + if dims != [] then Prefixes(dims, |dims| - 1) else [];
    }
    if g.grandTotal {
      sets := sets + [[]];
    }
  }

  predicate Requested(n: nat, g: Grains, level: nat)
  {
    || (g.detail && level == n)
    || (g.subtotals && 0 < level < n)
    || (g.grandTotal && level == 0)
  }

  lemma {:induction false} PrefixesAre(dims: seq<string>, upto: nat)
    requires upto <= |dims|
    ensures |Prefixes(dims, upto)| == upto
    ensures forall i | 0 <= i < upto :: Prefixes(dims, upto)[i] == dims[..upto - i]
  {
    if upto > 0 {
      PrefixesAre(dims, upto - 1);
    }
  }

  /** The grains asked for, each once, finest first. */
  lemma GroupingSetsAreRequested(dims: seq<string>, g: Grains)
    requires dims != []
    ensures forall s | s in GroupingSets(dims, g) :: |s| <= |dims| && s == dims[..|s|] && Requested(|dims|, g, |s|)
    ensures forall level: nat | Requested(|dims|, g, level) :: level <= |dims| && dims[..level] in GroupingSets(dims, g)
    ensures FinestFirst(GroupingSets(dims, g))
  {
    var ps := Prefixes(dims, |dims| - 1);
    PrefixesAre(dims, |dims| - 1);
    forall s | s in GroupingSets(dims, g)
      ensures |s| <= |dims| && s == dims[..|s|] && Requested(|dims|, g, |s|)
    {
      if g.subtotals && s in ps {
        var i :| 0 <= i < |ps| && ps[i] == s;
      } else {
        assert s == dims || s == [];
      }
    }
    forall level: nat | Requested(|dims|, g, level)
      ensures level <= |dims| && dims[..level] in GroupingSets(dims, g)
    {
      if 0 < level < |dims| {
        assert ps[|dims| - 1 - level] == dims[..level];
      } else {
        assert dims[..|dims|] == dims && dims[..0] == [];
      }
    }
    FinestFirstSets(dims, g);
  }

  ghost predicate FinestFirst(sets: seq<seq<string>>)
  {
    forall i, j | 0 <= i < j < |sets| :: |sets[i]| > |sets[j]|
  }

  lemma FinestFirstSets(dims: seq<string>, g: Grains)
    requires dims != []
    ensures FinestFirst(GroupingSets(dims, g))
  {
    var head := if g.detail then [dims] else [];
    var middle := if g.subtotals then Prefixes(dims, |dims| - 1) else [];
    var last := if g.grandTotal then [[]] else [];
    PrefixesFinestFirst(dims, |dims| - 1);
    FinestFirstJoined(head, middle);
    FinestFirstJoined(head + middle, last);
    assert GroupingSets(dims, g) == head + middle + last;
  }

  lemma PrefixesFinestFirst(dims: seq<string>, upto: nat)
    requires upto <= |dims|
    ensures FinestFirst(Prefixes(dims, upto))
    ensures forall i | 0 <= i < |Prefixes(dims, upto)| :: 0 < |Prefixes(dims, upto)[i]| <= upto
  {
    PrefixesAre(dims, upto);
  }

  lemma FinestFirstJoined(a: seq<seq<string>>, b: seq<seq<string>>)
    requires FinestFirst(a) && FinestFirst(b)
    requires forall i, j | 0 <= i < |a| && 0 <= j < |b| :: |a[i]| > |b[j]|
    ensures FinestFirst(a + b)
  {
  }
}
