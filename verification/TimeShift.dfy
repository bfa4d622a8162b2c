/**
 * Month arithmetic on period texts, and the relabelling that lines a shifted scenario up with
 * the requested periods.
 */
module TimeShift {
  import opened Collections
  import opened TextOrder
  import opened Digits
  import opened Grouping
  import opened Retrieval

  // ---------------------------------------------------------------------
  // Periods
  // ---------------------------------------------------------------------

  /** A text whose year and month places hold digits. */
  predicate Shiftable(s: string)
  {
    |s| >= 7 && AllDigits(s[..4]) && AllDigits(s[5..7])
  }

  /** Months since year 0, month 1. */
  function MonthNumber(s: string): int
    requires Shiftable(s)
  {
    IntOf(s[..4]) * 12 + (IntOf(s[5..7]) - 1)
  }

  function PeriodText(total: int): string
  {
    Formatted(total / 12, 4) + "-" + Formatted(total % 12 + 1, 2)
  }

  function ShiftPeriod(s: string, months: int): string
    requires Shiftable(s)
  {
    PeriodText(MonthNumber(s) + months)
  }

  /** The months of the years 0 to 9999. */
  predicate InYears(total: int)
  {
    0 <= total < 120000
  }

  predicate Canonical(s: string)
  {
    |s| == 7 && Shiftable(s) && s[4] == '-' && 1 <= IntOf(s[5..7]) <= 12
  }

  lemma TextParts(total: int)
    requires InYears(total)
    ensures var s := PeriodText(total);
      |s| == 7 && s[..4] == Formatted(total / 12, 4) && s[4] == '-' && s[5..7] == Formatted(total % 12 + 1, 2)
    ensures Canonical(PeriodText(total)) && MonthNumber(PeriodText(total)) == total
  {
    assert Power10(4) == 10000 && Power10(2) == 100 by {
      assert Power10(1) == 10 && Power10(3) == 1000;
    }
    FormattedReads(total / 12, 4);
    FormattedReads(total % 12 + 1, 2);
  }

  /** A text is the print of its own month exactly when it is canonical. */
  lemma CanonicalIffPrinted(s: string)
    requires Shiftable(s) && InYears(MonthNumber(s))
    ensures PeriodText(MonthNumber(s)) == s <==> Canonical(s)
  {
    TextParts(MonthNumber(s));
    if Canonical(s) {
      DigitsAreFormatted(s[..4]);
      DigitsAreFormatted(s[5..7]);
      assert MonthNumber(s) / 12 == IntOf(s[..4]) && MonthNumber(s) % 12 + 1 == IntOf(s[5..7]);
      assert s == s[..4] + [s[4]] + s[5..7];
    }
  }

  lemma CanonicalInYears(s: string)
    requires Canonical(s)
    ensures InYears(MonthNumber(s))
  {
    FourDigits(s[..4]);
  }

  /** Shifting twice is shifting by the sum. */
  lemma ShiftsAdd(s: string, a: int, b: int)
    requires Shiftable(s) && InYears(MonthNumber(s) + a)
    ensures Shiftable(ShiftPeriod(s, a)) && ShiftPeriod(ShiftPeriod(s, a), b) == ShiftPeriod(s, a + b)
  {
    TextParts(MonthNumber(s) + a);
  }

  /** Shifting back undoes a shift exactly on canonical texts. */
  lemma ShiftBackIffCanonical(s: string, a: int)
    requires Shiftable(s) && InYears(MonthNumber(s)) && InYears(MonthNumber(s) + a)
    ensures Shiftable(ShiftPeriod(s, a)) && (ShiftPeriod(ShiftPeriod(s, a), -a) == s <==> Canonical(s))
  {
    ShiftsAdd(s, a, -a);
    CanonicalIffPrinted(s);
  }

  /** The order of period texts is the order of their months. */
  lemma TextOrderIsMonthOrder(x: int, y: int)
    requires InYears(x) && InYears(y)
    ensures AtMost(PeriodText(x), PeriodText(y)) <==> x <= y
  {
    MonthOrderByParts(x, y);
    PartsOrder(x / 12, y / 12, 4);
    PartsOrder(x % 12 + 1, y % 12 + 1, 2);
    var a, c := Formatted(x / 12, 4), Formatted(y / 12, 4);
    var b, d := Formatted(x % 12 + 1, 2), Formatted(y % 12 + 1, 2);
    AtMostJoined(a, "-" + b, c, "-" + d);
    AtMostJoined("-", b, "-", d);
    assert PeriodText(x) == a + ("-" + b) && PeriodText(y) == c + ("-" + d);
  }

  lemma MonthOrderByParts(x: int, y: int)
    requires InYears(x) && InYears(y)
    ensures 0 <= x / 12 < 10000 && 0 <= y / 12 < 10000
    ensures x <= y <==> x / 12 < y / 12 || (x / 12 == y / 12 && x % 12 + 1 <= y % 12 + 1)
  {
  }

  /** Numbers printed with the same width are ordered as their texts. */
  lemma PartsOrder(m: nat, n: nat, width: nat)
    requires (width == 4 && m < 10000 && n < 10000) || (width == 2 && m < 100 && n < 100)
    ensures |Formatted(m, width)| == width == |Formatted(n, width)|
    ensures AtMost(Formatted(m, width), Formatted(n, width)) <==> m <= n
    ensures Formatted(m, width) == Formatted(n, width) <==> m == n
  {
    assert Power10(4) == 10000 && Power10(2) == 100 by { assert Power10(1) == 10 && Power10(3) == 1000; }
    FormattedReads(m, width);
    FormattedReads(n, width);
    TextOrderIsNumberOrder(Formatted(m, width), Formatted(n, width));
  }

  /** A shift keeps the order, so a shifted period is in the shifted window exactly when it was in the window. */
  lemma ShiftKeepsOrder(s: string, t: string, a: int)
    requires Canonical(s) && Canonical(t) && InYears(MonthNumber(s) + a) && InYears(MonthNumber(t) + a)
    ensures AtMost(ShiftPeriod(s, a), ShiftPeriod(t, a)) <==> AtMost(s, t)
  {
    CanonicalInYears(s);
    CanonicalInYears(t);
    CanonicalIffPrinted(s);
    CanonicalIffPrinted(t);
    var m, n := MonthNumber(s), MonthNumber(t);
    TextOrderIsMonthOrder(m, n);
    TextOrderIsMonthOrder(m + a, n + a);
    assert s == PeriodText(m) && t == PeriodText(n);
    assert ShiftPeriod(s, a) == PeriodText(m + a) && ShiftPeriod(t, a) == PeriodText(n + a);
  }

  // ---------------------------------------------------------------------
  // Quarters and years
  // ---------------------------------------------------------------------

  predicate IsQuarter(v: string)
  {
    |v| == 7 && AllDigits(v[..4]) && v[4] == '-' && v[5] == 'Q' && '1' <= v[6] <= '4'
  }

  predicate IsFiscalYear(v: string)
  {
    |v| == 4 && AllDigits(v)
  }

  /** The first month of a quarter or a year. */
  function QuarterStart(v: string): nat
    requires IsQuarter(v)
  {
    IntOf(v[..4]) * 12 + (v[6] as int - '1' as int) * 3
  }

  function YearStart(v: string): nat
    requires IsFiscalYear(v)
  {
    IntOf(v) * 12
  }

  function QuarterText(total: nat): string
  {
    Formatted(total / 12, 4) + "-Q" + Decimal(total % 12 / 3 + 1)
  }

  /** A shift that stays where year texts have four digits. */
  predicate ShiftInYears(v: string, dim: string, a: int)
  {
    match dim
    case "period" => Shiftable(v) && InYears(MonthNumber(v) + a)
    case "quarter" => IsQuarter(v) ==> InYears(QuarterStart(v) + a)
    case "fiscal_year" => IsFiscalYear(v) ==> InYears(YearStart(v) + a)
    case _ => true
  }

  function ShiftQuarter(v: string, a: int): string
    requires IsQuarter(v) && InYears(QuarterStart(v) + a)
  {
    FourDigits(v[..4]);
    var shifted := ShiftFirstMonth(IntOf(v[..4]), (v[6] as int - '1' as int) * 3 + 1, a);
    var month := IntOf(shifted[5..7]);
    Formatted(IntOf(shifted[..4]), 4) + "-Q" + Decimal((month - 1) / 3 + 1)
  }

  function ShiftFiscalYear(v: string, a: int): string
    requires IsFiscalYear(v) && InYears(YearStart(v) + a)
  {
    FourDigits(v);
    ShiftFirstMonth(IntOf(v), 1, a)[..4]
  }

  /** The month, printed and shifted as text. */
  function ShiftFirstMonth(year: nat, month: nat, a: int): (shifted: string)
    requires year < 10000 && 1 <= month <= 12 && InYears(year * 12 + month - 1 + a)
    ensures Canonical(shifted) && MonthNumber(shifted) == year * 12 + month - 1 + a
  {
    TextParts(year * 12 + month - 1);
    TextParts(year * 12 + month - 1 + a);
    assert (year * 12 + month - 1) / 12 == year && (year * 12 + month - 1) % 12 + 1 == month;
    ShiftPeriod(Formatted(year, 4) + "-" + Formatted(month, 2), a)
  }

  function ShiftTimeValue(v: string, dim: string, a: int): string
    requires ShiftInYears(v, dim, a)
  {
    match dim
    case "period" => ShiftPeriod(v, a)
    case "quarter" => if IsQuarter(v) then ShiftQuarter(v, a) else v
    case "fiscal_year" => if IsFiscalYear(v) then ShiftFiscalYear(v, a) else v
    case _ => v
  }

  lemma QuarterTextReads(total: int)
    requires InYears(total)
    ensures IsQuarter(QuarterText(total)) && QuarterStart(QuarterText(total)) == total / 3 * 3
  {
    FormattedReads4(total / 12);
    var q := total % 12 / 3 + 1;
    assert Decimal(q) == ['0' + q as char];
    var v := QuarterText(total);
    assert v[..4] == Formatted(total / 12, 4) && v[6] == '0' + q as char;
  }

  lemma FormattedReads4(n: nat)
    requires n < 10000
    ensures |Formatted(n, 4)| == 4 && AllDigits(Formatted(n, 4)) && IntOf(Formatted(n, 4)) == n
  {
    assert Power10(2) == 100 && Power10(4) == 10000;
    FormattedReads(n, 4);
  }

  lemma QuarterIsPrinted(v: string)
    requires IsQuarter(v)
    ensures InYears(QuarterStart(v)) && QuarterText(QuarterStart(v)) == v
  {
    FourDigits(v[..4]);
    DigitsAreFormatted(v[..4]);
    var q := v[6] as int - '0' as int;
    assert QuarterStart(v) / 12 == IntOf(v[..4]) && QuarterStart(v) % 12 / 3 + 1 == q;
    assert Decimal(q) == [v[6]];
    assert v == v[..4] + "-Q" + [v[6]];
  }

  /** A shifted quarter is the quarter of its shifted first month. */
  lemma ShiftedQuarter(v: string, a: int)
    requires IsQuarter(v) && InYears(QuarterStart(v) + a)
    ensures ShiftQuarter(v, a) == QuarterText(QuarterStart(v) + a)
  {
    FourDigits(v[..4]);
    var shifted := ShiftFirstMonth(IntOf(v[..4]), (v[6] as int - '1' as int) * 3 + 1, a);
    assert MonthNumber(shifted) == QuarterStart(v) + a;
    assert MonthNumber(shifted) / 12 == IntOf(shifted[..4]) && MonthNumber(shifted) % 12 == IntOf(shifted[5..7]) - 1;
  }

  lemma ShiftedYear(v: string, a: int)
    requires IsFiscalYear(v) && InYears(YearStart(v) + a)
    ensures ShiftFiscalYear(v, a) == Formatted((YearStart(v) + a) / 12, 4)
  {
    FourDigits(v);
    var shifted := ShiftFirstMonth(IntOf(v), 1, a);
    DigitsAreFormatted(shifted[..4]);
    assert MonthNumber(shifted) / 12 == IntOf(shifted[..4]);
  }

  function QuarterOf(period: string): string
    requires Canonical(period)
  {
    CanonicalInYears(period);
    QuarterText(MonthNumber(period))
  }

  function FiscalYearOf(period: string): string
    requires Canonical(period)
  {
    period[..4]
  }

  lemma CarryIff3(n: int, a: int)
    ensures (n / 3 * 3 + a) / 3 == (n + a) / 3 <==> n % 3 + a % 3 < 3
  {
    assert n == n / 3 * 3 + n % 3 && a == a / 3 * 3 + a % 3;
    assert (n / 3 * 3 + a) / 3 == n / 3 + a / 3;
  }

  lemma CarryIff12(n: int, a: int)
    ensures (n / 12 * 12 + a) / 12 == (n + a) / 12 <==> n % 12 + a % 12 < 12
  {
    assert n == n / 12 * 12 + n % 12 && a == a / 12 * 12 + a % 12;
    assert (n / 12 * 12 + a) / 12 == n / 12 + a / 12;
  }

  lemma QuarterPlace(x: nat)
    ensures x / 12 == x / 3 / 4 && x % 12 / 3 == x / 3 % 4
  {
  }

  lemma QuarterTextSame(x: nat, y: nat)
    requires x / 3 == y / 3
    ensures QuarterText(x) == QuarterText(y)
  {
    QuarterPlace(x);
    QuarterPlace(y);
  }

  lemma SameQuarterTextIff(x: int, y: int)
    requires InYears(x) && InYears(y)
    ensures QuarterText(x) == QuarterText(y) <==> x / 3 == y / 3
  {
    if x / 3 == y / 3 {
      QuarterTextSame(x, y);
    } else {
      QuarterTextReads(x);
      QuarterTextReads(y);
    }
  }

  lemma SameYearTextIff(x: int, y: int)
    requires InYears(x) && InYears(y)
    ensures Formatted(x / 12, 4) == Formatted(y / 12, 4) <==> x / 12 == y / 12
  {
    FormattedReads4(x / 12);
    FormattedReads4(y / 12);
  }

  /** The quarter text of a number of months, read back and shifted. */
  lemma ShiftedQuarterText(n: int, a: int)
    requires InYears(n) && InYears(n / 3 * 3 + a)
    ensures IsQuarter(QuarterText(n)) && QuarterStart(QuarterText(n)) == n / 3 * 3
    ensures ShiftQuarter(QuarterText(n), a) == QuarterText(n / 3 * 3 + a)
  {
    QuarterTextReads(n);
    ShiftedQuarter(QuarterText(n), a);
  }

  /**
   * Taking the quarter and shifting commute exactly when the shift does not carry the month
   * over a quarter's end; a shift by whole quarters never does.
   */
  lemma QuarterCommutesIff(s: string, a: int)
    requires Canonical(s) && InYears(MonthNumber(s) / 3 * 3 + a) && InYears(MonthNumber(s) + a)
    ensures Canonical(ShiftPeriod(s, a))
    ensures IsQuarter(QuarterOf(s)) && InYears(QuarterStart(QuarterOf(s)) + a)
    ensures ShiftQuarter(QuarterOf(s), a) == QuarterOf(ShiftPeriod(s, a)) <==> MonthNumber(s) % 3 + a % 3 < 3
  {
    CanonicalInYears(s);
    TextParts(MonthNumber(s) + a);
    ShiftedQuarterText(MonthNumber(s), a);
    SameQuarterTextIff(MonthNumber(s) / 3 * 3 + a, MonthNumber(s) + a);
    CarryIff3(MonthNumber(s), a);
  }

  /** The same for fiscal years and whole years. */
  lemma FiscalYearCommutesIff(s: string, a: int)
    requires Canonical(s) && InYears(MonthNumber(s) / 12 * 12 + a) && InYears(MonthNumber(s) + a)
    ensures Canonical(ShiftPeriod(s, a))
    ensures IsFiscalYear(FiscalYearOf(s)) && InYears(YearStart(FiscalYearOf(s)) + a)
    ensures ShiftFiscalYear(FiscalYearOf(s), a) == FiscalYearOf(ShiftPeriod(s, a)) <==>
      MonthNumber(s) % 12 + a % 12 < 12
  {
    CanonicalInYears(s);
    TextParts(MonthNumber(s) + a);
    YearOfCanonical(s);
    ShiftedYear(FiscalYearOf(s), a);
    SameYearTextIff(MonthNumber(s) / 12 * 12 + a, MonthNumber(s) + a);
    CarryIff12(MonthNumber(s), a);
  }

  lemma YearOfCanonical(s: string)
    requires Canonical(s)
    ensures IsFiscalYear(s[..4]) && YearStart(s[..4]) == MonthNumber(s) / 12 * 12
  {
    var year, month := IntOf(s[..4]), IntOf(s[5..7]);
    assert (year * 12 + (month - 1)) / 12 == year;
  }

  // ---------------------------------------------------------------------
  // Relabelling keys
  // ---------------------------------------------------------------------

  /** Two values become one under every shift: the same text, or period texts of one month. */
  predicate OneMonth(v: string, w: string, dim: string)
  {
    v == w || (dim == "period" && Shiftable(v) && Shiftable(w) && MonthNumber(v) == MonthNumber(w))
  }

  lemma SamePeriodTextIff(x: int, y: int)
    requires InYears(x) && InYears(y)
    ensures PeriodText(x) == PeriodText(y) <==> x == y
  {
    TextParts(x);
    TextParts(y);
  }

  lemma SameStartSameQuarter(v: string, w: string)
    requires IsQuarter(v) && IsQuarter(w) && QuarterStart(v) == QuarterStart(w)
    ensures v == w
  {
    QuarterIsPrinted(v);
    QuarterIsPrinted(w);
  }

  lemma QuarterStartsWhole(v: string)
    requires IsQuarter(v)
    ensures QuarterStart(v) % 3 == 0
  {
  }

  lemma ShiftedQuarterStart(v: string, a: int)
    requires IsQuarter(v) && InYears(QuarterStart(v) + a)
    ensures IsQuarter(ShiftQuarter(v, a)) && QuarterStart(ShiftQuarter(v, a)) == (QuarterStart(v) + a) / 3 * 3
  {
    ShiftedQuarter(v, a);
    QuarterTextReads(QuarterStart(v) + a);
  }

  lemma SameShiftedQuarters(v: string, w: string, a: int)
    requires IsQuarter(v) && InYears(QuarterStart(v) + a) && IsQuarter(w) && InYears(QuarterStart(w) + a)
    requires ShiftQuarter(v, a) == ShiftQuarter(w, a)
    ensures v == w
  {
    ShiftedQuarterStart(v, a);
    ShiftedQuarterStart(w, a);
    QuarterStartsWhole(v);
    QuarterStartsWhole(w);
    WholeQuarters(QuarterStart(v), QuarterStart(w), a);
    SameStartSameQuarter(v, w);
  }

  lemma SameShiftedQuarterIff(v: string, w: string, a: int)
    requires ShiftInYears(v, "quarter", a) && ShiftInYears(w, "quarter", a)
    ensures ShiftTimeValue(v, "quarter", a) == ShiftTimeValue(w, "quarter", a) <==> v == w
  {
    if IsQuarter(v) && IsQuarter(w) {
      if ShiftQuarter(v, a) == ShiftQuarter(w, a) { SameShiftedQuarters(v, w, a); }
    } else if IsQuarter(v) {
      ShiftedQuarterStart(v, a);
    } else if IsQuarter(w) {
      ShiftedQuarterStart(w, a);
    }
  }

  lemma WholeQuarters(x: int, y: int, a: int)
    requires x % 3 == 0 && y % 3 == 0
    ensures (x + a) / 3 == (y + a) / 3 <==> x == y
  {
  }

  lemma SameShiftedYearIff(v: string, w: string, a: int)
    requires ShiftInYears(v, "fiscal_year", a) && ShiftInYears(w, "fiscal_year", a)
    ensures ShiftTimeValue(v, "fiscal_year", a) == ShiftTimeValue(w, "fiscal_year", a) <==> v == w
  {
    if IsFiscalYear(v) {
      ShiftedYear(v, a);
      FormattedReads4((YearStart(v) + a) / 12);
    }
    if IsFiscalYear(w) {
      ShiftedYear(w, a);
      FormattedReads4((YearStart(w) + a) / 12);
    }
    if IsFiscalYear(v) && IsFiscalYear(w) && (YearStart(v) + a) / 12 == (YearStart(w) + a) / 12 {
      WholeYears(IntOf(v), IntOf(w), a);
      SameWidthSameNumber(v, w);
    }
  }

  lemma WholeYears(x: int, y: int, a: int)
    requires (x * 12 + a) / 12 == (y * 12 + a) / 12
    ensures x == y
  {
  }

  /** Shifting joins two values exactly when they are period texts of one month. */
  lemma ShiftJoinsIffOneMonth(v: string, w: string, dim: string, a: int)
    requires ShiftInYears(v, dim, a) && ShiftInYears(w, dim, a)
    ensures ShiftTimeValue(v, dim, a) == ShiftTimeValue(w, dim, a) <==> OneMonth(v, w, dim)
  {
    match dim
    case "period" => SamePeriodTextIff(MonthNumber(v) + a, MonthNumber(w) + a);
    case "quarter" => SameShiftedQuarterIff(v, w, a);
    case "fiscal_year" => SameShiftedYearIff(v, w, a);
    case _ =>
  }

  predicate IsTimeDim(dim: string)
  {
    dim == "period" || dim == "quarter" || dim == "fiscal_year"
  }

  /** One value of a key, shifted when it is a live time value. */
  function Relabelled(v: string, dim: string, a: int): string
    requires v == ROLLED_UP || ShiftInYears(v, dim, a)
  {
    if IsTimeDim(dim) && v != ROLLED_UP then ShiftTimeValue(v, dim, a) else v
  }

  predicate KeyInYears(key: Key, dims: seq<string>, a: int)
  {
    |key| == |dims| && forall i | 0 <= i < |key| :: key[i] == ROLLED_UP || ShiftInYears(key[i], dims[i], a)
  }

  function Relabel(key: Key, dims: seq<string>, a: int): Key
    requires KeyInYears(key, dims, a)
  {
    seq(|key|, i requires 0 <= i < |key| => Relabelled(key[i], dims[i], a))
  }

  /** A value after its months have been moved: read as a month, a quarter or a year, it has moved as far. */
  predicate Moved(was: string, now: string, dim: string, a: int)
    requires dim == "period" ==> Shiftable(was)
  {
    if dim == "period" then
      Canonical(now) && MonthNumber(now) == MonthNumber(was) + a
    else if dim == "quarter" && IsQuarter(was) then
      IsQuarter(now) && QuarterStart(now) == (QuarterStart(was) + a) / 3 * 3
    else if dim == "fiscal_year" && IsFiscalYear(was) then
      IsFiscalYear(now) && YearStart(now) == (YearStart(was) + a) / 12 * 12
    else
      now == was
  }

  lemma ShiftMoves(v: string, dim: string, a: int)
    requires ShiftInYears(v, dim, a)
    ensures Moved(v, ShiftTimeValue(v, dim, a), dim, a)
  {
    match dim
    case "period" => TextParts(MonthNumber(v) + a);
    case "quarter" => if IsQuarter(v) { ShiftedQuarterStart(v, a); }
    case "fiscal_year" => if IsFiscalYear(v) { ShiftedYear(v, a); FormattedReads4((YearStart(v) + a) / 12); }
    case _ =>
  }

  /** Rolled-up positions stay, and every live value has moved by the months of the shift. */
  predicate KeyMoved(was: Key, now: Key, dims: seq<string>, a: int)
    requires KeyInYears(was, dims, a)
  {
    && |now| == |was|
    && forall i | 0 <= i < |was| ::
      if was[i] == ROLLED_UP then now[i] == ROLLED_UP else Moved(was[i], now[i], dims[i], a)
  }

  lemma RelabelMoves(key: Key, dims: seq<string>, a: int)
    requires KeyInYears(key, dims, a)
    ensures KeyMoved(key, Relabel(key, dims, a), dims, a)
  {
    forall i | 0 <= i < |key| && key[i] != ROLLED_UP
      ensures Moved(key[i], Relabelled(key[i], dims[i], a), dims[i], a)
    {
      ShiftMoves(key[i], dims[i], a);
    }
  }

  /** Every live time value of the key names the month, or the quarter or year it lies in. */
  ghost predicate OfMonth(key: Key, dims: seq<string>, n: int)
    requires InYears(n)
  {
    && |key| == |dims|
    && forall i | 0 <= i < |key| && key[i] != ROLLED_UP :: ValueOfMonth(key[i], dims[i], n)
  }

  ghost predicate ValueOfMonth(v: string, dim: string, n: int)
    requires InYears(n)
  {
    match dim
    case "period" => Canonical(v) && MonthNumber(v) == n
    case "quarter" => IsQuarter(v) && QuarterStart(v) <= n < QuarterStart(v) + 3
    case "fiscal_year" => IsFiscalYear(v) && YearStart(v) <= n < YearStart(v) + 12
    case _ => true
  }

  lemma MovedByYears(was: string, now: string, dim: string, n: int, a: int)
    requires InYears(n) && InYears(n + a) && a % 12 == 0
    requires ValueOfMonth(was, dim, n) && Moved(was, now, dim, a)
    ensures ValueOfMonth(now, dim, n + a)
  {
    if dim == "quarter" {
      QuarterStartsWhole(was);
      WholeShift3(QuarterStart(was), a);
    } else if dim == "fiscal_year" {
      WholeShift12(IntOf(was), a);
    }
  }

  lemma WholeShift3(start: int, a: int)
    requires start % 3 == 0 && a % 12 == 0
    ensures (start + a) / 3 * 3 == start + a
  {
  }

  lemma WholeShift12(year: int, a: int)
    requires a % 12 == 0
    ensures (year * 12 + a) / 12 * 12 == year * 12 + a
  {
  }

  /** Over whole years the period, quarter and year of one month become those of the shifted month. */
  lemma YearShiftKeepsMonth(key: Key, dims: seq<string>, n: int, a: int)
    requires InYears(n) && InYears(n + a) && a % 12 == 0
    requires KeyInYears(key, dims, a) && OfMonth(key, dims, n)
    ensures OfMonth(Relabel(key, dims, a), dims, n + a)
  {
    RelabelMoves(key, dims, a);
    forall i | 0 <= i < |key| && Relabel(key, dims, a)[i] != ROLLED_UP
      ensures ValueOfMonth(Relabel(key, dims, a)[i], dims[i], n + a)
    {
      MovedByYears(key[i], Relabel(key, dims, a)[i], dims[i], n, a);
    }
  }

  /**
   * A period lies in the shifted window exactly when its relabelled text, shifted back by as
   * much, lies in the window asked for.
   */
  lemma RelabelledLiesInWindow(start: string, end: string, period: string, offset: int)
    requires Canonical(start) && Canonical(end) && Canonical(period)
    requires InYears(MonthNumber(start) + offset) && InYears(MonthNumber(end) + offset)
    requires InYears(MonthNumber(period) - offset)
    ensures
      var back := Relabelled(period, "period", -offset);
      AtMost(ShiftPeriod(start, offset), period) && AtMost(period, ShiftPeriod(end, offset)) <==>
        AtMost(start, back) && AtMost(back, end)
  {
    var back := RelabelledPeriod(period, offset);
    ShiftKeepsOrder(start, back, offset);
    ShiftKeepsOrder(back, end, offset);
  }

  lemma RelabelledPeriod(period: string, offset: int) returns (back: string)
    requires Canonical(period) && InYears(MonthNumber(period) - offset)
    ensures back == Relabelled(period, "period", -offset)
    ensures Canonical(back) && InYears(MonthNumber(back) + offset) && ShiftPeriod(back, offset) == period
  {
    MarkIsNoPeriod();
    CanonicalInYears(period);
    back := ShiftPeriod(period, -offset);
    TextParts(MonthNumber(period) - offset);
    ShiftBackIffCanonical(period, -offset);
  }

  function TimeDimIndices(dims: seq<string>): set<nat>
  {
    set i | 0 <= i < |dims| && IsTimeDim(dims[i])
  }

  method RelabelKey(key: Key, dims: seq<string>, a: int) returns (parts: Key)
    requires KeyInYears(key, dims, a)
    ensures parts == Relabel(key, dims, a) && KeyMoved(key, parts, dims, a)
  {
    RelabelMoves(key, dims, a);
    parts := key;
    for idx := 0 to |dims|
      invariant |parts| == |key|
      invariant forall i | 0 <= i < idx :: parts[i] == Relabelled(key[i], dims[i], a)
      invariant forall i | idx <= i < |key| :: parts[i] == key[i]
    {
      if idx in TimeDimIndices(dims) {
        if parts[idx] != ROLLED_UP {
          parts := parts[idx := ShiftTimeValue(parts[idx], dims[idx], a)];
        }
      }
    }
  }

  /** Keys that differ at most in how the text of one month is written. */
  predicate Alike(k: Key, l: Key, dims: seq<string>)
  {
    |k| == |l| == |dims| && forall i | 0 <= i < |k| :: OneMonth(k[i], l[i], dims[i])
  }

  lemma RelabelJoinsIffAlike(k: Key, l: Key, dims: seq<string>, a: int)
    requires KeyInYears(k, dims, a) && KeyInYears(l, dims, a)
    ensures Relabel(k, dims, a) == Relabel(l, dims, a) <==> Alike(k, l, dims)
  {
    forall i | 0 <= i < |dims|
      ensures Relabelled(k[i], dims[i], a) == Relabelled(l[i], dims[i], a) <==> OneMonth(k[i], l[i], dims[i])
    {
      MarkStaysApart(k[i], l[i], dims[i], a);
    }
    if Relabel(k, dims, a) == Relabel(l, dims, a) {
      forall i | 0 <= i < |dims| ensures OneMonth(k[i], l[i], dims[i]) {
        assert Relabel(k, dims, a)[i] == Relabel(l, dims, a)[i];
      }
    }
  }

  /** The rolled-up mark is no time value and no shift of one. */
  lemma MarkStaysApart(v: string, w: string, dim: string, a: int)
    requires (v == ROLLED_UP || ShiftInYears(v, dim, a)) && (w == ROLLED_UP || ShiftInYears(w, dim, a))
    ensures Relabelled(v, dim, a) == Relabelled(w, dim, a) <==> OneMonth(v, w, dim)
  {
    MarkIsNoPeriod();
    if IsTimeDim(dim) {
      if v != ROLLED_UP { ShiftedIsNoMark(v, dim, a); }
      if w != ROLLED_UP { ShiftedIsNoMark(w, dim, a); }
      if v != ROLLED_UP && w != ROLLED_UP {
        ShiftJoinsIffOneMonth(v, w, dim, a);
      }
    }
  }

  lemma MarkIsNoPeriod()
    ensures !Shiftable(ROLLED_UP) && |ROLLED_UP| == 14
  {
    assert ROLLED_UP[..4][0] in ROLLED_UP[..4];
  }

  lemma ShiftedIsNoMark(v: string, dim: string, a: int)
    requires v != ROLLED_UP && ShiftInYears(v, dim, a)
    ensures ShiftTimeValue(v, dim, a) != ROLLED_UP
  {
    match dim
    case "period" => TextParts(MonthNumber(v) + a);
    case "quarter" => if IsQuarter(v) { ShiftedQuarterStart(v, a); }
    case "fiscal_year" => if IsFiscalYear(v) { ShiftedYear(v, a); FormattedReads4((YearStart(v) + a) / 12); }
    case _ =>
  }

  // ---------------------------------------------------------------------
  // Relabelling the results of a shifted scenario
  // ---------------------------------------------------------------------

  /** The keys of the results, in the order they were first written. */
  ghost predicate Lists(order: seq<Key>, results: Results)
  {
    Distinct(order) && Elements(order) == results.Keys
  }

  function RelabelAll(order: seq<Key>, dims: seq<string>, a: int): (keys: seq<Key>)
    requires forall k | k in order :: KeyInYears(k, dims, a)
    ensures |keys| == |order|
  {
    seq(|order|, i requires 0 <= i < |order| => Relabel(order[i], dims, a))
  }

  /** The entry kept under a relabelled key is that of the last key that became it. */
  ghost predicate LastWins(results: Results, before: Results, order: seq<Key>, labels: seq<Key>)
    requires |order| == |labels| && forall k | k in order :: k in before
  {
    && results.Keys == Elements(labels)
    && forall i {:trigger IsLast(labels, i)} | 0 <= i < |order| && IsLast(labels, i) ::
      labels[i] in results && results[labels[i]] == before[order[i]]
  }

  method RemapTimeKeys(before: Results, order: seq<Key>, dims: seq<string>, a: int) returns (results: Results)
    requires Lists(order, before)
    requires forall k | k in order :: KeyInYears(k, dims, a)
    ensures LastWins(results, before, order, RelabelAll(order, dims, a))
  {
    results := map[];
    ghost var labels := RelabelAll(order, dims, a);
    for i := 0 to |order|
      invariant LastWins(results, before, order[..i], labels[..i])
    {
      var parts := RelabelKey(order[i], dims, a);
      LastWinsStep(results, before, order, labels, i);
      results := results[parts := before[order[i]]];
    }
    assert order[..|order|] == order && labels[..|order|] == labels;
  }

  lemma LastWinsStep(results: Results, before: Results, order: seq<Key>, labels: seq<Key>, i: nat)
    requires i < |order| == |labels| && forall k | k in order :: k in before
    requires LastWins(results, before, order[..i], labels[..i])
    ensures LastWins(results[labels[i] := before[order[i]]], before, order[..i + 1], labels[..i + 1])
  {
    var after, all := results[labels[i] := before[order[i]]], labels[..i + 1];
    assert all == labels[..i] + [labels[i]];
    assert Elements(all) == Elements(labels[..i]) + {labels[i]};
    forall j | 0 <= j < i + 1 && IsLast(all, j)
      ensures all[j] in after && after[all[j]] == before[order[..i + 1][j]]
    {
      if j < i {
        assert all[i] != all[j];
        assert IsLast(labels[..i], j) by {
          assert forall m | j < m < i :: all[m] == labels[..i][m];
        }
      }
    }
  }

  lemma {:induction false} DistinctIffSize(s: seq<Key>)
    ensures |Elements(s)| <= |s|
    ensures |Elements(s)| == |s| <==> Distinct(s)
  {
    if s != [] {
      var rest := s[..|s| - 1];
      DistinctIffSize(rest);
      assert s == rest + [s[|s| - 1]];
      if s[|s| - 1] in rest {
        assert Elements(s) == Elements(rest);
      } else {
        assert Elements(s) == Elements(rest) + {s[|s| - 1]};
      }
    }
  }

  /** Two keys that differ are never alike. */
  predicate MonthsWrittenOnce(order: seq<Key>, dims: seq<string>)
  {
    forall i, j | 0 <= i < j < |order| :: !Alike(order[i], order[j], dims)
  }

  lemma LabelsDifferIff(order: seq<Key>, dims: seq<string>, a: int)
    requires forall k | k in order :: KeyInYears(k, dims, a)
    ensures Distinct(RelabelAll(order, dims, a)) <==> MonthsWrittenOnce(order, dims)
  {
    var labels := RelabelAll(order, dims, a);
    forall i, j | 0 <= i < j < |order|
      ensures labels[i] == labels[j] <==> Alike(order[i], order[j], dims)
    {
      RelabelJoinsIffAlike(order[i], order[j], dims, a);
    }
    if !MonthsWrittenOnce(order, dims) {
      var i, j :| 0 <= i < j < |order| && Alike(order[i], order[j], dims);
      assert labels[i] == labels[j];
    }
  }

  /** No row is lost exactly when no month is written in two ways; then every entry is found under its new key. */
  lemma NoRowLostIffMonthsWrittenOnce(results: Results, before: Results, order: seq<Key>, dims: seq<string>, a: int)
    requires Lists(order, before) && forall k | k in order :: KeyInYears(k, dims, a)
    requires LastWins(results, before, order, RelabelAll(order, dims, a))
    ensures |results| == |before| <==> MonthsWrittenOnce(order, dims)
    ensures MonthsWrittenOnce(order, dims) ==>
      forall k | k in before ::
        KeyInYears(k, dims, a) && Relabel(k, dims, a) in results && results[Relabel(k, dims, a)] == before[k]
  {
    var labels := RelabelAll(order, dims, a);
    DistinctIffSize(order);
    DistinctIffSize(labels);
    LabelsDifferIff(order, dims, a);
    assert |results| == |results.Keys| && |before| == |before.Keys|;
    if MonthsWrittenOnce(order, dims) {
      forall k | k in before
        ensures KeyInYears(k, dims, a) && Relabel(k, dims, a) in results && results[Relabel(k, dims, a)] == before[k]
      {
        assert k in Elements(order);
        var i :| 0 <= i < |order| && order[i] == k;
        assert IsLast(labels, i);
      }
    }
  }

  lemma OneMonthIsOneText(v: string, w: string, dim: string)
    requires dim == "period" ==> (v == ROLLED_UP || Canonical(v)) && (w == ROLLED_UP || Canonical(w))
    ensures OneMonth(v, w, dim) <==> v == w
  {
    MarkIsNoPeriod();
    if dim == "period" && v != ROLLED_UP && w != ROLLED_UP {
      CanonicalInYears(v);
      CanonicalInYears(w);
      CanonicalIffPrinted(v);
      CanonicalIffPrinted(w);
    }
  }

  /** Canonical periods are written once, so a shifted scenario over them keeps every row. */
  lemma CanonicalKeysWrittenOnce(order: seq<Key>, dims: seq<string>)
    requires Distinct(order) && forall k | k in order :: |k| == |dims|
    requires forall k, i | k in order && 0 <= i < |dims| && dims[i] == "period" :: k[i] == ROLLED_UP || Canonical(k[i])
    ensures MonthsWrittenOnce(order, dims)
  {
    forall i, j | 0 <= i < j < |order|
      ensures !Alike(order[i], order[j], dims)
    {
      var k, l := order[i], order[j];
      assert k in order && l in order;
      assert k != l;
      var p :| 0 <= p < |dims| && k[p] != l[p];
      OneMonthIsOneText(k[p], l[p], dims[p]);
    }
  }

  lemma TwoDigits(s: string)
    requires |s| == 2 && IsDigit(s[0]) && IsDigit(s[1])
    ensures AllDigits(s) && IntOf(s) == 10 * DigitValue(s[0]) + DigitValue(s[1])
  {
    assert s[..1] == [s[0]] && s[..1][..0] == [];
    assert IntOf(s[..1]) == DigitValue(s[0]);
  }

  /** To a shift a thirteenth period is the next January, for every year. */
  lemma ThirteenthPeriodCollides(year: string)
    requires |year| == 4 && AllDigits(year) && IntOf(year) < 9999
    ensures var v, w := year + "-13", Formatted(IntOf(year) + 1, 4) + "-01";
      v != w && Shiftable(v) && Shiftable(w) && OneMonth(v, w, "period")
  {
    var v, w := year + "-13", Formatted(IntOf(year) + 1, 4) + "-01";
    FormattedReads4(IntOf(year) + 1);
    TwoDigits("13");
    TwoDigits("01");
    assert v[..4] == year && v[5..7] == "13" && w[..4] == Formatted(IntOf(year) + 1, 4) && w[5..7] == "01";
    assert v[5] != w[5];
  }

  /** To a shift an adjustment period is the month it adjusts. */
  lemma AdjustmentPeriodCollides(period: string)
    requires Canonical(period)
    ensures Shiftable(period + "-ADJ") && OneMonth(period, period + "-ADJ", "period") && period != period + "-ADJ"
  {
    var v := period + "-ADJ";
    assert v[..4] == period[..4] && v[5..7] == period[5..7];
  }

  // ---------------------------------------------------------------------
  // Ranges of months
  // ---------------------------------------------------------------------

  function Months(first: int, last: int): seq<string>
    decreases last - first
  {
    if first > last then [] else [PeriodText(first)] + Months(first + 1, last)
  }

  lemma {:induction false} MonthsAppended(first: int, last: int)
    requires first <= last + 1
    ensures Months(first, last + 1) == Months(first, last) + [PeriodText(last + 1)]
    decreases last - first
  {
    if first <= last {
      MonthsAppended(first + 1, last);
    } else {
      assert Months(last + 2, last + 1) == [];
    }
  }

  /** The last month up to an end whose month place may hold any two digits. */
  function LastMonth(end: string): int
    requires Shiftable(end)
  {
    var month := IntOf(end[5..7]);
    IntOf(end[..4]) * 12 + (if month > 12 then 12 else month) - 1
  }

  predicate NotAfter(year: int, month: int, endYear: int, endMonth: int)
  {
    year < endYear || (year == endYear && month <= endMonth)
  }

  /** What is listed for the start itself when its month is none, and the first month after that. */
  function OddStart(start: string): seq<string>
    requires Shiftable(start)
  {
    var month := IntOf(start[5..7]);
    if 1 <= month <= 12 then [] else [Formatted(IntOf(start[..4]), 4) + "-" + Formatted(month, 2)]
  }

  function FirstMonth(start: string): int
    requires Shiftable(start)
  {
    var year, month := IntOf(start[..4]), IntOf(start[5..7]);
    if month == 0 then year * 12 else if month > 12 then (year + 1) * 12 else year * 12 + month - 1
  }

  predicate Begins(start: string, end: string)
    requires Shiftable(start) && Shiftable(end)
  {
    NotAfter(IntOf(start[..4]), IntOf(start[5..7]), IntOf(end[..4]), IntOf(end[5..7]))
  }

  /** All months from the start to the end, in order; a start that is no month is listed as it is. */
  method GenerateMonthlyRange(start: string, end: string) returns (periods: seq<string>)
    requires Shiftable(start) && Shiftable(end)
    ensures periods == if Begins(start, end) then OddStart(start) + Months(FirstMonth(start), LastMonth(end)) else []
    ensures Canonical(start) ==> periods == Months(MonthNumber(start), LastMonth(end))
  {
    var year, month := IntOf(start[..4]), IntOf(start[5..7]);
    var endYear, endMonth := IntOf(end[..4]), IntOf(end[5..7]);
    periods := [];
    ghost var at := FirstMonth(start);
    while NotAfter(year, month, endYear, endMonth)
      invariant Untouched(start, year, month, periods) || Listed(start, end, year, month, at, periods)
      invariant Untouched(start, year, month, periods) ==> at == FirstMonth(start)
      decreases if periods == [] then 1 else 0, LastMonth(end) + 1 - at
    {
      periods := periods + [Formatted(year, 4) + "-" + Formatted(month, 2)];
      at := ListNext(start, end, year, month, at, periods);
      month := month + 1;
      if month > 12 {
        month := 1;
        year := year + 1;
      }
    }
    EndOfRange(start, end, year, month, at, periods);
  }

  ghost predicate Untouched(start: string, year: nat, month: nat, periods: seq<string>)
    requires Shiftable(start)
  {
    periods == [] && year == IntOf(start[..4]) && month == IntOf(start[5..7])
  }

  /** Everything before a month has been listed. */
  ghost predicate Listed(start: string, end: string, year: nat, month: nat, at: int, periods: seq<string>)
    requires Shiftable(start) && Shiftable(end)
  {
    && Begins(start, end) && periods != []
    && 1 <= month <= 12 && at == year * 12 + month - 1 && FirstMonth(start) <= at <= LastMonth(end) + 1
    && periods == OddStart(start) + Months(FirstMonth(start), at - 1)
  }

  lemma ListNext(start: string, end: string, year: nat, month: nat, at: int, more: seq<string>) returns (next: int)
    requires Shiftable(start) && Shiftable(end) && more != []
    requires more[|more| - 1] == Formatted(year, 4) + "-" + Formatted(month, 2)
    requires NotAfter(year, month, IntOf(end[..4]), IntOf(end[5..7]))
    requires var periods := more[..|more| - 1];
      || (Untouched(start, year, month, periods) && at == FirstMonth(start))
      || Listed(start, end, year, month, at, periods)
    ensures Listed(start, end, if month >= 12 then year + 1 else year, if month >= 12 then 1 else month + 1, next, more)
    ensures |more| > 1 ==> next > at
    ensures next <= LastMonth(end) + 1
  {
    var periods := more[..|more| - 1];
    assert more == periods + [more[|more| - 1]];
    assert Months(FirstMonth(start), FirstMonth(start) - 1) == [];
    if Untouched(start, year, month, periods) && !(1 <= month <= 12) {
      OddTurn(start, end, more);
      next := FirstMonth(start);
    } else {
      MonthListed(FirstMonth(start), year, month, OddStart(start));
      next := at + 1;
    }
  }

  /** A start that is no month is listed once, and the next turn is at the month after it. */
  lemma OddTurn(start: string, end: string, more: seq<string>)
    requires Shiftable(start) && Shiftable(end) && Begins(start, end)
    requires var year, month := IntOf(start[..4]), IntOf(start[5..7]);
      !(1 <= month <= 12) && more == [Formatted(year, 4) + "-" + Formatted(month, 2)]
    ensures var year, month := IntOf(start[..4]), IntOf(start[5..7]);
      Listed(start, end, if month >= 12 then year + 1 else year, if month >= 12 then 1 else month + 1,
        FirstMonth(start), more)
  {
    assert Months(FirstMonth(start), FirstMonth(start) - 1) == [];
    assert OddStart(start) == more;
  }

  lemma MonthListed(first: int, year: nat, month: nat, before: seq<string>)
    requires 1 <= month <= 12 && first <= year * 12 + month - 1
    ensures before + Months(first, year * 12 + month - 2) + [Formatted(year, 4) + "-" + Formatted(month, 2)] ==
      before + Months(first, year * 12 + month - 1)
  {
    var at := year * 12 + month - 1;
    var earlier, text := Months(first, at - 1), PeriodText(at);
    MonthPlaces(year, month, at);
    MonthsAppended(first, at - 1);
    assert before + earlier + [text] == before + (earlier + [text]);
  }

  lemma MonthPlaces(year: nat, month: nat, at: int)
    requires 1 <= month <= 12 && at == year * 12 + month - 1
    ensures PeriodText(at) == Formatted(year, 4) + "-" + Formatted(month, 2)
  {
    assert at / 12 == year && at % 12 + 1 == month;
  }

  lemma EndOfRange(start: string, end: string, year: nat, month: nat, at: int, periods: seq<string>)
    requires Shiftable(start) && Shiftable(end)
    requires !NotAfter(year, month, IntOf(end[..4]), IntOf(end[5..7]))
    requires Untouched(start, year, month, periods) || Listed(start, end, year, month, at, periods)
    ensures periods == if Begins(start, end) then OddStart(start) + Months(FirstMonth(start), LastMonth(end)) else []
    ensures Canonical(start) ==> periods == Months(MonthNumber(start), LastMonth(end))
  {
    if periods == [] && Canonical(start) {
      assert Months(FirstMonth(start), LastMonth(end)) == [];
    }
  }

  lemma {:induction false} MonthIs(first: int, last: int, total: int)
    requires first <= last + 1
    ensures |Months(first, last)| == last - first + 1
    ensures first <= total <= last ==> Months(first, last)[total - first] == PeriodText(total)
    decreases last - first
  {
    if first <= last {
      MonthIs(first + 1, last, total);
    }
  }

  lemma MonthAt(first: int, last: int, i: nat)
    requires first <= last + 1
    ensures |Months(first, last)| == last - first + 1
    ensures i < |Months(first, last)| ==> Months(first, last)[i] == PeriodText(first + i)
  {
    MonthIs(first, last, first + i);
  }

  lemma NextMonth(total: int)
    requires InYears(total)
    ensures Shiftable(PeriodText(total)) && ShiftPeriod(PeriodText(total), 1) == PeriodText(total + 1)
  {
    TextParts(total);
  }

  /** Each listed month is one shift after the one before, and every month between the ends is listed. */
  lemma RangeStepsByOneShift(first: int, last: int, i: nat)
    requires 0 <= first && last < 120000 && first + i <= last
    ensures i < |Months(first, last)| && Months(first, last)[i] == PeriodText(first + i)
    ensures i + 1 < |Months(first, last)| ==>
      Shiftable(Months(first, last)[i]) && Months(first, last)[i + 1] == ShiftPeriod(Months(first, last)[i], 1)
  {
    MonthAt(first, last, i);
    MonthAt(first, last, i + 1);
    NextMonth(first + i);
  }
}
