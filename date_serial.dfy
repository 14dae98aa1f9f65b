/** Spreadsheet date-serial conversion (`excelDateToJSDate` in pages/index.js).
    A serial counts days in the 1900 date system; serial 25569 is 1970-01-01.
    JavaScript's Date object is replaced by an integer days-to-civil-date
    conversion over the proleptic Gregorian calendar, and ISO formatting by
    zero-padded decimal digits. Years are kept within 1970..9999, where
    `toISOString` yields a four-digit year. */
module DateSerial {
  import opened Values

  datatype Date = Date(year: int, month: int, day: int)

  predicate IsLeap(y: int)
  {
    y % 4 == 0 && (y % 100 != 0 || y % 400 == 0)
  }

  function YearLength(y: int): nat
  {
    if IsLeap(y) then 366 else 365
  }

  function MonthLength(y: int, m: int): nat
    requires 1 <= m <= 12
  {
    if m == 2 then (if IsLeap(y) then 29 else 28)
    else if m == 4 || m == 6 || m == 9 || m == 11 then 30
    else 31
  }

  /** Days of year `y` that lie before the first of month `m`. */
  function DaysBeforeMonth(y: int, m: int): nat
    requires 1 <= m <= 12
  {
    var leap := if IsLeap(y) then 1 else 0;
    if m == 1 then 0
    else if m == 2 then 31
    else [59, 90, 120, 151, 181, 212, 243, 273, 304, 334][m - 3] + leap
  }

  lemma MonthStep(y: int, m: int)
    requires 1 <= m <= 12
    ensures DaysBeforeMonth(y, m) + MonthLength(y, m)
         == if m == 12 then YearLength(y) else DaysBeforeMonth(y, m + 1)
  {
  }

  lemma {:induction false} MonthsMonotone(y: int, m1: int, m2: int)
    requires 1 <= m1 < m2 <= 12
    ensures DaysBeforeMonth(y, m1) + MonthLength(y, m1) <= DaysBeforeMonth(y, m2)
    decreases m2 - m1
  {
    MonthStep(y, m1);
    if m1 + 1 < m2 {
      MonthsMonotone(y, m1 + 1, m2);
    }
  }

  /** Leap years in 1..y. */
  function Leaps(y: nat): nat
  {
    y / 4 - y / 100 + y / 400
  }

  /** Days from 1970-01-01 to the first of January of year `y`. */
  function DaysBeforeYear(y: int): int
    requires y >= 1970
  {
    365 * (y - 1970) + Leaps(y - 1) - Leaps(1969)
  }

  lemma YearStep(y: int)
    requires y >= 1970
    ensures DaysBeforeYear(y + 1) == DaysBeforeYear(y) + YearLength(y)
  {
    assert y / 4 - (y - 1) / 4 == if y % 4 == 0 then 1 else 0;
    assert y / 100 - (y - 1) / 100 == if y % 100 == 0 then 1 else 0;
    assert y / 400 - (y - 1) / 400 == if y % 400 == 0 then 1 else 0;
    assert y % 400 == 0 ==> y % 100 == 0 && y % 4 == 0;
    assert y % 100 == 0 ==> y % 4 == 0;
  }

  lemma {:induction false} YearsMonotone(a: int, b: int)
    requires 1970 <= a <= b
    ensures DaysBeforeYear(a) <= DaysBeforeYear(b)
    decreases b - a
  {
    if a < b {
      YearStep(b - 1);
      YearsMonotone(a, b - 1);
    }
  }

  /** A calendar date from 1970 on. */
  predicate IsCivil(d: Date)
  {
    d.year >= 1970 && 1 <= d.month <= 12 && 1 <= d.day <= MonthLength(d.year, d.month)
  }

  /** A date `toISOString` prints with a four-digit year. */
  predicate Representable(d: Date)
  {
    IsCivil(d) && d.year <= 9999
  }

  /** Days from 1970-01-01 to 10000-01-01. */
  const DayLimit: int := 2932897

  lemma DayLimitIsYear10000()
    ensures DaysBeforeYear(10000) == DayLimit
  {
  }

  /** Days from 1970-01-01 to `d`. */
  function DaysFromCivil(d: Date): int
    requires IsCivil(d)
  {
    DaysBeforeYear(d.year) + DaysBeforeMonth(d.year, d.month) + d.day - 1
  }

  /** The year holding day `n` counted from the first of January of `y`, and
      the day's index within that year. */
  function YearOf(y: int, n: nat): (r: (int, nat))
    requires y >= 1970
    ensures r.0 >= y && r.1 < YearLength(r.0)
    ensures DaysBeforeYear(r.0) + r.1 == DaysBeforeYear(y) + n
    decreases n
  {
    if n < YearLength(y) then (y, n)
    else
      YearStep(y);
      YearOf(y + 1, n - YearLength(y))
  }

  /** The month of year `y` holding day-of-year `k`, searched from month `m` down. */
  function MonthOf(y: int, k: nat, m: int): (r: int)
    requires 1 <= m <= 12
    requires k < DaysBeforeMonth(y, m) + MonthLength(y, m)
    ensures 1 <= r <= m
    ensures DaysBeforeMonth(y, r) <= k < DaysBeforeMonth(y, r) + MonthLength(y, r)
    decreases m
  {
    if m == 1 || DaysBeforeMonth(y, m) <= k then m
    else
      MonthStep(y, m - 1);
      MonthOf(y, k, m - 1)
  }

  /** The calendar date `n` days after 1970-01-01: the inverse of DaysFromCivil. */
  function CivilFromDays(n: nat): (d: Date)
    requires n < DayLimit
    ensures Representable(d)
    ensures DaysFromCivil(d) == n
  {
    var (y, k) := YearOf(1970, n);
    MonthStep(y, 12);
    var m := MonthOf(y, k, 12);
    if y >= 10000 then
      YearsMonotone(10000, y);
      assert false;
      Date(10000, 1, 1)
    else
      Date(y, m, k - DaysBeforeMonth(y, m) + 1)
  }

  /** Chronological order of dates. */
  predicate Before(d1: Date, d2: Date)
  {
    d1.year < d2.year
    || (d1.year == d2.year && d1.month < d2.month)
    || (d1.year == d2.year && d1.month == d2.month && d1.day < d2.day)
  }

  lemma DayOfYearBound(d: Date)
    requires IsCivil(d)
    ensures DaysFromCivil(d) < DaysBeforeYear(d.year + 1)
  {
    MonthStep(d.year, d.month);
    if d.month < 12 {
      MonthsMonotone(d.year, d.month, 12);
      MonthStep(d.year, 12);
    }
    YearStep(d.year);
  }

  lemma DaysMonotone(d1: Date, d2: Date)
    requires IsCivil(d1) && IsCivil(d2) && Before(d1, d2)
    ensures DaysFromCivil(d1) < DaysFromCivil(d2)
  {
    if d1.year < d2.year {
      DayOfYearBound(d1);
      YearsMonotone(d1.year + 1, d2.year);
    } else if d1.month < d2.month {
      MonthsMonotone(d1.year, d1.month, d2.month);
    }
  }

  /** Day counts agree with chronological order, so distinct dates have
      distinct counts. */
  lemma DaysOrder(d1: Date, d2: Date)
    requires IsCivil(d1) && IsCivil(d2)
    ensures Before(d1, d2) <==> DaysFromCivil(d1) < DaysFromCivil(d2)
    ensures d1 == d2 <==> DaysFromCivil(d1) == DaysFromCivil(d2)
  {
    if Before(d1, d2) {
      DaysMonotone(d1, d2);
    } else if Before(d2, d1) {
      DaysMonotone(d2, d1);
    }
  }

  /** CivilFromDays undoes DaysFromCivil on every representable date. */
  lemma CivilOfDays(d: Date)
    requires Representable(d)
    ensures 0 <= DaysFromCivil(d) < DayLimit
    ensures CivilFromDays(DaysFromCivil(d)) == d
  {
    DayOfYearBound(d);
    YearsMonotone(d.year + 1, 10000);
    YearsMonotone(1970, d.year);
    DayLimitIsYear10000();
    DaysOrder(d, CivilFromDays(DaysFromCivil(d)));
  }

  /** The calendar day after `d`. */
  function NextDay(d: Date): Date
    requires 1 <= d.month <= 12
  {
    if d.day < MonthLength(d.year, d.month) then d.(day := d.day + 1)
    else if d.month < 12 then Date(d.year, d.month + 1, 1)
    else Date(d.year + 1, 1, 1)
  }

  /** Counting one more day gives the next calendar day. */
  lemma CivilNext(n: nat)
    requires n + 1 < DayLimit
    ensures CivilFromDays(n + 1) == NextDay(CivilFromDays(n))
  {
    var d := CivilFromDays(n);
    var e := NextDay(d);
    MonthStep(d.year, d.month);
    if d.day == MonthLength(d.year, d.month) && d.month == 12 {
      YearStep(d.year);
    }
    assert IsCivil(e) && DaysFromCivil(e) == n + 1;
    DaysOrder(e, CivilFromDays(n + 1));
  }

  // ----- ISO formatting -----

  /** The last `w` decimal digits of `n`, zero-padded on the left. */
  function Pad(n: nat, w: nat): (s: string)
    ensures |s| == w && AllDigits(s)
    decreases w
  {
    if w == 0 then "" else Pad(n / 10, w - 1) + [DigitChar(n % 10)]
  }

  lemma {:induction false} PadDecimal(n: nat, w: nat)
    requires n < Pow10(w)
    ensures Decimal(Pad(n, w)) == n
    decreases w
  {
    if w > 0 {
      var s := Pad(n, w);
      assert s[..|s| - 1] == Pad(n / 10, w - 1);
      PadDecimal(n / 10, w - 1);
    }
  }

  /** Zero-padded numbers of one width compare as strings the way they compare
      as numbers. */
  lemma {:induction false} PadOrder(a: nat, b: nat, w: nat)
    requires a < Pow10(w) && b < Pow10(w)
    ensures LexLess(Pad(a, w), Pad(b, w)) <==> a < b
    decreases w
  {
    if w == 0 {
      assert a == 0 && b == 0;
    } else {
      var pa, pb := Pad(a / 10, w - 1), Pad(b / 10, w - 1);
      var ca, cb := [DigitChar(a % 10)], [DigitChar(b % 10)];
      LexConcat(pa, ca, pb, cb);
      PadOrder(a / 10, b / 10, w - 1);
      PadDecimal(a / 10, w - 1);
      PadDecimal(b / 10, w - 1);
      assert pa == pb <==> a / 10 == b / 10;
      assert LexLess(ca, cb) <==> a % 10 < b % 10;
    }
  }

  /** `YYYY-MM-DD`, as the first ten characters of `toISOString`. */
  function Format(d: Date): (s: string)
    requires Representable(d)
    ensures IsIsoShape(s)
  {
    var s := Pad(d.year, 4) + (['-'] + (Pad(d.month, 2) + (['-'] + Pad(d.day, 2))));
    assert s[..4] == Pad(d.year, 4) && s[5..7] == Pad(d.month, 2) && s[8..] == Pad(d.day, 2);
    s
  }

  /** Ten characters: four digits, a dash, two digits, a dash, two digits. */
  predicate IsIsoShape(s: string)
  {
    |s| == 10 && s[4] == '-' && s[7] == '-'
    && AllDigits(s[..4]) && AllDigits(s[5..7]) && AllDigits(s[8..])
  }

  /** Reads a `YYYY-MM-DD` string back into its three numbers. */
  function ParseIso(s: string): Option<Date>
  {
    if IsIsoShape(s) then Some(Date(Decimal(s[..4]), Decimal(s[5..7]), Decimal(s[8..])))
    else None
  }

  lemma FormatParse(d: Date)
    requires Representable(d)
    ensures IsIsoShape(Format(d))
    ensures ParseIso(Format(d)) == Some(d)
  {
    var s := Format(d);
    assert s[..4] == Pad(d.year, 4);
    assert s[5..7] == Pad(d.month, 2);
    assert s[8..] == Pad(d.day, 2);
    PadDecimal(d.year, 4);
    PadDecimal(d.month, 2);
    PadDecimal(d.day, 2);
  }

  /** Formatted dates compare as strings exactly as they compare in time: this
      is what makes the lexical date-range filter of the report correct. */
  lemma FormatOrder(d1: Date, d2: Date)
    requires Representable(d1) && Representable(d2)
    ensures LexLess(Format(d1), Format(d2)) <==> Before(d1, d2)
  {
    var y1, y2 := Pad(d1.year, 4), Pad(d2.year, 4);
    var m1, m2 := Pad(d1.month, 2), Pad(d2.month, 2);
    var e1, e2 := Pad(d1.day, 2), Pad(d2.day, 2);
    LexConcat(y1, ['-'] + (m1 + (['-'] + e1)), y2, ['-'] + (m2 + (['-'] + e2)));
    MonthDayOrder(m1, e1, m2, e2);
    PadOrder(d1.year, d2.year, 4);
    PadOrder(d1.month, d2.month, 2);
    PadOrder(d1.day, d2.day, 2);
    PadSame(d1.year, d2.year, 4);
    PadSame(d1.month, d2.month, 2);
  }

  /** Behind the year: `-MM-DD` compares by month, then by day. */
  lemma MonthDayOrder(m1: string, e1: string, m2: string, e2: string)
    requires |m1| == |m2|
    ensures LexLess(['-'] + (m1 + (['-'] + e1)), ['-'] + (m2 + (['-'] + e2)))
        <==> LexLess(m1, m2) || (m1 == m2 && LexLess(e1, e2))
  {
    DashLess(m1 + (['-'] + e1), m2 + (['-'] + e2));
    LexConcat(m1, ['-'] + e1, m2, ['-'] + e2);
    DashLess(e1, e2);
  }

  /** A common dash in front does not change the comparison. */
  lemma DashLess(a1: string, a2: string)
    ensures LexLess(['-'] + a1, ['-'] + a2) <==> LexLess(a1, a2)
  {
    LexConcat(['-'], a1, ['-'], a2);
    LexIrreflexive(['-']);
  }

  /** Padded to one width, two numbers in range are equal exactly when
      their strings are. */
  lemma PadSame(a: nat, b: nat, w: nat)
    requires a < Pow10(w) && b < Pow10(w)
    ensures Pad(a, w) == Pad(b, w) <==> a == b
  {
    PadDecimal(a, w);
    PadDecimal(b, w);
  }

  // ----- excelDateToJSDate -----

  /** The serial of 1970-01-01. */
  const EpochSerial: int := 25569

  /** `Math.floor(serial - 25569)`. */
  function SerialDays(x: real): int
  {
    (x - EpochSerial as real).Floor
  }

  /** The number JavaScript's `-` makes of a non-string cell. */
  function NumericValue(v: Value): real
  {
    match v
    case Number(x) => x
    case Boolean(b) => if b then 1.0 else 0.0
    case Text(_) => 0.0
  }

  /** A string, or a serial whose date falls in years 1970..9999. */
  predicate Convertible(v: Value)
  {
    v.Text? || 0 <= SerialDays(NumericValue(v)) < DayLimit
  }

  /** A string is returned unchanged; a serial becomes the `YYYY-MM-DD` date
      `floor(serial - 25569)` days after 1970-01-01. */
  function ExcelDateToJSDate(v: Value): (s: string)
    requires Convertible(v)
    ensures v.Text? ==> s == v.text
    ensures !v.Text? ==>
              && IsIsoShape(s) && ParseIso(s).Some?
              && Representable(ParseIso(s).value)
              && DaysFromCivil(ParseIso(s).value) == SerialDays(NumericValue(v))
  {
    if v.Text? then v.text
    else
      var d := CivilFromDays(SerialDays(NumericValue(v)));
      FormatParse(d);
      Format(d)
  }

  /** On a serial, the conversion is the formatted civil date. */
  lemma ExcelSerial(x: real)
    requires Convertible(Number(x))
    ensures ExcelDateToJSDate(Number(x)) == Format(CivilFromDays(SerialDays(x)))
  {
  }

  /** Subtracting a whole number of days commutes with taking the floor. */
  lemma FloorShift(x: real, c: int)
    ensures (x - c as real).Floor == x.Floor - c
  {
  }

  lemma FormatLiteral(y: nat, m: nat, d: nat)
    requires Representable(Date(y, m, d))
    ensures Format(Date(y, m, d))
         == [DigitChar(y / 1000 % 10), DigitChar(y / 100 % 10), DigitChar(y / 10 % 10), DigitChar(y % 10), '-',
             DigitChar(m / 10 % 10), DigitChar(m % 10), '-', DigitChar(d / 10 % 10), DigitChar(d % 10)]
  {
    assert Pad(y, 4) == [DigitChar(y / 1000 % 10), DigitChar(y / 100 % 10), DigitChar(y / 10 % 10), DigitChar(y % 10)] by {
      assert y / 10 / 10 / 10 == y / 1000;
      assert y / 10 / 10 == y / 100;
    }
    assert Pad(m, 2) == [DigitChar(m / 10 % 10), DigitChar(m % 10)];
    assert Pad(d, 2) == [DigitChar(d / 10 % 10), DigitChar(d % 10)];
  }

  lemma EpochFormat()
    ensures Format(Date(1970, 1, 1)) == "1970-01-01"
  {
    FormatLiteral(1970, 1, 1);
  }

  lemma Format45000()
    ensures Format(Date(2023, 3, 15)) == "2023-03-15"
  {
    FormatLiteral(2023, 3, 15);
  }

  /** Every serial of day 25569, whatever its time of day, is the Unix epoch. */
  lemma ExcelEpoch(x: real)
    requires x.Floor == EpochSerial
    ensures Convertible(Number(x))
    ensures ExcelDateToJSDate(Number(x)) == "1970-01-01"
  {
    FloorShift(x, EpochSerial);
    CivilOfDays(Date(1970, 1, 1));
    EpochFormat();
    ExcelSerial(x);
  }

  /** Serial 45000 is the fifteenth of March 2023. */
  lemma Excel45000(x: real)
    requires x.Floor == 45000
    ensures Convertible(Number(x))
    ensures ExcelDateToJSDate(Number(x)) == "2023-03-15"
  {
    FloorShift(x, EpochSerial);
    CivilOfDays(Date(2023, 3, 15));
    assert DaysFromCivil(Date(2023, 3, 15)) == 19431;
    Format45000();
    ExcelSerial(x);
  }

  /** The time-of-day fraction of a serial is dropped. */
  lemma ExcelIgnoresFraction(x: real)
    requires Convertible(Number(x))
    ensures Convertible(Number(x.Floor as real))
    ensures ExcelDateToJSDate(Number(x)) == ExcelDateToJSDate(Number(x.Floor as real))
  {
    FloorShift(x, EpochSerial);
    FloorShift(x.Floor as real, EpochSerial);
    assert SerialDays(x.Floor as real) == SerialDays(x);
    ExcelSerial(x);
    ExcelSerial(x.Floor as real);
  }

  /** Serial + 1 is the next calendar day. */
  lemma ExcelNextDay(x: real)
    requires Convertible(Number(x)) && Convertible(Number(x + 1.0))
    ensures ParseIso(ExcelDateToJSDate(Number(x))).Some?
    ensures ParseIso(ExcelDateToJSDate(Number(x + 1.0)))
         == Some(NextDay(ParseIso(ExcelDateToJSDate(Number(x))).value))
  {
    var n := SerialDays(x);
    assert SerialDays(x + 1.0) == n + 1;
    FormatParse(CivilFromDays(n));
    FormatParse(CivilFromDays(n + 1));
    CivilNext(n);
  }

  /** Converted serials compare as strings in the order of their day counts. */
  lemma ExcelOrder(x1: real, x2: real)
    requires Convertible(Number(x1)) && Convertible(Number(x2))
    ensures LexLess(ExcelDateToJSDate(Number(x1)), ExcelDateToJSDate(Number(x2)))
        <==> SerialDays(x1) < SerialDays(x2)
  {
    var d1, d2 := CivilFromDays(SerialDays(x1)), CivilFromDays(SerialDays(x2));
    FormatOrder(d1, d2);
    DaysOrder(d1, d2);
  }
}
