/** The timestamp printer of `src/evo/optimizer.rs` and the parser of `src/evo/watchdog.rs`. */
module Calendar {
  import opened Text

  datatype Date = Date(year: int, month: int, day: int)

  /** Rust's `/` on `i64`: truncation toward zero. */
  function Quot(a: int, b: int): int
    requires b > 0
  {
    if a >= 0 then a / b else -((-a) / b)
  }

  /** Hinnant's `civil_from_days`, as `iso8601_utc` computes it. */
  function CivilFromDays(days: int): Date {
    var z := days + 719_468;
    var era := EraOf(z);
    var doe := z - era * 146_097;
    var yoe := YearOfEra(doe);
    DateInYear(yoe + era * 400, doe - YearStart(yoe))
  }

  function EraOf(z: int): int {
    Quot(if z >= 0 then z else z - 146_096, 146_097)
  }

  /** First day of March-based year `y` within a 400-year era. */
  function YearStart(y: int): int {
    365 * y + y / 4 - y / 100
  }

  /** The month and day of day `doy` of the year that starts on the first of March of year `y`. */
  function DateInYear(y: int, doy: int): Date {
    var mp := (5 * doy + 2) / 153;
    var d := doy - (153 * mp + 2) / 5 + 1;
    var mo := if mp < 10 then mp + 3 else mp - 9;
    Date(if mo <= 2 then y + 1 else y, mo, d)
  }

  function YearOfEra(doe: int): int {
    (doe - doe / 1460 + doe / 36_524 - doe / 146_096) / 365
  }

  /** `civil_to_days`. */
  function CivilToDays(y0: int, m: int, d: int): int {
    var y := if m <= 2 then y0 - 1 else y0;
    var era := Quot(if y >= 0 then y else y - 399, 400);
    var yoe := y - era * 400;
    var mp := if m > 2 then m - 3 else m + 9;
    var doy := Quot(153 * mp + 2, 5) + d - 1;
    var doe := yoe * 365 + yoe / 4 - yoe / 100 + doy;
    era * 146_097 + doe - 719_468
  }

  // -------------------------------------------------------------------------
  // The Gregorian calendar as a successor function: the independent reference
  // -------------------------------------------------------------------------

  predicate IsLeap(y: int) {
    y % 4 == 0 && (y % 100 != 0 || y % 400 == 0)
  }

  function DaysInMonth(y: int, m: int): int {
    if m == 2 then (if IsLeap(y) then 29 else 28)
    else if m == 4 || m == 6 || m == 9 || m == 11 then 30 else 31
  }

  predicate ValidDate(d: Date) {
    1 <= d.month <= 12 && 1 <= d.day <= DaysInMonth(d.year, d.month)
  }

  function NextDay(d: Date): Date {
    if d.day < DaysInMonth(d.year, d.month) then Date(d.year, d.month, d.day + 1)
    else if d.month < 12 then Date(d.year, d.month + 1, 1)
    else Date(d.year + 1, 1, 1)
  }

  predicate DateLess(a: Date, b: Date) {
    a.year < b.year || (a.year == b.year && (a.month < b.month || (a.month == b.month && a.day < b.day)))
  }

  /** Days in the March-based year that ends in year `y + 1`. */
  function YearLength(y: int): int {
    if IsLeap(y + 1) then 366 else 365
  }

  /** `x / k == q` from the two bounds that say so. */
  lemma {:induction false} DivIs(x: int, k: int, q: int)
    requires k > 0 && q * k <= x < q * k + k
    ensures x / k == q
  {
    var d := x / k;
    assert x == k * d + x % k;
    assert (d - q) * k < k && (q - d) * k < k;
    assert d - q >= 1 ==> (d - q) * k >= k;
    assert q - d >= 1 ==> (q - d) * k >= k;
  }

  /** The `yoe` formula finds year `100c + 4q + t` from any of its days. */
  lemma {:induction false} YearFormula(c: int, q: int, t: int, r: int)
    requires 0 <= c < 4 && 0 <= q < 25 && 0 <= t < 4
    requires 0 <= r < 365 || (r == 365 && t == 3 && (q < 24 || c == 3))
    ensures YearOfEra(36_524 * c + 1461 * q + 365 * t + r) == 100 * c + 4 * q + t
    ensures 0 <= 36_524 * c + 1461 * q + 365 * t + r < 146_097
  {
    var doe := 36_524 * c + 1461 * q + 365 * t + r;
    var e := if 24 * c + q + 365 * t + r >= 1460 then 1 else 0;
    var top := if doe == 146_096 then 1 else 0;
    assert doe / 1460 == 25 * c + q + e by { DivIs(doe, 1460, 25 * c + q + e); }
    assert doe / 36_524 == c + top by { DivIs(doe, 36_524, c + top); }
    assert doe / 146_096 == top by { DivIs(doe, 146_096, top); }
    var n := doe - (25 * c + q + e) + c;
    assert n / 365 == 100 * c + 4 * q + t by { DivIs(n, 365, 100 * c + 4 * q + t); }
  }

  /** Every day of an era lies in exactly the year that the formula names. */
  lemma {:induction false} YearOfEraExact(doe: int)
    requires 0 <= doe < 146_097
    ensures var y := YearOfEra(doe); 0 <= y < 400 && 0 <= doe - YearStart(y) < YearLength(y)
  {
    hide YearOfEra, YearStart, YearLength;
    var c := if doe >= 3 * 36_524 then 3 else doe / 36_524;
    var s := doe - 36_524 * c;
    var q := s / 1461;
    var u := s - 1461 * q;
    var t := if u >= 3 * 365 then 3 else u / 365;
    YearFormula(c, q, t, u - 365 * t);
    YearDigits(c, q, t);
  }

  lemma {:induction false} YearDigits(c: int, q: int, t: int)
    requires 0 <= c < 4 && 0 <= q < 25 && 0 <= t < 4
    ensures YearStart(100 * c + 4 * q + t) == 36_524 * c + 1461 * q + 365 * t
    ensures YearLength(100 * c + 4 * q + t) == if t == 3 && (q < 24 || c == 3) then 366 else 365
  {
    var y := 100 * c + 4 * q + t;
    assert y / 4 == 25 * c + q by { DivIs(y, 4, 25 * c + q); }
    assert y / 100 == c by { DivIs(y, 100, c); }
  }

  lemma {:induction false} YearStartStep(y: int)
    requires 0 <= y < 399
    ensures YearStart(y + 1) == YearStart(y) + YearLength(y)
  {
    var c, q, t := y / 100, y % 100 / 4, y % 4;
    assert y == 100 * c + 4 * q + t;
    hide YearStart, YearLength;
    YearDigits(c, q, t);
    if t < 3 {
      YearDigits(c, q, t + 1);
    } else if q < 24 {
      YearDigits(c, q + 1, 0);
    } else {
      YearDigits(c + 1, 0, 0);
    }
  }

  lemma {:induction false} EraEnds()
    ensures YearStart(0) == 0 && YearStart(399) + YearLength(399) == 146_097
  {
  }

  function MonthStart(mp: int): int {
    (153 * mp + 2) / 5
  }

  lemma {:induction false} MonthFormula(doy: int)
    requires 0 <= doy < 366
    ensures var mp := (5 * doy + 2) / 153;
      0 <= mp < 12 && MonthStart(mp) <= doy && (mp < 11 ==> doy < MonthStart(mp + 1))
  {
  }

  lemma {:induction false} MonthUnique(doy: int, mp: int)
    requires 0 <= doy < 366 && 0 <= mp < 12
    requires MonthStart(mp) <= doy && (mp < 11 ==> doy < MonthStart(mp + 1))
    ensures (5 * doy + 2) / 153 == mp
  {
  }

  lemma {:induction false} MonthLength(y: int, mp: int)
    requires 0 <= mp < 12
    ensures var d := DateInYear(y, MonthStart(mp));
      DaysInMonth(d.year, d.month) == (if mp < 11 then MonthStart(mp + 1) else YearLength(y)) - MonthStart(mp)
  {
    MonthUnique(MonthStart(mp), mp);
  }

  lemma {:induction false} DayInYear(y: int, doy: int)
    requires 0 <= doy < YearLength(y)
    ensures ValidDate(DateInYear(y, doy))
    ensures NextDay(DateInYear(y, doy)) ==
            if doy + 1 < YearLength(y) then DateInYear(y, doy + 1) else DateInYear(y + 1, 0)
  {
    hide IsLeap;
    var mp := (5 * doy + 2) / 153;
    MonthFormula(doy);
    MonthUnique(MonthStart(mp), mp);
    MonthLength(y, mp);
    if doy + 1 < YearLength(y) {
      if mp < 11 && doy + 1 == MonthStart(mp + 1) {
        MonthUnique(doy + 1, mp + 1);
      } else {
        MonthUnique(doy + 1, mp);
      }
    }
  }

  lemma {:induction false} ModShift(x: int, m: int, k: int)
    requires m > 0
    ensures (x + m * k) % m == x % m
  {
    DivIs(x + m * k, m, x / m + k);
  }

  lemma {:induction false} LeapPeriod(y: int, era: int)
    ensures YearLength(y + era * 400) == YearLength(y)
  {
    assert (y + 1 + era * 400) % 400 == (y + 1) % 400 by { ModShift(y + 1, 400, era); }
    assert (y + 1 + era * 400) % 100 == (y + 1) % 100 by { ModShift(y + 1, 100, era * 4); }
    assert (y + 1 + era * 400) % 4 == (y + 1) % 4 by { ModShift(y + 1, 4, era * 100); }
    assert y + era * 400 + 1 == y + 1 + era * 400;
  }

  /** The day number of day `doy` of March-based year `yoe` of era `era`. */
  function DayNumber(era: int, yoe: int, doy: int): int {
    era * 146_097 + YearStart(yoe) + doy - 719_468
  }

  /** Rounding down by way of truncation, as both eras are computed. */
  lemma {:induction false} FloorQuot(x: int, k: int, q: int)
    requires k > 0 && q * k <= x < q * k + k
    ensures Quot(if x >= 0 then x else x - (k - 1), k) == q
  {
    if x >= 0 {
      DivIs(x, k, q);
    } else {
      DivIs(k - 1 - x, k, -q);
    }
  }

  lemma {:induction false} YearOfStart(yoe: int, doy: int)
    requires 0 <= yoe < 400 && 0 <= doy < YearLength(yoe)
    ensures YearOfEra(YearStart(yoe) + doy) == yoe && 0 <= YearStart(yoe) + doy < 146_097
  {
    var c, q, t := yoe / 100, yoe % 100 / 4, yoe % 4;
    assert yoe == 100 * c + 4 * q + t;
    YearDigits(c, q, t);
    YearFormula(c, q, t, doy);
  }

  lemma {:induction false} CivilOfDayNumber(era: int, yoe: int, doy: int)
    requires 0 <= yoe < 400 && 0 <= doy < YearLength(yoe)
    ensures CivilFromDays(DayNumber(era, yoe, doy)) == DateInYear(yoe + era * 400, doy)
  {
    hide YearOfEra, DateInYear, YearStart, YearLength;
    YearOfStart(yoe, doy);
    FloorQuot(era * 146_097 + YearStart(yoe) + doy, 146_097, era);
  }

  lemma {:induction false} SplitDay(days: int) returns (era: int, yoe: int, doy: int)
    ensures 0 <= yoe < 400 && 0 <= doy < YearLength(yoe)
    ensures days == DayNumber(era, yoe, doy)
  {
    var z := days + 719_468;
    era := z / 146_097;
    var doe := z - era * 146_097;
    YearOfEraExact(doe);
    yoe := YearOfEra(doe);
    doy := doe - YearStart(yoe);
  }

  lemma {:induction false} NextDayNumber(era: int, yoe: int, doy: int) returns (era': int, yoe': int, doy': int)
    requires 0 <= yoe < 400 && 0 <= doy < YearLength(yoe)
    ensures 0 <= yoe' < 400 && 0 <= doy' < YearLength(yoe')
    ensures DayNumber(era', yoe', doy') == DayNumber(era, yoe, doy) + 1
    ensures if doy + 1 < YearLength(yoe) then (era', yoe', doy') == (era, yoe, doy + 1)
            else yoe' + era' * 400 == yoe + era * 400 + 1 && doy' == 0
  {
    EraEnds();
    hide YearStart, IsLeap;
    if doy + 1 < YearLength(yoe) {
      era', yoe', doy' := era, yoe, doy + 1;
    } else if yoe < 399 {
      YearStartStep(yoe);
      era', yoe', doy' := era, yoe + 1, 0;
    } else {
      era', yoe', doy' := era + 1, 0, 0;
    }
  }

  lemma {:induction false} CivilEpoch()
    ensures CivilFromDays(0) == Date(1970, 1, 1)
  {
    hide CivilFromDays;
    CivilOfDayNumber(4, 369, 306);
  }

  /** The printed date moves exactly as the Gregorian calendar does: each day number's date is the
      successor of the one before. With `CivilEpoch` this determines it on every day number. */
  lemma {:induction false} CivilStep(days: int)
    ensures ValidDate(CivilFromDays(days))
    ensures CivilFromDays(days + 1) == NextDay(CivilFromDays(days))
  {
    hide CivilFromDays, DateInYear, DayNumber, YearLength, NextDay, ValidDate, YearStart;
    var era, yoe, doy := SplitDay(days);
    var era', yoe', doy' := NextDayNumber(era, yoe, doy);
    LeapPeriod(yoe, era);
    DayInYear(yoe + era * 400, doy);
    CivilOfDayNumber(era, yoe, doy);
    CivilOfDayNumber(era', yoe', doy');
  }

  lemma {:induction false} ToDaysOfDate(era: int, yoe: int, doy: int)
    requires 0 <= yoe < 400 && 0 <= doy < YearLength(yoe)
    ensures var d := DateInYear(yoe + era * 400, doy);
      CivilToDays(d.year, d.month, d.day) == DayNumber(era, yoe, doy)
  {
    MonthFormula(doy);
    var y := yoe + era * 400;
    if y >= 0 {
      DivIs(y, 400, era);
    } else {
      DivIs(399 - y, 400, -era);
    }
  }

  /** `civil_to_days` undoes `civil_from_days` on every day number. */
  lemma {:induction false} ToDaysFromDays(days: int)
    ensures var d := CivilFromDays(days); CivilToDays(d.year, d.month, d.day) == days
  {
    var era, yoe, doy := SplitDay(days);
    CivilOfDayNumber(era, yoe, doy);
    ToDaysOfDate(era, yoe, doy);
  }

  lemma {:induction false} FindInYear(d: Date) returns (y: int, doy: int)
    requires ValidDate(d)
    ensures 0 <= doy < YearLength(y) && DateInYear(y, doy) == d
  {
    y := if d.month <= 2 then d.year - 1 else d.year;
    var mp := if d.month > 2 then d.month - 3 else d.month + 9;
    doy := MonthStart(mp) + d.day - 1;
    MonthUnique(MonthStart(mp), mp);
    MonthLength(y, mp);
    MonthUnique(doy, mp);
  }

  /** And every valid Gregorian date is the date of the day number `civil_to_days` gives it. */
  lemma {:induction false} FromDaysToDays(d: Date)
    requires ValidDate(d)
    ensures CivilFromDays(CivilToDays(d.year, d.month, d.day)) == d
  {
    hide CivilFromDays, CivilToDays, DateInYear, DayNumber, YearLength;
    var y, doy := FindInYear(d);
    var era, yoe := y / 400, y % 400;
    LeapPeriod(yoe, era);
    ToDaysOfDate(era, yoe, doy);
    CivilOfDayNumber(era, yoe, doy);
  }

  lemma {:induction false} CivilIncreasing(a: int, b: int)
    requires a < b
    ensures DateLess(CivilFromDays(a), CivilFromDays(b))
    decreases b - a
  {
    hide CivilFromDays;
    CivilStep(b - 1);
    if a < b - 1 {
      CivilIncreasing(a, b - 1);
    }
  }
}
