/** `iso8601_utc` of `src/evo/optimizer.rs` and `parse_iso8601_to_ms` of `src/evo/watchdog.rs`, over
    the calendar of `Calendar`. Text is ASCII here, so byte offsets and `char` offsets agree. */
module Timestamps {
  import opened Text
  import opened Calendar

  const U64 := 0x1_0000_0000_0000_0000
  const DAY_MS := 86_400_000

  /** The first millisecond of the year 10000. */
  const YEAR_10000_MS := 253_402_300_800_000

  /** `(secs * 1000 + millis) as u64`. */
  function AsU64(x: int): nat {
    x % U64
  }

  lemma {:induction false} FirstOf10000()
    ensures CivilFromDays(2_932_897) == Date(10_000, 1, 1)
  {
    hide CivilFromDays;
    FromDaysToDays(Date(10_000, 1, 1));
  }

  lemma {:induction false} CivilSane(days: nat)
    ensures var d := CivilFromDays(days);
      && d.year >= 1970 && 1 <= d.month <= 12 && 1 <= d.day <= 31
      && (d.year < 10_000 <==> days * DAY_MS < YEAR_10000_MS)
  {
    hide CivilFromDays, CivilToDays;
    CivilStep(days);
    CivilEpoch();
    FirstOf10000();
    if 0 < days {
      CivilIncreasing(0, days);
    }
    if days < 2_932_897 {
      CivilIncreasing(days, 2_932_897);
    } else if 2_932_897 < days {
      CivilIncreasing(2_932_897, days);
    }
  }

  /** The fields of a printed timestamp. */
  datatype Stamp = Stamp(date: Date, h: nat, m: nat, s: nat, millis: nat)

  ghost predicate SaneStamp(t: Stamp) {
    && 0 <= t.date.year && 1 <= t.date.month <= 12 && 1 <= t.date.day <= 31
    && t.h < 24 && t.m < 60 && t.s < 60 && t.millis < 1000
  }

  lemma {:induction false} ClockFields(ms: nat)
    ensures var secs := ms / 1000; var rem := secs % 86_400;
      && secs / 86_400 == ms / DAY_MS
      && rem / 3600 < 24 && rem % 3600 / 60 < 60
      && ms == ms / DAY_MS * DAY_MS + rem / 3600 * 3_600_000 + rem % 3600 / 60 * 60_000 + rem % 60 * 1000 + ms % 1000
  {
    var secs := ms / 1000;
    var days := secs / 86_400;
    var rem := secs % 86_400;
    DivIs(ms, DAY_MS, days);
  }

  /** The printed date of a day that is not before 1970. */
  function DateOn(days: nat): (d: Date)
    ensures 1970 <= d.year && 1 <= d.month <= 12 && 1 <= d.day <= 31
    ensures d.year < 10_000 <==> days * DAY_MS < YEAR_10000_MS
  {
    CivilSane(days);
    CivilFromDays(days)
  }

  function StampOf(ms: nat): (t: Stamp)
    ensures SaneStamp(t)
  {
    var days := ms / 1000 / 86_400;
    var rem := ms / 1000 % 86_400;
    ClockFields(ms);
    Stamp(DateOn(days), rem / 3600, rem % 3600 / 60, rem % 60, ms % 1000)
  }

  lemma {:induction false} FourDigitYear(ms: nat)
    ensures StampOf(ms).date.year < 10_000 <==> ms < YEAR_10000_MS
  {
    hide DateOn;
    ClockFields(ms);
    var days := ms / 1000 / 86_400;
    var d := DateOn(days);
  }

  function Field(separator: char, n: nat, w: nat, rest: string): string {
    [separator] + Pad(n, w) + rest
  }

  /** Everything printed after the year. */
  function AfterYear(t: Stamp): string
    requires SaneStamp(t)
  {
    Field('-', t.date.month, 2, Field('-', t.date.day, 2,
      Field('T', t.h, 2, Field(':', t.m, 2, Field(':', t.s, 2, Field('.', t.millis, 3, "Z"))))))
  }

  function Printed(t: Stamp): string
    requires SaneStamp(t)
  {
    Pad(t.date.year, 4) + AfterYear(t)
  }

  /** `iso8601_utc`. */
  function Iso8601(ms: nat): string {
    Printed(StampOf(ms))
  }

  /** What the parser does with a string: no timestamp, an out-of-range slice, or a timestamp. */
  datatype Parsed = Unparsed | Panicked | Millis(ms: nat)

  /** The optional millisecond field: not there, cut short, or there. */
  datatype Fraction = Absent | CutShort | Present(millis: Option<int>)

  function FractionOf(s: string): Fraction {
    if |s| > 20 && s[19] == '.' then (if |s| < 23 then CutShort else Present(ParseInt(s[20..23]))) else Absent
  }

  function Assembled(year: Option<int>, month: Option<int>, day: Option<int>,
                     hour: Option<int>, min: Option<int>, sec: Option<int>, fraction: Fraction): Parsed {
    if year.None? || month.None? || day.None? || hour.None? || min.None? || sec.None? then Unparsed else
    var secs := CivilToDays(year.value, month.value, day.value) * 86_400 + hour.value * 3600 + min.value * 60 + sec.value;
    match fraction
    case Absent => Millis(AsU64(secs * 1000))
    case CutShort => Panicked
    case Present(None) => Unparsed
    case Present(Some(millis)) => Millis(AsU64(secs * 1000 + millis))
  }

  /** `parse_iso8601_to_ms`. */
  function ParseIso(text: string): Parsed {
    var s := Trim(text);
    if |s| < 20 then Unparsed else
    Assembled(ParseInt(s[0..4]), ParseInt(s[5..7]), ParseInt(s[8..10]),
              ParseInt(s[11..13]), ParseInt(s[14..16]), ParseInt(s[17..19]), FractionOf(s))
  }

  lemma {:induction false} TwoDigits(n: nat)
    requires n < 100
    ensures |Pad(n, 2)| == 2
  {
    PadWidth(n, 2);
  }

  /** Where each printed field lands, for a year of any width. */
  lemma {:induction false} Layout(t: Stamp)
    requires SaneStamp(t)
    ensures var a := AfterYear(t);
      && |a| == 20
      && a[0] == '-' && a[1..3] == Pad(t.date.month, 2) && a[3] == '-' && a[4..6] == Pad(t.date.day, 2)
      && a[6] == 'T' && a[7..9] == Pad(t.h, 2) && a[9] == ':' && a[10..12] == Pad(t.m, 2) && a[12] == ':'
      && a[13..15] == Pad(t.s, 2) && a[15] == '.' && a[16..19] == Pad(t.millis, 3) && a[19] == 'Z'
  {
    hide Pad;
    TwoDigits(t.date.month);
    TwoDigits(t.date.day);
    TwoDigits(t.h);
    TwoDigits(t.m);
    TwoDigits(t.s);
    assert Pow10(3) == 1000;
    PadWidth(t.millis, 3);
  }

  /** A printed timestamp carries no surrounding space, and everything in it but the year has a
      fixed width. */
  lemma {:induction false} PrintedTrimmed(t: Stamp)
    requires SaneStamp(t)
    ensures Trim(Printed(t)) == Printed(t)
    ensures |Printed(t)| == |Pad(t.date.year, 4)| + 20
  {
    Layout(t);
    var y, a := Pad(t.date.year, 4), AfterYear(t);
    hide Pad, AfterYear;
    TrimFixed(y + a);
  }

  /** A slice that lies past the year is a slice of what follows the year. */
  lemma {:induction false} SliceAfterYear(t: Stamp, i: nat, j: nat)
    requires SaneStamp(t) && |Pad(t.date.year, 4)| <= i <= j <= |Printed(t)|
    ensures var k := |Pad(t.date.year, 4)|;
      Printed(t)[i..j] == AfterYear(t)[i - k..j - k]
      && (i < j ==> Printed(t)[i] == AfterYear(t)[i - k] && Printed(t)[j - 1] == AfterYear(t)[j - 1 - k])
  {
    hide Pad, AfterYear;
  }

  lemma {:induction false} SliceOfYear(t: Stamp, i: nat, j: nat)
    requires SaneStamp(t) && i <= j <= |Pad(t.date.year, 4)|
    ensures i <= j <= |Printed(t)| && Printed(t)[i..j] == Pad(t.date.year, 4)[i..j]
  {
    hide Pad, AfterYear;
  }

  lemma {:induction false} FourDigitWidth(n: nat)
    requires n < 10_000
    ensures |Pad(n, 4)| == 4
  {
    assert Pow10(4) == 10_000;
    PadWidth(n, 4);
  }

  lemma {:induction false} RoundTripStamp(t: Stamp)
    requires SaneStamp(t) && t.date.year < 10_000
    ensures ParseIso(Printed(t)) ==
            Assembled(Some(t.date.year), Some(t.date.month), Some(t.date.day),
                      Some(t.h), Some(t.m), Some(t.s), Present(Some(t.millis)))
  {
    hide Pad, Printed, AfterYear, Trim, ParseInt, Assembled;
    FourDigitWidth(t.date.year);
    PrintedTrimmed(t);
    Layout(t);
    SliceOfYear(t, 0, 4);
    assert Pad(t.date.year, 4)[0..4] == Pad(t.date.year, 4);
    ParsePad(t.date.year, 4);
    SliceAfterYear(t, 5, 7);
    ParsePad(t.date.month, 2);
    SliceAfterYear(t, 8, 10);
    ParsePad(t.date.day, 2);
    SliceAfterYear(t, 11, 13);
    ParsePad(t.h, 2);
    SliceAfterYear(t, 14, 16);
    ParsePad(t.m, 2);
    SliceAfterYear(t, 17, 19);
    ParsePad(t.s, 2);
    SliceAfterYear(t, 19, 20);
    SliceAfterYear(t, 20, 23);
    ParsePad(t.millis, 3);
  }

  /** The six fields before the milliseconds. */
  predicate FieldsParse(s: string)
    requires |s| >= 20
  {
    && ParseInt(s[0..4]).Some? && ParseInt(s[5..7]).Some? && ParseInt(s[8..10]).Some?
    && ParseInt(s[11..13]).Some? && ParseInt(s[14..16]).Some? && ParseInt(s[17..19]).Some?
  }

  /** The parser panics exactly on a point that one or two characters follow, behind six good fields; it
      refuses what is shorter than twenty characters, or has a bad field, the milliseconds included. */
  lemma {:induction false} ParsePanicsExactly(text: string)
    ensures
      var s := Trim(text);
      && (ParseIso(text) == Panicked <==> |s| in {21, 22} && s[19] == '.' && FieldsParse(s))
      && (ParseIso(text) == Unparsed <==>
           |s| < 20 || !FieldsParse(s) || (|s| >= 23 && s[19] == '.' && ParseInt(s[20..23]).None?))
  {
    hide Trim, ParseInt, CivilToDays;
  }

  /** The text from `i` to `j` is the number `n` in decimal digits. */
  predicate ReadsAs(s: string, i: nat, j: nat, n: nat)
    requires i <= j <= |s|
  {
    AllDigits(s[i..j]) && Value(s[i..j]) == n
  }

  lemma {:induction false} FieldReads(s: string, i: nat, j: nat, n: nat, w: nat)
    requires i <= j <= |s| && s[i..j] == Pad(n, w)
    ensures ReadsAs(s, i, j, n)
  {
    ValuePad(n, w);
  }

  lemma {:induction false} StampReads(t: Stamp)
    requires SaneStamp(t) && t.date.year < 10_000
    ensures
      var s := Printed(t);
      && |s| == 24 && s[4] == '-' && s[7] == '-' && s[10] == 'T' && s[13] == ':' && s[16] == ':' && s[19] == '.' && s[23] == 'Z'
      && ReadsAs(s, 0, 4, t.date.year) && ReadsAs(s, 5, 7, t.date.month) && ReadsAs(s, 8, 10, t.date.day)
      && ReadsAs(s, 11, 13, t.h) && ReadsAs(s, 14, 16, t.m) && ReadsAs(s, 17, 19, t.s) && ReadsAs(s, 20, 23, t.millis)
  {
    hide Pad, AfterYear, ReadsAs;
    FourDigitWidth(t.date.year);
    Layout(t);
    var y, a, s := Pad(t.date.year, 4), AfterYear(t), Printed(t);
    assert s == y + a;
    assert s[0..4] == y && s[5..7] == a[1..3] && s[8..10] == a[4..6] && s[11..13] == a[7..9];
    assert s[14..16] == a[10..12] && s[17..19] == a[13..15] && s[20..23] == a[16..19];
    FieldReads(s, 0, 4, t.date.year, 4);
    FieldReads(s, 5, 7, t.date.month, 2);
    FieldReads(s, 8, 10, t.date.day, 2);
    FieldReads(s, 11, 13, t.h, 2);
    FieldReads(s, 14, 16, t.m, 2);
    FieldReads(s, 17, 19, t.s, 2);
    FieldReads(s, 20, 23, t.millis, 3);
  }

  /** A stamp of any year from 0 on, before 1970 included: what is before the epoch wraps around in the 64
      bits. */
  lemma {:induction false} ParsesAsU64(t: Stamp)
    requires SaneStamp(t) && t.date.year < 10_000
    ensures
      var ms := CivilToDays(t.date.year, t.date.month, t.date.day) * 86_400_000
                + t.h * 3_600_000 + t.m * 60_000 + t.s * 1000 + t.millis;
      ParseIso(Printed(t)) == Millis(if ms >= 0 then ms else 0x1_0000_0000_0000_0000 + ms)
  {
    hide CivilToDays, ParseIso, Printed;
    RoundTripStamp(t);
    ToDaysBounds(t.date.year, t.date.month, t.date.day);
  }

  /** Before the year 10000 a moment is printed as `YYYY-MM-DDTHH:MM:SS.mmmZ`, with the civil date of its
      day and the time of that day. */
  lemma {:induction false} IsoShape(ms: nat)
    requires ms < YEAR_10000_MS
    ensures
      var s, date, clock := Iso8601(ms), CivilFromDays(ms / 86_400_000), ms % 86_400_000;
      && 0 <= date.year && 1 <= date.month && 1 <= date.day
      && |s| == 24 && s[4] == '-' && s[7] == '-' && s[10] == 'T' && s[13] == ':' && s[16] == ':' && s[19] == '.' && s[23] == 'Z'
      && ReadsAs(s, 0, 4, date.year) && ReadsAs(s, 5, 7, date.month) && ReadsAs(s, 8, 10, date.day)
      && ReadsAs(s, 11, 13, clock / 3_600_000) && ReadsAs(s, 14, 16, clock / 60_000 % 60)
      && ReadsAs(s, 17, 19, clock / 1000 % 60) && ReadsAs(s, 20, 23, clock % 1000)
  {
    hide CivilFromDays, ReadsAs, Printed;
    FourDigitYear(ms);
    var t := StampOf(ms);
    StampReads(t);
    ClockFields(ms);
    ClockOf(ms);
  }

  lemma {:induction false} ClockOf(ms: nat)
    ensures
      var rem, clock := ms / 1000 % 86_400, ms % 86_400_000;
      && rem / 3600 == clock / 3_600_000 && rem % 3600 / 60 == clock / 60_000 % 60
      && rem % 60 == clock / 1000 % 60 && ms % 1000 == clock % 1000
  {
    var days, clock := ms / 86_400_000, ms % 86_400_000;
    DivIs(ms, 1000, days * 86_400 + clock / 1000);
    DivIs(days * 86_400 + clock / 1000, 86_400, days);
    ClockIn(clock);
  }

  lemma {:induction false} ClockIn(clock: nat)
    ensures
      var rem := clock / 1000;
      && rem / 3600 == clock / 3_600_000 && rem % 3600 / 60 == clock / 60_000 % 60 && rem % 60 == clock / 1000 % 60
  {
    Nested(clock, 3600);
    Nested(clock, 60);
    MinuteOf(clock / 1000);
  }

  lemma {:induction false} MinuteOf(secs: nat)
    ensures secs % 3600 / 60 == secs / 60 % 60
  {
    var hours, rest := secs / 3600, secs % 3600;
    DivIs(secs, 60, hours * 60 + rest / 60);
  }

  lemma {:induction false} Nested(x: nat, k: nat)
    requires k > 0
    ensures x / 1000 / k == x / (1000 * k)
  {
    var q := x / 1000;
    assert x == q * 1000 + x % 1000 && q == (q / k) * k + q % k;
    var r := (q % k) * 1000 + x % 1000;
    assert (q % k) * 1000 <= (k - 1) * 1000;
    assert x == (q / k) * (1000 * k) + r;
    DivIs(x, 1000 * k, q / k);
  }

  lemma {:induction false} StampMillis(ms: nat)
    ensures var t := StampOf(ms);
      CivilToDays(t.date.year, t.date.month, t.date.day) * DAY_MS + t.h * 3_600_000 + t.m * 60_000 + t.s * 1000
      + t.millis == ms
  {
    hide CivilFromDays, CivilToDays;
    ClockFields(ms);
    ToDaysFromDays(ms / 1000 / 86_400);
  }

  lemma {:induction false} RoundTripBefore10000(ms: nat)
    requires ms < YEAR_10000_MS
    ensures ParseIso(Iso8601(ms)) == Millis(ms)
  {
    hide StampOf, CivilToDays, ParseIso, Printed;
    FourDigitYear(ms);
    RoundTripStamp(StampOf(ms));
    StampMillis(ms);
  }

  // -------------------------------------------------------------------------
  // Past the year 9999 the fields no longer line up, and the round trip is lost
  // -------------------------------------------------------------------------

  /** The year of a day number, to within the slack of leap days. */
  lemma {:induction false} YearBounds(days: nat)
    ensures var y := CivilFromDays(days).year; 365 * (y - 1) <= days + 719_468 < 366 * (y + 1)
  {
    var era, yoe, doy := SplitDay(days);
    YearOfStart(yoe, doy);
    CivilOfDayNumber(era, yoe, doy);
    var y := yoe + era * 400;
    assert y <= DateInYear(y, doy).year <= y + 1;
    hide CivilFromDays, DateInYear, YearOfEra, YearLength;
  }

  lemma {:induction false} ToDaysBounds(y: nat, m: nat, d: nat)
    requires y < 10_000 && m < 100 && d < 100
    ensures -720_000 <= CivilToDays(y, m, d) < 4_000_000
  {
    var y1 := if m <= 2 then y - 1 else y;
    var era := if y1 >= 0 then y1 / 400 else -1;
    FloorQuot(y1, 400, era);
  }

  /** With a five-digit year the hour field begins at the `T`; with six the month field is a digit
      and a dash; with eight the minute field begins at the `T`; with nine the day field is a digit
      and a dash. */
  lemma {:induction false} MisalignedUnparsed(t: Stamp)
    requires SaneStamp(t) && |Pad(t.date.year, 4)| in {5, 6, 8, 9}
    ensures ParseIso(Printed(t)) == Unparsed
  {
    hide Pad, Printed, AfterYear, Trim, ParseInt, CivilToDays;
    PrintedTrimmed(t);
    Layout(t);
    var s, k := Printed(t), |Pad(t.date.year, 4)|;
    if k == 5 {
      SliceAfterYear(t, 11, 13);
      NotANumber(s[11..13]);
    } else if k == 6 {
      SliceAfterYear(t, 6, 7);
      NotANumber(s[5..7]);
    } else if k == 8 {
      SliceAfterYear(t, 14, 16);
      NotANumber(s[14..16]);
    } else {
      SliceAfterYear(t, 9, 10);
      NotANumber(s[8..10]);
    }
  }

  lemma {:induction false} NotANumber(field: string)
    requires |field| == 2 && (field[0] == 'T' || field[1] == '-')
    ensures ParseInt(field).None?
  {
  }

  lemma {:induction false} DigitsParse(s: string)
    requires AllDigits(s) && s != []
    ensures ParseInt(s) == Some(Value(s)) && Value(s) < Pow10(|s|)
  {
    ValueBound(s);
  }

  lemma {:induction false} SevenDigitSlices(t: Stamp)
    requires SaneStamp(t) && |Pad(t.date.year, 4)| == 7
    ensures var y := Pad(t.date.year, 4);
      ParseIso(Printed(t)) ==
      Assembled(ParseInt(y[0..4]), ParseInt(y[5..7]), Some(t.date.month), Some(t.date.day), Some(t.h), Some(t.m), Absent)
  {
    hide Pad, Printed, AfterYear, Trim, ParseInt, Assembled;
    PrintedTrimmed(t);
    Layout(t);
    SliceOfYear(t, 0, 4);
    SliceOfYear(t, 5, 7);
    SliceAfterYear(t, 8, 10);
    ParsePad(t.date.month, 2);
    SliceAfterYear(t, 11, 13);
    ParsePad(t.date.day, 2);
    SliceAfterYear(t, 14, 16);
    ParsePad(t.h, 2);
    SliceAfterYear(t, 17, 19);
    ParsePad(t.m, 2);
    SliceAfterYear(t, 19, 20);
  }

  /** With a seven-digit year the slices do parse, but into a moment within some ten thousand years
      of the epoch. */
  lemma {:induction false} SevenDigitYear(t: Stamp)
    requires SaneStamp(t) && |Pad(t.date.year, 4)| == 7
    ensures var p := ParseIso(Printed(t));
      p.Millis? && (p.ms < 1_000_000_000_000_000 || U64 - 1_000_000_000_000_000 < p.ms)
  {
    assert Pow10(4) == 10_000 && Pow10(2) == 100;
    hide Pad, Printed, ParseIso, ParseInt, Value, Pow10, Assembled;
    SevenDigitSlices(t);
    var y := Pad(t.date.year, 4);
    DigitsParse(y[0..4]);
    DigitsParse(y[5..7]);
    AssembledBounds(Value(y[0..4]), Value(y[5..7]), t);
  }

  lemma {:induction false} AssembledBounds(year: nat, month: nat, t: Stamp)
    requires year < 10_000 && month < 100 && SaneStamp(t)
    ensures var p := Assembled(Some(year), Some(month), Some(t.date.month), Some(t.date.day), Some(t.h), Some(t.m), Absent);
      p.Millis? && (p.ms < 1_000_000_000_000_000 || U64 - 1_000_000_000_000_000 < p.ms)
  {
    hide CivilToDays, AsU64;
    ToDaysBounds(year, month, t.date.month);
    WrapBounds((CivilToDays(year, month, t.date.month) * 86_400 + t.date.day * 3600 + t.h * 60 + t.m) * 1000);
  }

  lemma {:induction false} WrapBounds(x: int)
    requires -1_000_000_000_000_000 < x < 1_000_000_000_000_000
    ensures AsU64(x) < 1_000_000_000_000_000 || U64 - 1_000_000_000_000_000 < AsU64(x)
  {
  }

  /** How wide the printed year can be, for a millisecond count that fits `u64`. */
  lemma {:induction false} YearWidth(ms: nat)
    requires YEAR_10000_MS <= ms < U64
    ensures 5 <= |Pad(StampOf(ms).date.year, 4)| <= 9
    ensures |Pad(StampOf(ms).date.year, 4)| == 7 ==> 1_000_000_000_000_000 <= ms < U64 / 2
  {
    var y := StampOf(ms).date.year;
    FourDigitYear(ms);
    ClockFields(ms);
    YearBounds(ms / 1000 / 86_400);
    hide CivilFromDays;
    assert y < 1_000_000_000;
    YearDigitCount(y);
  }

  lemma {:induction false} YearDigitCount(y: nat)
    requires 10_000 <= y < 1_000_000_000
    ensures 5 <= |Pad(y, 4)| <= 9
    ensures |Pad(y, 4)| == 7 ==> 1_000_000 <= y < 10_000_000
  {
    var k := |Pad(y, 4)|;
    if k == 4 {
      ValuePad(y, 4);
      ValueBound(Pad(y, 4));
    } else {
      PadOverflow(y, 4);
    }
    if k == 7 {
      ValuePad(y, 4);
      ValueBound(Pad(y, 4));
    }
    if k >= 10 {
      Pow10Grows(9, k - 1);
    }
  }

  lemma {:induction false} Pow10Grows(a: nat, b: nat)
    requires a <= b
    ensures Pow10(a) <= Pow10(b)
  {
    if a < b {
      Pow10Grows(a, b - 1);
    }
  }

  /** The round trip holds for exactly the timestamps of the first ten thousand years. */
  lemma {:induction false} RoundTripExactly(ms: nat)
    requires ms < U64
    ensures ParseIso(Iso8601(ms)) == Millis(ms) <==> ms < YEAR_10000_MS
  {
    hide StampOf, ParseIso, Pad, Printed;
    if ms < YEAR_10000_MS {
      RoundTripBefore10000(ms);
    } else {
      YearWidth(ms);
      var t := StampOf(ms);
      if |Pad(t.date.year, 4)| == 7 {
        SevenDigitYear(t);
      } else {
        MisalignedUnparsed(t);
      }
    }
  }

  // -------------------------------------------------------------------------
  // String order and chronological order
  // -------------------------------------------------------------------------

  lemma {:induction false} FieldOrder(separator: char, x: nat, y: nat, w: nat, r: string, r': string)
    requires w >= 1 && x < Pow10(w) && y < Pow10(w)
    ensures LexLess(Field(separator, x, w, r), Field(separator, y, w, r')) <==> x < y || (x == y && LexLess(r, r'))
  {
    PadOrder(x, y, w);
    PadWidth(x, w);
    PadWidth(y, w);
    LexPrefix(Pad(x, w), r, Pad(y, w), r');
    assert Field(separator, x, w, r) == [separator] + (Pad(x, w) + r);
    assert Field(separator, y, w, r') == [separator] + (Pad(y, w) + r');
    LexPrefix([separator], Pad(x, w) + r, [separator], Pad(y, w) + r');
    LexIrreflexive([separator]);
  }

  /** The printed fields after the year, compared in order. */
  ghost predicate EarlierInYear(t: Stamp, u: Stamp) {
    || t.date.month < u.date.month
    || (t.date.month == u.date.month &&
        (t.date.day < u.date.day
         || (t.date.day == u.date.day && TimeOfDay(t) < TimeOfDay(u))))
  }

  function TimeOfDay(t: Stamp): nat {
    t.h * 3_600_000 + t.m * 60_000 + t.s * 1000 + t.millis
  }

  lemma {:induction false} TimeOrder(t: Stamp, u: Stamp)
    requires SaneStamp(t) && SaneStamp(u)
    ensures TimeOfDay(t) < TimeOfDay(u) <==>
            t.h < u.h || (t.h == u.h && (t.m < u.m || (t.m == u.m && (t.s < u.s || (t.s == u.s && t.millis < u.millis)))))
  {
  }

  lemma {:induction false} AfterYearOrder(t: Stamp, u: Stamp)
    requires SaneStamp(t) && SaneStamp(u)
    ensures LexLess(AfterYear(t), AfterYear(u)) <==> EarlierInYear(t, u)
  {
    assert Pow10(2) == 100 && Pow10(3) == 1000;
    hide Field, LexLess, Pow10;
    LexIrreflexive("Z");
    var t1, u1 := Field('.', t.millis, 3, "Z"), Field('.', u.millis, 3, "Z");
    FieldOrder('.', t.millis, u.millis, 3, "Z", "Z");
    var t2, u2 := Field(':', t.s, 2, t1), Field(':', u.s, 2, u1);
    FieldOrder(':', t.s, u.s, 2, t1, u1);
    var t3, u3 := Field(':', t.m, 2, t2), Field(':', u.m, 2, u2);
    FieldOrder(':', t.m, u.m, 2, t2, u2);
    var t4, u4 := Field('T', t.h, 2, t3), Field('T', u.h, 2, u3);
    FieldOrder('T', t.h, u.h, 2, t3, u3);
    var t5, u5 := Field('-', t.date.day, 2, t4), Field('-', u.date.day, 2, u4);
    FieldOrder('-', t.date.day, u.date.day, 2, t4, u4);
    FieldOrder('-', t.date.month, u.date.month, 2, t5, u5);
    TimeOrder(t, u);
  }

  /** Later moments have later fields. */
  lemma {:induction false} StampOrder(a: nat, b: nat)
    requires a < b
    ensures var t, u := StampOf(a), StampOf(b);
      t.date.year < u.date.year || (t.date.year == u.date.year && EarlierInYear(t, u))
  {
    hide CivilFromDays;
    ClockFields(a);
    ClockFields(b);
    var da, db := a / 1000 / 86_400, b / 1000 / 86_400;
    if da < db {
      CivilIncreasing(da, db);
    } else {
      assert da == db;
    }
  }

  function Year(ms: nat): nat {
    StampOf(ms).date.year
  }

  function YearText(ms: nat): string {
    Pad(Year(ms), 4)
  }

  /** `n` without its last `k` decimal digits. */
  function DropDigits(n: nat, k: nat): nat {
    if k == 0 then n else DropDigits(n / 10, k - 1)
  }

  lemma {:induction false} YearsOrdered(a: nat, b: nat)
    requires a < b
    ensures Year(a) <= Year(b) && |YearText(a)| <= |YearText(b)|
  {
    hide StampOf, EarlierInYear;
    StampOrder(a, b);
    PadMonotone(Year(a), Year(b), 4);
  }

  lemma {:induction false} PadMonotone(a: nat, b: nat, w: nat)
    requires a <= b
    ensures |Pad(a, w)| <= |Pad(b, w)|
    decreases b, w
  {
    if !(b < 10 && w <= 1) && !(a < 10 && w <= 1) {
      PadMonotone(a / 10, b / 10, if w > 0 then w - 1 else 0);
    }
  }

  lemma {:induction false} PadAsWide(n: nat, w: nat)
    ensures Pad(n, |Pad(n, w)|) == Pad(n, w) && n < Pow10(|Pad(n, w)|)
    decreases n, w
  {
    ValuePad(n, w);
    ValueBound(Pad(n, w));
    if !(n < 10 && w <= 1) {
      PadAsWide(n / 10, if w > 0 then w - 1 else 0);
    }
  }

  lemma {:induction false} PadCut(n: nat, w: nat, k: nat)
    requires k < w && n < Pow10(w)
    ensures |Pad(n, w)| == w && Pad(n, w)[..w - k] == Pad(DropDigits(n, k), w - k)
    ensures DropDigits(n, k) < Pow10(w - k)
  {
    PadWidth(n, w);
    if k > 0 {
      PadCut(n / 10, w - 1, k - 1);
      assert Pad(n, w)[..w - k] == Pad(n / 10, w - 1)[..w - k];
    }
  }

  /** Among moments in order, the printed strings are in order exactly when the earlier year does
      not exceed the later year cut to the earlier year's number of digits. */
  lemma {:induction false} OrderExactly(a: nat, b: nat)
    requires a < b
    ensures |YearText(a)| <= |YearText(b)|
    ensures LexLess(Iso8601(a), Iso8601(b)) <==> Year(a) <= DropDigits(Year(b), |YearText(b)| - |YearText(a)|)
  {
    hide StampOf, Pad, LexLess, EarlierInYear, AfterYear;
    YearsOrdered(a, b);
    var ya, yb, n := YearText(a), YearText(b), |YearText(a)|;
    var k := |yb| - n;
    var cut := DropDigits(Year(b), k);
    PadAsWide(Year(a), 4);
    PadAsWide(Year(b), 4);
    PadCut(Year(b), |yb|, k);
    PadOrder(Year(a), cut, n);
    var ra, rb := AfterYear(StampOf(a)), yb[n..] + AfterYear(StampOf(b));
    assert Iso8601(b) == yb[..n] + rb;
    LexPrefix(ya, ra, yb[..n], rb);
    if Year(a) == cut {
      RestOrder(a, b, n);
    }
  }

  /** Past the shared digits, a shorter year is followed by a dash, which sorts before any digit. */
  lemma {:induction false} RestOrder(a: nat, b: nat, n: nat)
    requires a < b && n == |YearText(a)| <= |YearText(b)|
    requires n == |YearText(b)| ==> Year(a) == Year(b)
    ensures LexLess(AfterYear(StampOf(a)), YearText(b)[n..] + AfterYear(StampOf(b)))
  {
    Layout(StampOf(a));
    if n == |YearText(b)| {
      assert YearText(b)[n..] + AfterYear(StampOf(b)) == AfterYear(StampOf(b));
      StampOrder(a, b);
      AfterYearOrder(StampOf(a), StampOf(b));
    } else {
      assert IsDigit(YearText(b)[n]);
    }
  }

  /** Up to the year 9999 the printed strings are ordered exactly as the moments are, so the string
      tie-break of `compare_fitness` is chronological. */
  lemma {:induction false} OrderEmbedding(a: nat, b: nat)
    requires a < YEAR_10000_MS && b < YEAR_10000_MS
    ensures LexLess(Iso8601(a), Iso8601(b)) <==> a < b
  {
    hide StampOf, Pad, LexLess, AfterYear;
    FourDigits(a);
    FourDigits(b);
    if a < b {
      OrderExactly(a, b);
      YearsOrdered(a, b);
    } else if a == b {
      LexIrreflexive(Iso8601(a));
    } else {
      OrderExactly(b, a);
      YearsOrdered(b, a);
      LexAsymmetric(Iso8601(b), Iso8601(a));
    }
  }

  lemma {:induction false} FourDigits(ms: nat)
    requires ms < YEAR_10000_MS
    ensures |YearText(ms)| == 4
  {
    hide StampOf;
    FourDigitYear(ms);
    FourDigitWidth(Year(ms));
  }

  /** The very next millisecond breaks the order: the last of 9999 sorts after the first of 10000. */
  lemma {:induction false} OrderBreaksAt10000()
    ensures LexLess(Iso8601(YEAR_10000_MS), Iso8601(YEAR_10000_MS - 1))
  {
    var a, b := YEAR_10000_MS - 1, YEAR_10000_MS;
    YearsAt10000();
    PadWidth5();
    hide StampOf, Printed, Pad, LexLess, DropDigits;
    OrderExactly(a, b);
    PrintedTrimmed(StampOf(a));
    PrintedTrimmed(StampOf(b));
    LexTotal(Iso8601(a), Iso8601(b));
  }

  lemma {:induction false} PadWidth5()
    ensures |Pad(9999, 4)| == 4 && |Pad(10_000, 4)| == 5 && DropDigits(10_000, 1) == 1000
  {
    FourDigitWidth(9999);
    assert |Pad(10, 1)| == 2;
    assert |Pad(100, 2)| == 3;
    assert |Pad(1000, 3)| == 4;
  }

  lemma {:induction false} YearsAt10000()
    ensures Year(YEAR_10000_MS - 1) == 9999 && Year(YEAR_10000_MS) == 10_000
  {
    hide CivilFromDays;
    FirstOf10000();
    CivilStep(2_932_896);
  }
}
