/**
 Civil-date arithmetic, RFC 3339 rendering and the Go-style durations.  The calendar the results
 are measured against is defined by counting days year by year and month by month.
 */
module TimeFormat {
  import opened Options
  import Arithmetic

  /** Rust's `u32`: every intermediate of the day-of-era arithmetic must fit. */
  type u32 = x: int | 0 <= x < 0x1_0000_0000

  datatype Date = Date(year: int, month: int, day: int)

  // ---------------------------------------------------------------------------
  // The Gregorian calendar, by counting

  predicate IsLeap(y: int) {
    y % 4 == 0 && (y % 100 != 0 || y % 400 == 0)
  }

  function DaysInYear(y: int): int {
    if IsLeap(y) then 366 else 365
  }

  function DaysInMonth(y: int, m: int): int {
    if m == 2 then (if IsLeap(y) then 29 else 28)
    else if m == 4 || m == 6 || m == 9 || m == 11 then 30
    else 31
  }

  function DaysBeforeYear(y: int): int
    requires y >= 1970
    decreases y
  {
    if y == 1970 then 0 else DaysBeforeYear(y - 1) + DaysInYear(y - 1)
  }

  function DaysBeforeMonth(y: int, m: int): int
    requires 1 <= m <= 13
    decreases m
  {
    if m == 1 then 0 else DaysBeforeMonth(y, m - 1) + DaysInMonth(y, m - 1)
  }

  predicate ValidDate(d: Date) {
    && 1 <= d.month <= 12
    && 1 <= d.day <= DaysInMonth(d.year, d.month)
  }

  /** Days since 1970-01-01. */
  function DayNumber(d: Date): int
    requires d.year >= 1970 && ValidDate(d)
  {
    DaysBeforeYear(d.year) + DaysBeforeMonth(d.year, d.month) + d.day - 1
  }

  // ---------------------------------------------------------------------------
  // The source's algorithm

  /** Days from the start of a 400-year era to the first of March of its year `n`. */
  function MarchStart(n: int): int {
    365 * n + n / 4 - n / 100
  }

  /** Year, month and day of a day number, with the source's era arithmetic. */
  function Civil(days: nat): Date {
    var z: int := days + 719468;
    var era := (if z >= 0 then z else z - 146096) / 146097;
    var doe: u32 := z - era * 146097;
    YearOfEra(doe);
    var corrected: u32 := doe - doe / 1460 + doe / 36524 - doe / 146096;
    var yoe: u32 := corrected / 365;
    var y := yoe + era * 400;
    var doy: u32 := doe - (365 * yoe + yoe / 4 - yoe / 100);
    var mp: u32 := (5 * doy + 2) / 153;
    var d: u32 := doy - (153 * mp + 2) / 5 + 1;
    var month := mp + (if mp < 10 then 3 else -9);
    var year := y + (if month <= 2 then 1 else 0);
    Date(year, month, d)
  }

  /** The corrections of the formula, for a day in century `c`, four-year block `q`, day `s` of the block. */
  lemma EraCorrections(doe: int, c: int, q: int, s: int)
    requires 0 <= doe < 146097 && 0 <= c <= 3 && 0 <= q <= 24 && 0 <= s <= 1460
    requires doe == 36524 * c + 1461 * q + s
    requires q == 24 ==> s < 1460 || c == 3
    ensures doe / 36524 - doe / 146096 == c
    ensures doe / 1460 == 25 * c + q + (if 24 * c + q + s >= 1460 then 1 else 0)
  {
  }

  lemma YearBrackets(c: int, q: int, t: int)
    requires 0 <= c <= 3 && 0 <= q <= 24 && 0 <= t <= 3
    ensures var y := 100 * c + 4 * q + t;
            && MarchStart(y) == 36524 * c + 1461 * q + 365 * t
            && MarchStart(y + 1) == (if q == 24 && t == 3 then 36524 * (c + 1)
                                     else if t == 3 then 36524 * c + 1461 * (q + 1)
                                     else 36524 * c + 1461 * q + 365 * (t + 1))
  {
  }

  lemma EraSplit(doe: int) returns (c: int, q: int, t: int, s: int)
    requires 0 <= doe < 146097
    ensures 0 <= c <= 3 && 0 <= q <= 24 && 0 <= t <= 3 && 0 <= s <= 1460
    ensures doe == 36524 * c + 1461 * q + s
    ensures q == 24 ==> s < 1460 || c == 3
    ensures 365 * t <= s && (t < 3 ==> s < 365 * (t + 1))
  {
    c := if doe < 36524 then 0 else if doe < 73048 then 1 else if doe < 109572 then 2 else 3;
    var r := doe - 36524 * c;
    q, s := r / 1461, r % 1461;
    t := if s >= 1095 then 3 else if s >= 730 then 2 else if s >= 365 then 1 else 0;
  }

  /** The numerator of the year formula. */
  function Corrected(doe: int): int {
    doe - doe / 1460 + doe / 36524 - doe / 146096
  }

  lemma CorrectedYear(doe: int, c: int, q: int, t: int, s: int)
    requires 0 <= doe < 146097
    requires 0 <= c <= 3 && 0 <= q <= 24 && 0 <= t <= 3 && 0 <= s <= 1460
    requires doe == 36524 * c + 1461 * q + s
    requires q == 24 ==> s < 1460 || c == 3
    requires 365 * t <= s && (t < 3 ==> s < 365 * (t + 1))
    ensures 365 * (100 * c + 4 * q + t) <= Corrected(doe) < 365 * (100 * c + 4 * q + t + 1)
  {
    EraCorrections(doe, c, q, s);
  }

  /** The year of the era brackets the day of the era, with the era's last day in year 399. */
  lemma YearOfEra(doe: int)
    requires 0 <= doe < 146097
    ensures doe - doe / 1460 >= 0 && Corrected(doe) >= 0
    ensures var yoe := Corrected(doe) / 365;
            && 0 <= yoe <= 399
            && MarchStart(yoe) <= doe
            && doe < MarchStart(yoe + 1) + (if yoe == 399 then 1 else 0)
  {
    hide Corrected, MarchStart;
    var c, q, t, s := EraSplit(doe);
    CorrectedYear(doe, c, q, t, s);
    YearBrackets(c, q, t);
  }

  // ---------------------------------------------------------------------------
  // The algorithm inverts the calendar

  function Leaps(n: int): int {
    n / 4 - n / 100 + n / 400
  }

  /** Counting the multiples of `k` up to `y`. */
  lemma MultipleStep(y: nat, k: nat)
    requires y >= 1 && k >= 1
    ensures y / k - (y - 1) / k == if y % k == 0 then 1 else 0
  {
    var q, r := y / k, y % k;
    assert y == q * k + r;
    if r == 0 {
      assert q >= 1;
      assert q * k == (q - 1) * k + k;
      Arithmetic.DivUnique(y - 1, k, q - 1, k - 1);
    } else {
      Arithmetic.DivUnique(y - 1, k, q, r - 1);
    }
  }

  lemma LeapStep(y: nat)
    requires y >= 1
    ensures Leaps(y) - Leaps(y - 1) == if IsLeap(y) then 1 else 0
  {
    MultipleStep(y, 4);
    MultipleStep(y, 100);
    MultipleStep(y, 400);
    assert y % 400 == 0 ==> y == 100 * (4 * (y / 400));
    assert y % 100 == 0 ==> y == 4 * (25 * (y / 100));
  }

  lemma {:induction false} YearsClosedForm(y: int)
    requires y >= 1970
    ensures DaysBeforeYear(y) == 365 * (y - 1970) + Leaps(y - 1) - 477
    decreases y
  {
    if y > 1970 {
      YearsClosedForm(y - 1);
      LeapStep(y - 1);
    }
  }

  /** Days from 1970-01-01 to the first of March of year `y`, offset by 719468. */
  function MarchDay(y: int): int {
    365 * y + Leaps(y)
  }

  lemma MarchOfYear(y: int)
    requires y >= 1970
    ensures DaysBeforeYear(y) + 59 + (if IsLeap(y) then 1 else 0) == MarchDay(y) - 719468
    ensures DaysBeforeYear(y) == MarchDay(y - 1) + 306 - 719468
  {
    YearsClosedForm(y);
    LeapStep(y);
  }

  lemma EraToYear(era: int, yoe: int)
    requires era >= 0 && 0 <= yoe <= 399
    ensures MarchDay(400 * era + yoe) == 146097 * era + MarchStart(yoe)
    ensures MarchDay(400 * era + yoe + 1) == 146097 * era + MarchStart(yoe + 1) + (if yoe == 399 then 1 else 0)
    ensures MarchDay(400 * era + yoe + 1) - MarchDay(400 * era + yoe) == 365 + (if IsLeap(400 * era + yoe + 1) then 1 else 0)
  {
    var y := 400 * era + yoe;
    assert y / 4 == 100 * era + yoe / 4;
    assert y / 100 == 4 * era + yoe / 100;
    assert (y + 1) / 4 == 100 * era + (yoe + 1) / 4;
    assert (y + 1) / 100 == 4 * era + (yoe + 1) / 100;
    LeapStep(y + 1);
  }

  /** Days from the first of March to the start of March-based month `mp`. */
  function MonthStart(mp: int): int {
    (153 * mp + 2) / 5
  }

  lemma MonthOfDay(doy: int)
    requires 0 <= doy <= 365
    ensures var mp := (5 * doy + 2) / 153;
            0 <= mp <= 11 && MonthStart(mp) <= doy < MonthStart(mp + 1)
  {
  }

  /** The March-based month offsets are the Gregorian ones. */
  lemma MonthTable(y: int, mp: int)
    requires 0 <= mp <= 11
    ensures mp < 10 ==> DaysBeforeMonth(y, mp + 3) == 59 + (if IsLeap(y) then 1 else 0) + MonthStart(mp)
    ensures mp < 10 ==> MonthStart(mp + 1) - MonthStart(mp) == DaysInMonth(y, mp + 3)
    ensures mp == 10 ==> DaysBeforeMonth(y, 1) == 0 && MonthStart(10) == 306 && MonthStart(11) == 337
    ensures mp == 11 ==> DaysBeforeMonth(y, 2) == 31 && MonthStart(11) == 337
  {
    assert DaysBeforeMonth(y, 1) == 0;
    assert DaysBeforeMonth(y, 2) == 31;
    assert DaysBeforeMonth(y, 3) == 59 + (if IsLeap(y) then 1 else 0);
    assert DaysBeforeMonth(y, 4) == DaysBeforeMonth(y, 3) + 31;
    assert DaysBeforeMonth(y, 5) == DaysBeforeMonth(y, 3) + 61;
    assert DaysBeforeMonth(y, 6) == DaysBeforeMonth(y, 3) + 92;
    assert DaysBeforeMonth(y, 7) == DaysBeforeMonth(y, 3) + 122;
  }

  /** Day `doy` of the March-based year `y`, as the month branch of the algorithm names it. */
  function MarchDate(y: int, doy: int): Date {
    var mp := (5 * doy + 2) / 153;
    var month := mp + (if mp < 10 then 3 else -9);
    Date(y + (if month <= 2 then 1 else 0), month, doy - MonthStart(mp) + 1)
  }

  lemma MarchDateCounts(y: int, doy: int)
    requires 0 <= doy < 365 + (if IsLeap(y + 1) then 1 else 0)
    requires MarchDay(y) + doy >= 719468
    ensures var c := MarchDate(y, doy);
            c.year >= 1970 && ValidDate(c) && DayNumber(c) == MarchDay(y) + doy - 719468
  {
    hide MarchDay, MonthStart, DaysBeforeYear, DaysBeforeMonth, Leaps;
    MonthOfDay(doy);
    var mp := (5 * doy + 2) / 153;
    var c := MarchDate(y, doy);
    YearIs1970(y, doy);
    MonthTable(c.year, mp);
    MarchOfYear(c.year);
  }

  lemma YearIs1970(y: int, doy: int)
    requires 0 <= doy < 365 + (if IsLeap(y + 1) then 1 else 0)
    requires MarchDay(y) + doy >= 719468
    ensures y >= 1969 && (y == 1969 ==> doy >= 306)
  {
  }

  lemma CivilIsMarchDate(days: nat, era: int, doe: int, yoe: int)
    requires days + 719468 == era * 146097 + doe && 0 <= doe < 146097 && yoe == Corrected(doe) / 365
    ensures Civil(days) == MarchDate(400 * era + yoe, doe - MarchStart(yoe))
  {
    assert (days + 719468) / 146097 == era;
  }

  /** For every day number the result is a Gregorian date whose day count is that number. */
  lemma CivilCounts(days: nat)
    ensures var c := Civil(days);
            c.year >= 1970 && ValidDate(c) && DayNumber(c) == days
  {
    hide MarchStart, Corrected, MarchDate, Civil, MarchDay, IsLeap, DayNumber;
    var z := days + 719468;
    var era, doe := z / 146097, z % 146097;
    YearOfEra(doe);
    var yoe := Corrected(doe) / 365;
    EraToYear(era, yoe);
    CivilIsMarchDate(days, era, doe, yoe);
    MarchDateCounts(400 * era + yoe, doe - MarchStart(yoe));
  }

  lemma {:induction false} YearsIncrease(y: int, y': int)
    requires 1970 <= y < y'
    ensures DaysBeforeYear(y) + DaysInYear(y) <= DaysBeforeYear(y')
    decreases y'
  {
    if y + 1 < y' { YearsIncrease(y, y' - 1); }
  }

  lemma {:induction false} MonthsIncrease(y: int, m: int, m': int)
    requires 1 <= m < m' <= 13
    ensures DaysBeforeMonth(y, m) + DaysInMonth(y, m) <= DaysBeforeMonth(y, m')
    decreases m'
  {
    if m + 1 < m' { MonthsIncrease(y, m, m' - 1); }
  }

  lemma YearBounds(d: Date)
    requires d.year >= 1970 && ValidDate(d)
    ensures DaysBeforeYear(d.year) <= DayNumber(d) < DaysBeforeYear(d.year) + DaysInYear(d.year)
  {
    MonthsIncrease(d.year, d.month, 13);
    if d.month > 1 { MonthsIncrease(d.year, 1, d.month); }
  }

  /** No two dates share a day number, so `Civil` names the only date there is. */
  lemma DayNumberInjective(d: Date, e: Date)
    requires d.year >= 1970 && e.year >= 1970 && ValidDate(d) && ValidDate(e) && DayNumber(d) == DayNumber(e)
    ensures d == e
  {
    YearBounds(d);
    YearBounds(e);
    if d.year < e.year { YearsIncrease(d.year, e.year); }
    if e.year < d.year { YearsIncrease(e.year, d.year); }
    if d.month < e.month { MonthsIncrease(d.year, d.month, e.month); }
    if e.month < d.month { MonthsIncrease(d.year, e.month, d.month); }
  }

  // ---------------------------------------------------------------------------
  // Decimal text

  predicate IsDigit(c: char) {
    '0' <= c <= '9'
  }

  predicate AllDigits(s: string) {
    forall i :: 0 <= i < |s| ==> IsDigit(s[i])
  }

  function Digit(n: nat): (c: char)
    requires n < 10
    ensures IsDigit(c) && c as int - '0' as int == n
  {
    ('0' as int + n) as char
  }

  /** What a digit string denotes. */
  function Num(s: string): nat
    requires AllDigits(s)
  {
    if s == "" then 0 else 10 * Num(s[..|s| - 1]) + (s[|s| - 1] as int - '0' as int)
  }

  /** Rust's `{}` for an unsigned integer. */
  function Decimal(n: nat): (s: string)
    ensures |s| >= 1 && AllDigits(s)
  {
    if n < 10 then [Digit(n)] else Decimal(n / 10) + [Digit(n % 10)]
  }

  function Zeros(k: nat): (s: string)
    ensures |s| == k && AllDigits(s)
  {
    if k == 0 then "" else Zeros(k - 1) + "0"
  }

  /** Rust's `{:0w}` for an unsigned integer. */
  function Pad(n: nat, w: nat): (s: string)
    ensures |s| >= w && AllDigits(s)
  {
    var d := Decimal(n);
    if |d| >= w then d else Zeros(w - |d|) + d
  }

  lemma {:induction false} NumDecimal(n: nat)
    ensures Num(Decimal(n)) == n
  {
    if n >= 10 {
      NumDecimal(n / 10);
    }
  }

  lemma {:induction false} NumZeros(k: nat, s: string)
    requires AllDigits(s)
    ensures AllDigits(Zeros(k) + s) && Num(Zeros(k) + s) == Num(s)
    decreases k + |s|
  {
    var t := Zeros(k) + s;
    if s != "" {
      NumZeros(k, s[..|s| - 1]);
      assert t[..|t| - 1] == Zeros(k) + s[..|s| - 1];
    } else if k > 0 {
      NumZeros(k - 1, "");
      assert Zeros(k - 1) + "" == Zeros(k - 1);
      assert t[..|t| - 1] == Zeros(k - 1);
    }
  }

  lemma NumPad(n: nat, w: nat)
    ensures Num(Pad(n, w)) == n
  {
    NumDecimal(n);
    var d := Decimal(n);
    if |d| < w { NumZeros(w - |d|, d); }
  }

  lemma DecimalLength(n: nat)
    ensures n < 100 ==> |Decimal(n)| <= 2
    ensures n < 1000 ==> |Decimal(n)| <= 3
    ensures n < 10000 ==> |Decimal(n)| <= 4
    ensures n >= 10000 ==> |Decimal(n)| >= 5
  {
    if n >= 10 {
      if n >= 100 {
        assert |Decimal(n / 10)| == |Decimal(n / 10 / 10)| + 1;
        if n >= 1000 {
          if n >= 10000 {
          }
        }
      }
    }
  }

  // ---------------------------------------------------------------------------
  // RFC 3339

  /** The text of a date-time whose fraction and offset are `tail`. */
  function Layout(y: string, mo: string, d: string, h: string, mi: string, s: string, tail: string): string {
    y + "-" + mo + "-" + d + "T" + h + ":" + mi + ":" + s + tail
  }

  /** Epoch milliseconds to a UTC date-time string. */
  function EpochMsToRfc3339(ms: nat): string {
    if ms == 0 then "1970-01-01T00:00:00Z"
    else Render(ms)
  }

  function Render(ms: nat): string {
    var total := ms / 1000;
    var rem := total % 86400;
    var c := Civil(total / 86400);
    CivilCounts(total / 86400);
    var fraction := ms % 1000;
    Layout(Pad(c.year, 4), Pad(c.month, 2), Pad(c.day, 2),
           Pad(rem / 3600, 2), Pad((rem % 3600) / 60, 2), Pad(rem % 60, 2),
           if fraction > 0 then "." + Pad(fraction, 3) + "Z" else "Z")
  }

  /** `time-offset` of section 5.6 of RFC 3339. */
  predicate Offset(t: string) {
    || t == "Z" || t == "z"
    || (&& |t| == 6 && (t[0] == '+' || t[0] == '-') && t[3] == ':'
        && AllDigits(t[1..3]) && AllDigits(t[4..6]) && Num(t[1..3]) <= 23 && Num(t[4..6]) <= 59)
  }

  /** An optional `time-secfrac` and a `time-offset`. */
  predicate Tail(t: string) {
    || Offset(t)
    || (|t| > 0 && t[0] == '.' && exists k :: 2 <= k <= |t| && AllDigits(t[1..k]) && Offset(t[k..]))
  }

  /** The fixed-width part: `full-date "T" partial-time` up to the seconds. */
  predicate Fixed(s: string) {
    && |s| >= 19
    && s[4] == '-' && s[7] == '-' && (s[10] == 'T' || s[10] == 't') && s[13] == ':' && s[16] == ':'
    && AllDigits(s[0..4]) && AllDigits(s[5..7]) && AllDigits(s[8..10])
    && AllDigits(s[11..13]) && AllDigits(s[14..16]) && AllDigits(s[17..19])
  }

  function DateOf(s: string): Date
    requires Fixed(s)
  {
    Date(Num(s[0..4]), Num(s[5..7]), Num(s[8..10]))
  }

  /** `date-time` of section 5.6 of RFC 3339, with the field ranges of section 5.7. */
  predicate Rfc3339(s: string) {
    && Fixed(s)
    && ValidDate(DateOf(s))
    && Num(s[11..13]) <= 23 && Num(s[14..16]) <= 59 && Num(s[17..19]) <= 60
    && Tail(s[19..])
  }

  /** The instant a UTC date-time with no or three fraction digits denotes. */
  function Instant(s: string): Option<int> {
    if !Rfc3339(s) || DateOf(s).year < 1970 then None
    else
      var t := s[19..];
      var secs := ((DayNumber(DateOf(s)) * 24 + Num(s[11..13])) * 60 + Num(s[14..16])) * 60 + Num(s[17..19]);
      if t == "Z" then Some(1000 * secs)
      else if |t| == 5 && t[0] == '.' && AllDigits(t[1..4]) && t[4] == 'Z' then Some(1000 * secs + Num(t[1..4]))
      else None
  }

  lemma LayoutSlices(y: string, mo: string, d: string, h: string, mi: string, s: string, tail: string)
    requires |y| == 4 && |mo| == |d| == |h| == |mi| == |s| == 2
    ensures var t := Layout(y, mo, d, h, mi, s, tail);
            && |t| == 19 + |tail|
            && t[0..4] == y && t[4] == '-' && t[5..7] == mo && t[7] == '-' && t[8..10] == d && t[10] == 'T'
            && t[11..13] == h && t[13] == ':' && t[14..16] == mi && t[16] == ':' && t[17..19] == s && t[19..] == tail
  {
  }

  /** Milliseconds from the epoch to the year 10000. */
  const YEAR_10000_MS: nat := 253402300800000

  lemma FourDigitYears(days: nat)
    ensures Civil(days).year <= 9999 <==> days < 2932897
  {
    hide Civil;
    CivilCounts(days);
    var c := Civil(days);
    YearBounds(c);
    YearsClosedForm(10000);
    if c.year < 10000 { YearsIncrease(c.year, 10000); }
    if c.year > 10000 { YearsIncrease(10000, c.year); }
  }

  lemma PadLength(n: nat)
    ensures n < 100 ==> |Pad(n, 2)| == 2
    ensures n < 1000 ==> |Pad(n, 3)| == 3
    ensures n < 10000 ==> |Pad(n, 4)| == 4
    ensures n >= 10000 ==> |Pad(n, 4)| >= 5
  {
    DecimalLength(n);
  }

  lemma SplitSeconds(total: nat)
    ensures var rem := total % 86400;
            && rem / 3600 <= 23 && (rem % 3600) / 60 <= 59 && rem % 60 <= 59
            && total == ((total / 86400 * 24 + rem / 3600) * 60 + (rem % 3600) / 60) * 60 + rem % 60
  {
  }

  /** The optional fraction and the offset are well formed and read back. */
  lemma TailReads(fraction: nat)
    requires fraction < 1000
    ensures var t := if fraction > 0 then "." + Pad(fraction, 3) + "Z" else "Z";
            && Tail(t)
            && (fraction > 0 ==> |t| == 5 && t[0] == '.' && t[1..4] == Pad(fraction, 3) && t[4] == 'Z')
            && Num(Pad(fraction, 3)) == fraction
  {
    hide Pad, Num;
    PadLength(fraction);
    NumPad(fraction, 3);
    if fraction > 0 {
      var t := "." + Pad(fraction, 3) + "Z";
      assert t[1..4] == Pad(fraction, 3);
    }
  }

  lemma RenderReadsBack(ms: nat)
    requires ms < YEAR_10000_MS
    ensures Rfc3339(Render(ms)) && Instant(Render(ms)) == Some(ms)
  {
    hide Pad, Num, Civil, Layout, DayNumber, Tail, Offset;
    var total, fraction := ms / 1000, ms % 1000;
    var rem := total % 86400;
    var h, mi, s := rem / 3600, (rem % 3600) / 60, rem % 60;
    SplitSeconds(total);
    var c := Civil(total / 86400);
    CivilCounts(total / 86400);
    FourDigitYears(total / 86400);
    PadLength(c.year); PadLength(c.month); PadLength(c.day);
    PadLength(h); PadLength(mi); PadLength(s);
    NumPad(c.year, 4); NumPad(c.month, 2); NumPad(c.day, 2);
    NumPad(h, 2); NumPad(mi, 2); NumPad(s, 2);
    TailReads(fraction);
    var tail := if fraction > 0 then "." + Pad(fraction, 3) + "Z" else "Z";
    LayoutSlices(Pad(c.year, 4), Pad(c.month, 2), Pad(c.day, 2), Pad(h, 2), Pad(mi, 2), Pad(s, 2), tail);
    assert DateOf(Render(ms)) == c;
  }

  lemma PadsOfEpoch()
    ensures Pad(1970, 4) == "1970" && Pad(1, 2) == "01" && Pad(0, 2) == "00"
  {
  }

  lemma EpochDate()
    ensures ValidDate(Date(1970, 1, 1)) && DayNumber(Date(1970, 1, 1)) == 0
  {
  }

  lemma CivilOfEpoch()
    ensures Civil(0) == Date(1970, 1, 1)
  {
    hide Civil, DayNumber, ValidDate;
    CivilCounts(0);
    EpochDate();
    DayNumberInjective(Civil(0), Date(1970, 1, 1));
  }

  lemma EpochText()
    ensures Layout("1970", "01", "01", "00", "00", "00", "Z") == "1970-01-01T00:00:00Z"
  {
  }

  /** The early return for zero is what the general computation would give. */
  lemma EpochBranch()
    ensures Render(0) == "1970-01-01T00:00:00Z"
  {
    hide Pad, Layout, Civil;
    PadsOfEpoch();
    CivilOfEpoch();
    EpochText();
  }

  /**
   The rendering is a `date-time` of RFC 3339 exactly up to the end of the year 9999, and there it
   denotes exactly the given instant.  The early return for zero is the same text.
   */
  lemma EpochMsToRfc3339Exact(ms: nat)
    ensures EpochMsToRfc3339(ms) == Render(ms)
    ensures Rfc3339(EpochMsToRfc3339(ms)) <==> ms < YEAR_10000_MS
    ensures ms < YEAR_10000_MS ==> Instant(EpochMsToRfc3339(ms)) == Some(ms)
  {
    hide Civil, Layout, Pad, Num, Rfc3339, Instant;
    EpochBranch();
    if ms < YEAR_10000_MS {
      RenderReadsBack(ms);
    } else {
      LateYearsBreak(ms);
    }
  }

  lemma LateYearsBreak(ms: nat)
    requires ms >= YEAR_10000_MS
    ensures !Rfc3339(Render(ms))
  {
    hide Civil, Pad, Num;
    var total := ms / 1000;
    var c := Civil(total / 86400);
    CivilCounts(total / 86400);
    FourDigitYears(total / 86400);
    PadLength(c.year);
    var y := Pad(c.year, 4);
    var rem := total % 86400;
    var rest := "-" + Pad(c.month, 2) + "-" + Pad(c.day, 2) + "T" + Pad(rem / 3600, 2) + ":" + Pad((rem % 3600) / 60, 2)
      + ":" + Pad(rem % 60, 2) + (if ms % 1000 > 0 then "." + Pad(ms % 1000, 3) + "Z" else "Z");
    assert Render(ms) == y + rest;
  }

  // ---------------------------------------------------------------------------
  // Go-style durations

  datatype Duration = Ms(value: nat) | BadCharacter | MissingUnit

  datatype Scan = Scan(ms: nat, num: nat, hasNum: bool)

  /** One byte of the scanner; `None` is the invalid-character error. */
  function ScanChar(st: Scan, c: char): Option<Scan> {
    if IsDigit(c) then Some(Scan(st.ms, 10 * st.num + (c as int - '0' as int), true))
    else if c == 'h' then Some(Scan(st.ms + st.num * 3_600_000, 0, false))
    else if c == 'm' then Some(Scan(st.ms + st.num * 60_000, 0, false))
    else if c == 's' then Some(Scan(st.ms + st.num * 1_000, 0, false))
    else None
  }

  function ScanAll(st: Scan, s: string): Option<Scan>
    decreases |s|
  {
    if s == "" then Some(st)
    else
      match ScanChar(st, s[0])
      case None => None
      case Some(next) => ScanAll(next, s[1..])
  }

  function ParseDuration(s: string): Duration {
    match ScanAll(Scan(0, 0, false), s)
    case None => BadCharacter
    case Some(st) => if st.hasNum then MissingUnit else Ms(st.ms)
  }

  /** The single-pass scanner. */
  method ParseVaultDuration(s: string) returns (r: Duration)
    ensures r == ParseDuration(s)
  {
    if s == "" {
      return Ms(0);
    }
    var st := Scan(0, 0, false);
    for i := 0 to |s|
      invariant ScanAll(Scan(0, 0, false), s) == ScanAll(st, s[i..])
    {
      var next := ScanChar(st, s[i]);
      if next.None? {
        return BadCharacter;
      }
      st := next.value;
    }
    r := if st.hasNum then MissingUnit else Ms(st.ms);
  }

  /** Milliseconds in a unit. */
  function Factor(unit: char): Option<nat> {
    match unit
    case 'h' => Some(3_600_000)
    case 'm' => Some(60_000)
    case 's' => Some(1_000)
    case _ => None
  }

  lemma {:induction false} ScanOutcome(st: Scan, s: string)
    ensures ScanAll(st, s).None? <==> exists i :: 0 <= i < |s| && !IsDigit(s[i]) && Factor(s[i]).None?
    ensures ScanAll(st, s).Some? ==> ScanAll(st, s).value.hasNum == if s == "" then st.hasNum else IsDigit(s[|s| - 1])
    decreases |s|
  {
    if s != "" {
      var next := ScanChar(st, s[0]);
      if next.Some? {
        ScanOutcome(next.value, s[1..]);
        assert forall i :: 0 < i < |s| ==> s[i] == s[1..][i - 1];
      } else {
        assert !IsDigit(s[0]) && Factor(s[0]).None?;
      }
    }
  }

  /** The two errors, exactly: a character that is neither digit nor unit; else digits at the end. */
  lemma DurationErrors(s: string)
    ensures ParseDuration(s) == BadCharacter <==> exists i :: 0 <= i < |s| && !IsDigit(s[i]) && Factor(s[i]).None?
    ensures ParseDuration(s) == MissingUnit <==>
            (forall i :: 0 <= i < |s| ==> IsDigit(s[i]) || Factor(s[i]).Some?) && s != "" && IsDigit(s[|s| - 1])
  {
    ScanOutcome(Scan(0, 0, false), s);
  }

  lemma {:induction false} ScanDigits(ms: nat, d: string)
    requires AllDigits(d)
    ensures ScanAll(Scan(ms, 0, false), d) == Some(Scan(ms, Num(d), d != ""))
    decreases |d|
  {
    if d != "" {
      var most, last := d[..|d| - 1], d[|d| - 1];
      ScanDigits(ms, most);
      ScanConcat(Scan(ms, 0, false), most, [last]);
      assert most + [last] == d;
    }
  }

  /** A scan with more counted before it. */
  function Later(ms: nat, st: Scan): Scan {
    Scan(ms + st.ms, st.num, st.hasNum)
  }

  lemma CharAdds(ms: nat, st: Scan, c: char)
    ensures ScanChar(Later(ms, st), c) ==
            match ScanChar(st, c) { case None => None case Some(next) => Some(Later(ms, next)) }
  {
  }

  /** What was counted so far is only added to. */
  lemma {:induction false} ScanAdds(ms: nat, st: Scan, s: string)
    ensures ScanAll(Later(ms, st), s) ==
            match ScanAll(st, s) { case None => None case Some(end) => Some(Later(ms, end)) }
    decreases |s|
  {
    hide ScanChar, Later;
    if s != "" {
      CharAdds(ms, st, s[0]);
      var next := ScanChar(st, s[0]);
      if next.Some? { ScanAdds(ms, next.value, s[1..]); }
    }
  }

  lemma UnitCounts(num: nat, hasNum: bool, unit: char, rest: string)
    requires Factor(unit).Some?
    ensures ScanAll(Scan(0, num, hasNum), [unit] + rest) == ScanAll(Scan(num * Factor(unit).value, 0, false), rest)
  {
    assert ([unit] + rest)[1..] == rest;
  }

  /** The meaning of a duration: each field counts its digits in its unit, whatever follows. */
  lemma DurationField(d: string, unit: char, rest: string)
    requires AllDigits(d) && Factor(unit).Some?
    ensures ParseDuration("") == Ms(0)
    ensures ParseDuration(d + [unit] + rest) ==
            match ParseDuration(rest)
            case Ms(n) => Ms(Num(d) * Factor(unit).value + n)
            case error => error
  {
    hide Num, Factor, ScanChar;
    var start := Scan(0, 0, false);
    var ms := Num(d) * Factor(unit).value;
    ScanDigits(0, d);
    assert d + [unit] + rest == d + ([unit] + rest);
    ScanConcat(start, d, [unit] + rest);
    UnitCounts(Num(d), d != "", unit, rest);
    ScanAdds(ms, start, rest);
  }

  function MsToVaultDuration(ms: nat): string {
    if ms == 0 then "0s"
    else
      var secs := ms / 1000;
      DurationText(secs / 3600, (secs % 3600) / 60, secs % 60)
  }

  function DurationText(h: nat, m: nat, s: nat): string {
    (if h > 0 then Decimal(h) + "h" else "")
    + (if m > 0 then Decimal(m) + "m" else "")
    + (if s > 0 || (h == 0 && m == 0) then Decimal(s) + "s" else "")
  }

  lemma {:induction false} ScanConcat(st: Scan, a: string, b: string)
    requires ScanAll(st, a).Some?
    ensures ScanAll(st, a + b) == ScanAll(ScanAll(st, a).value, b)
    decreases |a|
  {
    if a == "" {
      assert a + b == b;
    } else {
      assert (a + b)[1..] == a[1..] + b;
      ScanConcat(ScanChar(st, a[0]).value, a[1..], b);
    }
  }

  lemma {:induction false} ScanDecimal(ms: nat, n: nat)
    ensures ScanAll(Scan(ms, 0, false), Decimal(n)) == Some(Scan(ms, n, true))
  {
    if n < 10 {
    } else {
      ScanDecimal(ms, n / 10);
      ScanConcat(Scan(ms, 0, false), Decimal(n / 10), [Digit(n % 10)]);
    }
  }

  lemma ScanField(ms: nat, n: nat, unit: char, factor: nat, rest: string)
    requires (unit == 'h' && factor == 3_600_000) || (unit == 'm' && factor == 60_000) || (unit == 's' && factor == 1_000)
    ensures ScanAll(Scan(ms, 0, false), Decimal(n) + [unit] + rest) == ScanAll(Scan(ms + n * factor, 0, false), rest)
  {
    ScanDecimal(ms, n);
    assert Decimal(n) + [unit] + rest == Decimal(n) + ([unit] + rest);
    ScanConcat(Scan(ms, 0, false), Decimal(n), [unit] + rest);
  }

  lemma ScanSeconds(ms: nat, s: nat, always: bool)
    ensures var text := if s > 0 || always then Decimal(s) + "s" else "";
            ScanAll(Scan(ms, 0, false), text) == Some(Scan(ms + s * 1_000, 0, false))
  {
    ScanField(ms, s, 's', 1_000, "");
    assert Decimal(s) + "s" + "" == Decimal(s) + "s";
  }

  lemma ScanText(h: nat, m: nat, s: nat)
    ensures ScanAll(Scan(0, 0, false), DurationText(h, m, s)) == Some(Scan(h * 3_600_000 + m * 60_000 + s * 1_000, 0, false))
  {
    hide Decimal, ScanAll;
    var sPart := if s > 0 || (h == 0 && m == 0) then Decimal(s) + "s" else "";
    var mPart := (if m > 0 then Decimal(m) + "m" else "") + sPart;
    assert DurationText(h, m, s) == (if h > 0 then Decimal(h) + "h" + mPart else mPart);
    if h > 0 { ScanField(0, h, 'h', 3_600_000, mPart); }
    if m > 0 {
      ScanField(h * 3_600_000, m, 'm', 60_000, sPart);
    } else {
      assert mPart == sPart;
    }
    ScanSeconds(h * 3_600_000 + m * 60_000, s, h == 0 && m == 0);
  }

  lemma HoursMinutesSeconds(secs: nat)
    ensures secs / 3600 * 3_600_000 + (secs % 3600) / 60 * 60_000 + secs % 60 * 1_000 == secs * 1_000
  {
    var h, r := secs / 3600, secs % 3600;
    var m, s := r / 60, r % 60;
    assert secs == 60 * (60 * h + m) + s;
    Arithmetic.DivUnique(secs, 60, 60 * h + m, s);
  }

  /** Printing and parsing back keeps whole seconds and drops the rest. */
  lemma DurationRoundTrip(ms: nat)
    ensures ParseDuration(MsToVaultDuration(ms)) == Ms(ms / 1000 * 1000)
  {
    hide DurationText, ScanAll;
    var secs := ms / 1000;
    if ms == 0 {
      ScanText(0, 0, 0);
      DecimalZero();
      assert DurationText(0, 0, 0) == "0s";
    } else {
      ScanText(secs / 3600, (secs % 3600) / 60, secs % 60);
      HoursMinutesSeconds(secs);
    }
  }

  lemma NoUnit(n: nat, c: char)
    requires !IsDigit(c)
    ensures c !in Decimal(n)
  {
  }

  /** A printed duration has no zero field, but for the whole zero, which is printed as seconds. */
  lemma DurationFields(ms: nat)
    ensures var text := MsToVaultDuration(ms);
            && ('h' in text <==> ms >= 3_600_000)
            && ('m' in text <==> ms / 1000 % 3600 / 60 > 0)
            && ('s' in text <==> ms / 1000 % 60 > 0 || ms < 1000)
  {
    hide Decimal;
    var secs := ms / 1000;
    var h, m, s := secs / 3600, (secs % 3600) / 60, secs % 60;
    if ms > 0 {
      TextFields(h, m, s);
      SmallParts(secs);
    }
  }

  lemma SmallParts(secs: nat)
    ensures secs / 3600 == 0 && (secs % 3600) / 60 == 0 && secs % 60 == 0 <==> secs == 0
  {
    HoursMinutesSeconds(secs);
  }

  lemma TextFields(h: nat, m: nat, s: nat)
    ensures var text := DurationText(h, m, s);
            && ('h' in text <==> h > 0) && ('m' in text <==> m > 0) && ('s' in text <==> s > 0 || (h == 0 && m == 0))
  {
    hide Decimal;
    forall n: nat ensures 'h' !in Decimal(n) && 'm' !in Decimal(n) && 's' !in Decimal(n) {
      NoUnit(n, 'h');
      NoUnit(n, 'm');
      NoUnit(n, 's');
    }
    assert "h"[0] == 'h' && "m"[0] == 'm' && "s"[0] == 's';
  }

  lemma DecimalZero()
    ensures DurationText(0, 0, 0) == "0s"
  {
  }
}
