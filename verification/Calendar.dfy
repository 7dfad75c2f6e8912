/**
 Instants as text. The Host turns unix seconds into RFC 3339 text with arithmetic on 400-year
 eras, written in two different ways, and checks text with two validators. The reference here
 is day counting: a date is as many days after 0000-01-01 as the lengths of the years and
 months before it add up to.
 */
module Calendar {
  import opened Text

  /** 0000-01-01T00:00:00Z and 10000-01-01T00:00:00Z in unix seconds. */
  const FirstAccepted := -62_167_219_200
  const EndAccepted := 253_402_300_800

  datatype Date = Date(year: int, month: int, day: int)
  datatype Instant = Instant(date: Date, hour: int, minute: int, second: int)
  datatype TimestampResult = Ok(text: string) | Blocked

  // ----- The calendar, by counting -----

  predicate Leap(year: int) {
    year % 4 == 0 && (year % 100 != 0 || year % 400 == 0)
  }

  /** The validators' table: 0 for a month that does not exist. */
  function MaximumDay(year: int, month: int): int {
    if month in {1, 3, 5, 7, 8, 10, 12} then 31
    else if month in {4, 6, 9, 11} then 30
    else if month == 2 then (if Leap(year) then 29 else 28)
    else 0
  }

  predicate ValidDate(d: Date) {
    0 <= d.year && 1 <= d.month <= 12 && 1 <= d.day <= MaximumDay(d.year, d.month)
  }

  predicate ValidInstant(i: Instant) {
    ValidDate(i.date) && 0 <= i.hour <= 23 && 0 <= i.minute <= 59 && 0 <= i.second <= 59
  }

  function DaysBeforeMonth(year: int, month: int): int
    requires 1 <= month
  {
    if month == 1 then 0 else DaysBeforeMonth(year, month - 1) + MaximumDay(year, month - 1)
  }

  function DaysBeforeYear(year: nat): int {
    if year == 0 then 0 else DaysBeforeYear(year - 1) + (if Leap(year - 1) then 366 else 365)
  }

  /** Days since 1970-01-01, by counting. */
  function DayNumber(d: Date): int
    requires 0 <= d.year && 1 <= d.month
  {
    DaysBeforeYear(d.year) + DaysBeforeMonth(d.year, d.month) + d.day - 1 - 719_528
  }

  function SecondsAt(days: int, hour: int, minute: int, second: int): int {
    days * 86_400 + hour * 3_600 + minute * 60 + second
  }

  function InstantSeconds(i: Instant): int
    requires 0 <= i.date.year && 1 <= i.date.month
  {
    SecondsAt(DayNumber(i.date), i.hour, i.minute, i.second)
  }

  // ----- The Host's arithmetic -----

  /** Rust's `/` on signed integers rounds toward zero. */
  function TruncatingDiv(a: int, b: int): int
    requires b > 0
  {
    if a >= 0 then a / b else -((-a) / b)
  }

  function YearOfEra(doe: int): int {
    (doe - doe / 1_460 + doe / 36_524 - doe / 146_096) / 365
  }

  /** The date at a day of a year that starts in March. */
  function MarchDate(year: int, doy: int): Date {
    var mp := (5 * doy + 2) / 153;
    var day := doy - (153 * mp + 2) / 5 + 1;
    var month := mp + if mp < 10 then 3 else -9;
    Date(year + (if month <= 2 then 1 else 0), month, day)
  }

  function CivilInEra(era: int, doe: int): Date {
    var yoe := YearOfEra(doe);
    MarchDate(yoe + era * 400, doe - (365 * yoe + yoe / 4 - yoe / 100))
  }

  /** The sync runtime rounds the era down. */
  function SyncCivil(days: int): Date {
    var z := days + 719_468;
    var era := z / 146_097;
    CivilInEra(era, z - era * 146_097)
  }

  /** The business runtime shifts negative day counts and lets the division truncate. */
  function BusinessCivil(days: int): Date {
    var z := days + 719_468;
    var era := TruncatingDiv(if z >= 0 then z else z - 146_096, 146_097);
    CivilInEra(era, z - era * 146_097)
  }

  /** Rust's `{:0width}` counts the sign in the width. */
  function SignedZeroFilled(n: int, width: nat): string
    requires width > 0
  {
    if n >= 0 then ZeroFilled(n, width) else "-" + ZeroFilled(-n, width - 1)
  }

  function Render(d: Date, hour: int, minute: int, second: int): string {
    SignedZeroFilled(d.year, 4) + "-" + SignedZeroFilled(d.month, 2) + "-" + SignedZeroFilled(d.day, 2)
    + "T" + SignedZeroFilled(hour, 2) + ":" + SignedZeroFilled(minute, 2) + ":" + SignedZeroFilled(second, 2) + "Z"
  }

  function SyncTimestamp(seconds: int): TimestampResult {
    if seconds < 0 then Blocked
    else
      var daySeconds := seconds % 86_400;
      Ok(Render(SyncCivil(seconds / 86_400),
                daySeconds / 3_600, (daySeconds / 60) % 60, daySeconds % 60))
  }

  function BusinessTimestamp(seconds: int): string {
    var daySeconds := seconds % 86_400;
    Render(BusinessCivil(seconds / 86_400),
           daySeconds / 3_600, (daySeconds % 3_600) / 60, daySeconds % 60)
  }

  // ----- The validators -----

  predicate FieldsAccepted(v: string)
    requires |v| == 20 && forall i :: 0 <= i < 20 && i !in {4, 7, 10, 13, 16, 19} ==> IsDigit(v[i])
  {
    var i := Decode(v);
    i.date.day != 0 && i.date.day <= MaximumDay(i.date.year, i.date.month)
    && i.hour <= 23 && i.minute <= 59 && i.second <= 59
  }

  /** The native cloud validator checks every position in one sweep. */
  predicate WireTimestamp(v: string) {
    |v| == 20
    && (forall i :: 0 <= i < 20 ==>
         (i in {4, 7} && v[i] == '-')
         || (i == 10 && v[i] == 'T')
         || (i in {13, 16} && v[i] == ':')
         || (i == 19 && v[i] == 'Z')
         || (i !in {4, 7, 10, 13, 16, 19} && IsDigit(v[i])))
    && FieldsAccepted(v)
  }

  /** The projection validator names the separators first. */
  predicate LocalTimestamp(v: string) {
    |v| == 20
    && v[4] == '-' && v[7] == '-' && v[10] == 'T' && v[13] == ':' && v[16] == ':' && v[19] == 'Z'
    && (forall i :: 0 <= i < 20 ==> i in {4, 7, 10, 13, 16, 19} || IsDigit(v[i]))
    && FieldsAccepted(v)
  }

  /** The calendar fields the validators read. */
  function Decode(v: string): Instant
    requires |v| == 20 && forall i :: 0 <= i < 20 && i !in {4, 7, 10, 13, 16, 19} ==> IsDigit(v[i])
  {
    Instant(Date(Number(v[0..4]), Number(v[5..7]), Number(v[8..10])),
            Number(v[11..13]), Number(v[14..16]), Number(v[17..19]))
  }

  /** The second an accepted text names, by counting days. */
  function AcceptedSeconds(v: string): int
    requires WireTimestamp(v)
  {
    InstantSeconds(Decode(v))
  }

  // ----- Era arithmetic agrees with day counting -----

  /** A quotient is the multiple that brackets the dividend. */
  lemma Quotient(a: int, b: int, q: int)
    requires 0 < b && b * q <= a < b * q + b
    ensures a / b == q && a % b == a - b * q
  {
    var d, m := a / b, a % b;
    assert a == b * d + m;
    SmallMultiple(b, d - q, (a - b * q) - m);
  }

  lemma SmallMultiple(b: int, d: int, e: int)
    requires -b < e < b && b * d == e
    ensures d == 0
  {}

  /** Days of an era before its March-based year y. */
  function EraDays(y: int): int {
    365 * y + y / 4 - y / 100
  }

  function Scaled(doe: int): int {
    doe - doe / 1_460 + doe / 36_524 - doe / 146_096
  }

  lemma ScaledMonotone(a: int, b: int)
    requires 0 <= a <= b < 146_097
    ensures Scaled(a) <= Scaled(b)
  {
    if b == 146_096 {
      Quotient(b, 1_460, 100);
      Quotient(b, 36_524, 4);
    }
  }

  /** At the first day of a year the guess is exact, and a day earlier it is too small. */
  lemma ScaledAtYearStart(y: int)
    requires 0 <= y < 400
    ensures Scaled(EraDays(y)) == 365 * y
    ensures 0 < y ==> 0 <= Scaled(EraDays(y) - 1) < 365 * y
  {
    var c, r := y / 100, y % 100;
    var p, t := r / 4, r % 4;
    Quotient(y, 4, 25 * c + p);
    var x := 36_524 * c + 1_461 * p + 365 * t;
    assert EraDays(y) == x;
    Quotient(x, 1_460, 25 * c + p);
    Quotient(x, 36_524, c);
    Quotient(x, 146_096, 0);
    if 0 < y {
      Quotient(x - 1, 1_460, 25 * c + p);
      Quotient(x - 1, 36_524, if r == 0 then c - 1 else c);
      Quotient(x - 1, 146_096, 0);
    }
  }

  lemma YearOfEraRange(doe: int)
    requires 0 <= doe < 146_097
    ensures 0 <= YearOfEra(doe) < 400
    ensures YearOfEra(doe) * 365 <= Scaled(doe) < YearOfEra(doe) * 365 + 365
  {
    ScaledMonotone(0, doe);
    ScaledMonotone(doe, 146_096);
  }

  /** The year-of-era guess is the year the day falls in. */
  lemma YearOfEraFrom(doe: int)
    requires 0 <= doe < 146_097
    ensures 0 <= YearOfEra(doe) < 400 && EraDays(YearOfEra(doe)) <= doe
  {
    var y := YearOfEra(doe);
    YearOfEraRange(doe);
    ScaledAtYearStart(y);
    if doe < EraDays(y) {
      ScaledMonotone(doe, EraDays(y) - 1);
    }
  }

  lemma EraDaysBound(y: int)
    requires 0 <= y < 400
    ensures 0 <= EraDays(y) < 146_096
  {}

  lemma YearOfEraUntil(doe: int, y: int)
    requires 0 <= doe < 146_097 && YearOfEra(doe) < y < 400
    ensures doe < EraDays(y)
  {
    YearOfEraRange(doe);
    ScaledAtYearStart(y);
    EraDaysBound(y);
    if EraDays(y) <= doe {
      ScaledMonotone(EraDays(y), doe);
    }
  }

  /** Rounding up steps exactly at multiples. */
  lemma CeilingStep(y: int, k: int)
    requires 1 < k
    ensures (y + k) / k - (y + k - 1) / k == if y % k == 0 then 1 else 0
  {
    var q, r := y / k, y % k;
    assert y == k * q + r;
    assert k * (q + 1) == k * q + k;
    Quotient(y + k, k, q + 1);
    Quotient(y + k - 1, k, if r == 0 then q else q + 1);
  }

  function LeapsBefore(year: int): int {
    (year + 3) / 4 - (year + 99) / 100 + (year + 399) / 400
  }

  lemma DivisorChain(y: int)
    ensures y % 400 == 0 ==> y % 100 == 0
    ensures y % 100 == 0 ==> y % 4 == 0
  {
    if y % 400 == 0 {
      Quotient(y, 100, 4 * (y / 400));
    }
    if y % 100 == 0 {
      Quotient(y, 4, 25 * (y / 100));
    }
  }

  lemma LeapsBeforeStep(year: int)
    ensures LeapsBefore(year + 1) - LeapsBefore(year) == if Leap(year) then 1 else 0
  {
    CeilingStep(year, 4);
    CeilingStep(year, 100);
    CeilingStep(year, 400);
    DivisorChain(year);
  }

  lemma {:induction false} DaysBeforeYearClosed(year: nat)
    ensures DaysBeforeYear(year) == 365 * year + LeapsBefore(year)
  {
    if year > 0 {
      DaysBeforeYearClosed(year - 1);
      LeapsBeforeStep(year - 1);
    }
  }

  lemma LeapsBeforeMarch(era: int, yoe: int)
    requires 0 <= yoe < 400
    ensures LeapsBefore(yoe + era * 400 + 1) == 97 * era + yoe / 4 - yoe / 100 + 1
  {
    var y := yoe + era * 400;
    Quotient(y + 4, 4, yoe / 4 + 1 + 100 * era);
    Quotient(y + 100, 100, yoe / 100 + 1 + 4 * era);
    Quotient(y + 400, 400, 1 + era);
  }

  /** From March on, month lengths follow one formula. */
  lemma DaysBeforeMonthTable(year: int, mp: int)
    requires 0 <= mp <= 10
    ensures DaysBeforeMonth(year, 2) == 31
    ensures DaysBeforeMonth(year, mp + 3) == 59 + (if Leap(year) then 1 else 0) + (153 * mp + 2) / 5
  {
    if mp == 0 {
      assert DaysBeforeMonth(year, 2) == DaysBeforeMonth(year, 1) + 31;
    } else {
      DaysBeforeMonthTable(year, mp - 1);
    }
  }

  lemma DayFitsMonth(doy: int, year: int)
    requires 0 <= doy <= 365 && (5 * doy + 2) / 153 < 10
    ensures var mp := (5 * doy + 2) / 153;
      0 <= mp && 1 <= doy - (153 * mp + 2) / 5 + 1 <= MaximumDay(year, mp + 3)
  {}

  lemma DayFitsWinter(doy: int, year: int)
    requires 0 <= doy <= (if Leap(year) then 365 else 364) && 10 <= (5 * doy + 2) / 153
    ensures var mp := (5 * doy + 2) / 153;
      mp <= 11 && 1 <= doy - (153 * mp + 2) / 5 + 1 <= MaximumDay(year, mp - 9)
  {}

  lemma LeapShift(y: int, era: int)
    ensures Leap(y + era * 400) == Leap(y)
  {
    Quotient(y + era * 400, 4, y / 4 + 100 * era);
    Quotient(y + era * 400, 100, y / 100 + 4 * era);
    Quotient(y + era * 400, 400, y / 400 + era);
  }

  /** The last day of a March-based year is 29 February exactly when the next year is leap. */
  lemma MarchYearLength(era: int, yoe: int, doe: int)
    requires 0 <= yoe < 400 && doe < 146_097 && (yoe < 399 ==> doe < EraDays(yoe + 1))
    ensures doe - EraDays(yoe) <= if Leap(yoe + era * 400 + 1) then 365 else 364
  {
    LeapShift(yoe + 1, era);
    DivisorChain(yoe + 1);
    CeilingStep(yoe - 3, 4);
    CeilingStep(yoe - 99, 100);
    Quotient(yoe + 1, 400, if yoe == 399 then 1 else 0);
    assert (yoe - 3) % 4 == (yoe + 1) % 4 && (yoe - 99) % 100 == (yoe + 1) % 100;
  }

  /** A March-based year, day of year and era, counted. */
  lemma MarchDateCounts(era: int, yoe: int, doy: int)
    requires 0 <= yoe < 400 && 0 <= doy <= 365
    requires doy <= if Leap(yoe + era * 400 + 1) then 365 else 364
    requires era * 146_097 + EraDays(yoe) + doy >= -60
    ensures var d := MarchDate(yoe + era * 400, doy);
      ValidDate(d) && DayNumber(d) == era * 146_097 + EraDays(yoe) + doy - 719_468
  {
    var mp := (5 * doy + 2) / 153;
    var y := yoe + era * 400;
    LeapsBeforeMarch(era, yoe);
    if mp < 10 {
      DayFitsMonth(doy, y);
      MarchYearNotNegative(era, yoe, doy);
      DaysBeforeMonthTable(y, mp);
      DaysBeforeYearClosed(y);
      LeapsBeforeStep(y);
    } else {
      DayFitsWinter(doy, y + 1);
      MarchYearAtLeast(era, yoe, doy);
      DaysBeforeMonthTable(y + 1, 0);
      DaysBeforeYearClosed(y + 1);
    }
  }

  lemma MarchYearAtLeast(era: int, yoe: int, doy: int)
    requires 0 <= yoe < 400 && 0 <= doy <= 365 && era * 146_097 + EraDays(yoe) + doy >= -60
    ensures yoe + era * 400 >= -1
  {
    assert EraDays(yoe) + doy < 2 * 146_097 - 60;
  }

  lemma MarchYearNotNegative(era: int, yoe: int, doy: int)
    requires 0 <= yoe < 400 && 0 <= doy && (5 * doy + 2) / 153 < 10 && era * 146_097 + EraDays(yoe) + doy >= -60
    ensures yoe + era * 400 >= 0
  {
    assert doy < 306;
    MarchYearAtLeast(era, yoe, doy);
  }

  lemma CivilInEraCounts(era: int, doe: int)
    requires 0 <= doe < 146_097 && era * 146_097 + doe >= -60
    ensures var d := CivilInEra(era, doe);
      ValidDate(d) && DayNumber(d) == era * 146_097 + doe - 719_468
  {
    var yoe := YearOfEra(doe);
    YearOfEraFrom(doe);
    if yoe < 399 {
      YearOfEraUntil(doe, yoe + 1);
    }
    MarchYearLength(era, yoe, doe);
    assert CivilInEra(era, doe) == MarchDate(yoe + era * 400, doe - EraDays(yoe));
    MarchDateCounts(era, yoe, doe - EraDays(yoe));
  }

  lemma ErasAgree(days: int)
    ensures SyncCivil(days) == BusinessCivil(days)
  {
    RoundedDown(days + 719_468);
  }

  lemma RoundedDown(z: int)
    ensures TruncatingDiv(if z >= 0 then z else z - 146_096, 146_097) == z / 146_097
  {
    if z < 0 {
      Quotient(-(z - 146_096), 146_097, -(z / 146_097));
    }
  }

  /** Every day from 0000-01-01 on becomes the date that counting reaches. */
  lemma CivilCounts(days: int)
    requires days >= -719_528
    ensures ValidDate(BusinessCivil(days)) && DayNumber(BusinessCivil(days)) == days
  {
    ErasAgree(days);
    var z := days + 719_468;
    var era := z / 146_097;
    CivilInEraCounts(era, z - era * 146_097);
  }

  // ----- Day counting is strictly monotone -----

  predicate DateBefore(a: Date, b: Date) {
    a.year < b.year || (a.year == b.year && (a.month < b.month || (a.month == b.month && a.day < b.day)))
  }

  lemma {:induction false} MonthsAdd(year: int, m: int, n: int)
    requires 1 <= m < n
    ensures DaysBeforeMonth(year, m) + MaximumDay(year, m) <= DaysBeforeMonth(year, n)
    decreases n
  {
    if m < n - 1 {
      MonthsAdd(year, m, n - 1);
    }
  }

  lemma {:induction false} YearsAdd(a: nat, b: nat)
    requires a < b
    ensures DaysBeforeYear(a) + DaysBeforeMonth(a, 13) <= DaysBeforeYear(b)
    decreases b
  {
    DaysBeforeMonthTable(a, 10);
    if a < b - 1 {
      YearsAdd(a, b - 1);
    }
  }

  lemma DayNumberMonotone(a: Date, b: Date)
    requires ValidDate(a) && ValidDate(b) && DateBefore(a, b)
    ensures DayNumber(a) < DayNumber(b)
  {
    if a.year < b.year {
      YearsAdd(a.year, b.year);
      MonthsAdd(a.year, a.month, 13);
      MonthsNonNegative(b.year, b.month);
    } else if a.month < b.month {
      MonthsAdd(a.year, a.month, b.month);
    }
  }

  lemma {:induction false} MonthsNonNegative(year: int, m: int)
    requires 1 <= m
    ensures DaysBeforeMonth(year, m) >= 0
  {
    if m > 1 {
      MonthsNonNegative(year, m - 1);
    }
  }

  /** The arithmetic inverts day counting on every date. */
  lemma CountsCivil(d: Date)
    requires ValidDate(d)
    ensures DayNumber(d) >= -719_528 && BusinessCivil(DayNumber(d)) == d
  {
    DaysBeforeYearClosed(d.year);
    MonthsNonNegative(d.year, d.month);
    var e := BusinessCivil(DayNumber(d));
    CivilCounts(DayNumber(d));
    if DateBefore(d, e) {
      DayNumberMonotone(d, e);
    } else if DateBefore(e, d) {
      DayNumberMonotone(e, d);
    }
  }

  // ----- Text -----

  function InstantOf(seconds: int): Instant {
    var daySeconds := seconds % 86_400;
    Instant(BusinessCivil(seconds / 86_400),
            daySeconds / 3_600, (daySeconds % 3_600) / 60, daySeconds % 60)
  }

  function RenderInstant(i: Instant): string {
    Render(i.date, i.hour, i.minute, i.second)
  }

  lemma MinuteOfDay(t: int)
    requires 0 <= t
    ensures (t / 60) % 60 == (t % 3_600) / 60
  {
    var h, r := t / 3_600, t % 3_600;
    Quotient(t, 60, 60 * h + r / 60);
    Quotient(t / 60, 60, h);
  }

  /** The two formatters give the same text wherever the sync runtime gives one. */
  lemma FormattersAgree(seconds: int)
    ensures SyncTimestamp(seconds) == if seconds < 0 then Blocked else Ok(BusinessTimestamp(seconds))
  {
    if seconds >= 0 {
      ErasAgree(seconds / 86_400);
      MinuteOfDay(seconds % 86_400);
    }
  }

  lemma ValidatorsAgree(v: string)
    ensures WireTimestamp(v) <==> LocalTimestamp(v)
  {
    if WireTimestamp(v) {
      assert v[4] == '-' && v[7] == '-' && v[10] == 'T' && v[13] == ':' && v[16] == ':' && v[19] == 'Z';
    }
  }

  lemma TimeOfDay(t: int)
    requires 0 <= t < 86_400
    ensures 0 <= t / 3_600 <= 23 && 0 <= (t % 3_600) / 60 <= 59 && 0 <= t % 60 <= 59
    ensures (t / 3_600) * 3_600 + ((t % 3_600) / 60) * 60 + t % 60 == t
  {
    Quotient(t, 60, 60 * (t / 3_600) + (t % 3_600) / 60);
  }

  /** The calendar fields of a second count back to it. */
  lemma InstantCounts(seconds: int)
    requires seconds >= FirstAccepted
    ensures ValidInstant(InstantOf(seconds)) && InstantSeconds(InstantOf(seconds)) == seconds
  {
    CivilCounts(seconds / 86_400);
    TimeOfDay(seconds % 86_400);
  }

  /** And every valid instant is the fields of the second it counts to. */
  lemma CountsInstant(i: Instant)
    requires ValidInstant(i)
    ensures InstantSeconds(i) >= FirstAccepted && InstantOf(InstantSeconds(i)) == i
  {
    CountsCivil(i.date);
    InstantOfFields(i.date, DayNumber(i.date), i.hour, i.minute, i.second);
  }

  lemma InstantOfFields(date: Date, days: int, h: int, m: int, s: int)
    requires 0 <= h <= 23 && 0 <= m <= 59 && 0 <= s <= 59 && BusinessCivil(days) == date
    ensures InstantOf(SecondsAt(days, h, m, s)) == Instant(date, h, m, s)
  {
    SecondsSplit(days, h * 3_600 + m * 60 + s);
    TimeOfDayFields(h, m, s);
  }

  lemma SecondsSplit(days: int, t: int)
    requires 0 <= t < 86_400
    ensures (days * 86_400 + t) / 86_400 == days && (days * 86_400 + t) % 86_400 == t
  {
    Quotient(days * 86_400 + t, 86_400, days);
  }

  lemma TimeOfDayFields(h: int, m: int, s: int)
    requires 0 <= h <= 23 && 0 <= m <= 59 && 0 <= s <= 59
    ensures var t := h * 3_600 + m * 60 + s; t / 3_600 == h && (t % 3_600) / 60 == m && t % 60 == s
  {
    var t := h * 3_600 + m * 60 + s;
    Quotient(t, 3_600, h);
    Quotient(t - 3_600 * h, 60, m);
    Quotient(t, 60, 60 * h + m);
  }

  /** The year has four digits exactly before the year 10000. */
  lemma YearSpan(seconds: int)
    requires seconds >= FirstAccepted
    ensures InstantOf(seconds).date.year <= 9_999 <==> seconds < EndAccepted
  {
    var days := seconds / 86_400;
    CivilCounts(days);
    var d, e := BusinessCivil(days), Date(10_000, 1, 1);
    DaysBeforeYearClosed(10_000);
    assert DayNumber(e) == 2_932_897;
    if d.year <= 9_999 {
      DayNumberMonotone(d, e);
    } else if d != e {
      DayNumberMonotone(e, d);
    }
  }

  lemma Powers()
    ensures Pow10(2) == 100 && Pow10(4) == 10_000
  {
    assert Pow10(3) == 10 * Pow10(2);
  }

  function Joined(y: string, mo: string, d: string, h: string, mi: string, s: string): string {
    y + "-" + mo + "-" + d + "T" + h + ":" + mi + ":" + s + "Z"
  }

  lemma RenderFixed(i: Instant)
    requires ValidInstant(i) && i.date.year <= 9_999
    ensures RenderInstant(i) == Joined(Fixed(i.date.year, 4), Fixed(i.date.month, 2), Fixed(i.date.day, 2),
                                       Fixed(i.hour, 2), Fixed(i.minute, 2), Fixed(i.second, 2))
  {
    Powers();
  }

  /** Joining six runs of digits and slicing at the validators' positions undo each other. */
  lemma JoinedSlices(y: string, mo: string, d: string, h: string, mi: string, s: string)
    requires |y| == 4 && |mo| == |d| == |h| == |mi| == |s| == 2
    requires AllDigits(y) && AllDigits(mo) && AllDigits(d) && AllDigits(h) && AllDigits(mi) && AllDigits(s)
    ensures var v := Joined(y, mo, d, h, mi, s);
      |v| == 20 && v[0..4] == y && v[5..7] == mo && v[8..10] == d && v[11..13] == h && v[14..16] == mi && v[17..19] == s
      && v[4] == '-' && v[7] == '-' && v[10] == 'T' && v[13] == ':' && v[16] == ':' && v[19] == 'Z'
      && (forall k :: 0 <= k < 20 && k !in {4, 7, 10, 13, 16, 19} ==> IsDigit(v[k]))
  {
    var v := Joined(y, mo, d, h, mi, s);
    assert v[0..4] == y && v[5..7] == mo && v[8..10] == d && v[11..13] == h && v[14..16] == mi && v[17..19] == s;
    forall k | 0 <= k < 20 && k !in {4, 7, 10, 13, 16, 19}
      ensures IsDigit(v[k])
    {
      assert k < 4 ==> v[k] == y[k];
      assert 5 <= k < 7 ==> v[k] == mo[k - 5];
      assert 8 <= k < 10 ==> v[k] == d[k - 8];
      assert 11 <= k < 13 ==> v[k] == h[k - 11];
      assert 14 <= k < 16 ==> v[k] == mi[k - 14];
      assert 17 <= k < 19 ==> v[k] == s[k - 17];
    }
  }

  lemma RenderAccepted(i: Instant)
    requires ValidInstant(i) && i.date.year <= 9_999
    ensures LocalTimestamp(RenderInstant(i))
    ensures Decode(RenderInstant(i)) == i
  {
    RenderFixed(i);
    Powers();
    NumberOfFixed(i.date.year, 4);
    NumberOfFixed(i.date.month, 2);
    NumberOfFixed(i.date.day, 2);
    NumberOfFixed(i.hour, 2);
    NumberOfFixed(i.minute, 2);
    NumberOfFixed(i.second, 2);
    JoinedSlices(Fixed(i.date.year, 4), Fixed(i.date.month, 2), Fixed(i.date.day, 2),
                 Fixed(i.hour, 2), Fixed(i.minute, 2), Fixed(i.second, 2));
  }

  /**
   For every number of seconds, the text is accepted exactly inside the span of four-digit
   years; there it has 20 characters and its calendar fields count back to the same second.
   */
  lemma AcceptedExactlyInSpan(seconds: int)
    ensures WireTimestamp(BusinessTimestamp(seconds)) <==> FirstAccepted <= seconds < EndAccepted
    ensures FirstAccepted <= seconds < EndAccepted ==>
              |BusinessTimestamp(seconds)| == 20 && AcceptedSeconds(BusinessTimestamp(seconds)) == seconds
  {
    if seconds < FirstAccepted {
      NegativeYear(seconds / 86_400);
      SignRejected(seconds);
    } else if seconds < EndAccepted {
      SpanAccepted(seconds);
    } else {
      YearSpan(seconds);
      InstantCounts(seconds);
      LongYear(InstantOf(seconds));
    }
  }

  lemma SpanAccepted(seconds: int)
    requires FirstAccepted <= seconds < EndAccepted
    ensures WireTimestamp(BusinessTimestamp(seconds)) && |BusinessTimestamp(seconds)| == 20
    ensures AcceptedSeconds(BusinessTimestamp(seconds)) == seconds
  {
    YearSpan(seconds);
    InstantCounts(seconds);
    RenderAccepted(InstantOf(seconds));
    ValidatorsAgree(RenderInstant(InstantOf(seconds)));
  }

  lemma SignRejected(seconds: int)
    requires InstantOf(seconds).date.year < 0
    ensures !WireTimestamp(BusinessTimestamp(seconds))
  {
    var i := InstantOf(seconds);
    var v := RenderInstant(i);
    assert v[0] == SignedZeroFilled(i.date.year, 4)[0] == '-';
    assert BusinessTimestamp(seconds) == v;
  }

  lemma LongYear(i: Instant)
    requires ValidInstant(i) && i.date.year > 9_999
    ensures |RenderInstant(i)| > 20
  {
    Powers();
    DecimalLength(i.date.year, 4);
  }

  lemma NegativeYear(days: int)
    requires days < -719_528
    ensures BusinessCivil(days).year < 0
  {
    ErasAgree(days);
    var z := days + 719_468;
    var era := z / 146_097;
    var doe := z - era * 146_097;
    YearOfEraFrom(doe);
    if era == -1 && YearOfEra(doe) == 399 {
      WinterMonth(doe - EraDays(399));
    }
  }

  /** Before 1 January the month is not January or February. */
  lemma WinterMonth(doy: int)
    requires 0 <= doy < 306
    ensures (5 * doy + 2) / 153 < 10
  {}

  /** The validators accept nothing but formatter output, and decoding it finds the second. */
  lemma AcceptedIsRendered(v: string)
    requires WireTimestamp(v)
    ensures FirstAccepted <= AcceptedSeconds(v) < EndAccepted && BusinessTimestamp(AcceptedSeconds(v)) == v
  {
    ValidatorsAgree(v);
    var i := Decode(v);
    DecodedRenders(v);
    CountsInstant(i);
    YearSpan(InstantSeconds(i));
    assert BusinessTimestamp(InstantSeconds(i)) == RenderInstant(i);
  }

  lemma DecodedRenders(v: string)
    requires LocalTimestamp(v)
    ensures var i := Decode(v);
      ValidInstant(i) && i.date.year <= 9_999 && RenderInstant(i) == v
  {
    MonthInTable(Decode(v).date);
    FixedOfNumber(v[0..4]);
    Powers();
    DigitsRender(v[0..4], v[5..7], v[8..10], v[11..13], v[14..16], v[17..19]);
    SlicesJoined(v);
  }

  /** Runs of digits that name a valid instant are what rendering it prints. */
  lemma DigitsRender(y: string, mo: string, d: string, h: string, mi: string, s: string)
    requires |y| == 4 && |mo| == |d| == |h| == |mi| == |s| == 2
    requires AllDigits(y) && AllDigits(mo) && AllDigits(d) && AllDigits(h) && AllDigits(mi) && AllDigits(s)
    requires ValidInstant(Instant(Date(Number(y), Number(mo), Number(d)), Number(h), Number(mi), Number(s)))
    ensures RenderInstant(Instant(Date(Number(y), Number(mo), Number(d)), Number(h), Number(mi), Number(s)))
         == Joined(y, mo, d, h, mi, s)
  {
    FixedOfNumber(y);
    FixedOfNumber(mo);
    FixedOfNumber(d);
    FixedOfNumber(h);
    FixedOfNumber(mi);
    FixedOfNumber(s);
  }

  /** The table gives no days to a month outside the year, so a day in it fixes the month. */
  lemma MonthInTable(d: Date)
    requires 1 <= d.day <= MaximumDay(d.year, d.month)
    ensures 1 <= d.month <= 12
  {}

  lemma SlicesJoined(v: string)
    requires |v| == 20 && v[4] == '-' && v[7] == '-' && v[10] == 'T' && v[13] == ':' && v[16] == ':' && v[19] == 'Z'
    ensures v == Joined(v[0..4], v[5..7], v[8..10], v[11..13], v[14..16], v[17..19])
  {}

  /** Byte order on accepted text is order in time. */
  lemma OrderIsTime(s: int, t: int)
    requires FirstAccepted <= s < EndAccepted && FirstAccepted <= t < EndAccepted
    ensures Less(BusinessTimestamp(s), BusinessTimestamp(t)) <==> s < t
  {
    if s < t {
      EarlierIsLess(s, t);
    } else if t < s {
      EarlierIsLess(t, s);
      if Less(BusinessTimestamp(s), BusinessTimestamp(t)) {
        LessTransitive(BusinessTimestamp(s), BusinessTimestamp(t), BusinessTimestamp(s));
        LessIrreflexive(BusinessTimestamp(s));
      }
    } else {
      LessIrreflexive(BusinessTimestamp(s));
    }
  }

  lemma EarlierIsLess(s: int, t: int)
    requires FirstAccepted <= s < t < EndAccepted
    ensures Less(BusinessTimestamp(s), BusinessTimestamp(t))
  {
    var i, j := InstantOf(s), InstantOf(t);
    InstantCounts(s);
    InstantCounts(t);
    YearSpan(s);
    YearSpan(t);
    if DateBefore(j.date, i.date) {
      DayNumberMonotone(j.date, i.date);
      assert false;
    }
    RenderedFieldsOrder(i, j);
    assert BusinessTimestamp(s) == RenderInstant(i) && BusinessTimestamp(t) == RenderInstant(j);
  }

  /** Text order follows the first calendar field that differs. */
  lemma RenderedFieldsOrder(i: Instant, j: Instant)
    requires ValidInstant(i) && ValidInstant(j) && i.date.year <= 9_999 && j.date.year <= 9_999
    requires DateBefore(i.date, j.date)
             || (i.date == j.date && (i.hour < j.hour || (i.hour == j.hour && (i.minute < j.minute
                 || (i.minute == j.minute && i.second < j.second)))))
    ensures Less(RenderInstant(i), RenderInstant(j))
  {
    var v, w := RenderInstant(i), RenderInstant(j);
    Powers();
    RenderFixed(i);
    RenderFixed(j);
    JoinedSlices(Fixed(i.date.year, 4), Fixed(i.date.month, 2), Fixed(i.date.day, 2),
                 Fixed(i.hour, 2), Fixed(i.minute, 2), Fixed(i.second, 2));
    JoinedSlices(Fixed(j.date.year, 4), Fixed(j.date.month, 2), Fixed(j.date.day, 2),
                 Fixed(j.hour, 2), Fixed(j.minute, 2), Fixed(j.second, 2));
    if i.date.year < j.date.year {
      FixedLess(i.date.year, j.date.year, 4);
      FieldLess(v, w, 0, 4);
    } else if i.date.month < j.date.month {
      FixedLess(i.date.month, j.date.month, 2);
      SamePrefix(v, w, 0, 4, 5);
      FieldLess(v, w, 5, 7);
    } else if i.date.day < j.date.day {
      FixedLess(i.date.day, j.date.day, 2);
      SamePrefix(v, w, 0, 4, 5);
      SamePrefix(v, w, 5, 7, 8);
      FieldLess(v, w, 8, 10);
    } else if i.hour < j.hour {
      FixedLess(i.hour, j.hour, 2);
      SamePrefix(v, w, 0, 4, 5);
      SamePrefix(v, w, 5, 7, 8);
      SamePrefix(v, w, 8, 10, 11);
      FieldLess(v, w, 11, 13);
    } else if i.minute < j.minute {
      FixedLess(i.minute, j.minute, 2);
      SamePrefix(v, w, 0, 4, 5);
      SamePrefix(v, w, 5, 7, 8);
      SamePrefix(v, w, 8, 10, 11);
      SamePrefix(v, w, 11, 13, 14);
      FieldLess(v, w, 14, 16);
    } else {
      FixedLess(i.second, j.second, 2);
      SamePrefix(v, w, 0, 4, 5);
      SamePrefix(v, w, 5, 7, 8);
      SamePrefix(v, w, 8, 10, 11);
      SamePrefix(v, w, 11, 13, 14);
      SamePrefix(v, w, 14, 16, 17);
      FieldLess(v, w, 17, 19);
    }
  }

  /** One more equal field and the separator after it. */
  lemma SamePrefix(v: string, w: string, from: nat, to: nat, next: nat)
    requires |v| == |w| && from <= to && next == to + 1 <= |v|
    requires v[..from] == w[..from] && v[from..to] == w[from..to] && v[to] == w[to]
    ensures v[..next] == w[..next]
  {
    assert v[..next] == v[..from] + v[from..to] + [v[to]] && w[..next] == w[..from] + w[from..to] + [w[to]];
  }

  /** Two texts that first differ inside one field are ordered by that field. */
  lemma FieldLess(v: string, w: string, from: nat, to: nat)
    requires |v| == |w| && from <= to <= |v|
    requires v[..from] == w[..from] && Less(v[from..to], w[from..to])
    ensures Less(v, w)
  {
    LessExtend(v[..from], v[from..to], w[from..to], v[to..], w[to..]);
    Cut(v, from, to);
    Cut(w, from, to);
  }

  lemma Cut(v: string, from: nat, to: nat)
    requires from <= to <= |v|
    ensures v[..from] + v[from..to] + v[to..] == v
  {
  }
}
