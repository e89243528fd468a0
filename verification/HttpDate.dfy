/** The day count behind the HTTP-date form of `Retry-After` (IMF-fixdate, section 7.1.1.1 of
    RFC 7231), against the calendar it stands for. */
module HttpDate {
  import opened Arithmetic
  import opened ByteStore
  import opened Text

  // ---- The proleptic Gregorian calendar ----

  predicate IsLeap(year: nat) {
    year % 4 == 0 && (year % 100 != 0 || year % 400 == 0)
  }

  function YearLength(year: nat): nat {
    if IsLeap(year) then 366 else 365
  }

  function MonthLength(year: nat, month: nat): nat {
    if month == 2 then (if IsLeap(year) then 29 else 28)
    else if month == 4 || month == 6 || month == 9 || month == 11 then 30
    else 31
  }

  datatype Date = Date(year: nat, month: nat, day: nat)

  predicate Valid(d: Date) {
    1 <= d.month <= 12 && 1 <= d.day <= MonthLength(d.year, d.month)
  }

  function Next(d: Date): (n: Date)
    requires Valid(d)
    ensures Valid(n)
  {
    if d.day < MonthLength(d.year, d.month) then d.(day := d.day + 1)
    else if d.month < 12 then Date(d.year, d.month + 1, 1)
    else Date(d.year + 1, 1, 1)
  }

  predicate Before(a: Date, b: Date) {
    a.year < b.year || (a.year == b.year && (a.month < b.month || (a.month == b.month && a.day < b.day)))
  }

  /** Days from the first of January of year 0 to the first of January of `year`. */
  function DaysToYear(year: nat): nat {
    if year == 0 then 0 else DaysToYear(year - 1) + YearLength(year - 1)
  }

  function DaysToMonth(year: nat, month: nat): nat {
    if month <= 1 then 0 else DaysToMonth(year, month - 1) + MonthLength(year, month - 1)
  }

  function DayNumber(d: Date): int {
    DaysToYear(d.year) + DaysToMonth(d.year, d.month) + d.day - 1
  }

  const EPOCH: Date := Date(1970, 1, 1)

  // ---- The algorithm ----

  /** Integer division as the source's signed integers do it: towards zero. */
  function TruncDiv(a: int, b: int): int
    requires b > 0
  {
    if a >= 0 then a / b else -((-a) / b)
  }

  function DaysFromEpoch(year: nat, month: nat, day: nat): int {
    var y := if month <= 2 then year - 1 else year;
    var m := if month <= 2 then month + 9 else month - 3;
    var era := TruncDiv(if y >= 0 then y else y - 399, 400);
    var yoe := y - era * 400;
    var doy := TruncDiv(153 * m + 2, 5) + day - 1;
    var doe := yoe * 365 + TruncDiv(yoe, 4) - TruncDiv(yoe, 100) + doy;
    era * 146097 + doe - 719468
  }

  // ---- They agree ----

  /** How many multiples of `m` lie below `year`. */
  function MultiplesBelow(year: nat, m: nat): nat
    requires m > 0
  {
    (year + (m - 1)) / m
  }

  lemma {:induction false} OneMore(y: nat, m: nat)
    requires m > 0
    ensures MultiplesBelow(y + 1, m) == MultiplesBelow(y, m) + if y % m == 0 then 1 else 0
  {
    var q, r := y / m, y % m;
    assert y == q * m + r;
    assert (q + 1) * m == q * m + m;
    DivModUnique(y + m, m, q + 1, r);
    if r == 0 {
      DivModUnique(y + (m - 1), m, q, m - 1);
    } else {
      DivModUnique(y + (m - 1), m, q + 1, r - 1);
    }
  }

  /** The leap rule, summed up. */
  lemma {:induction false} DaysToYearSum(year: nat)
    ensures DaysToYear(year)
         == 365 * year + MultiplesBelow(year, 4) - MultiplesBelow(year, 100) + MultiplesBelow(year, 400)
  {
    if year == 0 {
    } else {
      hide MultiplesBelow;
      var y := year - 1;
      DaysToYearSum(y);
      OneMore(y, 4);
      OneMore(y, 100);
      OneMore(y, 400);
      YearsLeap(y);
    }
  }

  lemma {:induction false} YearsLeap(y: nat)
    ensures YearLength(y) == 365 + (if y % 4 == 0 then 1 else 0) - (if y % 100 == 0 then 1 else 0)
                                 + (if y % 400 == 0 then 1 else 0)
  {
    if y % 400 == 0 {
      MultipleOf(y, 100, 4, 400);
    }
    if y % 100 == 0 {
      MultipleOf(y, 4, 25, 100);
    }
  }

  lemma {:induction false} MultipleOf(y: nat, m: nat, k: nat, n: nat)
    requires m > 0 && n > 0 && n == m * k && y % n == 0
    ensures y % m == 0
  {
    var q := y / n;
    assert y == q * n;
    assert q * (m * k) == q * k * m;
    DivModUnique(y, m, q * k, 0);
  }

  /** The months from March on follow `(153 m + 2) / 5`; January and February come after them. */
  lemma DaysToMonthSum(year: nat, month: nat)
    requires 1 <= month <= 12
    ensures month <= 2 ==> DaysToMonth(year, month) == (153 * (month + 9) + 2) / 5 - 306
    ensures month > 2 ==>
              DaysToMonth(year, month) == (153 * (month - 3) + 2) / 5 + 59 + (if IsLeap(year) then 1 else 0)
  {
    MonthTable(year);
  }

  lemma MonthTable(year: nat)
    ensures var leap := if IsLeap(year) then 1 else 0;
            && DaysToMonth(year, 1) == 0 && DaysToMonth(year, 2) == 31
            && DaysToMonth(year, 3) == 59 + leap && DaysToMonth(year, 4) == 90 + leap
            && DaysToMonth(year, 5) == 120 + leap && DaysToMonth(year, 6) == 151 + leap
            && DaysToMonth(year, 7) == 181 + leap && DaysToMonth(year, 8) == 212 + leap
            && DaysToMonth(year, 9) == 243 + leap && DaysToMonth(year, 10) == 273 + leap
            && DaysToMonth(year, 11) == 304 + leap && DaysToMonth(year, 12) == 334 + leap
  {
    assert DaysToMonth(year, 3) == DaysToMonth(year, 2) + MonthLength(year, 2);
    assert DaysToMonth(year, 6) == DaysToMonth(year, 5) + MonthLength(year, 5);
    assert DaysToMonth(year, 9) == DaysToMonth(year, 8) + MonthLength(year, 8);
  }

  /** Days up to the first of March, by the leap rule of the years before it. */
  function MarchDays(y: int): int {
    365 * y + y / 4 - y / 100 + y / 400
  }

  lemma {:induction false} BeforeMarch(year: nat)
    ensures DaysToYear(year) == MarchDays(year - 1) + 366
  {
    DaysToYearSum(year);
  }

  lemma {:induction false} FromMarch(year: nat)
    ensures DaysToYear(year) + (if IsLeap(year) then 1 else 0) == MarchDays(year) + 1
  {
    BeforeMarch(year + 1);
  }

  /** The era arithmetic is that leap rule, for every year from the one before year 0 on. */
  lemma EraSum(y: int)
    requires y >= -1
    ensures var era := TruncDiv(if y >= 0 then y else y - 399, 400);
            var yoe := y - era * 400;
            0 <= yoe < 400 && era * 146097 + yoe * 365 + yoe / 4 - yoe / 100 == MarchDays(y)
  {
    if y >= 0 {
      var era := y / 400;
      var yoe := y % 400;
      assert y == 400 * era + yoe;
      assert y / 4 == 100 * era + yoe / 4;
      assert y / 100 == 4 * era + yoe / 100;
    }
  }

  lemma {:induction false} AlgorithmSum(year: nat, month: nat, day: nat)
    requires 1 <= month <= 12
    ensures month <= 2 ==>
              DaysFromEpoch(year, month, day) == MarchDays(year - 1) + (153 * (month + 9) + 2) / 5 + day - 1 - 719468
    ensures month > 2 ==>
              DaysFromEpoch(year, month, day) == MarchDays(year) + (153 * (month - 3) + 2) / 5 + day - 1 - 719468
  {
    hide MarchDays;
    EraSum(if month <= 2 then year - 1 else year);
  }

  lemma EpochNumber(epoch: Date)
    requires epoch == EPOCH
    ensures DayNumber(epoch) == 719528
  {
    hide DaysToYear;
    DaysToYearSum(epoch.year);
  }

  /** For every month of every year from year 0 on, and any day counted from its first, the algorithm
      counts the days of the calendar from the epoch. */
  lemma CountsTheCalendar(year: nat, month: nat, day: nat, epoch: Date)
    requires 1 <= month <= 12 && epoch == EPOCH
    ensures DaysFromEpoch(year, month, day) == DayNumber(Date(year, month, day)) - DayNumber(epoch)
  {
    hide DaysToYear, DaysToMonth, MarchDays, DaysFromEpoch;
    EpochNumber(epoch);
    AlgorithmSum(year, month, day);
    DaysToMonthSum(year, month);
    if month > 2 {
      FromMarch(year);
    } else {
      BeforeMarch(year);
    }
  }

  /** Zero at the epoch, and one more for each next day, whatever month, leap year or era it crosses. */
  lemma {:induction false} NextDayIsOneMore(d: Date, epoch: Date)
    requires Valid(d) && epoch == EPOCH
    ensures DaysFromEpoch(epoch.year, epoch.month, epoch.day) == 0
    ensures var n := Next(d); DaysFromEpoch(n.year, n.month, n.day) == DaysFromEpoch(d.year, d.month, d.day) + 1
  {
    hide DaysToYear, DaysFromEpoch;
    CountsTheCalendar(epoch.year, epoch.month, epoch.day, epoch);
    CountsTheCalendar(d.year, d.month, d.day, epoch);
    CountsTheCalendar(Next(d).year, Next(d).month, Next(d).day, epoch);
    YearIsItsMonths(d.year);
    YearGrows(d.year);
  }

  lemma YearIsItsMonths(year: nat)
    ensures DaysToMonth(year, 12) + MonthLength(year, 12) == YearLength(year)
  {
    MonthTable(year);
  }

  lemma YearGrows(year: nat)
    ensures DaysToYear(year + 1) == DaysToYear(year) + YearLength(year)
  {
  }

  lemma {:induction false} MonthsGrow(year: nat, a: nat, b: nat)
    requires 1 <= a < b <= 12
    ensures DaysToMonth(year, a) + MonthLength(year, a) <= DaysToMonth(year, b)
    decreases b
  {
    if a < b - 1 {
      MonthsGrow(year, a, b - 1);
    }
  }

  lemma {:induction false} YearsGrow(a: nat, b: nat)
    requires a < b
    ensures DaysToYear(a) + YearLength(a) <= DaysToYear(b)
    decreases b
  {
    if a < b - 1 {
      YearsGrow(a, b - 1);
    }
  }

  /** Earlier dates get smaller numbers, so no two dates share one. */
  lemma {:induction false} OrderIsKept(a: Date, b: Date)
    requires Valid(a) && Valid(b)
    ensures Before(a, b) <==> DaysFromEpoch(a.year, a.month, a.day) < DaysFromEpoch(b.year, b.month, b.day)
  {
    CountsTheCalendar(a.year, a.month, a.day, EPOCH);
    CountsTheCalendar(b.year, b.month, b.day, EPOCH);
    if Before(a, b) {
      Earlier(a, b);
    } else if Before(b, a) {
      Earlier(b, a);
    } else {
      assert a == b;
    }
  }

  lemma Earlier(a: Date, b: Date)
    requires Valid(a) && Valid(b) && Before(a, b)
    ensures DayNumber(a) < DayNumber(b)
  {
    hide DaysToYear, DaysToMonth;
    InsideYear(a);
    if a.year < b.year {
      YearsGrow(a.year, b.year);
    } else if a.month < b.month {
      MonthsGrow(a.year, a.month, b.month);
    }
  }

  lemma InsideYear(a: Date)
    requires Valid(a)
    ensures DaysToMonth(a.year, a.month) + a.day <= YearLength(a.year)
  {
    YearIsItsMonths(a.year);
    if a.month < 12 {
      MonthsGrow(a.year, a.month, 12);
    }
  }

  /** Every day from the first of January of year 0 on is the number of exactly one date. */
  lemma {:induction false} EveryDayHasOneDate(n: nat) returns (d: Date)
    ensures Valid(d) && DayNumber(d) == n
    ensures forall e | Valid(e) && DayNumber(e) == n :: e == d
  {
    if n == 0 {
      d := Date(0, 1, 1);
    } else {
      var c := EveryDayHasOneDate(n - 1);
      d := Next(c);
      CountsTheCalendar(c.year, c.month, c.day, EPOCH);
      CountsTheCalendar(d.year, d.month, d.day, EPOCH);
      NextDayIsOneMore(c, EPOCH);
    }
    forall e | Valid(e) && DayNumber(e) == n
      ensures e == d
    {
      if Before(e, d) {
        Earlier(e, d);
      } else if Before(d, e) {
        Earlier(d, e);
      }
    }
  }

  // ---- Seconds to wait ----

  /** The seconds from the epoch to a date and time, before it as well as after. */
  function Seconds(d: Date, hour: nat, minute: nat, second: nat): int {
    DaysFromEpoch(d.year, d.month, d.day) * 86400 + hour * 3600 + minute * 60 + second
  }

  /** What the source computes: the day count is cast to 64 unsigned bits, and sums and products wrap. */
  function RetryAfterSecs(d: Date, hour: nat, minute: nat, second: nat, now: nat): nat {
    var days := DaysFromEpoch(d.year, d.month, d.day) % TWO_64;
    var target := (((days * 86400 % TWO_64 + hour * 3600 % TWO_64) % TWO_64 + minute * 60 % TWO_64) % TWO_64 + second)
                  % TWO_64;
    if target > now then target - now else 0
  }

  /** What its documentation promises: the seconds still to wait, and none for a date in the past. */
  function Promised(target: int, now: nat): nat {
    if target > now then target - now else 0
  }

  lemma WrapOnce(days: int, b: nat, c: nat, e: nat)
    ensures (((days % TWO_64 * 86400 % TWO_64 + b % TWO_64) % TWO_64 + c % TWO_64) % TWO_64 + e) % TWO_64
         == (days * 86400 + b + c + e) % TWO_64
  {
    var x := days % TWO_64;
    ModMul(days, 86400);
    ModAdd(x * 86400, b);
    ModAdd(days * 86400, b);
    ModAdd(days * 86400 + b, c);
    ModAdd(days * 86400 + b + c, e);
  }

  predicate Fields(d: Date, hour: nat, minute: nat, second: nat) {
    && d.year < TWO_32 && 1 <= d.month <= 12 && d.day < TWO_32
    && hour < TWO_32 && minute < TWO_32 && second < TWO_32
  }

  /** A 32-bit date is at most 719529 days before the epoch, and far from overflowing 64 bits. */
  lemma SecondsInRange(d: Date, hour: nat, minute: nat, second: nat)
    requires Fields(d, hour, minute, second)
    ensures -719529 * 86400 <= Seconds(d, hour, minute, second) < TWO_64
  {
    hide MarchDays, DaysFromEpoch;
    AlgorithmSum(d.year, d.month, d.day);
    MarchRange(if d.month <= 2 then d.year - 1 else d.year);
  }

  lemma MarchRange(y: int)
    requires -1 <= y < TWO_32
    ensures (if y < 0 then -366 else 0) <= MarchDays(y) <= 400 * (y + 1)
  {
  }

  /** The wait is the promised one exactly for dates not before 1970: for an earlier one the cast
      makes the target a huge number. The clock would have to stand near the end of 64 bits to hide it. */
  lemma {:induction false} WaitIsPromisedIff(d: Date, hour: nat, minute: nat, second: nat, now: nat)
    requires Fields(d, hour, minute, second) && now < TWO_64
    ensures var target := Seconds(d, hour, minute, second);
            RetryAfterSecs(d, hour, minute, second, now) == Promised(target, now)
            <==> target >= 0 || now >= TWO_64 + target
  {
    hide DaysFromEpoch;
    SecondsInRange(d, hour, minute, second);
    Wrapped(d, hour, minute, second, now);
  }

  lemma {:induction false} Wrapped(d: Date, hour: nat, minute: nat, second: nat, now: nat)
    requires -(TWO_64 as int) <= Seconds(d, hour, minute, second) < TWO_64
    ensures var target := Seconds(d, hour, minute, second);
            RetryAfterSecs(d, hour, minute, second, now) == Promised(if target < 0 then target + TWO_64 else target, now)
  {
    hide DaysFromEpoch;
    WrapOnce(DaysFromEpoch(d.year, d.month, d.day), hour * 3600, minute * 60, second);
    SmallWrap(Seconds(d, hour, minute, second));
  }

  lemma SmallWrap(t: int)
    requires -(TWO_64 as int) <= t < TWO_64
    ensures t % TWO_64 == if t < 0 then t + TWO_64 else t
  {
  }

  /** One second before 1970 asks, at any time, for the rest of the 64-bit seconds. */
  lemma {:induction false} WaitBeforeTheEpoch(d: Date, now: nat)
    requires d == Date(1969, 12, 31) && now < TWO_64
    ensures Promised(Seconds(d, 23, 59, 59), now) == 0
    ensures RetryAfterSecs(d, 23, 59, 59, now) == TWO_64 - 1 - now
  {
    hide DaysFromEpoch, DaysToYear;
    NextDayIsOneMore(d, EPOCH);
    assert Next(d) == EPOCH;
    Wrapped(d, 23, 59, 59, now);
  }

  // ---- The text of a date ----

  function MonthNum(name: string): Option<nat> {
    match name
    case "Jan" => Some(1)
    case "Feb" => Some(2)
    case "Mar" => Some(3)
    case "Apr" => Some(4)
    case "May" => Some(5)
    case "Jun" => Some(6)
    case "Jul" => Some(7)
    case "Aug" => Some(8)
    case "Sep" => Some(9)
    case "Oct" => Some(10)
    case "Nov" => Some(11)
    case "Dec" => Some(12)
    case _ => None
  }

  /** The month names of IMF-fixdate. */
  const MONTHS: seq<string> := ["Jan", "Feb", "Mar", "Apr", "May", "Jun", "Jul", "Aug", "Sep", "Oct", "Nov", "Dec"]

  datatype Stamp = Stamp(date: Date, hour: nat, minute: nat, second: nat)

  function ParseTime(text: string): Option<(nat, nat, nat)> {
    var parts := Split(text, ':');
    if |parts| != 3 then None
    else
      var h, m, s := ParseUnsigned(parts[0], TWO_32), ParseUnsigned(parts[1], TWO_32), ParseUnsigned(parts[2], TWO_32);
      if h.Number? && m.Number? && s.Number? then Some((h.value, m.value, s.value)) else None
  }

  /** The weekday and the zone are not looked at, and neither days nor hours are checked for range. */
  function ParseHttpDate(text: string): Option<Stamp> {
    var parts := Tokens(text);
    if |parts| < 6 then None
    else
      var day, month, year := ParseUnsigned(parts[1], TWO_32), MonthNum(parts[2]), ParseUnsigned(parts[3], TWO_32);
      var time := ParseTime(parts[4]);
      if day.Number? && month.Some? && year.Number? && time.Some? then
        Some(Stamp(Date(year.value, month.value, day.value), time.value.0, time.value.1, time.value.2))
      else None
  }

  /** `Retry-After`: a number of seconds, or a date to wait for. */
  function ParseRetryAfter(value: string, now: nat): Option<nat> {
    var trimmed := Trim(value);
    var secs := ParseUnsigned(trimmed, TWO_64);
    if secs.Number? then Some(secs.value)
    else
      var stamp := ParseHttpDate(trimmed);
      if stamp.None? then None
      else Some(RetryAfterSecs(stamp.value.date, stamp.value.hour, stamp.value.minute, stamp.value.second, now))
  }

  predicate ValidStamp(t: Stamp) {
    Valid(t.date) && t.date.year < 10000 && t.hour < 24 && t.minute < 60 && t.second <= 60
  }

  function RenderTime(t: Stamp): string {
    Digits(t.hour, 2) + [':'] + (Digits(t.minute, 2) + [':'] + Digits(t.second, 2))
  }

  /** IMF-fixdate: `Wed, 21 Oct 2026 07:28:00 GMT`. */
  function Parts(weekday: string, t: Stamp): seq<string>
    requires ValidStamp(t)
  {
    [weekday, Digits(t.date.day, 2), MONTHS[t.date.month - 1], Digits(t.date.year, 4), RenderTime(t), "GMT"]
  }

  function Render(weekday: string, t: Stamp): string
    requires ValidStamp(t)
  {
    Join(Parts(weekday, t))
  }

  lemma DigitsAreWords(n: nat, width: nat)
    requires width > 0
    ensures IsWord(Digits(n, width)) && ':' !in Digits(n, width)
  {
  }

  lemma TimeRoundTrip(t: Stamp)
    requires ValidStamp(t)
    ensures IsWord(RenderTime(t)) && ParseTime(RenderTime(t)) == Some((t.hour, t.minute, t.second))
  {
    hide Digits, Split, ParseUnsigned, Pow10;
    var h, m, s := Digits(t.hour, 2), Digits(t.minute, 2), Digits(t.second, 2);
    DigitsAreWords(t.hour, 2);
    DigitsAreWords(t.minute, 2);
    DigitsAreWords(t.second, 2);
    SplitFirst(h, ':', m + [':'] + s);
    SplitFirst(m, ':', s);
    SplitFirst(s, ':', "");
    HundredIsPow10();
    ParsesDigits(t.hour, 2, TWO_32);
    ParsesDigits(t.minute, 2, TWO_32);
    ParsesDigits(t.second, 2, TWO_32);
    assert Split(RenderTime(t), ':') == [h, m, s];
  }

  lemma HundredIsPow10()
    ensures Pow10(2) == 100 && Pow10(4) == 10000
  {
    assert Pow10(3) == 1000;
  }

  lemma MonthRoundTrip(month: nat)
    requires 1 <= month <= 12
    ensures IsWord(MONTHS[month - 1]) && MonthNum(MONTHS[month - 1]) == Some(month)
  {
  }

  lemma PartsAreWords(weekday: string, t: Stamp)
    requires ValidStamp(t) && IsWord(weekday)
    ensures AreWords(Parts(weekday, t))
  {
    hide Digits, RenderTime, ParseTime, MonthNum;
    DigitsAreWords(t.date.day, 2);
    DigitsAreWords(t.date.year, 4);
    MonthRoundTrip(t.date.month);
    TimeRoundTrip(t);
  }

  /** Reading back a rendered date gives the date, whatever is written for the weekday. */
  lemma DateRoundTrip(weekday: string, t: Stamp)
    requires ValidStamp(t) && IsWord(weekday)
    ensures ParseHttpDate(Render(weekday, t)) == Some(t)
  {
    hide Digits, RenderTime, ParseTime, MonthNum, Tokens, Join, ParseUnsigned, Pow10;
    PartsAreWords(weekday, t);
    TokensOfJoin(Parts(weekday, t));
    HundredIsPow10();
    DayFits(t.date);
    ParsesDigits(t.date.day, 2, TWO_32);
    ParsesDigits(t.date.year, 4, TWO_32);
    MonthRoundTrip(t.date.month);
    TimeRoundTrip(t);
  }

  lemma DayFits(d: Date)
    requires Valid(d)
    ensures d.day < 100
  {
  }

  lemma NotBefore(d: Date, epoch: Date)
    requires Valid(d) && Valid(epoch) && d.year >= epoch.year && epoch.month == 1 && epoch.day == 1
    ensures DayNumber(d) >= DayNumber(epoch)
  {
    hide DaysToYear, DaysToMonth;
    if Before(epoch, d) {
      Earlier(epoch, d);
    } else {
      assert d == epoch;
    }
  }

  // ---- Which texts are read, and as what ----

  /** `text` is three numbers with colons between them. */
  ghost predicate TimeText(text: string, hour: nat, minute: nat, second: nat) {
    exists h, m, s: string ::
      NumberText(h, hour) && NumberText(m, minute) && NumberText(s, second) && text == h + [':'] + (m + [':'] + s)
  }

  /** The words are a date: a word, day, month, year, time, a word, and anything behind that. */
  ghost predicate DateText(words: seq<string>, t: Stamp) {
    && |words| >= 6
    && NumberText(words[1], t.date.day) && t.date.day < TWO_32
    && 1 <= t.date.month <= 12 && words[2] == MONTHS[t.date.month - 1]
    && NumberText(words[3], t.date.year) && t.date.year < TWO_32
    && TimeText(words[4], t.hour, t.minute, t.second) && t.hour < TWO_32 && t.minute < TWO_32 && t.second < TWO_32
  }

  lemma {:induction false} TimeIff(text: string, hour: nat, minute: nat, second: nat)
    ensures ParseTime(text) == Some((hour, minute, second))
       <==> TimeText(text, hour, minute, second) && hour < TWO_32 && minute < TWO_32 && second < TWO_32
  {
    hide NumberText, ParseUnsigned;
    var parts := Split(text, ':');
    if |parts| == 3 {
      GlueThree(text);
      ParsesIff(parts[0], TWO_32, hour);
      ParsesIff(parts[1], TWO_32, minute);
      ParsesIff(parts[2], TWO_32, second);
    }
    if TimeText(text, hour, minute, second) {
      var h, m, s: string :|
        NumberText(h, hour) && NumberText(m, minute) && NumberText(s, second) && text == h + [':'] + (m + [':'] + s);
      NumberIsWord(h, hour);
      NumberIsWord(m, minute);
      NumberIsWord(s, second);
      SplitThree(h, m, s);
    }
  }

  lemma {:induction false} GlueThree(text: string)
    requires |Split(text, ':')| == 3
    ensures var parts := Split(text, ':'); text == parts[0] + [':'] + (parts[1] + [':'] + parts[2])
  {
    SplitGlue(text, ':');
    var parts := Split(text, ':');
    assert Glue(parts[1..], ':') == parts[1] + [':'] + Glue(parts[1..][1..], ':');
    assert Glue(parts[1..][1..], ':') == parts[2];
  }

  lemma {:induction false} SplitThree(h: string, m: string, s: string)
    requires ':' !in h && ':' !in m && ':' !in s
    ensures Split(h + [':'] + (m + [':'] + s), ':') == [h, m, s]
  {
    SplitFirst(h, ':', m + [':'] + s);
    SplitFirst(m, ':', s);
    SplitFirst(s, ':', "");
  }

  lemma MonthIff(name: string, month: nat)
    ensures MonthNum(name) == Some(month) <==> 1 <= month <= 12 && name == MONTHS[month - 1]
  {
  }

  /** A text is read as a date exactly if its words are one, whatever stands for weekday and zone. */
  lemma {:induction false} DateIff(text: string, t: Stamp)
    ensures ParseHttpDate(text) == Some(t) <==> DateText(Tokens(text), t)
  {
    hide Tokens, NumberText, ParseUnsigned, MonthNum, ParseTime, TimeText;
    var parts := Tokens(text);
    if |parts| >= 6 {
      ParsesIff(parts[1], TWO_32, t.date.day);
      MonthIff(parts[2], t.date.month);
      ParsesIff(parts[3], TWO_32, t.date.year);
      TimeIff(parts[4], t.hour, t.minute, t.second);
    }
  }

  /** The value is a number of seconds that fits 64 bits, with white space around it or none. */
  ghost predicate SecondsText(value: string, n: nat) {
    |Tokens(value)| == 1 && NumberText(Tokens(value)[0], n) && n < TWO_64
  }

  lemma {:induction false} TrimmedNumberIff(value: string, n: nat)
    ensures ParseUnsigned(Trim(value), TWO_64) == Number(n) <==> SecondsText(value, n)
  {
    hide Tokens, Trim, NumberText, ParseUnsigned;
    ParsesIff(Trim(value), TWO_64, n);
    if SecondsText(value, n) {
      OneWordTrim(value);
    }
    if NumberText(Trim(value), n) {
      NumberIsWord(Trim(value), n);
      WordIsItsToken(Trim(value));
      TrimTokens(value);
    }
  }

  /** A number of seconds is taken for what it is, at any time. */
  lemma SecondsAreRead(value: string, n: nat, now: nat)
    requires SecondsText(value, n)
    ensures ParseRetryAfter(value, now) == Some(n)
  {
    TrimmedNumberIff(value, n);
  }

  /** So `Retry-After: 120`, padded in any way, asks for 120 seconds. */
  lemma DelayRoundTrip(before: string, n: nat, width: nat, after: string, now: nat)
    requires AllSpaces(before) && AllSpaces(after) && width > 0 && n < Pow10(width) && n < TWO_64
    ensures ParseRetryAfter(before + Digits(n, width) + after, now) == Some(n)
  {
    hide Tokens, Digits, ParseRetryAfter;
    var text := Digits(n, width);
    assert NumberText(text, n);
    NumberIsWord(text, n);
    TokensAround(before, text, after);
    SecondsAreRead(before + text + after, n, now);
  }

  /** A date is counted down to. */
  lemma DatesAreRead(value: string, t: Stamp, now: nat)
    requires DateText(Tokens(value), t)
    ensures ParseRetryAfter(value, now) == Some(RetryAfterSecs(t.date, t.hour, t.minute, t.second, now))
  {
    hide Tokens, Trim, ParseHttpDate, ParseUnsigned, RetryAfterSecs, DateText;
    var secs := ParseUnsigned(Trim(value), TWO_64);
    if secs.Number? {
      TrimmedNumberIff(value, secs.value);
    }
    assert |Tokens(value)| >= 6 by { SixWords(Tokens(value), t); }
    TrimTokens(value);
    DateIff(Trim(value), t);
  }

  lemma SixWords(words: seq<string>, t: Stamp)
    requires DateText(words, t)
    ensures |words| >= 6
  {
  }

  /** Everything else is refused. */
  lemma RefusedIff(value: string, now: nat)
    ensures ParseRetryAfter(value, now).None?
       <==> (forall n :: !SecondsText(value, n)) && (forall t :: !DateText(Tokens(value), t))
  {
    hide Tokens, Trim, ParseHttpDate, ParseUnsigned, RetryAfterSecs, DateText, SecondsText;
    var secs, stamp := ParseUnsigned(Trim(value), TWO_64), ParseHttpDate(Trim(value));
    TrimTokens(value);
    if ParseRetryAfter(value, now).None? {
      forall n
        ensures !SecondsText(value, n)
      {
        TrimmedNumberIff(value, n);
      }
      forall t
        ensures !DateText(Tokens(value), t)
      {
        DateIff(Trim(value), t);
      }
    } else if secs.Number? {
      TrimmedNumberIff(value, secs.value);
    } else {
      DateIff(Trim(value), stamp.value);
    }
  }

  lemma {:induction false} SecondsAreTheDistance(d: Date, hour: nat, minute: nat, second: nat, epoch: Date)
    requires Valid(d) && epoch == EPOCH && d.year >= epoch.year
    ensures Seconds(d, hour, minute, second) == (DayNumber(d) - DayNumber(epoch)) * 86400 + hour * 3600 + minute * 60 + second
    ensures Seconds(d, hour, minute, second) >= 0
  {
    CountsTheCalendar(d.year, d.month, d.day, epoch);
    NotBefore(d, epoch);
    hide DaysFromEpoch, DayNumber;
  }

  /** A date in `Retry-After` that is not before 1970 asks for exactly the calendar's distance from
      now, and for nothing once it has passed. */
  lemma RetryAfterIsTheDistance(value: string, t: Stamp, now: nat, epoch: Date)
    requires DateText(Tokens(value), t) && Valid(t.date) && epoch == EPOCH && t.date.year >= epoch.year && now < TWO_64
    ensures var target := (DayNumber(t.date) - DayNumber(epoch)) * 86400 + t.hour * 3600 + t.minute * 60 + t.second;
            ParseRetryAfter(value, now) == Some(Promised(target, now))
  {
    DatesAreRead(value, t, now);
    assert Fields(t.date, t.hour, t.minute, t.second) by { DateTextFields(Tokens(value), t); }
    hide Tokens, DateText, Seconds, RetryAfterSecs, DayNumber, ParseRetryAfter, Valid;
    SecondsAreTheDistance(t.date, t.hour, t.minute, t.second, epoch);
    WaitIsPromisedIff(t.date, t.hour, t.minute, t.second, now);
  }

  lemma DateTextFields(words: seq<string>, t: Stamp)
    requires DateText(words, t)
    ensures Fields(t.date, t.hour, t.minute, t.second)
  {
  }

  /** A rendered date is such a text. */
  lemma {:induction false} RenderedIsDateText(weekday: string, t: Stamp)
    requires ValidStamp(t) && IsWord(weekday)
    ensures DateText(Tokens(Render(weekday, t)), t)
  {
    hide Render, Tokens, ParseHttpDate, DateText;
    DateRoundTrip(weekday, t);
    DateIff(Render(weekday, t), t);
  }
}
