/** The ISO 8601 week of a broken-down date. */
module IsoWeek {
  import opened CppInt

  const DAYS_PER_WEEK := 7

  // ---------- the code ----------

  // The remainder computed for the current and for the previous year.
  function WeekPhase(y: int): int {
    TruncMod(y + TruncDiv(y, 4) - TruncDiv(y, 100) + TruncDiv(y, 400), DAYS_PER_WEEK)
  }

  function IsoYearWeeks(currYear: int): (weeks: int)
    ensures weeks == 52 || weeks == 53
  {
    52 + if WeekPhase(currYear) == 4 || WeekPhase(currYear - 1) == 3 then 1 else 0
  }

  function IsoWeekNum(yday: int, wday: int): int {
    TruncDiv(yday + 11 - (if wday == 0 then DAYS_PER_WEEK else wday), DAYS_PER_WEEK)
  }

  function IsoWeekYear(year: int, yday: int, wday: int): int {
    var w := IsoWeekNum(yday, wday);
    if w < 1 then year - 1
    else if w > IsoYearWeeks(year) then year + 1
    else year
  }

  function IsoWeekOfYear(year: int, yday: int, wday: int): int {
    var w := IsoWeekNum(yday, wday);
    if w < 1 then IsoYearWeeks(year - 1)
    else if w > IsoYearWeeks(year) then 1
    else w
  }

  // ---------- the calendar ----------

  predicate Leap(y: int) { y % 4 == 0 && (y % 100 != 0 || y % 400 == 0) }

  function YearLength(y: int): int { if Leap(y) then 366 else 365 }

  // The day on which a year begins, counted from Monday, 1 January of the year 1.
  function JanFirst(y: int): int
    decreases if y >= 1 then y else 2 - y
  {
    if y == 1 then 0
    else if y > 1 then JanFirst(y - 1) + YearLength(y - 1)
    else JanFirst(y + 1) - YearLength(y)
  }

  // Day `yday` (from 0) of a year, with `wday` counted from Sunday, is a date.
  predicate IsDate(year: int, yday: int, wday: int) {
    0 <= yday < YearLength(year) && wday == (JanFirst(year) + yday + 1) % 7
  }

  // The Thursday of the Monday-to-Sunday week of a day.
  function Thursday(day: int): int { day - day % 7 + 3 }

  // A week belongs to the year of its Thursday, and its number counts the Thursdays of that year.
  predicate IsWeekOf(day: int, year: int, week: int) {
    && JanFirst(year) <= Thursday(day) < JanFirst(year + 1)
    && week == (Thursday(day) - JanFirst(year)) / 7 + 1
  }

  // A year of 53 weeks: one that begins or ends on a Thursday.
  predicate LongYear(y: int) {
    JanFirst(y) % 7 == 3 || (JanFirst(y + 1) - 1) % 7 == 3
  }

  // ---------- the calendar in closed form ----------

  lemma SmallestMultiples(m: int, d: int)
    requires m > 0
    ensures d >= 1 ==> m * d >= m
    ensures d <= -1 ==> m * d <= -m
  {
    assert d >= 1 ==> m * (d - 1) >= 0;
    assert d <= -1 ==> m * (d + 1) <= 0;
  }

  lemma QuotientIs(n: int, m: int, q: int, r: int)
    requires m > 0 && n == m * q + r && 0 <= r < m
    ensures n / m == q
  {
    var d := q - n / m;
    assert m * d == n % m - r;
    SmallestMultiples(m, d);
  }

  // The quotient grows exactly at the multiples.
  lemma NextQuotient(y: int, m: int)
    requires m > 1
    ensures y / m - (y - 1) / m == if y % m == 0 then 1 else 0
  {
    var q, r := y / m, y % m;
    if r == 0 {
      assert m * (q - 1) == m * q - m;
      QuotientIs(y - 1, m, q - 1, m - 1);
    } else {
      QuotientIs(y - 1, m, q, r - 1);
    }
  }

  lemma MultipleOf(y: int, m: int, k: int)
    requires m > 0 && k > 0 && m * k > 0 && y % (m * k) == 0
    ensures y % m == 0
  {
    var q := y / (m * k);
    assert y == m * k * q == m * (k * q) + 0;
    QuotientIs(y, m, k * q, 0);
  }

  lemma LeapDay(y: int)
    ensures var z := y - 1;
            y / 4 - y / 100 + y / 400 == z / 4 - z / 100 + z / 400 + if Leap(y) then 1 else 0
  {
    NextQuotient(y, 4);
    NextQuotient(y, 100);
    NextQuotient(y, 400);
    if y % 100 == 0 { MultipleOf(y, 4, 25); }
    if y % 400 == 0 { MultipleOf(y, 100, 4); }
  }

  lemma {:induction false} JanFirstClosed(y: int)
    ensures var z := y - 1; JanFirst(y) == 365 * z + z / 4 - z / 100 + z / 400
    decreases if y >= 1 then y else 2 - y
  {
    if y > 1 {
      JanFirstClosed(y - 1);
      LeapDay(y - 1);
    } else if y < 1 {
      JanFirstClosed(y + 1);
      LeapDay(y);
    }
  }

  lemma NextYear(y: int)
    ensures JanFirst(y + 1) == JanFirst(y) + YearLength(y)
  {
  }

  lemma ModShift(p: int, k: int)
    ensures (7 * k + p) % 7 == p % 7
  {
  }

  // From the year 0 on, the remainder the code computes is the day of the week after the year's end.
  lemma YearRemainder(y: int)
    requires y >= 0
    ensures WeekPhase(y) == JanFirst(y + 1) % 7
  {
    JanFirstClosed(y + 1);
    var p := y + y / 4 - y / 100 + y / 400;
    assert p >= 0;
    assert JanFirst(y + 1) == 7 * (52 * y) + p;
    ModShift(p, 52 * y);
  }

  lemma LongByRemainders(curr: int, prev: int, first: int, next: int)
    requires curr == next % 7 && prev == first % 7
    ensures curr == 4 || prev == 3 <==> first % 7 == 3 || (next - 1) % 7 == 3
  {
  }

  // For the years from 1 on, the count of weeks is right.
  lemma WeeksFromYearOne(y: int)
    requires y >= 1
    ensures IsoYearWeeks(y) == if LongYear(y) then 53 else 52
  {
    YearRemainder(y);
    YearRemainder(y - 1);
    LongByRemainders(WeekPhase(y), WeekPhase(y - 1), JanFirst(y), JanFirst(y + 1));
  }

  lemma NonPositive(y: int)
    requires y <= 0
    ensures WeekPhase(y) <= 0
  {
  }

  // Before the year 1 the remainders are never positive, so every year counts as short.
  lemma WeeksUpToYearZero(y: int)
    requires y <= 0
    ensures IsoYearWeeks(y) == 52
  {
    NonPositive(y);
    NonPositive(y - 1);
  }

  // ---------- the code against the calendar ----------

  // The formula counts Thursdays from the start j of the date's own year.
  lemma WeekFormula(j: int, yday: int, wday: int)
    requires yday >= 0 && wday == (j + yday + 1) % 7
    ensures var th := Thursday(j + yday) - j;
            && yday - 3 <= th <= yday + 3
            && Thursday(j + yday) % 7 == 3
            && IsoWeekNum(yday, wday) == (th + 7) / 7
            && (IsoWeekNum(yday, wday) < 1 <==> th < 0)
  {
    var wd := (j + yday) % 7;
    assert (if wday == 0 then 7 else wday) == wd + 1;
    var th := Thursday(j + yday) - j;
    assert th == yday - wd + 3;
    assert (j + th - 3) % 7 == 0;
  }

  // A Thursday shortly before day j, where a year of the given length ends, is in week 53 of
  // that year exactly if the year is long.
  lemma LastThursday(j: int, length: int, th: int)
    requires length == 365 || length == 366
    requires -3 <= th < 0 && (j + th) % 7 == 3
    ensures (length + th) / 7 + 1 == if (j - length) % 7 == 3 || (j - 1) % 7 == 3 then 53 else 52
  {
    if length == 365 {
      assert (j - 365) % 7 == (j - 1) % 7;
    } else {
      assert (j - 366) % 7 == (j - 2) % 7;
    }
  }

  lemma BeforeTheYear(year: int, th: int)
    requires -3 <= th < 0 && (JanFirst(year) + th) % 7 == 3
    ensures (JanFirst(year) + th - JanFirst(year - 1)) / 7 + 1 == if LongYear(year - 1) then 53 else 52
    ensures JanFirst(year - 1) <= JanFirst(year) + th
  {
    NextYear(year - 1);
    LastThursday(JanFirst(year), YearLength(year - 1), th);
  }

  // The 53rd Thursday from day j on, where a year of the given length begins, is in that year
  // exactly if the year is long.
  lemma FiftyThirdThursday(j: int, length: int, th: int)
    requires length == 365 || length == 366
    requires 0 <= th < length + 3 && (j + th) % 7 == 3
    ensures (th + 7) / 7 <= 53
    ensures th >= length ==> (th + 7) / 7 == 53 && j % 7 != 3 && (j + length - 1) % 7 != 3
    ensures (th + 7) / 7 == 53 && th < length ==> j % 7 == 3 || (j + length - 1) % 7 == 3
  {
    if length == 365 {
      assert (j + 364) % 7 == j % 7;
    } else {
      assert (j + 365) % 7 == (j + 1) % 7;
    }
  }

  lemma EndOfTheYear(year: int, th: int)
    requires 0 <= th < YearLength(year) + 3 && (JanFirst(year) + th) % 7 == 3
    ensures (th + 7) / 7 <= 53
    ensures th >= YearLength(year) ==> (th + 7) / 7 == 53 && !LongYear(year)
    ensures (th + 7) / 7 == 53 && th < YearLength(year) ==> LongYear(year)
    ensures JanFirst(year + 1) == JanFirst(year) + YearLength(year)
    ensures th >= YearLength(year) ==> JanFirst(year) + th < JanFirst(year + 2)
  {
    NextYear(year);
    NextYear(year + 1);
    FiftyThirdThursday(JanFirst(year), YearLength(year), th);
  }

  // The one family of dates the code gets wrong: those of a year before the year 0 that lie in
  // the 53rd week of a long year.
  predicate InUnseenWeek(year: int, yday: int, wday: int) {
    var w := IsoWeekNum(yday, wday);
    year < 0 && ((w < 1 && LongYear(year - 1)) || (w == 53 && LongYear(year)))
  }

  lemma YearsZeroAreShort()
    ensures !LongYear(0) && !LongYear(-1)
  {
    JanFirstClosed(-1);
    JanFirstClosed(0);
    JanFirstClosed(1);
    assert JanFirst(1) == 0 && JanFirst(0) == -366 && JanFirst(-1) == -731;
  }

  // A count of the weeks of a year as the code makes it: right from the year 1 on, 52 before; the
  // years 0 and -1 are short.
  predicate Counted(y: int, weeks: int) {
    && weeks == (if y > 0 && LongYear(y) then 53 else 52)
    && (y == 0 || y == -1 ==> !LongYear(y))
  }

  lemma CountsAreRight(y: int)
    ensures Counted(y, IsoYearWeeks(y))
  {
    if y > 0 {
      WeeksFromYearOne(y);
    } else {
      WeeksUpToYearZero(y);
      YearsZeroAreShort();
    }
  }

  lemma OnlyWeek(day: int, year: int, w: int)
    requires JanFirst(year) <= Thursday(day) < JanFirst(year + 1)
    ensures IsWeekOf(day, year, w) <==> w == (Thursday(day) - JanFirst(year)) / 7 + 1
  {
  }

  // A day whose Thursday is shortly before a year lies in the last week of the year before.
  lemma WeekOfPreviousYear(day: int, year: int, weeks: int)
    requires -3 <= Thursday(day) - JanFirst(year) < 0 && Thursday(day) % 7 == 3
    ensures IsWeekOf(day, year - 1, weeks) <==> weeks == if LongYear(year - 1) then 53 else 52
  {
    BeforeTheYear(year, Thursday(day) - JanFirst(year));
    OnlyWeek(day, year - 1, weeks);
  }

  lemma OwnYear(day: int, year: int, w: int, weeks: int)
    requires JanFirst(year) <= Thursday(day) < JanFirst(year + 1)
    requires w == (Thursday(day) - JanFirst(year) + 7) / 7
    ensures IsWeekOf(day, if w > weeks then year + 1 else year, if w > weeks then 1 else w) <==> w <= weeks
  {
  }

  lemma NextYearOwns(day: int, year: int, w: int, weeks: int)
    requires JanFirst(year + 1) <= Thursday(day) < JanFirst(year + 1) + 3
    requires Thursday(day) < JanFirst(year + 2)
    requires w > weeks
    ensures IsWeekOf(day, if w > weeks then year + 1 else year, if w > weeks then 1 else w)
  {
  }

  // What the code makes of a date, given the number w it computes and the weeks it counts in the
  // date's own year and in the one before.
  lemma WeekJudged(day: int, year: int, w: int, curr: int, prev: int)
    requires var th := Thursday(day) - JanFirst(year);
             && -3 <= th < YearLength(year) + 3 && Thursday(day) % 7 == 3
             && w == (th + 7) / 7 && (w < 1 <==> th < 0)
    requires Counted(year, curr) && Counted(year - 1, prev)
    ensures IsWeekOf(day, if w < 1 then year - 1 else if w > curr then year + 1 else year,
                          if w < 1 then prev else if w > curr then 1 else w)
            <==> !(year < 0 && ((w < 1 && LongYear(year - 1)) || (w == 53 && LongYear(year))))
  {
    if w < 1 {
      WeekOfPreviousYear(day, year, prev);
    } else {
      var th := Thursday(day) - JanFirst(year);
      EndOfTheYear(year, th);
      if th < YearLength(year) {
        OwnYear(day, year, w, curr);
      } else {
        NextYearOwns(day, year, w, curr);
      }
    }
  }

  lemma DateJudged(year: int, yday: int, wday: int, curr: int, prev: int)
    requires IsDate(year, yday, wday) && Counted(year, curr) && Counted(year - 1, prev)
    ensures var w := IsoWeekNum(yday, wday);
            IsWeekOf(JanFirst(year) + yday, if w < 1 then year - 1 else if w > curr then year + 1 else year,
                                            if w < 1 then prev else if w > curr then 1 else w)
            <==> !InUnseenWeek(year, yday, wday)
  {
    WeekFormula(JanFirst(year), yday, wday);
    WeekJudged(JanFirst(year) + yday, year, IsoWeekNum(yday, wday), curr, prev);
  }

  // The computed year and week are those of the Thursday of the date's week, for every Gregorian
  // date from the year 0 on, and before it for exactly the dates not in an unseen week.
  lemma IsoWeekIsThursdays(year: int, yday: int, wday: int)
    requires IsDate(year, yday, wday)
    ensures IsWeekOf(JanFirst(year) + yday, IsoWeekYear(year, yday, wday), IsoWeekOfYear(year, yday, wday))
            <==> !InUnseenWeek(year, yday, wday)
    ensures year >= 0 ==> !InUnseenWeek(year, yday, wday)
  {
    CountsAreRight(year);
    CountsAreRight(year - 1);
    DateJudged(year, yday, wday, IsoYearWeeks(year), IsoYearWeeks(year - 1));
  }

  // The week is always one that the computed year is said to have.
  lemma WeekInRange(year: int, yday: int, wday: int)
    ensures 1 <= IsoWeekOfYear(year, yday, wday) <= IsoYearWeeks(IsoWeekYear(year, yday, wday))
  {
  }

  lemma SomeYearStarts()
    ensures JanFirst(-1) == -731 && JanFirst(-2) == -1096
  {
    JanFirstClosed(-1);
    JanFirstClosed(-2);
  }

  // The first of January of the year -1, a Friday, is in week 53 of the year -2; the code says 52.
  lemma UnseenWeekExists()
    ensures IsDate(-1, 0, 5) && IsWeekOf(JanFirst(-1), -2, 53)
    ensures IsoWeekYear(-1, 0, 5) == -2 && IsoWeekOfYear(-1, 0, 5) == 52
  {
    SomeYearStarts();
    NextYear(-2);
    var day := JanFirst(-1);
    assert (day + 1) % 7 == 5 && Thursday(day) == -732;
    assert (Thursday(day) - JanFirst(-2)) / 7 + 1 == 53;
    WeeksUpToYearZero(-2);
    assert IsoWeekNum(0, 5) == 0;
  }
}
