/** Relative due dates: the keyword and offset rules of `parseDueDate` and the
    label precedence of `formatSmartDate` (src/lib/date-utils.ts).

    A calendar day is an integer day number, day 0 being Thursday 1970-01-01;
    "today" is a parameter rather than a clock reading. Rendering a day as
    `yyyy-MM-dd` or `MMM d`, and reading such text back, are not modelled:
    the parser returns a day number and the formatter takes one. A keyword
    that points past the days a `Date` can hold yields the `RangeError` that
    `format` throws on an Invalid Date. */
module DueDate {
  import opened Wrappers
  import opened Text

  // ---------------------------------------------------------------- the calendar

  /** `Date.prototype.getDay`: 0 for Sunday through 6 for Saturday. */
  function WeekdayOf(day: int): (w: nat)
    ensures w < 7
  {
    (day + 4) % 7
  }

  /** The weekday names `parseDueDate` accepts, indexed like `getDay`. */
  const DayNames: seq<string> :=
    ["sunday", "monday", "tuesday", "wednesday", "thursday", "friday", "saturday"]

  /** The names `format(date, 'EEEE')` prints, indexed like `getDay`. */
  const WeekdayLabels: seq<string> :=
    ["Sunday", "Monday", "Tuesday", "Wednesday", "Thursday", "Friday", "Saturday"]

  /** `dayNames.indexOf(name)` for a name known to be in the list. */
  function DayIndex(name: string): (w: nat)
    requires name in DayNames
    ensures w < 7 && DayNames[w] == name
  {
    if name == DayNames[0] then 0
    else if name == DayNames[1] then 1
    else if name == DayNames[2] then 2
    else if name == DayNames[3] then 3
    else if name == DayNames[4] then 4
    else if name == DayNames[5] then 5
    else 6
  }

  /** The names are distinct, so `indexOf` inverts the table. */
  lemma DayIndexOfName(w: nat)
    requires w < 7
    ensures DayIndex(DayNames[w]) == w
  {
  }

  /** The Sunday that starts the week of `day` (date-fns' default week). */
  function WeekStart(day: int): int {
    day - WeekdayOf(day)
  }

  /** `isThisWeek(date)` seen from `today`. */
  predicate SameWeek(day: int, today: int) {
    WeekStart(day) == WeekStart(today)
  }

  // ---------------------------------------------------------------- "next <weekday>"

  /** `(targetDay - today.getDay() + 7) % 7 || 7`. */
  function DaysUntil(target: nat, todayWeekday: nat): int
    requires target < 7 && todayWeekday < 7
  {
    var k := (target - todayWeekday + 7) % 7;
    if k == 0 then 7 else k
  }

  lemma DaysUntilValue(target: nat, todayWeekday: nat)
    requires target < 7 && todayWeekday < 7
    ensures DaysUntil(target, todayWeekday)
         == if target > todayWeekday then target - todayWeekday else target - todayWeekday + 7
  {
  }

  /** Moving `j` days ahead moves the weekday `j` places round the week. */
  lemma WeekdayAfter(day: int, j: nat)
    ensures WeekdayOf(day + j) == (WeekdayOf(day) + j) % 7
  {
  }

  /** The offset is between one and seven days, lands on the named weekday,
      is seven exactly when today already is that weekday, and is the first
      such day after today. */
  lemma NextWeekdayOffset(target: nat, today: int)
    requires target < 7
    ensures var k := DaysUntil(target, WeekdayOf(today));
      && 1 <= k <= 7
      && WeekdayOf(today + k) == target
      && (k == 7 <==> WeekdayOf(today) == target)
      && forall d :: today < d < today + k ==> WeekdayOf(d) != target
  {
    var wd := WeekdayOf(today);
    var k := DaysUntil(target, wd);
    DaysUntilValue(target, wd);
    forall d | today < d < today + k
      ensures WeekdayOf(d) != target
    {
      WeekdayAfter(today, d - today);
    }
    WeekdayAfter(today, k);
  }

  /** `^next\s+(sunday|…|saturday)$`: the weekday named after `next` and white space. */
  function MatchNextWeekday(t: string): (r: Option<nat>)
    ensures r.Some? ==> r.value < 7
  {
    if |t| < 4 || t[..4] != "next" then None
    else
      var (gap, name) := SplitSpan(t[4..], IsSpace);
      if gap == [] || name !in DayNames then None
      else Some(DayIndex(name))
  }

  /** Soundness: a match is `next`, white space and the day's name. */
  lemma MatchNextWeekdaySound(t: string)
    requires MatchNextWeekday(t).Some?
    ensures exists gap :: gap != [] && IsBlank(gap)
                          && t == "next" + (gap + DayNames[MatchNextWeekday(t).value])
  {
    var (gap, name) := SplitSpan(t[4..], IsSpace);
    assert t == t[..4] + t[4..];
    assert t == "next" + (gap + name);
  }

  lemma NextNeedsN(t: string)
    requires t != [] && t[0] != 'n'
    ensures MatchNextWeekday(t).None?
  {
    if |t| >= 4 {
      assert t[..4][0] == t[0];
    }
  }

  lemma MatchNextWeekdayComplete(gap: string, w: nat)
    requires gap != [] && IsBlank(gap) && w < 7
    ensures MatchNextWeekday("next" + (gap + DayNames[w])) == Some(w)
  {
    var t := "next" + (gap + DayNames[w]);
    assert t[..4] == "next" && t[4..] == gap + DayNames[w];
    assert !IsSpace(DayNames[w][0]);
    SplitSpanOfConcat(gap, DayNames[w], IsSpace);
    DayIndexOfName(w);
  }

  // ---------------------------------------------------------------- "in <N> days"

  /** How `^in\s+(\d+)\s+days?$` splits its text. */
  datatype InDays = InDays(gap1: string, digits: string, gap2: string, unit: string)

  function SpellInDays(c: InDays): string {
    "in" + (c.gap1 + (c.digits + (c.gap2 + c.unit)))
  }

  predicate WfInDays(c: InDays) {
    c.gap1 != [] && IsBlank(c.gap1) && IsNumeral(c.digits)
      && c.gap2 != [] && IsBlank(c.gap2) && c.unit in {"day", "days"}
  }

  function MatchInDays(t: string): (r: Option<InDays>)
    ensures r.Some? ==> SpellInDays(r.value) == t && WfInDays(r.value)
  {
    if |t| < 2 || t[..2] != "in" then None
    else
      var (gap1, s1) := SplitSpan(t[2..], IsSpace);
      var (digits, s2) := SplitSpan(s1, IsDigit);
      var (gap2, unit) := SplitSpan(s2, IsSpace);
      if gap1 == [] || digits == [] || gap2 == [] || unit !in {"day", "days"} then None
      else
        var c := InDays(gap1, digits, gap2, unit);
        SpellInDaysFromParts(c, t, s1, s2);
        Some(c)
  }

  lemma SpellInDaysFromParts(c: InDays, t: string, s1: string, s2: string)
    requires |t| >= 2 && t[..2] == "in" && c.gap1 + s1 == t[2..]
    requires c.digits + s2 == s1 && c.gap2 + c.unit == s2
    ensures SpellInDays(c) == t
  {
    assert t == t[..2] + t[2..];
  }

  lemma MatchInDaysComplete(c: InDays)
    requires WfInDays(c)
    ensures MatchInDays(SpellInDays(c)) == Some(c)
  {
    var s2 := c.gap2 + c.unit;
    var s1 := c.digits + s2;
    var t := SpellInDays(c);
    assert t[..2] == "in" && t[2..] == c.gap1 + s1;
    InDaysCuts(c);
    MatchInDaysFromSteps(t, c, s1, s2);
  }

  /** Where each greedy run of a well-formed capture ends. */
  lemma InDaysCuts(c: InDays)
    requires WfInDays(c)
    ensures SplitSpan(c.gap1 + (c.digits + (c.gap2 + c.unit)), IsSpace) == (c.gap1, c.digits + (c.gap2 + c.unit))
    ensures SplitSpan(c.digits + (c.gap2 + c.unit), IsDigit) == (c.digits, c.gap2 + c.unit)
    ensures SplitSpan(c.gap2 + c.unit, IsSpace) == (c.gap2, c.unit)
  {
    assert IsDigit(c.digits[0]);
    SplitSpanOfConcat(c.gap1, c.digits + (c.gap2 + c.unit), IsSpace);
    assert IsSpace(c.gap2[0]);
    SplitSpanOfConcat(c.digits, c.gap2 + c.unit, IsDigit);
    assert c.unit[0] == 'd';
    SplitSpanOfConcat(c.gap2, c.unit, IsSpace);
  }

  /** The three cuts `MatchInDays` makes, taken one at a time. */
  lemma MatchInDaysFromSteps(t: string, c: InDays, s1: string, s2: string)
    requires WfInDays(c) && |t| >= 2 && t[..2] == "in"
    requires SplitSpan(t[2..], IsSpace) == (c.gap1, s1)
    requires SplitSpan(s1, IsDigit) == (c.digits, s2)
    requires SplitSpan(s2, IsSpace) == (c.gap2, c.unit)
    ensures MatchInDays(t) == Some(c)
  {
  }

  // ---------------------------------------------------------------- parseDueDate

  /** The keyword forms of `parseDueDate`, tried in order on the lower-cased,
      trimmed text `t`: `today`, `tomorrow`, `next <weekday>`, `in <N> days`. */
  function DueKeyword(t: string, today: int): (r: Option<int>)
    ensures t == "today" ==> r == Some(today)
    ensures t == "tomorrow" ==> r == Some(today + 1)
    ensures r.Some? ==> r.value >= today
  {
    KeywordDay(t, today, MatchNextWeekday(t), MatchInDays(t))
  }

  /** The same rules, given what the two patterns made of `t`. */
  function KeywordDay(t: string, today: int, next: Option<nat>, inDays: Option<InDays>): (r: Option<int>)
    requires next.Some? ==> next.value < 7
    requires inDays.Some? ==> WfInDays(inDays.value)
    ensures r.Some? ==> r.value >= today
  {
    if t == "today" then Some(today)
    else if t == "tomorrow" then Some(today + 1)
    else match next
      case Some(w) => Some(today + DaysUntil(w, WeekdayOf(today)))
      case None =>
        match inDays
        case Some(c) => Some(today + NumeralValue(c.digits))
        case None => None
  }

  /** The largest day number a JavaScript `Date` holds either side of
      1970-01-01: a time value is limited to 8.64e15 ms, which is 100,000,000
      days. */
  const MaxDay: int := 100_000_000

  predicate InDateRange(day: int) {
    -MaxDay <= day <= MaxDay
  }

  /** `format` of an Invalid Date throws `RangeError: Invalid time value`. */
  datatype DateError = InvalidTimeValue

  /** What `format(targetDate, 'yyyy-MM-dd')` makes of a keyword's day: the day,
      or the error when `setDate` left the `Date` range. That call is outside
      the `try`, so the error escapes `parseDueDate`. */
  function Formatted(day: int): (r: Result<Option<int>, DateError>)
    ensures r.Ok? <==> InDateRange(day)
    ensures r.Ok? ==> r.value == Some(day)
  {
    if InDateRange(day) then Ok(Some(day)) else Err(InvalidTimeValue)
  }

  /** `parseDueDate(input)` with today's day number passed in: `Ok(None)` is
      `null`, `Err` the escaping `RangeError`. `fallback` stands for the
      `new Date(input)` attempt on the raw input, which is outside this model;
      it is consulted only when no keyword form matches, and its own errors
      are caught. */
  function ParseDueDate(input: string, today: int, fallback: string -> Option<int>): (r: Result<Option<int>, DateError>)
    ensures input == [] ==> r == Ok(None)
    ensures r.Err? <==> input != [] && DueKeyword(Normalize(input), today).Some?
                        && !InDateRange(DueKeyword(Normalize(input), today).value)
    ensures input != [] && DueKeyword(Normalize(input), today).Some? && r.Ok?
            ==> r.value == DueKeyword(Normalize(input), today)
    ensures input != [] && DueKeyword(Normalize(input), today).None? ==> r == Ok(fallback(input))
  {
    if input == [] then Ok(None)
    else
      match DueKeyword(Normalize(input), today)
      case Some(day) => Formatted(day)
      case None => Ok(fallback(input))
  }

  /** `next <weekday>` is due on the first later day with that weekday, a
      week ahead when today already has it. */
  lemma NextWeekdayDue(t: string, today: int, gap: string, w: nat)
    requires gap != [] && IsBlank(gap) && w < 7
    requires t == "next" + (gap + DayNames[w])
    ensures DueKeyword(t, today) == Some(today + DaysUntil(w, WeekdayOf(today)))
    ensures var r := DueKeyword(t, today);
      && r.Some? && 1 <= r.value - today <= 7
      && WeekdayOf(r.value) == w
      && (r.value == today + 7 <==> WeekdayOf(today) == w)
      && forall d :: today < d < r.value ==> WeekdayOf(d) != w
  {
    assert t[..4] == "next";
    assert t != "today" && t != "tomorrow";
    MatchNextWeekdayComplete(gap, w);
    NextWeekdayOffset(w, today);
  }

  /** `in <N> days` is due N days after today. */
  lemma InDaysDue(t: string, today: int, c: InDays)
    requires WfInDays(c) && t == SpellInDays(c)
    ensures DueKeyword(t, today) == Some(today + NumeralValue(c.digits))
  {
    assert t[..2] == "in" && t[0] == 'i';
    assert t != "today" && t != "tomorrow";
    NextNeedsN(t);
    MatchInDaysComplete(c);
    InDaysStep(t, today, c);
    KeywordInDays(t, today, c);
  }

  /** Helpers that keep each step small: the keyword rules given the matcher
      results, and `DueKeyword` in terms of those results. */
  lemma KeywordInDays(t: string, today: int, c: InDays)
    requires WfInDays(c) && t != "today" && t != "tomorrow"
    ensures KeywordDay(t, today, None, Some(c)) == Some(today + NumeralValue(c.digits))
  {
  }

  lemma InDaysStep(t: string, today: int, c: InDays)
    requires MatchNextWeekday(t).None? && MatchInDays(t) == Some(c)
    ensures DueKeyword(t, today) == KeywordDay(t, today, None, Some(c))
  {
  }

  /** The same, seen through the whole of `parseDueDate`: the input's case and
      surrounding white space do not matter, and the day is returned when the
      `Date` can hold it. */
  lemma ParseNextWeekday(input: string, today: int, fallback: string -> Option<int>, gap: string, w: nat)
    requires gap != [] && IsBlank(gap) && w < 7
    requires Normalize(input) == "next" + (gap + DayNames[w])
    ensures ParseDueDate(input, today, fallback) == Formatted(today + DaysUntil(w, WeekdayOf(today)))
    ensures -MaxDay <= today <= MaxDay - 7 ==> ParseDueDate(input, today, fallback).Ok?
  {
    NextWeekdayDue(Normalize(input), today, gap, w);
  }

  /** `in <N> days`, whatever its case and padding, is due N days after today;
      an N that carries the day past the `Date` range makes `format` throw. */
  lemma ParseInDays(input: string, today: int, fallback: string -> Option<int>, c: InDays)
    requires WfInDays(c) && Normalize(input) == SpellInDays(c)
    ensures var day := today + NumeralValue(c.digits);
      && (InDateRange(day) ==> ParseDueDate(input, today, fallback) == Ok(Some(day)))
      && (!InDateRange(day) ==> ParseDueDate(input, today, fallback) == Err(InvalidTimeValue))
  {
    var day := today + NumeralValue(c.digits);
    InDaysDueOn(Normalize(input), today, c, day);
    NonEmptyInDays(input, c);
    ParseKeyword(input, today, fallback, day);
    if !InDateRange(day) {
      assert ParseDueDate(input, today, fallback) == Err(InvalidTimeValue);
    }
  }

  lemma InDaysDueOn(t: string, today: int, c: InDays, day: int)
    requires WfInDays(c) && t == SpellInDays(c) && day == today + NumeralValue(c.digits)
    ensures DueKeyword(t, today) == Some(day)
  {
    InDaysDue(t, today, c);
    var r := DueKeyword(t, today);
    assert r == Some(today + NumeralValue(c.digits));
    assert r.value == day;
  }

  lemma NonEmptyInDays(input: string, c: InDays)
    requires Normalize(input) == SpellInDays(c)
    ensures input != []
  {
    NormalizeNil();
  }

  /** Once the keyword rules give a day, `parseDueDate` formats it. */
  lemma ParseKeyword(input: string, today: int, fallback: string -> Option<int>, day: int)
    requires input != [] && DueKeyword(Normalize(input), today) == Some(day)
    ensures ParseDueDate(input, today, fallback) == Formatted(day)
    ensures InDateRange(day) ==> ParseDueDate(input, today, fallback) == Ok(Some(day))
    ensures !InDateRange(day) ==> ParseDueDate(input, today, fallback) == Err(InvalidTimeValue)
  {
  }

  /** A keyword form never reaches the fallback, whatever it would say. */
  lemma KeywordsIgnoreFallback(input: string, today: int, f: string -> Option<int>, g: string -> Option<int>)
    requires input != [] && DueKeyword(Normalize(input), today).Some?
    ensures ParseDueDate(input, today, f) == ParseDueDate(input, today, g)
  {
  }

  // ---------------------------------------------------------------- formatSmartDate

  /** The stored due date: absent (null or empty), text that does not parse
      as an ISO date, or a calendar day. */
  datatype DateField = Missing | Invalid | OnDay(day: int)

  /** What `formatSmartDate` shows: nothing, `Today`, `Tomorrow`, a weekday
      name, or the month and day of `day`. */
  datatype SmartDate = Blank | Today | Tomorrow | WeekdayName(weekday: nat) | MonthDay(day: int)

  /** `formatSmartDate`: an invalid date makes `format` throw, which is caught. */
  function FormatSmartDate(date: DateField, today: int): (r: SmartDate)
    ensures r.Blank? <==> !date.OnDay?
    ensures r.WeekdayName? ==> r.weekday < 7
  {
    match date
    case Missing => Blank
    case Invalid => Blank
    case OnDay(day) =>
      if day == today then Today
      else if day == today + 1 then Tomorrow
      else if SameWeek(day, today) then WeekdayName(WeekdayOf(day))
      else MonthDay(day)
  }

  /** The text of a label other than the month-day form. */
  function LabelText(r: SmartDate): string
    requires !r.MonthDay?
    requires r.WeekdayName? ==> r.weekday < 7
  {
    match r
    case Blank => ""
    case Today => "Today"
    case Tomorrow => "Tomorrow"
    case WeekdayName(w) => WeekdayLabels[w]
  }

  /** Days of the current week share it with today, and lie within six days. */
  lemma SameWeekNear(day: int, today: int)
    requires SameWeek(day, today)
    ensures -6 <= day - today <= 6
    ensures day - today == WeekdayOf(day) - WeekdayOf(today)
  {
  }

  /** Label precedence: `Today` and `Tomorrow` win over the weekday name, and
      a weekday name is shown exactly for the other days of this week. */
  lemma SmartDatePrecedence(day: int, today: int)
    ensures var r := FormatSmartDate(OnDay(day), today);
      && (r == Today <==> day == today)
      && (r == Tomorrow <==> day == today + 1)
      && (r.WeekdayName? <==> day != today && day != today + 1 && SameWeek(day, today))
      && (r.WeekdayName? ==> r.weekday == WeekdayOf(day) && day - today == r.weekday - WeekdayOf(today))
      && (r.MonthDay? <==> !SameWeek(day, today) && day != today + 1)
  {
    if SameWeek(day, today) {
      SameWeekNear(day, today);
    }
    if day == today + 1 {
      assert WeekdayOf(day) == (WeekdayOf(today) + 1) % 7;
    }
  }

  /** Tomorrow is labelled `Tomorrow` even when it starts the next week. */
  lemma SaturdayTomorrow(today: int)
    requires WeekdayOf(today) == 6
    ensures FormatSmartDate(OnDay(today + 1), today) == Tomorrow
    ensures !SameWeek(today + 1, today)
  {
    assert WeekdayOf(today + 1) == 0;
  }

  /** A `next <weekday>` due date, shown back: `Tomorrow` one day ahead, the
      weekday's name when it falls later this week, and the month-day form
      otherwise. */
  lemma NextWeekdayShown(t: string, today: int, gap: string, w: nat)
    requires gap != [] && IsBlank(gap) && w < 7
    requires t == "next" + (gap + DayNames[w])
    ensures DueKeyword(t, today).Some?
    ensures var r := FormatSmartDate(OnDay(DueKeyword(t, today).value), today);
      && (w == (WeekdayOf(today) + 1) % 7 ==> r == Tomorrow)
      && (w > WeekdayOf(today) + 1 ==> r == WeekdayName(w))
      && (w <= WeekdayOf(today) && w != (WeekdayOf(today) + 1) % 7 ==> r.MonthDay?)
  {
    NextWeekdayDue(t, today, gap, w);
    NextWeekdayLabel(w, today);
  }

  /** The label of the day `DaysUntil` reaches, by where the target weekday
      falls relative to today's. */
  lemma NextWeekdayLabel(w: nat, today: int)
    requires w < 7
    ensures var r := FormatSmartDate(OnDay(today + DaysUntil(w, WeekdayOf(today))), today);
      && (w == (WeekdayOf(today) + 1) % 7 ==> r == Tomorrow)
      && (w > WeekdayOf(today) + 1 ==> r == WeekdayName(w))
      && (w <= WeekdayOf(today) && w != (WeekdayOf(today) + 1) % 7 ==> r.MonthDay?)
  {
    var wd := WeekdayOf(today);
    var k := DaysUntil(w, wd);
    var day := today + k;
    DaysUntilValue(w, wd);
    WeekdayAfter(today, k);
    assert WeekdayOf(day) == w;
    assert WeekStart(today) == today - wd;
    assert WeekStart(day) == day - w;
    if w > wd {
      assert SameWeek(day, today);
    } else {
      assert day == today + w - wd + 7;
      assert !SameWeek(day, today);
    }
  }
}
