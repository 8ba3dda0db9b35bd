/**
 * `parse_datetime(string)` with the default format: a year-less syslog stamp
 * such as "Jan  5 10:00:01" becomes a date and time in the current year.
 *
 * The fragment is first cut by `re.match('(\S+)\s+(\d+)\s+(.*)', string)`
 * into a month word, day digits and the rest; the day is normalised through
 * `int()`; the text "<month> <day> <rest>" is then read with the format
 * '%b %d %H:%M:%S'; and the result is rebuilt with the current year, which is
 * a parameter here.
 */
module Timestamp {
  import opened Wrappers
  import opened Text
  import opened Exceptions

  /** A `datetime.datetime` without microseconds or time zone. */
  datatype DateTime = DateTime(year: int, month: nat, day: nat, hour: nat, minute: nat, second: nat)

  const MonthNames: seq<string> :=
    ["jan", "feb", "mar", "apr", "may", "jun", "jul", "aug", "sep", "oct", "nov", "dec"]

  predicate IsLeapYear(y: int) {
    y % 4 == 0 && (y % 100 != 0 || y % 400 == 0)
  }

  function DaysInMonth(month: nat, year: int): nat
    requires 1 <= month <= 12
  {
    if month == 2 then (if IsLeapYear(year) then 29 else 28)
    else if month in {4, 6, 9, 11} then 30
    else 31
  }

  /** The fields `datetime.datetime(...)` accepts. */
  predicate ValidDateTime(t: DateTime) {
    && 1 <= t.year <= 9999
    && 1 <= t.month <= 12
    && 1 <= t.day <= DaysInMonth(t.month, t.year)
    && t.hour <= 23 && t.minute <= 59 && t.second <= 59
  }

  /** `%b`: an English month abbreviation in any letter case, as its number 1 to 12. */
  function MonthNumber(word: string): (r: Option<nat>)
    ensures r.Some? ==> 1 <= r.value <= 12 && Lower(word) == MonthNames[r.value - 1]
    ensures r.None? ==> Lower(word) !in MonthNames
  {
    var w := Lower(word);
    if w == "jan" then Some(1) else if w == "feb" then Some(2) else if w == "mar" then Some(3)
    else if w == "apr" then Some(4) else if w == "may" then Some(5) else if w == "jun" then Some(6)
    else if w == "jul" then Some(7) else if w == "aug" then Some(8) else if w == "sep" then Some(9)
    else if w == "oct" then Some(10) else if w == "nov" then Some(11) else if w == "dec" then Some(12)
    else None
  }

  /**
   * `re.match('(\S+)\s+(\d+)\s+(.*)', s)`: the first word, the digits after
   * the next run of blanks, and the rest of the line after the blanks that
   * follow them. Each greedy run stops where the next one must start, so
   * backtracking never finds another match and every group is the maximal run
   * of its class.
   */
  function SplitFragment(s: string): (r: Option<(string, string, string)>)
    ensures r.Some? ==> |r.value.0| > 0 && All(r.value.0, NonSpace)
    ensures r.Some? ==> |r.value.1| > 0 && All(r.value.1, Digit)
    ensures r.Some? ==> All(r.value.2, NotNewline)
  {
    var (word, s1) := Cut(s, NonSpace);
    var (gap1, s2) := Cut(s1, Space);
    var (digits, s3) := Cut(s2, Digit);
    var (gap2, s4) := Cut(s3, Space);
    if word == [] || gap1 == [] || digits == [] || gap2 == [] then None
    else Some((word, digits, Cut(s4, NotNewline).0))
  }

  /** `%H`, `%M` or `%S`: one digit, or two digits whose value is at most `max`. */
  function ClockField(t: string, max: nat): (r: Option<nat>)
    requires 9 <= max
    ensures r.Some? ==> r.value <= max
  {
    if |t| < 1 || |t| > 2 || !All(t, Digit) then None
    else if |t| == 2 && Decimal(t) > max then None
    else if |t| == 1 then Some(DigitValue(t[0]))
    else Some(Decimal(t))
  }

  /**
   * The '%H:%M:%S' part: three colon-separated fields and nothing after them.
   * A two-digit hour is at most 23 and a two-digit minute at most 59; the
   * pattern also lets a second of 60 or 61 through, which `datetime` then
   * rejects, so a second is at most 59 here.
   */
  function ParseClock(t: string): (r: Option<(nat, nat, nat)>)
    ensures r.Some? ==> r.value.0 <= 23 && r.value.1 <= 59 && r.value.2 <= 59
  {
    var parts := Split(t, ':');
    if |parts| != 3 then None
    else
      match (ClockField(parts[0], 23), ClockField(parts[1], 59), ClockField(parts[2], 59))
      case (Some(h), Some(m), Some(s)) => Some((h, m, s))
      case _ => None
  }

  /**
   * The year `strptime` gives a format without '%Y'. It is not a leap year,
   * so 29 February is out of range before the current year replaces it.
   */
  const StrptimeYear: int := 1900

  /**
   * `parse_datetime(fragment)` in the year `year` (the source's
   * `datetime.datetime.now().year`). A fragment the splitting pattern does not
   * match fails on `match.group` of None (AttributeError); a month, day or
   * clock that `strptime` (which checks the day against the year 1900) or
   * `datetime` refuses raises ValueError.
   */
  function ParseTimestamp(fragment: string, year: int): (r: Result<DateTime, Exception>)
    ensures r.Ok? ==> r.value.year == year && ValidDateTime(r.value)
    ensures r.Ok? ==> !(r.value.month == 2 && r.value.day == 29)
    ensures r.Ok? ==> (SplitFragment(fragment).Some? &&
      var (word, digits, clock) := SplitFragment(fragment).value;
      MonthNumber(word) == Some(r.value.month) && Decimal(digits) == r.value.day &&
      ParseClock(clock) == Some((r.value.hour, r.value.minute, r.value.second)))
    ensures r.Err? ==> r.error in {AttributeError, ValueError}
    ensures r == Err(AttributeError) <==> SplitFragment(fragment).None?
    ensures SplitFragment(fragment).Some? ==> (
      var (word, digits, clock) := SplitFragment(fragment).value;
      r.Ok? <==> (MonthNumber(word).Some? && ParseClock(clock).Some? &&
        1 <= Decimal(digits) <= DaysInMonth(MonthNumber(word).value, StrptimeYear) && 1 <= year <= 9999))
  {
    match SplitFragment(fragment)
    case None => Err(AttributeError)
    case Some((word, digits, clock)) =>
      var day := Decimal(digits);
      match (MonthNumber(word), ParseClock(clock))
      case (Some(month), Some((h, m, s))) =>
        if 1 <= day <= DaysInMonth(month, StrptimeYear) && 1 <= year <= 9999
        then StrptimeDays(month, year); Ok(DateTime(year, month, day, h, m, s))
        else Err(ValueError)
      case _ => Err(ValueError)
  }

  /** A day `strptime` accepts is a day of that month in every year, and February has 28 of them. */
  lemma StrptimeDays(month: nat, year: int)
    requires 1 <= month <= 12
    ensures DaysInMonth(month, StrptimeYear) <= DaysInMonth(month, year)
    ensures month == 2 ==> DaysInMonth(month, StrptimeYear) == 28
    ensures month != 2 ==> DaysInMonth(month, StrptimeYear) == DaysInMonth(month, year)
  {
    assert 1900 % 100 == 0 && 1900 % 400 == 300;
  }

  /**
   * 29 February is refused in every year, leap or not: `strptime` checks the
   * day against 1900 before the current year is put in.
   */
  lemma LeapDayRefused(fragment: string, year: int)
    requires SplitFragment(fragment).Some?
    requires MonthNumber(SplitFragment(fragment).value.0) == Some(2)
    requires Decimal(SplitFragment(fragment).value.1) == 29
    ensures ParseTimestamp(fragment, year) == Err(ValueError)
  {
  }

  /** A fragment made of a word, blanks, digits, blanks and a clock splits into exactly those three fields. */
  lemma FragmentFields(s: string, word: string, gap1: string, digits: string, gap2: string, clock: string)
    requires |word| > 0 && All(word, NonSpace)
    requires |gap1| > 0 && All(gap1, Space)
    requires |digits| > 0 && All(digits, Digit)
    requires |gap2| > 0 && All(gap2, Space)
    requires All(clock, NotNewline) && (clock == [] || !IsSpace(clock[0]))
    requires s == word + (gap1 + (digits + (gap2 + clock)))
    ensures SplitFragment(s) == Some((word, digits, clock))
  {
    CutOf(word, gap1 + (digits + (gap2 + clock)), NonSpace);
    CutOf(gap1, digits + (gap2 + clock), Space);
    CutOf(digits, gap2 + clock, Digit);
    CutOf(gap2, clock, Space);
    CutOf(clock, [], NotNewline);
    assert clock + [] == clock;
  }

  /** The English abbreviation of a month, capitalised as syslog writes it. */
  function MonthAbbrev(month: nat): string
    requires 1 <= month <= 12
  {
    ["Jan", "Feb", "Mar", "Apr", "May", "Jun", "Jul", "Aug", "Sep", "Oct", "Nov", "Dec"][month - 1]
  }

  lemma MonthAbbrevRead(month: nat)
    requires 1 <= month <= 12
    ensures MonthNumber(MonthAbbrev(month)) == Some(month)
  {
    var w := MonthAbbrev(month);
    LowerCapitalised(w);
    assert Lower(w) == MonthNames[month - 1];
  }

  lemma MonthAbbrevShape(month: nat)
    requires 1 <= month <= 12
    ensures |MonthAbbrev(month)| > 0 && All(MonthAbbrev(month), NonSpace)
  {
  }

  /** A three-letter word with a capital initial lower-cases to its initial lowered. */
  lemma LowerCapitalised(w: string)
    requires |w| == 3
    ensures Lower(w) == [LowerAscii(w[0]), LowerAscii(w[1]), LowerAscii(w[2])]
  {
    var w1, w2 := w[1..], w[1..][1..];
    assert w2[1..] == [] && w1[0] == w[1] && w2[0] == w[2];
    assert Lower(w2) == [LowerAscii(w[2])] + Lower(w2[1..]);
    assert Lower(w1) == [LowerAscii(w[1])] + Lower(w2);
  }

  /** The clock part of a stamp, as '%02d:%02d:%02d'. */
  function Clock(t: DateTime): string
    requires t.hour < 100 && t.minute < 100 && t.second < 100
  {
    Join([Pad2(t.hour), Pad2(t.minute), Pad2(t.second)], ':')
  }

  lemma ClockRead(t: DateTime)
    requires ValidDateTime(t)
    ensures ParseClock(Clock(t)) == Some((t.hour, t.minute, t.second))
  {
    var ps := [Pad2(t.hour), Pad2(t.minute), Pad2(t.second)];
    forall p | p in ps ensures ':' !in p {
      assert All(p, Digit);
    }
    SplitJoin(ps, ':');
    Pad2RoundTrip(t.hour);
    Pad2RoundTrip(t.minute);
    Pad2RoundTrip(t.second);
  }

  /** The day of a stamp as syslog writes it ('%e'): no leading zero. */
  function SyslogDay(day: nat): (s: string)
    requires 1 <= day <= 31
    ensures |s| > 0 && All(s, Digit)
  {
    if day < 10 then [DigitChar(day)] else Pad2(day)
  }

  /** The blanks before a syslog day: '%e' pads a one-digit day with a blank. */
  function DayGap(day: nat): string {
    if day < 10 then "  " else " "
  }

  /** A stamp as syslog writes it ('%b %e %H:%M:%S'): a one-digit day is preceded by two blanks. */
  function SyslogStamp(t: DateTime): string
    requires ValidDateTime(t)
  {
    MonthAbbrev(t.month) + (DayGap(t.day) + (SyslogDay(t.day) + (" " + Clock(t))))
  }

  /** The same stamp with the day padded with a zero ('%b %d %H:%M:%S'). */
  function ZeroPaddedStamp(t: DateTime): string
    requires ValidDateTime(t)
  {
    MonthAbbrev(t.month) + (" " + (Pad2(t.day) + (" " + Clock(t))))
  }

  lemma ClockShape(t: DateTime)
    requires ValidDateTime(t)
    ensures All(Clock(t), NotNewline) && !IsSpace(Clock(t)[0])
  {
    var h, m, sec := Pad2(t.hour), Pad2(t.minute), Pad2(t.second);
    assert [h, m, sec][1..] == [m, sec] && [m, sec][1..] == [sec];
    assert Join([sec], ':') == sec;
    assert Join([m, sec], ':') == m + [':'] + sec;
    assert Clock(t) == h + [':'] + (m + [':'] + sec);
  }

  /** A fragment whose three fields read as the parts of `t` is read as `t`. */
  lemma FieldsRead(s: string, t: DateTime, digits: string)
    requires ValidDateTime(t)
    requires SplitFragment(s) == Some((MonthAbbrev(t.month), digits, Clock(t)))
    requires All(digits, Digit) && Decimal(digits) == t.day
    requires !(t.month == 2 && t.day == 29)
    ensures ParseTimestamp(s, t.year) == Ok(t)
  {
    MonthAbbrevRead(t.month);
    ClockRead(t);
    StrptimeDays(t.month, t.year);
    assert 1 <= Decimal(digits) <= DaysInMonth(t.month, StrptimeYear);
    assert (MonthNumber(MonthAbbrev(t.month)), ParseClock(Clock(t))) == (Some(t.month), Some((t.hour, t.minute, t.second)));
    assert t == DateTime(t.year, t.month, Decimal(digits), t.hour, t.minute, t.second);
  }

  /**
   * Every valid date and time but 29 February survives being written as
   * syslog does and read back in its year.
   */
  lemma SyslogStampRoundTrip(t: DateTime)
    requires ValidDateTime(t)
    requires !(t.month == 2 && t.day == 29)
    ensures ParseTimestamp(SyslogStamp(t), t.year) == Ok(t)
  {
    MonthAbbrevShape(t.month);
    ClockShape(t);
    FragmentFields(SyslogStamp(t), MonthAbbrev(t.month), DayGap(t.day), SyslogDay(t.day), " ", Clock(t));
    SyslogDayRead(t.day);
    FieldsRead(SyslogStamp(t), t, SyslogDay(t.day));
  }

  lemma SyslogDayRead(day: nat)
    requires 1 <= day <= 31
    ensures Decimal(SyslogDay(day)) == day
  {
    if day < 10 {
      assert SyslogDay(day)[..0] == [];
    } else {
      Pad2RoundTrip(day);
    }
  }

  /** A zero-padded day reads as the same day, because the day goes through `int()`. */
  lemma ZeroPaddedRoundTrip(t: DateTime)
    requires ValidDateTime(t)
    requires !(t.month == 2 && t.day == 29)
    ensures ParseTimestamp(ZeroPaddedStamp(t), t.year) == Ok(t)
  {
    MonthAbbrevShape(t.month);
    ClockShape(t);
    FragmentFields(ZeroPaddedStamp(t), MonthAbbrev(t.month), " ", Pad2(t.day), " ", Clock(t));
    Pad2RoundTrip(t.day);
    FieldsRead(ZeroPaddedStamp(t), t, Pad2(t.day));
  }
}
