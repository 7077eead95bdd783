/**
 The x-amz-restore header (cmd/bucket-lifecycle.go): printing and parsing of a restore's status.  The
 date is an IMF-fixdate (section 7.1.1.1 of RFC 7231); it is printed and parsed as Go's time package
 does with the layout "Mon, 02 Jan 2006 15:04:05 GMT".
 */
module RestoreStatus {
  import opened Prelude

  // ---------- dates ----------

  /** A UTC time by its calendar fields. */
  datatype Civil = Civil(year: int, month: int, day: int, hour: int, minute: int, second: int, nanos: int)

  predicate IsLeap(year: int) {
    year % 4 == 0 && (year % 100 != 0 || year % 400 == 0)
  }

  function DaysIn(month: int, year: int): int {
    if month == 2 then (if IsLeap(year) then 29 else 28)
    else if month == 4 || month == 6 || month == 9 || month == 11 then 30
    else 31
  }

  predicate IsTime(c: Civil) {
    && 1 <= c.month <= 12 && 1 <= c.day <= DaysIn(c.month, c.year)
    && 0 <= c.hour < 24 && 0 <= c.minute < 60 && 0 <= c.second < 60 && 0 <= c.nanos < 1_000_000_000
  }

  /** Days since 1 March of year 0, counting years from March so that the leap day comes last. */
  function DayNumber(c: Civil): int {
    var y := if c.month <= 2 then c.year - 1 else c.year;
    var m := (c.month + 9) % 12;
    365 * y + y / 4 - y / 100 + y / 400 + (153 * m + 2) / 5 + c.day - 1
  }

  /** 0 is Sunday; 1 March of year 0 was a Wednesday. */
  function Weekday(c: Civil): int {
    (DayNumber(c) + 3) % 7
  }

  function DayName(d: int): (r: string)
    ensures |r| == 3
  {
    if d == 0 then "Sun" else if d == 1 then "Mon" else if d == 2 then "Tue" else if d == 3 then "Wed"
    else if d == 4 then "Thu" else if d == 5 then "Fri" else "Sat"
  }

  function MonthName(m: int): (r: string)
    ensures |r| == 3
  {
    if m == 1 then "Jan" else if m == 2 then "Feb" else if m == 3 then "Mar" else if m == 4 then "Apr"
    else if m == 5 then "May" else if m == 6 then "Jun" else if m == 7 then "Jul" else if m == 8 then "Aug"
    else if m == 9 then "Sep" else if m == 10 then "Oct" else if m == 11 then "Nov" else "Dec"
  }

  // ---------- printing ----------

  function DigitChar(n: int): (c: char)
    requires 0 <= n < 10
    ensures IsDigit(c) && c as int - '0' as int == n
  {
    ('0' as int + n) as char
  }

  predicate IsDigit(c: char) {
    '0' <= c <= '9'
  }

  function Two(n: int): (r: string)
    requires 0 <= n < 100
    ensures |r| == 2
  {
    [DigitChar(n / 10), DigitChar(n % 10)]
  }

  /** Decimal digits, at least `width` of them. */
  function Padded(n: nat, width: nat): (r: string)
    ensures |r| >= width && forall i :: 0 <= i < |r| ==> IsDigit(r[i])
    decreases n, width
  {
    if n == 0 && width == 0 then []
    else Padded(n / 10, if width == 0 then 0 else width - 1) + [DigitChar(n % 10)]
  }

  function Year(y: int): string {
    if y < 0 then "-" + Padded(-y, 4) else Padded(y, 4)
  }

  function FormatTime(c: Civil): string
    requires IsTime(c)
  {
    Two(c.hour) + (":" + (Two(c.minute) + (":" + (Two(c.second) + " GMT"))))
  }

  /** time.Format(http.TimeFormat). */
  function FormatDate(c: Civil): string
    requires IsTime(c)
  {
    DayName(Weekday(c)) + (", " + (Two(c.day) + (" " + (MonthName(c.month) + (" " + (Year(c.year) + (" " + FormatTime(c))))))))
  }

  datatype Status = Ongoing | Completed(expiry: Civil)

  predicate IsStatus(s: Status) {
    s.Completed? ==> IsTime(s.expiry)
  }

  function Print(s: Status): string
    requires IsStatus(s)
  {
    match s
    case Ongoing => "ongoing-request=\"true\""
    case Completed(c) => "ongoing-request=\"false\"" + ([','] + (" expiry-date" + (['='] + ("\"" + (FormatDate(c) + "\"")))))
  }

  // ---------- parsing dates ----------

  datatype Parsed<T> = Bad | Got(value: T, rest: string)

  function CutSpace(s: string): string {
    if s != [] && s[0] == ' ' then CutSpace(s[1..]) else s
  }

  /** A literal of the layout; a space matches any run of spaces. */
  function Skip(value: string, prefix: string): Parsed<()>
    decreases |prefix|
  {
    if prefix == [] then Got((), value)
    else if prefix[0] == ' ' then
      if value != [] && value[0] != ' ' then Bad else Skip(CutSpace(value), prefix[1..])
    else if value == [] || value[0] != prefix[0] then Bad
    else Skip(value[1..], prefix[1..])
  }

  function Lower(c: char): char {
    if 'A' <= c <= 'Z' then (c as int + 32) as char else c
  }

  /** The first three characters against a name, in either case. */
  predicate Matches(value: string, name: string)
    requires |name| == 3
  {
    && |value| >= 3
    && Lower(value[0]) == Lower(name[0]) && Lower(value[1]) == Lower(name[1]) && Lower(value[2]) == Lower(name[2])
  }

  function LookupDay(value: string, d: nat): Parsed<int>
    decreases 7 - d
  {
    if d >= 7 then Bad
    else if Matches(value, DayName(d)) then Got(d, value[3..])
    else LookupDay(value, d + 1)
  }

  function LookupMonth(value: string, m: nat): Parsed<int>
    decreases 13 - m
  {
    if m >= 13 then Bad
    else if Matches(value, MonthName(m)) then Got(m, value[3..])
    else LookupMonth(value, m + 1)
  }

  function DigitOf(c: char): int {
    c as int - '0' as int
  }

  /** One or two digits; exactly two if `fixed`. */
  function GetNum(value: string, fixed: bool): Parsed<int> {
    if value == [] || !IsDigit(value[0]) then Bad
    else if |value| < 2 || !IsDigit(value[1]) then
      if fixed then Bad else Got(DigitOf(value[0]), value[1..])
    else Got(DigitOf(value[0]) * 10 + DigitOf(value[1]), value[2..])
  }

  /** Four characters that must be digits. */
  function GetYear(value: string): Parsed<int> {
    if |value| < 4 || !(forall i :: 0 <= i < 4 ==> IsDigit(value[i])) then Bad
    else
      Got(DigitOf(value[0]) * 1000 + DigitOf(value[1]) * 100 + DigitOf(value[2]) * 10 + DigitOf(value[3]), value[4..])
  }

  function DigitRun(value: string): nat {
    if value == [] || !IsDigit(value[0]) then 0 else 1 + DigitRun(value[1..])
  }

  lemma {:induction false} DigitRunFits(value: string)
    ensures DigitRun(value) <= |value| && forall i :: 0 <= i < DigitRun(value) ==> IsDigit(value[i])
  {
    if value != [] && IsDigit(value[0]) { DigitRunFits(value[1..]); }
  }

  function Fraction(digits: string, scale: nat): int {
    if digits == [] then 0 else DigitOf(digits[0]) * scale + Fraction(digits[1..], scale / 10)
  }

  /** A fraction may follow the seconds though the layout has none; digits past the ninth are dropped. */
  function GetFraction(value: string): Parsed<int> {
    if |value| >= 2 && (value[0] == '.' || value[0] == ',') && IsDigit(value[1]) then
      DigitRunFits(value[1..]);
      var n := DigitRun(value[1..]);
      Got(Fraction(value[1..1 + n], 100_000_000), value[1 + n..])
    else Got(0, value)
  }

  function ParseClock(value: string, year: int, month: int, day: int): Option<Civil> {
    var hour := GetNum(value, false);
    if hour.Bad? || hour.value >= 24 then None
    else
      var c1 := Skip(hour.rest, ":");
      if c1.Bad? then None
      else
        var minute := GetNum(c1.rest, true);
        if minute.Bad? || minute.value >= 60 then None
        else
          var c2 := Skip(minute.rest, ":");
          if c2.Bad? then None
          else
            var second := GetNum(c2.rest, true);
            if second.Bad? || second.value >= 60 then None
            else
              var nanos := GetFraction(second.rest);
              if nanos.Bad? then None
              else
                var zone := Skip(nanos.rest, " GMT");
                if zone.Bad? || zone.rest != [] || !(1 <= day <= DaysIn(month, year)) then None
                else Some(Civil(year, month, day, hour.value, minute.value, second.value, nanos.value))
  }

  /** time.Parse(http.TimeFormat): the weekday must be one, but need not be the right one. */
  function ParseDate(value: string): Option<Civil> {
    var weekday := LookupDay(value, 0);
    if weekday.Bad? then None
    else
      var s1 := Skip(weekday.rest, ", ");
      if s1.Bad? then None
      else
        var day := GetNum(s1.rest, true);
        if day.Bad? then None
        else
          var s2 := Skip(day.rest, " ");
          if s2.Bad? then None else ParseMonth(s2.rest, day.value)
  }

  function ParseMonth(value: string, day: int): Option<Civil> {
    var month := LookupMonth(value, 1);
    if month.Bad? then None
    else
      var s3 := Skip(month.rest, " ");
      if s3.Bad? then None
      else
        var year := GetYear(s3.rest);
        if year.Bad? then None
        else
          var s4 := Skip(year.rest, " ");
          if s4.Bad? then None else ParseClock(s4.rest, year.value, month.value, day)
  }

  // ---------- parsing the header ----------

  /** strings.SplitN(s, sep, 2): what precedes the first separator, and what follows it if there is one. */
  function SplitFirst(s: string, sep: char): (string, Option<string>) {
    if s == [] then ([], None)
    else if s[0] == sep then ([], Some(s[1..]))
    else
      var (a, b) := SplitFirst(s[1..], sep);
      ([s[0]] + a, b)
  }

  predicate IsSpace(c: char) {
    || c == ' ' || ('\t' <= c <= '\r') || c == '\U{0085}' || c == '\U{00A0}' || c == '\U{1680}'
    || ('\U{2000}' <= c <= '\U{200a}') || c == '\U{2028}' || c == '\U{2029}' || c == '\U{202f}'
    || c == '\U{205f}' || c == '\U{3000}'
  }

  function TrimLeft(s: string, drop: char -> bool): string {
    if s != [] && drop(s[0]) then TrimLeft(s[1..], drop) else s
  }

  function TrimRight(s: string, drop: char -> bool): string {
    if s != [] && drop(s[|s| - 1]) then TrimRight(s[..|s| - 1], drop) else s
  }

  function Trim(s: string, drop: char -> bool): string {
    TrimRight(TrimLeft(s, drop), drop)
  }

  /** parseRestoreObjStatus; values without quotes are the deprecated form. */
  function Parse(hdr: string): Option<Status> {
    var (progress, expiry) := SplitFirst(hdr, ',');
    var (name, value) := SplitFirst(progress, '=');
    if value.None? || Trim(name, IsSpace) != "ongoing-request" then None
    else if value.value == "true" || value.value == "\"true\"" then
      if expiry.None? then Some(Ongoing) else None
    else if value.value == "false" || value.value == "\"false\"" then
      if expiry.None? then None else ParseExpiry(expiry.value)
    else None
  }

  function ParseExpiry(token: string): Option<Status> {
    var (name, value) := SplitFirst(token, '=');
    if value.None? || Trim(name, IsSpace) != "expiry-date" then None
    else
      var c := ParseDate(Trim(value.value, ch => ch == '"'));
      if c.None? then None else Some(Completed(c.value))
  }

  // ---------- each field reads back ----------

  lemma TwoReadsBack(n: int, rest: string, fixed: bool)
    requires 0 <= n < 100
    ensures GetNum(Two(n) + rest, fixed) == Got(n, rest)
  {
    var v := Two(n) + rest;
    assert v[0] == DigitChar(n / 10) && v[1] == DigitChar(n % 10) && v[2..] == rest;
  }

  lemma NameMatches(a: int, rest: string, name: string)
    requires |name| == 3 && 0 <= a < 7
    ensures Matches(DayName(a) + rest, name) <==> Matches(DayName(a), name)
    ensures (DayName(a) + rest)[3..] == rest
  {
    var v := DayName(a) + rest;
    assert v[0] == DayName(a)[0] && v[1] == DayName(a)[1] && v[2] == DayName(a)[2];
  }

  lemma DayReadsBack(d: int, rest: string)
    requires 0 <= d < 7
    ensures LookupDay(DayName(d) + rest, 0) == Got(d, rest)
  {
    DayFoundFrom(d, rest, 0);
  }

  lemma {:induction false} DayFoundFrom(d: int, rest: string, from: nat)
    requires from <= d < 7
    ensures LookupDay(DayName(d) + rest, from) == Got(d, rest)
    decreases d - from
  {
    NameMatches(d, rest, DayName(from));
    if from < d {
      DayFoundFrom(d, rest, from + 1);
    }
  }

  lemma MonthMatches(m: int, rest: string, name: string)
    requires |name| == 3 && 1 <= m <= 12
    ensures Matches(MonthName(m) + rest, name) <==> Matches(MonthName(m), name)
    ensures (MonthName(m) + rest)[3..] == rest
  {
    var v := MonthName(m) + rest;
    assert v[0] == MonthName(m)[0] && v[1] == MonthName(m)[1] && v[2] == MonthName(m)[2];
  }

  lemma {:induction false} MonthFoundFrom(m: int, rest: string, from: nat)
    requires 1 <= from <= m <= 12
    ensures LookupMonth(MonthName(m) + rest, from) == Got(m, rest)
    decreases m - from
  {
    MonthMatches(m, rest, MonthName(from));
    if from < m {
      MonthFoundFrom(m, rest, from + 1);
    }
  }

  /** A literal and what follows it, which does not start with a space. */
  lemma SpaceSkipped(rest: string)
    requires rest != [] && rest[0] != ' '
    ensures Skip(" " + rest, " ") == Got((), rest)
  {
    var v := " " + rest;
    assert v[1..] == rest;
    assert CutSpace(v) == CutSpace(rest) == rest;
    assert " "[1..] == [];
  }

  lemma CharSkipped(c: char, rest: string)
    requires c != ' '
    ensures Skip([c] + rest, [c]) == Got((), rest)
  {
    assert ([c] + rest)[1..] == rest && [c][1..] == [];
  }

  lemma SkipFirst(c: char, value: string, prefix: string)
    requires c != ' '
    ensures Skip([c] + value, [c] + prefix) == Skip(value, prefix)
  {
    assert ([c] + value)[1..] == value && ([c] + prefix)[1..] == prefix;
  }

  lemma CommaSpaceSkipped(rest: string)
    requires rest != [] && rest[0] != ' '
    ensures Skip(", " + rest, ", ") == Got((), rest)
  {
    var v, p := " " + rest, " ";
    assert Skip(v, p) == Got((), rest) by { SpaceSkipped(rest); }
    SkipFirst(',', v, p);
    assert ", " + rest == [','] + v && ", " == [','] + p;
  }

  lemma ZoneSkipped()
    ensures Skip(" GMT", " GMT") == Got((), "")
  {
    assert CutSpace(" GMT") == "GMT" by { assert " GMT"[1..] == "GMT"; }
    assert " GMT"[1..] == "GMT" && "GMT"[1..] == "MT" && "MT"[1..] == "T" && "T"[1..] == "";
    assert Skip("T", "T") == Got((), "");
    assert Skip("MT", "MT") == Got((), "");
    assert Skip("GMT", "GMT") == Got((), "");
  }

  lemma {:induction false} PaddedExactly(n: nat, width: nat)
    requires width <= 4 && n < Power10(width)
    ensures |Padded(n, width)| == width
    decreases width
  {
    if width == 0 {
    } else {
      PaddedExactly(n / 10, width - 1);
    }
  }

  function Power10(k: nat): nat {
    if k == 0 then 1 else 10 * Power10(k - 1)
  }

  lemma {:induction false} PaddedLong(n: nat, width: nat)
    requires width <= 4 && n >= Power10(width)
    ensures |Padded(n, width)| > width
    decreases width
  {
    if width > 0 {
      PaddedLong(n / 10, width - 1);
    }
  }

  lemma YearReadsBack(y: int, rest: string)
    requires 0 <= y <= 9999
    ensures GetYear(Year(y) + rest) == Got(y, rest)
  {
    assert Power10(4) == 10 * Power10(3) && Power10(3) == 10 * Power10(2) && Power10(2) == 10 * Power10(1);
    assert Power10(4) == 10000;
    PaddedExactly(y, 4);
    PaddedDigits(y);
    DecimalDigits(y);
    FourDigitsRead(y / 1000, y / 100 % 10, y / 10 % 10, y % 10, y, rest);
  }

  lemma DecimalDigits(y: int)
    requires 0 <= y <= 9999
    ensures 0 <= y / 1000 < 10
    ensures y == y / 1000 * 1000 + y / 100 % 10 * 100 + y / 10 % 10 * 10 + y % 10
  {
    var a, b := y / 10, y / 100;
    assert b == a / 10 && y / 1000 == b / 10;
    assert y == 10 * a + y % 10 && a == 10 * b + a % 10 && b == 10 * (b / 10) + b % 10;
  }

  lemma FourDigitsRead(a: int, b: int, c: int, d: int, y: int, rest: string)
    requires 0 <= a < 10 && 0 <= b < 10 && 0 <= c < 10 && 0 <= d < 10 && y == a * 1000 + b * 100 + c * 10 + d
    ensures GetYear([DigitChar(a), DigitChar(b), DigitChar(c), DigitChar(d)] + rest) == Got(y, rest)
  {
    var v := [DigitChar(a), DigitChar(b), DigitChar(c), DigitChar(d)] + rest;
    assert v[0] == DigitChar(a) && v[1] == DigitChar(b) && v[2] == DigitChar(c) && v[3] == DigitChar(d);
    assert v[4..] == rest;
  }

  lemma PaddedDigits(y: int)
    requires 0 <= y <= 9999 && |Padded(y, 4)| == 4
    ensures Padded(y, 4) == [DigitChar(y / 1000), DigitChar(y / 100 % 10), DigitChar(y / 10 % 10), DigitChar(y % 10)]
  {
    var a, b, c := y / 10, y / 10 / 10, y / 10 / 10 / 10;
    assert Padded(y, 4) == Padded(a, 3) + [DigitChar(y % 10)];
    assert Padded(a, 3) == Padded(b, 2) + [DigitChar(a % 10)];
    assert Padded(b, 2) == Padded(c, 1) + [DigitChar(b % 10)];
    assert Padded(c, 1) == Padded(c / 10, 0) + [DigitChar(c % 10)];
    assert c / 10 == 0 && Padded(0, 0) == [];
    assert b == y / 100 && c == y / 1000 && c % 10 == c;
  }

  // ---------- whole dates ----------

  lemma ClockReadsBack(c: Civil)
    requires IsTime(c)
    ensures ParseClock(FormatTime(c), c.year, c.month, c.day) == Some(c.(nanos := 0))
  {
    var t3 := Two(c.second) + " GMT";
    var t2 := Two(c.minute) + (":" + t3);
    assert GetNum(FormatTime(c), false) == Got(c.hour, ":" + t2) by { TwoReadsBack(c.hour, ":" + t2, false); }
    assert Skip(":" + t2, ":") == Got((), t2) by { CharSkipped(':', t2); }
    assert GetNum(t2, true) == Got(c.minute, ":" + t3) by { TwoReadsBack(c.minute, ":" + t3, true); }
    assert Skip(":" + t3, ":") == Got((), t3) by { CharSkipped(':', t3); }
    assert GetNum(t3, true) == Got(c.second, " GMT") by { TwoReadsBack(c.second, " GMT", true); }
    ZoneSkipped();
  }

  lemma TwoStarts(n: int, rest: string)
    requires 0 <= n < 100
    ensures Two(n) + rest != [] && (Two(n) + rest)[0] != ' '
  {
    assert (Two(n) + rest)[0] == DigitChar(n / 10);
  }

  lemma YearStarts(y: int, rest: string)
    ensures Year(y) + rest != [] && (Year(y) + rest)[0] != ' '
  {
    assert Year(y) != [];
    assert (Year(y) + rest)[0] == Year(y)[0];
  }

  /** From the month on, a date reads back exactly if its year has four digits. */
  lemma MonthReadsBack(c: Civil)
    requires IsTime(c)
    ensures var tail := MonthName(c.month) + (" " + (Year(c.year) + (" " + FormatTime(c))));
            ParseMonth(tail, c.day) == if 0 <= c.year <= 9999 then Some(c.(nanos := 0)) else None
  {
    var clock := FormatTime(c);
    var fromYear := Year(c.year) + (" " + clock);
    MonthFoundFrom(c.month, " " + fromYear, 1);
    YearStarts(c.year, " " + clock);
    SpaceSkipped(fromYear);
    if 0 <= c.year <= 9999 {
      YearReadsBack(c.year, " " + clock);
      TwoStarts(c.hour, ":" + (Two(c.minute) + (":" + (Two(c.second) + " GMT"))));
      SpaceSkipped(clock);
      ClockReadsBack(c);
    } else {
      OddYearFails(c.year, " " + clock);
    }
  }

  /** Where the year ends early or late, what follows it does not fit the layout. */
  lemma OddYearFails(y: int, rest: string)
    requires y < 0 || y > 9999
    ensures GetYear(Year(y) + rest).Bad? || Skip(GetYear(Year(y) + rest).rest, " ").Bad?
  {
    var v := Year(y) + rest;
    if y < 0 {
      assert v[0] == '-';
    } else {
      assert Power10(4) == 10 * Power10(3) && Power10(3) == 10 * Power10(2) && Power10(2) == 10 * Power10(1);
      assert Power10(4) == 10000;
      PaddedLong(y, 4);
      assert v[4..][0] == Padded(y, 4)[4];
    }
  }

  /** A printed date reads back, to the second, exactly if its year is within 0..9999; otherwise it is refused. */
  lemma DateReadsBack(c: Civil)
    requires IsTime(c)
    ensures ParseDate(FormatDate(c)) == if 0 <= c.year <= 9999 then Some(c.(nanos := 0)) else None
  {
    var fromMonth := MonthName(c.month) + (" " + (Year(c.year) + (" " + FormatTime(c))));
    var fromDay := Two(c.day) + (" " + fromMonth);
    assert FormatDate(c) == DayName(Weekday(c)) + (", " + fromDay);
    DayReadsBack(Weekday(c), ", " + fromDay);
    TwoStarts(c.day, " " + fromMonth);
    CommaSpaceSkipped(fromDay);
    TwoReadsBack(c.day, " " + fromMonth, true);
    assert fromMonth[0] == MonthName(c.month)[0] && fromMonth[0] != ' ';
    SpaceSkipped(fromMonth);
    MonthReadsBack(c);
  }

  // ---------- the header ----------

  lemma {:induction false} SplitFound(a: string, sep: char, b: string)
    requires sep !in a
    ensures SplitFirst(a + ([sep] + b), sep) == (a, Some(b))
  {
    var s := a + ([sep] + b);
    if a == [] {
      assert s == [sep] + b && s[1..] == b;
    } else {
      assert s[1..] == a[1..] + ([sep] + b) && s[0] == a[0];
      SplitFound(a[1..], sep, b);
      assert [a[0]] + a[1..] == a;
    }
  }

  lemma {:induction false} SplitNone(a: string, sep: char)
    requires sep !in a
    ensures SplitFirst(a, sep) == (a, None)
  {
    if a != [] {
      SplitNone(a[1..], sep);
      assert [a[0]] + a[1..] == a;
    }
  }

  /** What neither starts nor ends with a dropped character is left alone. */
  lemma TrimKeeps(s: string, drop: char -> bool)
    requires s != [] && !drop(s[0]) && !drop(s[|s| - 1])
    ensures Trim(s, drop) == s
  {
  }

  lemma TrimQuotes(s: string, drop: char -> bool)
    requires s != [] && drop('"') && !drop(s[0]) && !drop(s[|s| - 1])
    ensures Trim("\"" + (s + "\""), drop) == s
  {
    var body := s + "\"";
    assert ("\"" + body)[1..] == body && body[0] == s[0];
    assert TrimLeft("\"" + body, drop) == TrimLeft(body, drop) == body;
    assert body[|body| - 1] == '"' && body[..|body| - 1] == s;
    assert TrimRight(body, drop) == TrimRight(s, drop) == s;
  }

  lemma TrimLeading(s: string, drop: char -> bool)
    requires s != [] && drop(' ') && !drop(s[0]) && !drop(s[|s| - 1])
    ensures Trim(" " + s, drop) == s
  {
    assert (" " + s)[1..] == s;
    assert TrimLeft(" " + s, drop) == TrimLeft(s, drop) == s;
  }

  lemma DateEnds(c: Civil)
    requires IsTime(c)
    ensures var d := FormatDate(c);
            d != [] && d[0] != '"' && d[|d| - 1] == 'T'
  {
    var clock := FormatTime(c);
    assert clock[|clock| - 1] == 'T';
    var d := FormatDate(c);
    assert d[0] == DayName(Weekday(c))[0];
    assert d[|d| - 1] == clock[|clock| - 1];
  }

  lemma ExpiryNameParses(date: string)
    ensures SplitFirst(" expiry-date" + (['='] + date), '=') == (" expiry-date", Some(date))
    ensures Trim(" expiry-date", IsSpace) == "expiry-date"
  {
    SplitFound(" expiry-date", '=', date);
    assert " expiry-date" == " " + "expiry-date";
    TrimLeading("expiry-date", IsSpace);
  }

  function Quoted(date: string, quoted: bool): string {
    if quoted then "\"" + (date + "\"") else date
  }

  lemma QuotesTrimmed(c: Civil, quoted: bool)
    requires IsTime(c)
    ensures Trim(Quoted(FormatDate(c), quoted), ch => ch == '"') == FormatDate(c)
  {
    var drop := ch => ch == '"';
    DateEnds(c);
    if quoted {
      TrimQuotes(FormatDate(c), drop);
    } else {
      TrimKeeps(FormatDate(c), drop);
    }
  }

  lemma ExpiryParses(c: Civil, quoted: bool)
    requires IsTime(c)
    ensures ParseExpiry(" expiry-date" + (['='] + Quoted(FormatDate(c), quoted)))
         == if 0 <= c.year <= 9999 then Some(Completed(c.(nanos := 0))) else None
  {
    ExpiryNameParses(Quoted(FormatDate(c), quoted));
    QuotesTrimmed(c, quoted);
    DateReadsBack(c);
  }

  lemma ProgressParses(value: string)
    requires '=' !in value
    ensures SplitFirst("ongoing-request" + (['='] + value), '=') == ("ongoing-request", Some(value))
    ensures Trim("ongoing-request", IsSpace) == "ongoing-request"
  {
    SplitFound("ongoing-request", '=', value);
    TrimKeeps("ongoing-request", IsSpace);
  }

  lemma NoComma(value: string)
    requires ',' !in value
    ensures ',' !in "ongoing-request" + (['='] + value)
  {
  }

  lemma CompletedParses(value: string, expiry: string)
    requires value == "false" || value == "\"false\""
    ensures Parse(("ongoing-request" + (['='] + value)) + ([','] + expiry)) == ParseExpiry(expiry)
  {
    var progress := "ongoing-request" + (['='] + value);
    assert SplitFirst(progress + ([','] + expiry), ',') == (progress, Some(expiry)) by {
      NoComma(value);
      SplitFound(progress, ',', expiry);
    }
    ProgressParses(value);
    SplitParses(progress + ([','] + expiry), progress, Some(expiry), value);
  }

  lemma OngoingParses(value: string)
    requires value == "true" || value == "\"true\""
    ensures Parse("ongoing-request" + (['='] + value)) == Some(Ongoing)
  {
    var progress := "ongoing-request" + (['='] + value);
    assert SplitFirst(progress, ',') == (progress, None) by {
      NoComma(value);
      SplitNone(progress, ',');
    }
    ProgressParses(value);
    SplitParses(progress, progress, None, value);
  }

  /** What the tokens come to. */
  lemma SplitParses(hdr: string, progress: string, expiry: Option<string>, value: string)
    requires SplitFirst(hdr, ',') == (progress, expiry)
    requires SplitFirst(progress, '=') == ("ongoing-request", Some(value))
    requires Trim("ongoing-request", IsSpace) == "ongoing-request"
    ensures value == "true" || value == "\"true\"" ==> Parse(hdr) == if expiry.None? then Some(Ongoing) else None
    ensures value == "false" || value == "\"false\"" ==>
              Parse(hdr) == if expiry.None? then None else ParseExpiry(expiry.value)
  {
    assert "false" != "true" && "false" != "\"true\"" && "\"false\"" != "true" && "\"false\"" != "\"true\"" by {
      assert |"false"| == 5 && |"true"| == 4 && |"\"true\""| == 6 && |"\"false\""| == 7;
    }
  }

  /** What printing loses: the fraction of a second. */
  function ToSecond(s: Status): Status {
    match s
    case Ongoing => s
    case Completed(c) => Completed(c.(nanos := 0))
  }

  /** Every year of the status can be written with four digits. */
  predicate FourDigitYear(s: Status) {
    s.Completed? ==> 0 <= s.expiry.year <= 9999
  }

  /**
   Round trip, exactly: a printed status reads back, to the second, if and only if its year is within
   0..9999; any other is refused by the parser.
   */
  lemma ParsePrint(s: Status)
    requires IsStatus(s)
    ensures Parse(Print(s)) == if FourDigitYear(s) then Some(ToSecond(s)) else None
  {
    match s
    case Ongoing =>
      OngoingParses("\"true\"");
      assert Print(s) == "ongoing-request" + (['='] + "\"true\"");
    case Completed(c) =>
      var expiry := " expiry-date" + (['='] + ("\"" + (FormatDate(c) + "\"")));
      assert "ongoing-request=\"false\"" == "ongoing-request" + (['='] + "\"false\"");
      assert Print(s) == ("ongoing-request" + (['='] + "\"false\"")) + ([','] + expiry);
      CompletedParses("\"false\"", expiry);
      ExpiryParses(c, true);
  }

  lemma Regroup(a: string, b: string, c: string, d: string, e: string)
    ensures (a + (b + (c + d))) + e == a + (b + (c + (d + e)))
  {
  }

  /** The older headers, without quotes, still read the same. */
  lemma OldOngoingParses(hdr: string)
    requires hdr == "ongoing-request=true"
    ensures Parse(hdr) == Some(Ongoing)
  {
    OngoingParses("true");
    assert hdr == "ongoing-request" + (['='] + "true");
  }

  lemma OldCompletedParses(head: string, c: Civil)
    requires IsTime(c) && 0 <= c.year <= 9999 && head == "ongoing-request=false, expiry-date="
    ensures Parse(head + FormatDate(c)) == Some(Completed(c.(nanos := 0)))
  {
    var progress := "ongoing-request" + (['='] + "false");
    assert head == progress + ([','] + (" expiry-date" + ['=']));
    Regroup(progress, [','], " expiry-date", ['='], FormatDate(c));
    CompletedParses("false", " expiry-date" + (['='] + FormatDate(c)));
    ExpiryParses(c, false);
  }

  /** So two statuses print alike exactly if they agree to the second. */
  lemma PrintDetermines(s: Status, t: Status)
    requires IsStatus(s) && IsStatus(t) && FourDigitYear(s) && FourDigitYear(t)
    ensures Print(s) == Print(t) <==> ToSecond(s) == ToSecond(t)
  {
    ParsePrint(s);
    ParsePrint(t);
    PrintToSecond(s);
    PrintToSecond(t);
  }

  lemma PrintToSecond(s: Status)
    requires IsStatus(s)
    ensures IsStatus(ToSecond(s)) && Print(ToSecond(s)) == Print(s)
  {
    if s.Completed? { FormatToSecond(s.expiry, s.expiry.(nanos := 0)); }
  }

  lemma FormatToSecond(c: Civil, d: Civil)
    requires IsTime(c) && IsTime(d) && d == c.(nanos := 0)
    ensures FormatDate(d) == FormatDate(c)
  {
    assert Weekday(d) == Weekday(c);
    assert FormatTime(d) == FormatTime(c);
  }

  // ---------- the printed date is the right one ----------

  /** The same time of the next day. */
  function NextDay(c: Civil): Civil {
    if c.day < DaysIn(c.month, c.year) then c.(day := c.day + 1)
    else if c.month < 12 then c.(day := 1, month := c.month + 1)
    else c.(day := 1, month := 1, year := c.year + 1)
  }

  /** The day numbers of neighbouring days are neighbours, over months, years and leap days. */
  lemma NextDayNumber(c: Civil)
    requires IsTime(c)
    ensures IsTime(NextDay(c)) && DayNumber(NextDay(c)) == DayNumber(c) + 1
  {
    if c.day < DaysIn(c.month, c.year) {
    } else if c.month == 2 {
      EndOfFebruary(c);
    } else if DaysIn(c.month, c.year) == 30 {
      EndOfShortMonth(c);
    } else {
      EndOfLongMonth(c);
    }
  }

  lemma EndOfFebruary(c: Civil)
    requires IsTime(c) && c.month == 2 && c.day == DaysIn(2, c.year)
    ensures IsTime(NextDay(c)) && DayNumber(NextDay(c)) == DayNumber(c) + 1
  {
    LeapDays(c.year);
  }

  lemma EndOfShortMonth(c: Civil)
    requires IsTime(c) && (c.month == 4 || c.month == 6 || c.month == 9 || c.month == 11) && c.day == 30
    ensures IsTime(NextDay(c)) && DayNumber(NextDay(c)) == DayNumber(c) + 1
  {
  }

  lemma EndOfLongMonth(c: Civil)
    requires IsTime(c) && c.month != 2 && DaysIn(c.month, c.year) == c.day == 31
    ensures IsTime(NextDay(c)) && DayNumber(NextDay(c)) == DayNumber(c) + 1
  {
  }

  /** How the leap days up to a year exceed those up to the year before. */
  lemma LeapDays(y: int)
    ensures (y / 4 - y / 100 + y / 400) - ((y - 1) / 4 - (y - 1) / 100 + (y - 1) / 400) == if IsLeap(y) then 1 else 0
  {
    Quotients(y, 4);
    Quotients(y, 100);
    Quotients(y, 400);
    Multiples(y, 100, 4);
    Multiples(y, 4, 25);
  }

  lemma Multiples(y: int, d: int, n: int)
    requires d > 0 && n > 0
    ensures y % (d * n) == 0 ==> y % d == 0
  {
    if y % (d * n) == 0 {
      var q := y / (d * n);
      assert y == d * n * q == d * (n * q);
      DivModUnique(y, d, n * q, 0);
    }
  }

  lemma Quotients(y: int, d: int)
    requires d > 1
    ensures y / d - (y - 1) / d == if y % d == 0 then 1 else 0
  {
    var q, r := y / d, y % d;
    if r == 0 {
      DivModUnique(y - 1, d, q - 1, d - 1);
    } else {
      DivModUnique(y - 1, d, q, r - 1);
    }
  }

  /** The days of the week, in turn. */
  function WeekdayAt(k: int): string {
    ["Sun", "Mon", "Tue", "Wed", "Thu", "Fri", "Sat"][k % 7]
  }

  /** The day after a printed weekday is printed as the next weekday. */
  lemma WeekdaysFollow(c: Civil) returns (k: int)
    requires IsTime(c)
    ensures IsTime(NextDay(c))
    ensures FormatDate(c)[..3] == WeekdayAt(k) && FormatDate(NextDay(c))[..3] == WeekdayAt(k + 1)
  {
    NextDayNumber(c);
    k := DayNumber(c) + 3;
    Weekdays(c);
    Weekdays(NextDay(c));
  }

  lemma Weekdays(c: Civil)
    requires IsTime(c)
    ensures FormatDate(c)[..3] == WeekdayAt(DayNumber(c) + 3)
  {
    var d := Weekday(c);
    assert FormatDate(c)[..3] == DayName(d);
  }

  /** The example of section 7.1.1.1 of RFC 7231, which says which weekday it was. */
  lemma PrintsExample(c: Civil)
    requires c == Civil(1994, 11, 6, 8, 49, 37, 0)
    ensures IsTime(c) && FormatDate(c) == "Sun, 06 Nov 1994 08:49:37 GMT"
  {
    assert Weekday(c) == 0;
    YearDigits(c.year);
    TimeJoined(Two(c.hour), Two(c.minute), Two(c.second));
    DateJoined(DayName(0), Two(c.day), MonthName(c.month), Year(c.year), FormatTime(c));
  }

  lemma TimeJoined(h: string, m: string, s: string)
    requires h == "08" && m == "49" && s == "37"
    ensures h + (":" + (m + (":" + (s + " GMT")))) == "08:49:37 GMT"
  {
  }

  lemma DateJoined(w: string, d: string, m: string, y: string, t: string)
    requires w == "Sun" && d == "06" && m == "Nov" && y == "1994" && t == "08:49:37 GMT"
    ensures w + (", " + (d + (" " + (m + (" " + (y + (" " + t))))))) == "Sun, 06 Nov 1994 08:49:37 GMT"
  {
  }

  lemma YearDigits(y: int)
    requires 1000 <= y <= 9999
    ensures Year(y) == [DigitChar(y / 1000), DigitChar(y / 100 % 10), DigitChar(y / 10 % 10), DigitChar(y % 10)]
  {
    assert Power10(4) == 10 * Power10(3) && Power10(3) == 10 * Power10(2) && Power10(2) == 10 * Power10(1);
    PaddedExactly(y, 4);
    PaddedDigits(y);
  }

  /** The header, with the date in quotes. */
  lemma PrintsHeader(c: Civil)
    requires IsTime(c)
    ensures Print(Ongoing) == "ongoing-request=\"true\""
    ensures Print(Completed(c)) == "ongoing-request=\"false\", expiry-date=\"" + FormatDate(c) + "\""
  {
    var date := FormatDate(c);
    var head := HeadOf();
    HeaderJoined("ongoing-request=\"false\"", [','], " expiry-date", ['='], "\"", date + "\"", head);
    ConcatAssoc(head, date, "\"");
  }

  /** The header up to the date. */
  lemma HeadOf() returns (head: string)
    ensures head == "ongoing-request=\"false\", expiry-date=\""
    ensures "ongoing-request=\"false\"" + ([','] + (" expiry-date" + (['='] + "\""))) == head
  {
    head := "ongoing-request=\"false\", expiry-date=\"";
  }

  lemma HeaderJoined(a: string, b: string, c: string, d: string, e: string, rest: string, head: string)
    requires a + (b + (c + (d + e))) == head
    ensures a + (b + (c + (d + (e + rest)))) == head + rest
  {
  }

  /** The month is printed by its name. */
  lemma MonthsPrinted(c: Civil)
    requires IsTime(c)
    ensures |FormatDate(c)| > 11
    ensures FormatDate(c)[8..11]
         == ["Jan", "Feb", "Mar", "Apr", "May", "Jun", "Jul", "Aug", "Sep", "Oct", "Nov", "Dec"][c.month - 1]
  {
    assert FormatDate(c)[8..11] == MonthName(c.month);
  }
}
