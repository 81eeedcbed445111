/** The two time functions the feed uses on a show's date:
    time.strptime(s, "%m/%d/%y") and time.strftime with the item's date
    pattern, plus the order of the struct_time values they work on. */
module TimeFormat {
  import opened Wrappers
  import opened Digits
  import opened Calendar

  /** time.struct_time: its nine fields, in tuple order. */
  datatype TimeStruct = TimeStruct(
    year: int, mon: int, mday: int,
    hour: int, min: int, sec: int,
    wday: int, yday: int, isdst: int)

  /** What strptime(s, "%m/%d/%y") can return: a calendar date with a
      two-digit year read into 1969-2068, midnight, the weekday and day of
      the year of that date, and no daylight-saving information. */
  predicate IsParsedDate(t: TimeStruct) {
    && 1969 <= t.year <= 2068
    && ValidDate(t.year, t.mon, t.mday)
    && t.hour == 0 && t.min == 0 && t.sec == 0
    && t.wday == Weekday(t.year, t.mon, t.mday)
    && t.yday == DayOfYear(t.year, t.mon, t.mday)
    && t.isdst == -1
  }

  type ParsedDate = t: TimeStruct | IsParsedDate(t)
    witness TimeStruct(1970, 1, 1, 0, 0, 0, 3, 1, -1)

  // ------------------------------------------------------------- strptime

  /** The index of the first c in s, or |s| when there is none. */
  function IndexOf(s: string, c: char): (i: nat)
    ensures i <= |s| && (i < |s| ==> s[i] == c)
    ensures forall j :: 0 <= j < i ==> s[j] != c
  {
    if s == [] then 0 else if s[0] == c then 0 else 1 + IndexOf(s[1..], c)
  }

  /** A whole match of the %m pattern 1[0-2]|0[1-9]|[1-9]. */
  function MonthField(t: string): (r: Option<nat>)
    ensures r.Some? ==> 1 <= r.value <= 12
  {
    if |t| == 2 && t[0] == '1' && '0' <= t[1] <= '2' then Some(10 + DigitValue(t[1]))
    else if |t| == 2 && t[0] == '0' && '1' <= t[1] <= '9' then Some(DigitValue(t[1]))
    else if |t| == 1 && '1' <= t[0] <= '9' then Some(DigitValue(t[0]))
    else None
  }

  /** A whole match of the %d pattern 3[01]|[12]\d|0[1-9]|[1-9]| [1-9]. */
  function DayField(t: string): (r: Option<nat>)
    ensures r.Some? ==> 1 <= r.value <= 31
  {
    if |t| == 2 && t[0] == '3' && '0' <= t[1] <= '1' then Some(30 + DigitValue(t[1]))
    else if |t| == 2 && '1' <= t[0] <= '2' && IsDigit(t[1]) then Some(10 * DigitValue(t[0]) + DigitValue(t[1]))
    else if |t| == 2 && (t[0] == '0' || t[0] == ' ') && '1' <= t[1] <= '9' then Some(DigitValue(t[1]))
    else if |t| == 1 && '1' <= t[0] <= '9' then Some(DigitValue(t[0]))
    else None
  }

  /** A whole match of the %y pattern \d\d, read into a four-digit year:
      00-68 are 2000-2068, 69-99 are 1969-1999. */
  function YearField(t: string): (r: Option<int>)
    ensures r.Some? ==> 1969 <= r.value <= 2068
  {
    if |t| == 2 && IsDigit(t[0]) && IsDigit(t[1]) then
      var yy := 10 * DigitValue(t[0]) + DigitValue(t[1]);
      Some(if yy <= 68 then 2000 + yy else 1900 + yy)
    else None
  }

  /** time.strptime(s, "%m/%d/%y"); None where it raises ValueError (no
      match, unconverted text after the year, or a day the month does not
      have). None of the three fields can hold '/', so each one is the text
      up to the next '/'. */
  function Strptime(s: string): Option<ParsedDate> {
    var i := IndexOf(s, '/');
    if i == |s| then None
    else
      var rest := s[i + 1..];
      var j := IndexOf(rest, '/');
      if j == |rest| then None
      else FromFields(MonthField(s[..i]), DayField(rest[..j]), YearField(rest[j + 1..]))
  }

  /** The date of three matched fields; None when a field did not match or
      the day is past the end of the month. */
  function FromFields(m: Option<nat>, d: Option<nat>, y: Option<int>): Option<ParsedDate>
    requires m.Some? ==> 1 <= m.value <= 12
    requires y.Some? ==> 1969 <= y.value <= 2068
  {
    match (m, d, y)
    case (Some(m), Some(d), Some(y)) =>
      if 1 <= d <= DaysInMonth(y, m) then
        Some(TimeStruct(y, m, d, 0, 0, 0, Weekday(y, m, d), DayOfYear(y, m, d), -1))
      else None
    case _ => None
  }

  /** The two spellings of a date in the viewing-history export: with
      leading zeros (strftime("%m/%d/%y")) and without. */
  function PaddedMdy(t: ParsedDate): string {
    Pad2(t.mon) + "/" + Pad2(t.mday) + "/" + Pad2(t.year % 100)
  }

  function UnpaddedMdy(t: ParsedDate): string {
    NatToString(t.mon) + "/" + NatToString(t.mday) + "/" + Pad2(t.year % 100)
  }

  lemma YearFieldOfPad2(t: ParsedDate)
    ensures YearField(Pad2(t.year % 100)) == Some(t.year)
  {
  }

  lemma MonthFieldOfPad2(m: nat)
    requires 1 <= m <= 12
    ensures MonthField(Pad2(m)) == Some(m)
  {
  }

  lemma DayFieldOfPad2(d: nat)
    requires 1 <= d <= 31
    ensures DayField(Pad2(d)) == Some(d)
  {
  }

  /** Text with two slashes is split at them into its three fields. */
  lemma StrptimeSplit(mt: string, dt: string, yt: string)
    requires '/' !in mt && '/' !in dt
    ensures Strptime(mt + "/" + dt + "/" + yt) == FromFields(MonthField(mt), DayField(dt), YearField(yt))
  {
    var s := mt + "/" + dt + "/" + yt;
    assert s[|mt|] == '/';
    assert IndexOf(s, '/') == |mt|;
    var rest := s[|mt| + 1..];
    assert rest == dt + "/" + yt;
    assert rest[|dt|] == '/';
    assert IndexOf(rest, '/') == |dt|;
    assert s[..|mt|] == mt && rest[..|dt|] == dt && rest[|dt| + 1..] == yt;
  }

  lemma StrptimeFields(mt: string, dt: string, yt: string, t: ParsedDate)
    requires '/' !in mt && '/' !in dt
    requires MonthField(mt) == Some(t.mon) && DayField(dt) == Some(t.mday) && YearField(yt) == Some(t.year)
    ensures Strptime(mt + "/" + dt + "/" + yt) == Some(t)
  {
    StrptimeSplit(mt, dt, yt);
  }

  /** strptime reads back the zero-padded spelling of every date it can return. */
  lemma StrptimePadded(t: ParsedDate)
    ensures Strptime(PaddedMdy(t)) == Some(t)
  {
    MonthFieldOfPad2(t.mon);
    DayFieldOfPad2(t.mday);
    YearFieldOfPad2(t);
    StrptimeFields(Pad2(t.mon), Pad2(t.mday), Pad2(t.year % 100), t);
  }

  /** ... and the spelling without leading zeros. */
  lemma StrptimeUnpadded(t: ParsedDate)
    ensures Strptime(UnpaddedMdy(t)) == Some(t)
  {
    var mt, dt := NatToString(t.mon), NatToString(t.mday);
    if t.mon >= 10 {
      assert mt == NatToString(1) + [DigitChar(t.mon % 10)];
    }
    if t.mday >= 10 {
      assert dt == NatToString(t.mday / 10) + [DigitChar(t.mday % 10)];
    }
    YearFieldOfPad2(t);
    StrptimeFields(mt, dt, Pad2(t.year % 100), t);
  }

  /** The example from the viewing-history format, in both spellings. */
  lemma StrptimeExample()
    ensures Strptime("01/02/23") == Some(TimeStruct(2023, 1, 2, 0, 0, 0, 0, 2, -1))
    ensures Strptime("1/2/23") == Strptime("01/02/23")
  {
    January2023(2);
    var jan2: ParsedDate := TimeStruct(2023, 1, 2, 0, 0, 0, 0, 2, -1);
    assert "01" + "/" + "02" + "/" + "23" == "01/02/23";
    StrptimeFields("01", "02", "23", jan2);
    assert "1" + "/" + "2" + "/" + "23" == "1/2/23";
    StrptimeFields("1", "2", "23", jan2);
  }

  /** A Thursday three days later. */
  lemma StrptimeExampleLater()
    ensures Strptime("01/05/23") == Some(TimeStruct(2023, 1, 5, 0, 0, 0, 3, 5, -1))
  {
    January2023(5);
    var jan5: ParsedDate := TimeStruct(2023, 1, 5, 0, 0, 0, 3, 5, -1);
    assert "01" + "/" + "05" + "/" + "23" == "01/05/23";
    StrptimeFields("01", "05", "23", jan5);
  }

  /** January 2023 began on a Sunday (weekday 6). */
  lemma January2023(d: int)
    requires 1 <= d <= 9
    ensures IsParsedDate(TimeStruct(2023, 1, d, 0, 0, 0, (d + 5) % 7, d, -1))
  {
    assert Ordinal(2023, 1, d) == DaysBeforeYear(2023) + d;
    assert DaysBeforeYear(2023) == 738520;
  }

  /** The first year of the two-digit year window, 1969. */
  lemma StrptimeWindowStart()
    ensures Strptime("12/31/69") == Some(TimeStruct(1969, 12, 31, 0, 0, 0, 2, 365, -1))
  {
    DecemberEnds(1969);
    var d: ParsedDate := TimeStruct(1969, 12, 31, 0, 0, 0, 2, 365, -1);
    assert "12" + "/" + "31" + "/" + "69" == "12/31/69";
    StrptimeFields("12", "31", "69", d);
  }

  /** The last year of the two-digit year window, 2068. */
  lemma StrptimeWindowEnd()
    ensures Strptime("12/31/68") == Some(TimeStruct(2068, 12, 31, 0, 0, 0, 0, 366, -1))
  {
    var d: ParsedDate := TimeStruct(2068, 12, 31, 0, 0, 0, 0, 366, -1);
    assert "12" + "/" + "31" + "/" + "68" == "12/31/68";
    StrptimeFields("12", "31", "68", d);
  }

  /** A leap day is accepted in a leap year ... */
  lemma StrptimeLeapDay()
    ensures Strptime("2/29/24") == Some(TimeStruct(2024, 2, 29, 0, 0, 0, 3, 60, -1))
  {
    var d: ParsedDate := TimeStruct(2024, 2, 29, 0, 0, 0, 3, 60, -1);
    assert "2" + "/" + "29" + "/" + "24" == "2/29/24";
    StrptimeFields("2", "29", "24", d);
  }

  /** ... and refused in any other year. */
  lemma StrptimeRejectsLeapDay()
    ensures Strptime("2/29/23") == None
  {
    assert "2" + "/" + "29" + "/" + "23" == "2/29/23";
    StrptimeSplit("2", "29", "23");
    assert MonthField("2") == Some(2) && DayField("29") == Some(29) && YearField("23") == Some(2023);
    assert DaysInMonth(2023, 2) == 28;
  }

  /** A month past December is refused. */
  lemma StrptimeRejectsMonth()
    ensures Strptime("13/40/99") == None
  {
    assert "13" + "/" + "40" + "/" + "99" == "13/40/99";
    StrptimeSplit("13", "40", "99");
  }

  /** Text left over after the two-digit year is refused. */
  lemma StrptimeRejectsLongYear()
    ensures Strptime("01/02/2023") == None
  {
    assert "01" + "/" + "02" + "/" + "2023" == "01/02/2023";
    StrptimeSplit("01", "02", "2023");
  }

  // ------------------------------------------------------------- ordering

  /** struct_time's '<': the nine fields compared as a tuple. */
  predicate TimeLess(a: TimeStruct, b: TimeStruct) {
    if a.year != b.year then a.year < b.year
    else if a.mon != b.mon then a.mon < b.mon
    else if a.mday != b.mday then a.mday < b.mday
    else if a.hour != b.hour then a.hour < b.hour
    else if a.min != b.min then a.min < b.min
    else if a.sec != b.sec then a.sec < b.sec
    else if a.wday != b.wday then a.wday < b.wday
    else if a.yday != b.yday then a.yday < b.yday
    else a.isdst < b.isdst
  }

  /** On parsed dates the tuple order is the order of the days on the
      calendar, and two dates neither of which is before the other are the
      same date. */
  lemma TimeLessIsChronological(a: ParsedDate, b: ParsedDate)
    ensures TimeLess(a, b) <==> Ordinal(a.year, a.mon, a.mday) < Ordinal(b.year, b.mon, b.mday)
    ensures !TimeLess(a, b) && !TimeLess(b, a) <==> a == b
  {
    OrdinalIsCalendarOrder(a.year, a.mon, a.mday, b.year, b.mon, b.mday);
  }

  // ------------------------------------------------------------- strftime

  const WeekdayNames: seq<string> := ["Mon", "Tue", "Wed", "Thu", "Fri", "Sat", "Sun"]
  const MonthNames: seq<string> :=
    ["Jan", "Feb", "Mar", "Apr", "May", "Jun", "Jul", "Aug", "Sep", "Oct", "Nov", "Dec"]

  /** strftime("%a, %d %b %Y %H:%M:%S -0700", t) in the C locale. */
  function ItemDate(t: ParsedDate): string {
    (WeekdayNames[t.wday] + ", ") + Pad2(t.mday) + (" " + MonthNames[t.mon - 1] + " ")
      + NatToString(t.year) + (" " + Pad2(t.hour) + ":" + Pad2(t.min) + ":" + Pad2(t.sec) + " -0700")
  }

  /** strftime("%Y-%m-%d", t). */
  function IsoDate(t: ParsedDate): string {
    NatToString(t.year) + "-" + Pad2(t.mon) + "-" + Pad2(t.mday)
  }

  /** The month numbered by a three-letter abbreviation. */
  function MonthNumber(name: string): Option<nat> {
    if name == "Jan" then Some(1) else if name == "Feb" then Some(2)
    else if name == "Mar" then Some(3) else if name == "Apr" then Some(4)
    else if name == "May" then Some(5) else if name == "Jun" then Some(6)
    else if name == "Jul" then Some(7) else if name == "Aug" then Some(8)
    else if name == "Sep" then Some(9) else if name == "Oct" then Some(10)
    else if name == "Nov" then Some(11) else if name == "Dec" then Some(12)
    else None
  }

  /** Reads day, month and year back out of an item date. */
  function ReadItemDate(s: string): Option<(int, int, int)> {
    if |s| == 31 && AllDigits(s[5..7]) && AllDigits(s[12..16]) && MonthNumber(s[8..11]).Some? then
      Some((ParseDigits(s[12..16]), MonthNumber(s[8..11]).value, ParseDigits(s[5..7])))
    else None
  }

  /** Reads year, month and day back out of a %Y-%m-%d date. */
  function ReadIsoDate(s: string): Option<(int, int, int)> {
    if |s| == 10 && AllDigits(s[..4]) && AllDigits(s[5..7]) && AllDigits(s[8..]) then
      Some((ParseDigits(s[..4]), ParseDigits(s[5..7]), ParseDigits(s[8..])))
    else None
  }

  lemma MonthNamesDistinct(m: int)
    requires 1 <= m <= 12
    ensures MonthNumber(MonthNames[m - 1]) == Some(m)
  {
    if m <= 6 {
      assert MonthNames[0] == "Jan" && MonthNames[1] == "Feb" && MonthNames[2] == "Mar";
      assert MonthNames[3] == "Apr" && MonthNames[4] == "May" && MonthNames[5] == "Jun";
    } else {
      assert MonthNames[6] == "Jul" && MonthNames[7] == "Aug" && MonthNames[8] == "Sep";
      assert MonthNames[9] == "Oct" && MonthNames[10] == "Nov" && MonthNames[11] == "Dec";
    }
  }

  lemma Slices(a: string, b: string, c: string)
    ensures (a + b + c)[..|a|] == a
    ensures (a + b + c)[|a|..|a| + |b|] == b
    ensures (a + b + c)[|a| + |b|..] == c
  {
  }

  /** The item date has a fixed width of 31 characters, names the weekday of
      the date, reads back to the same day, month and year, and ends in
      midnight at the fixed offset -0700. */
  lemma ItemDateRoundTrip(t: ParsedDate)
    ensures |ItemDate(t)| == 31
    ensures ItemDate(t)[..3] == WeekdayNames[Weekday(t.year, t.mon, t.mday)]
    ensures ReadItemDate(ItemDate(t)) == Some((t.year, t.mon, t.mday))
    ensures ItemDate(t)[16..] == " 00:00:00 -0700"
  {
    var head, day, mon := WeekdayNames[t.wday] + ", ", Pad2(t.mday), " " + MonthNames[t.mon - 1] + " ";
    var year, time := NatToString(t.year), " " + Pad2(t.hour) + ":" + Pad2(t.min) + ":" + Pad2(t.sec) + " -0700";
    FourDigits(t.year);
    ParseNatToString(t.year);
    MonthNamesDistinct(t.mon);
    assert |head| == 5 && |mon| == 5 && time == " 00:00:00 -0700";
    var s := ItemDate(t);
    assert s == (head + day + mon) + year + time;
    Slices(head + day + mon, year, time);
    Slices(head + day, mon, []);
    assert s[..12] == head + day + mon;
    Slices(head, day, mon);
    assert s[5..7] == day;
    assert s[8..11] == mon[1..4] == MonthNames[t.mon - 1];
    assert s[12..16] == year;
    assert s[..3] == head[..3];
  }

  /** The ISO date reads back to the same year, month and day. */
  lemma IsoDateRoundTrip(t: ParsedDate)
    ensures ReadIsoDate(IsoDate(t)) == Some((t.year, t.mon, t.mday))
  {
    var s := IsoDate(t);
    FourDigits(t.year);
    ParseNatToString(t.year);
    assert s[..4] == NatToString(t.year);
    assert s[5..7] == Pad2(t.mon);
    assert s[8..] == Pad2(t.mday);
  }

  /** Letters, digits, and the separators of a date. */
  predicate DateChar(c: char) {
    ('A' <= c <= 'Z') || ('a' <= c <= 'z') || IsDigit(c) || c == ' ' || c == ',' || c == ':' || c == '-'
  }

  predicate DateText(s: string) {
    forall i :: 0 <= i < |s| ==> DateChar(s[i])
  }

  lemma DateTextConcat(a: string, b: string)
    requires DateText(a) && DateText(b)
    ensures DateText(a + b)
  {
    forall i | 0 <= i < |a + b| ensures DateChar((a + b)[i]) {
      if i >= |a| {
        assert (a + b)[i] == b[i - |a|];
      }
    }
  }

  lemma DateTextIsPlain(s: string)
    requires DateText(s)
    ensures '<' !in s && '>' !in s && '&' !in s && ']' !in s
  {
    forall i | 0 <= i < |s| ensures s[i] != '<' && s[i] != '>' && s[i] != '&' && s[i] != ']' {
      assert DateChar(s[i]);
    }
  }

  lemma NamesAreText(t: ParsedDate)
    ensures DateText(WeekdayNames[t.wday]) && DateText(MonthNames[t.mon - 1])
  {
    assert DateText(WeekdayNames[t.wday]) by {
      assert WeekdayNames[0] == "Mon" && WeekdayNames[1] == "Tue" && WeekdayNames[2] == "Wed";
      assert WeekdayNames[3] == "Thu" && WeekdayNames[4] == "Fri" && WeekdayNames[5] == "Sat";
      assert WeekdayNames[6] == "Sun";
    }
    MonthNamesDistinct(t.mon);
  }

  lemma ItemDateIsText(t: ParsedDate)
    ensures DateText(ItemDate(t))
  {
    NamesAreText(t);
    var w, m := WeekdayNames[t.wday], MonthNames[t.mon - 1];
    var head, day, mon := w + ", ", Pad2(t.mday), " " + m + " ";
    var year, time := NatToString(t.year), " " + Pad2(t.hour) + ":" + Pad2(t.min) + ":" + Pad2(t.sec) + " -0700";
    assert DateText(time) by {
      assert time == " 00:00:00 -0700";
    }
    DateTextConcat(w, ", ");
    DateTextConcat(" " + m, " ");
    DateTextConcat(" ", m);
    DateTextConcat(head, day);
    DateTextConcat(head + day, mon);
    DateTextConcat(head + day + mon, year);
    DateTextConcat(head + day + mon + year, time);
    assert ItemDate(t) == head + day + mon + year + time;
  }

  /** The item date holds no character that is special in XML text or that
      could close a CDATA section. */
  lemma ItemDateIsPlain(t: ParsedDate)
    ensures DateText(ItemDate(t))
    ensures '<' !in ItemDate(t) && '>' !in ItemDate(t) && '&' !in ItemDate(t) && ']' !in ItemDate(t)
  {
    ItemDateIsText(t);
    DateTextIsPlain(ItemDate(t));
  }
}
