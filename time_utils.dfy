/** Time and date formatting (src/lib/timeUtils.ts): the display forms of the
    canonical `HH:MM` event time and of a calendar day, the weekday header order,
    and the minutes-since-midnight sort key. */
module TimeUtils {
  import opened Wrappers
  import opened Text
  import opened Dates

  /** '12h' | '24h' */
  datatype TimeFormat = H12 | H24

  /** 0 (Sunday) | 1 (Monday) */
  datatype WeekStartDay = Sunday | Monday {
    function Offset(): nat { if Sunday? then 0 else 1 }
  }

  /** A canonical event time: two-digit hour 00..23, a colon, two-digit minute 00..59. */
  predicate WellFormedTime(t: string) {
    && |t| == 5 && t[2] == ':'
    && IsDigit(t[0]) && IsDigit(t[1]) && IsDigit(t[3]) && IsDigit(t[4])
    && 10 * DigitValue(t[0]) + DigitValue(t[1]) <= 23
    && 10 * DigitValue(t[3]) + DigitValue(t[4]) <= 59
  }

  /** The hour and minute fields, `time.split(':').map(Number)`. */
  function Hours(t: string): nat
    requires WellFormedTime(t)
  {
    10 * DigitValue(t[0]) + DigitValue(t[1])
  }

  function Minutes(t: string): nat
    requires WellFormedTime(t)
  {
    10 * DigitValue(t[3]) + DigitValue(t[4])
  }

  // ---------------------------------------------------------------------------
  // formatTime

  /** `formatTime(time, format)`: the stored 24-hour time as the user wants to see it. */
  function FormatTime(time: string, format: TimeFormat): (r: string)
    requires format == H12 ==> WellFormedTime(time)
    ensures format == H24 ==> r == time
  {
    if format == H24 then time
    else
      var hours, minutes := Hours(time), Minutes(time);
      // "12" is kept apart from ":" so every branch has the shape hour + ":" + minutes + suffix.
      if hours == 0 then "12" + ":" + Pad2(minutes) + " AM"
      else if hours < 12 then NatToString(hours) + ":" + Pad2(minutes) + " AM"
      else if hours == 12 then "12" + ":" + Pad2(minutes) + " PM"
      else NatToString(hours - 12) + ":" + Pad2(minutes) + " PM"
  }

  /** The clock-face hour of a 24-hour hour: 0 and 12 read as 12, others modulo 12. */
  function Hour12(h: nat): (r: nat)
    ensures 1 <= r <= 12
  {
    if h % 12 == 0 then 12 else h % 12
  }

  /** The four branches of the 12-hour form agree with one rule: the unpadded
      clock-face hour, a colon, the two-digit minute, and AM exactly before noon. */
  lemma FormatTime12Shape(t: string)
    requires WellFormedTime(t)
    ensures FormatTime(t, H12)
      == NatToString(Hour12(Hours(t))) + ":" + Pad2(Minutes(t)) + (if Hours(t) < 12 then " AM" else " PM")
    ensures |Pad2(Minutes(t))| == 2 && AllDigits(Pad2(Minutes(t)))
    ensures |NatToString(Hour12(Hours(t)))| == 1 <==> Hour12(Hours(t)) < 10
  {
    var h := Hours(t);
    Pad2Value(Minutes(t));
    TwelveText();
    if h == 0 {
      assert Hour12(h) == 12;
    } else if h < 12 {
      assert Hour12(h) == h;
    } else if h == 12 {
      assert Hour12(h) == 12;
    } else {
      assert Hour12(h) == h - 12;
    }
  }

  lemma TwelveText()
    ensures NatToString(12) == "12"
  {
    assert NatToString(1) == "1";
  }

  /** Reads a 12-hour display string back into (hour, minute) on the 24-hour clock. */
  function Parse12h(s: string): Option<(nat, nat)> {
    if |s| < 7 then None
    else
      var n := |s|;
      var hour, minute, suffix := s[..n - 6], s[n - 5..n - 3], s[n - 3..];
      if s[n - 6] != ':' || hour == [] || !AllDigits(hour) || !AllDigits(minute) then None
      else
        var h12, m := DigitsValue(hour), DigitsValue(minute);
        if suffix == " AM" then Some((if h12 == 12 then 0 else h12, m))
        else if suffix == " PM" then Some((if h12 == 12 then 12 else h12 + 12, m))
        else None
  }

  lemma TwoDigitsValue(s: string)
    requires |s| == 2 && AllDigits(s)
    ensures DigitsValue(s) == 10 * DigitValue(s[0]) + DigitValue(s[1])
  {
    assert s[..1][..0] == [] && s[..1][0] == s[0];
    assert DigitsValue(s[..1]) == DigitValue(s[0]);
  }

  /** The 12-hour form loses nothing: the time it shows is the stored time. */
  lemma FormatTime12RoundTrip(t: string)
    requires WellFormedTime(t)
    ensures Parse12h(FormatTime(t, H12)) == Some((Hours(t), Minutes(t)))
  {
    var h, m := Hours(t), Minutes(t);
    var hour, mm, suffix := NatToString(Hour12(h)), Pad2(m), if h < 12 then " AM" else " PM";
    assert FormatTime(t, H12) == hour + ":" + mm + suffix by {
      FormatTime12Shape(t);
    }
    assert |mm| == 2 && AllDigits(mm) && DigitsValue(hour) == Hour12(h) && DigitsValue(mm) == m by {
      NatToStringValue(Hour12(h));
      Pad2Value(m);
      TwoDigitsValue(mm);
    }
    Hour12Back(h);
    Parse12hParts(hour, mm, suffix);
  }

  /** The clock-face hour and the AM / PM half give the 24-hour hour back. */
  lemma Hour12Back(h: nat)
    requires h < 24
    ensures h < 12 ==> (if Hour12(h) == 12 then 0 else Hour12(h)) == h
    ensures h >= 12 ==> (if Hour12(h) == 12 then 12 else Hour12(h) + 12) == h
  {
    if h < 12 {
      assert h % 12 == h;
    } else {
      assert h % 12 == h - 12;
    }
  }

  /** Parse12h splits a display string at the colon and the suffix. */
  lemma Parse12hParts(hour: string, mm: string, suffix: string)
    requires hour != [] && AllDigits(hour) && |mm| == 2 && AllDigits(mm)
    requires suffix == " AM" || suffix == " PM"
    ensures var h12, m := DigitsValue(hour), DigitsValue(mm);
      Parse12h(hour + ":" + mm + suffix)
        == Some((if suffix == " AM" then (if h12 == 12 then 0 else h12) else (if h12 == 12 then 12 else h12 + 12), m))
  {
    DisplayFields(hour, mm, suffix);
    assert " AM"[1] != " PM"[1];
  }

  /** Where the hour, the colon, the minute and the suffix sit in a display string. */
  lemma DisplayFields(hour: string, mm: string, suffix: string)
    requires |mm| == 2 && |suffix| == 3
    ensures var s := hour + ":" + mm + suffix;
      && |s| == |hour| + 6 && s[..|s| - 6] == hour && s[|s| - 6] == ':'
      && s[|s| - 5..|s| - 3] == mm && s[|s| - 3..] == suffix
  {
    assert hour + ":" + mm + suffix == hour + (":" + mm + suffix);
  }

  // ---------------------------------------------------------------------------
  // formatDate

  /** `formatDate(date, format)` for the three supported patterns; `None` stands
      for the locale fallback `toLocaleDateString`, which is not modelled. */
  function FormatDate(date: CalendarDay, format: string): (r: Option<string>)
    ensures r.Some? <==> format == "MM/dd/yyyy" || format == "dd/MM/yyyy" || format == "yyyy-MM-dd"
  {
    var day, month, year := Pad2(date.day), Pad2(date.month), IntToString(date.year);
    if format == "MM/dd/yyyy" then Some(month + "/" + day + "/" + year)
    else if format == "dd/MM/yyyy" then Some(day + "/" + month + "/" + year)
    else if format == "yyyy-MM-dd" then Some(year + "-" + month + "-" + day)
    else None
  }

  /** A two-digit numeric field. */
  function TwoDigitField(s: string): Option<nat> {
    if |s| == 2 && AllDigits(s) then Some(10 * DigitValue(s[0]) + DigitValue(s[1])) else None
  }

  /** Reads a date written in one of the three patterns. */
  function ParseDate(s: string, format: string): Option<YMD> {
    if |s| < 7 then None
    else if format == "MM/dd/yyyy" || format == "dd/MM/yyyy" then
      var first, second, year := TwoDigitField(s[..2]), TwoDigitField(s[3..5]), ParseInt(s[6..]);
      if s[2] != '/' || s[5] != '/' || first.None? || second.None? || year.None? then None
      else if format == "MM/dd/yyyy" then Some(YMD(year.value, first.value, second.value))
      else Some(YMD(year.value, second.value, first.value))
    else if format == "yyyy-MM-dd" then
      var n := |s|;
      var year, month, day := ParseInt(s[..n - 6]), TwoDigitField(s[n - 5..n - 3]), TwoDigitField(s[n - 2..]);
      if s[n - 6] != '-' || s[n - 3] != '-' || year.None? || month.None? || day.None? then None
      else Some(YMD(year.value, month.value, day.value))
    else None
  }

  /** Each supported pattern writes the zero-padded day, the zero-padded month
      and the unpadded year where the pattern says, so the date can be read back. */
  lemma FormatDateRoundTrip(date: CalendarDay, format: string)
    requires format == "MM/dd/yyyy" || format == "dd/MM/yyyy" || format == "yyyy-MM-dd"
    ensures ParseDate(FormatDate(date, format).value, format) == Some(date)
  {
    if format == "MM/dd/yyyy" {
      MonthFirstRoundTrip(date);
    } else if format == "dd/MM/yyyy" {
      DayFirstRoundTrip(date);
    } else {
      YearFirstRoundTrip(date);
    }
  }

  /** A padded field below one hundred reads back as its number. */
  lemma TwoDigitFieldOfPad2(n: nat)
    requires n < 100
    ensures TwoDigitField(Pad2(n)) == Some(n)
  {
    Pad2Value(n);
  }

  lemma MonthFirstRoundTrip(date: CalendarDay)
    ensures ParseDate(FormatDate(date, "MM/dd/yyyy").value, "MM/dd/yyyy") == Some(date)
  {
    var day, month, year := Pad2(date.day), Pad2(date.month), IntToString(date.year);
    TwoDigitFieldOfPad2(date.day);
    TwoDigitFieldOfPad2(date.month);
    IntToStringRoundTrip(date.year);
    assert FormatDate(date, "MM/dd/yyyy").value == month + "/" + day + "/" + year;
    SlashedRoundTrip(month, day, year, "MM/dd/yyyy");
  }

  lemma DayFirstRoundTrip(date: CalendarDay)
    ensures ParseDate(FormatDate(date, "dd/MM/yyyy").value, "dd/MM/yyyy") == Some(date)
  {
    var day, month, year := Pad2(date.day), Pad2(date.month), IntToString(date.year);
    TwoDigitFieldOfPad2(date.day);
    TwoDigitFieldOfPad2(date.month);
    IntToStringRoundTrip(date.year);
    PatternsDistinct();
    assert FormatDate(date, "dd/MM/yyyy").value == day + "/" + month + "/" + year;
    SlashedRoundTrip(day, month, year, "dd/MM/yyyy");
  }

  lemma YearFirstRoundTrip(date: CalendarDay)
    ensures ParseDate(FormatDate(date, "yyyy-MM-dd").value, "yyyy-MM-dd") == Some(date)
  {
    var day, month, year := Pad2(date.day), Pad2(date.month), IntToString(date.year);
    TwoDigitFieldOfPad2(date.day);
    TwoDigitFieldOfPad2(date.month);
    IntToStringRoundTrip(date.year);
    PatternsDistinct();
    assert FormatDate(date, "yyyy-MM-dd").value == year + "-" + month + "-" + day;
    DashedRoundTrip(year, month, day);
  }

  /** The three pattern strings differ in their first or fourth character. */
  lemma PatternsDistinct()
    ensures "MM/dd/yyyy" != "dd/MM/yyyy" && "MM/dd/yyyy" != "yyyy-MM-dd" && "dd/MM/yyyy" != "yyyy-MM-dd"
  {
    assert "MM/dd/yyyy"[0] == 'M' && "dd/MM/yyyy"[0] == 'd' && "yyyy-MM-dd"[0] == 'y';
  }

  lemma DashedRoundTrip(year: string, month: string, day: string)
    requires ParseInt(year).Some? && TwoDigitField(month).Some? && TwoDigitField(day).Some?
    ensures ParseDate(year + "-" + month + "-" + day, "yyyy-MM-dd")
      == Some(YMD(ParseInt(year).value, TwoDigitField(month).value, TwoDigitField(day).value))
  {
    var s := year + "-" + month + "-" + day;
    var n := |s|;
    assert s[..n - 6] == year && s[n - 5..n - 3] == month && s[n - 2..] == day;
  }

  lemma SlashedRoundTrip(first: string, second: string, year: string, format: string)
    requires format == "MM/dd/yyyy" || format == "dd/MM/yyyy"
    requires TwoDigitField(first).Some? && TwoDigitField(second).Some? && ParseInt(year).Some?
    ensures var s := first + "/" + second + "/" + year;
      ParseDate(s, format) == Some(
        if format == "MM/dd/yyyy" then YMD(ParseInt(year).value, TwoDigitField(first).value, TwoDigitField(second).value)
        else YMD(ParseInt(year).value, TwoDigitField(second).value, TwoDigitField(first).value))
  {
    var s := first + "/" + second + "/" + year;
    assert s[..2] == first && s[3..5] == second && s[6..] == year;
  }

  // ---------------------------------------------------------------------------
  // getWeekDays

  const DayNames: seq<string> := ["Sun", "Mon", "Tue", "Wed", "Thu", "Fri", "Sat"]

  /** `getWeekDays(startDay)`: the seven weekday labels, beginning with the start day. */
  function GetWeekDays(startDay: WeekStartDay): (r: seq<string>)
    ensures |r| == 7 && r[0] == DayNames[startDay.Offset()]
  {
    if startDay == Monday then DayNames[1..] + [DayNames[0]] else DayNames
  }

  /** Both orders hold the same seven labels. */
  lemma GetWeekDaysSameLabels(startDay: WeekStartDay)
    ensures multiset(GetWeekDays(startDay)) == multiset(DayNames)
  {
    if startDay == Monday {
      RotateLeftSameMultiset(DayNames);
    }
  }

  /** Moving the head of a sequence to its end keeps the same elements. */
  lemma RotateLeftSameMultiset<T>(s: seq<T>)
    requires |s| > 0
    ensures multiset(s[1..] + [s[0]]) == multiset(s)
  {
    assert s == [s[0]] + s[1..];
  }

  /** A Monday start is the Sunday list rotated left by one place: "Mon" first
      and "Sun" last. */
  lemma GetWeekDaysRotation(startDay: WeekStartDay)
    ensures forall i :: 0 <= i < 7 ==> GetWeekDays(startDay)[i] == DayNames[(i + startDay.Offset()) % 7]
    ensures startDay == Monday ==> GetWeekDays(startDay)[6] == "Sun"
  {
    var r := GetWeekDays(startDay);
    if startDay == Monday {
      forall i | 0 <= i < 7 ensures r[i] == DayNames[(i + 1) % 7] {
        if i < 6 { assert (i + 1) % 7 == i + 1; } else { assert (i + 1) % 7 == 0; }
      }
    } else {
      forall i | 0 <= i < 7 ensures r[i] == DayNames[i % 7] {
        assert i % 7 == i;
      }
    }
  }

  // ---------------------------------------------------------------------------
  // parseTimeToMinutes

  /** `parseTimeToMinutes(time)`: minutes since midnight. */
  function ParseTimeToMinutes(time: string): (r: int)
    requires WellFormedTime(time)
    ensures 0 <= r < 1440
    ensures r / 60 == Hours(time) && r % 60 == Minutes(time)
  {
    Hours(time) * 60 + Minutes(time)
  }

  /** The sort key agrees with the order of the canonical strings in both
      directions, so sorting by either gives the same order. */
  lemma ParseTimeToMinutesOrder(a: string, b: string)
    requires WellFormedTime(a) && WellFormedTime(b)
    ensures LexLess(a, b) <==> ParseTimeToMinutes(a) < ParseTimeToMinutes(b)
    ensures a == b <==> ParseTimeToMinutes(a) == ParseTimeToMinutes(b)
  {
    var a1, b1 := a[1..], b[1..];
    var a2, b2 := a1[1..], b1[1..];
    var a3, b3 := a2[1..], b2[1..];
    var a4, b4 := a3[1..], b3[1..];
    var a5, b5 := a4[1..], b4[1..];
    assert a == [a[0], a[1], a[2], a[3], a[4]] && b == [b[0], b[1], b[2], b[3], b[4]];
    if a[0] != b[0] {
      assert LexLess(a, b) <==> a[0] < b[0];
    } else if a[1] != b[1] {
      assert LexLess(a, b) <==> LexLess(a1, b1);
      assert LexLess(a1, b1) <==> a[1] < b[1];
    } else if a[3] != b[3] {
      assert LexLess(a, b) <==> LexLess(a1, b1);
      assert LexLess(a1, b1) <==> LexLess(a2, b2);
      assert LexLess(a2, b2) <==> LexLess(a3, b3);
      assert LexLess(a3, b3) <==> a[3] < b[3];
    } else {
      assert LexLess(a, b) <==> LexLess(a1, b1);
      assert LexLess(a1, b1) <==> LexLess(a2, b2);
      assert LexLess(a2, b2) <==> LexLess(a3, b3);
      assert LexLess(a3, b3) <==> LexLess(a4, b4);
      assert a5 == [] && b5 == [];
      assert LexLess(a4, b4) <==> a[4] < b[4] || LexLess(a5, b5);
    }
  }
}
