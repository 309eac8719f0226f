/** Clock times of the appointment service (appointment-service/main.py):
    `"HH:MM"` strings, read as minutes since midnight and written back with
    `strftime("%H:%M")`. */
module TimeOfDay {
  import opened Basics
  import opened Text

  const MinutesPerDay := 1440

  /** A minute of the day. */
  predicate IsMinute(m: int) {
    0 <= m < MinutesPerDay
  }

  /** `hours, minutes = map(int, s.split(':'))` followed by
      `datetime.replace(hour=hours, minute=minutes)`: exactly one colon,
      two decimal numerals, an hour below 24 and a minute below 60. Any other
      input makes the source raise. */
  function ParseTime(s: string): (r: Option<int>)
    ensures r.Some? ==> IsMinute(r.value)
  {
    var parts := Split(s, ':');
    if |parts| != 2 || |parts[0]| == 0 || |parts[1]| == 0
       || !AllDigits(parts[0]) || !AllDigits(parts[1]) then None
    else
      var h := DigitsValue(parts[0]);
      var m := DigitsValue(parts[1]);
      if h < 24 && m < 60 then Some(h * 60 + m) else None
  }

  /** `strftime("%H:%M")`. */
  function FormatTime(m: int): (s: string)
    requires IsMinute(m)
    ensures |s| == 5 && s[2] == ':'
  {
    Pad2(m / 60) + ":" + Pad2(m % 60)
  }

  /** The canonical spelling: two digits, a colon, two digits, in range. */
  predicate IsCanonical(s: string) {
    && |s| == 5 && s[2] == ':'
    && AllDigits(s[..2]) && AllDigits(s[3..])
    && DigitsValue(s[..2]) < 24 && DigitsValue(s[3..]) < 60
  }

  /** Formatting then parsing gives the minute back. */
  lemma ParseFormat(m: int)
    requires IsMinute(m)
    ensures IsCanonical(FormatTime(m))
    ensures ParseTime(FormatTime(m)) == Some(m)
  {
    var s := FormatTime(m);
    var hh := Pad2(m / 60);
    var mm := Pad2(m % 60);
    assert s == hh + [':'] + mm;
    assert ':' !in hh;
    assert ':' !in mm;
    SplitAtSeparator(hh, ':', mm);
    SplitNoSeparator(mm, ':');
    Pad2Value(m / 60);
    Pad2Value(m % 60);
    assert s[..2] == hh && s[3..] == mm;
  }

  /** Parsing then formatting a canonical `HH:MM` string gives it back. */
  lemma FormatParse(s: string)
    requires IsCanonical(s)
    ensures ParseTime(s).Some? && FormatTime(ParseTime(s).value) == s
  {
    var hh := s[..2];
    var mm := s[3..];
    assert s == hh + [':'] + mm;
    assert ':' !in hh && ':' !in mm by {
      assert forall i :: 0 <= i < 2 ==> IsDigit(hh[i]) && IsDigit(mm[i]);
    }
    SplitAtSeparator(hh, ':', mm);
    SplitNoSeparator(mm, ':');
    Pad2OfValue(hh);
    Pad2OfValue(mm);
    var h := DigitsValue(hh);
    var mi := DigitsValue(mm);
    assert ParseTime(s) == Some(h * 60 + mi);
    assert (h * 60 + mi) / 60 == h && (h * 60 + mi) % 60 == mi;
  }

  /** Two distinct minutes never print alike, so comparing formatted slot
      times is comparing minutes. */
  lemma FormatInjective(a: int, b: int)
    requires IsMinute(a) && IsMinute(b)
    requires FormatTime(a) == FormatTime(b)
    ensures a == b
  {
    ParseFormat(a);
    ParseFormat(b);
  }

  /** `calculate_end_time`: the start plus `duration` minutes, reduced to the
      time of day (the date part of the `datetime` is dropped, so the result
      wraps past midnight). An unparsable start is the source's exception. */
  function CalculateEndTime(start: string, duration: int): (r: Option<string>)
    ensures r.Some? <==> ParseTime(start).Some?
    ensures r.Some? ==> ParseTime(r.value) == Some((ParseTime(start).value + duration) % MinutesPerDay)
    ensures r.Some? ==> IsCanonical(r.value)
  {
    match ParseTime(start)
    case None => None
    case Some(m) =>
      var end := (m + duration) % MinutesPerDay;
      ParseFormat(end);
      Some(FormatTime(end))
  }

  /** An end time past midnight wraps: `23:45` plus 30 minutes is `00:15`. */
  lemma EndTimeWraps()
    ensures CalculateEndTime("23:45", 30) == Some("00:15")
  {
    assert FormatTime(1425) == "23:45";
    ParseFormat(1425);
    assert FormatTime(15) == "00:15";
  }
}
