/** Field validators shared by the request schemas: date not in the past, positive
    numbers, "HH:MM" clock times and a strictly increasing time range. Each returns its
    argument unchanged or fails with a ValueError. */
module SchemaValidators {
  import opened Common

  const PAST_DATE_MESSAGE := "Нельзя бронировать на прошедшие даты"
  const TIME_FORMAT_MESSAGE := "Время должно быть в формате HH:MM"
  const TIME_RANGE_MESSAGE := "Время окончания должно быть позже времени начала"
  /** What `datetime.strptime` raises for text that does not fit "%H:%M". */
  const STRPTIME_MESSAGE := "time data does not match format '%H:%M'"

  /** `validate_date_not_past`; dates are day numbers and `today` is the current date. */
  function ValidateDateNotPast(bookingDate: int, today: int): (r: Outcome<int>)
    ensures r.Fail? <==> bookingDate < today
    ensures r.Fail? ==> r.exc == ValueErr(PAST_DATE_MESSAGE)
    ensures r.Ok? ==> r.value == bookingDate
  {
    if bookingDate < today then Fail(ValueErr(PAST_DATE_MESSAGE)) else Ok(bookingDate)
  }

  /** `validate_positive_number`. */
  function ValidatePositiveNumber(value: int, fieldName: string): (r: Outcome<int>)
    ensures r.Fail? <==> value <= 0
    ensures r.Fail? ==> r.exc == ValueErr(fieldName + " должно быть положительным")
    ensures r.Ok? ==> r.value == value
  {
    if value <= 0 then Fail(ValueErr(fieldName + " должно быть положительным")) else Ok(value)
  }

  // ------------------------------------------------ strptime(text, '%H:%M')

  function DigitValue(c: char): int
    requires IsDigit(c)
  {
    c as int - '0' as int
  }

  /** The text `%H` accepts: `2[0-3]|[0-1]\d|\d`. */
  predicate HourText(h: string) {
    (|h| == 1 && IsDigit(h[0]))
    || (|h| == 2 && '0' <= h[0] <= '1' && IsDigit(h[1]))
    || (|h| == 2 && h[0] == '2' && '0' <= h[1] <= '3')
  }

  /** The text `%M` accepts: `[0-5]\d|\d`. */
  predicate MinuteText(m: string) {
    (|m| == 1 && IsDigit(m[0]))
    || (|m| == 2 && '0' <= m[0] <= '5' && IsDigit(m[1]))
  }

  /** The number written by one or two decimal digits. */
  function Number(t: string): int
    requires 1 <= |t| <= 2 && forall i :: 0 <= i < |t| ==> IsDigit(t[i])
  {
    if |t| == 1 then DigitValue(t[0]) else 10 * DigitValue(t[0]) + DigitValue(t[1])
  }

  /** `text` splits at position `i` into an hour, a colon and a minute. */
  predicate ClockAt(text: string, i: int) {
    0 < i < |text| && text[i] == ':' && HourText(text[..i]) && MinuteText(text[i + 1..])
  }

  /** Minutes since midnight of the clock time `text` denotes, as `datetime.strptime(text, '%H:%M')`
      reads it; None when strptime raises ValueError. */
  function ParseClock(text: string): (r: Option<int>)
    ensures r.Some? <==> exists i :: 0 < i < |text| && ClockAt(text, i)
    ensures r.Some? ==> 0 <= r.value < 24 * 60
  {
    if ClockAt(text, 1) then
      Some(60 * Number(text[..1]) + Number(text[2..]))
    else if ClockAt(text, 2) then
      Some(60 * Number(text[..2]) + Number(text[3..]))
    else
      assert forall i :: 0 < i < |text| && ClockAt(text, i) ==> i == 1 || i == 2;
      None
  }

  /** Two-digit zero-padded text of 0..99. */
  function TwoDigits(n: int): (r: string)
    requires 0 <= n < 100
    ensures |r| == 2 && IsDigit(r[0]) && IsDigit(r[1])
    ensures Number(r) == n
  {
    [DigitChar(n / 10), DigitChar(n % 10)]
  }

  /** The canonical "HH:MM" text of a clock time given in minutes since midnight. */
  function FormatClock(minutes: int): (r: string)
    requires 0 <= minutes < 24 * 60
    ensures |r| == 5
  {
    TwoDigits(minutes / 60) + ":" + TwoDigits(minutes % 60)
  }

  /** The shape `^\d{2}:\d{2}$`. */
  predicate ClockShape(s: string) {
    |s| == 5 && IsDigit(s[0]) && IsDigit(s[1]) && s[2] == ':' && IsDigit(s[3]) && IsDigit(s[4])
  }

  /** Every clock time is read back from its canonical text. */
  lemma ParseFormatClock(minutes: int)
    requires 0 <= minutes < 24 * 60
    ensures ClockShape(FormatClock(minutes))
    ensures ParseClock(FormatClock(minutes)) == Some(minutes)
  {
    var t := FormatClock(minutes);
    assert t[..2] == TwoDigits(minutes / 60);
    assert t[3..] == TwoDigits(minutes % 60);
    assert !ClockAt(t, 1);
    assert ClockAt(t, 2);
  }

  /** A text of the "HH:MM" shape that strptime accepts is the canonical text of its value. */
  lemma FormatParseClock(s: string)
    requires ClockShape(s) && ParseClock(s).Some?
    ensures FormatClock(ParseClock(s).value) == s
  {
    assert !ClockAt(s, 1);
    var h := Number(s[..2]);
    var m := Number(s[3..]);
    assert ParseClock(s).value == 60 * h + m;
    assert (60 * h + m) / 60 == h && (60 * h + m) % 60 == m;
    var r := FormatClock(60 * h + m);
    assert r[..2] == TwoDigits(h) && r[3..] == TwoDigits(m);
    assert r[..2] == s[..2] && r[3..] == s[3..];
    assert r == r[..2] + ":" + r[3..];
    assert s == s[..2] + ":" + s[3..];
  }

  /** `validate_time_format`: the text itself when strptime accepts it. */
  function ValidateTimeFormat(timeStr: string): (r: Outcome<string>)
    ensures r.Ok? <==> exists i :: 0 < i < |timeStr| && ClockAt(timeStr, i)
    ensures r.Ok? ==> r.value == timeStr
    ensures r.Fail? ==> r.exc == ValueErr(TIME_FORMAT_MESSAGE)
  {
    if ParseClock(timeStr).Some? then Ok(timeStr) else Fail(ValueErr(TIME_FORMAT_MESSAGE))
  }

  /** Hour 0..23 and minute 0..59 written canonically are accepted. */
  lemma TimeFormatAcceptsClock(h: int, m: int)
    requires 0 <= h < 24 && 0 <= m < 60
    ensures ValidateTimeFormat(FormatClock(60 * h + m)) == Ok(FormatClock(60 * h + m))
  {
    ParseFormatClock(60 * h + m);
  }

  /** `validate_time_range`: the pair itself when the end is strictly later than the start. */
  function ValidateTimeRange(startTime: string, endTime: string): (r: Outcome<(string, string)>)
    ensures r.Ok? <==> ParseClock(startTime).Some? && ParseClock(endTime).Some?
                       && ParseClock(startTime).value < ParseClock(endTime).value
    ensures r.Ok? ==> r.value == (startTime, endTime)
    ensures ParseClock(startTime).Some? && ParseClock(endTime).Some? && r.Fail? ==>
              r.exc == ValueErr(TIME_RANGE_MESSAGE)
  {
    var start := ParseClock(startTime);
    var end := ParseClock(endTime);
    if start.None? || end.None? then Fail(ValueErr(STRPTIME_MESSAGE))
    else if end.value <= start.value then Fail(ValueErr(TIME_RANGE_MESSAGE))
    else Ok((startTime, endTime))
  }

  /** Equal times never form a valid range. */
  lemma EqualTimesRejected(t: string)
    ensures ValidateTimeRange(t, t).Fail?
  {
  }
}
