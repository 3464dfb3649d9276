/** Calendar dates and the two fixed timestamp formats of the broker's
    flex-query export: "yyyyMMdd;HHmmss" and the date-only "yyyyMMdd". */
module Dates {
  import opened Wrappers

  datatype Date = Date(year: int, month: int, day: int)
  datatype DateTime = DateTime(date: Date, hour: int, minute: int, second: int)

  /** `DateTime.MinValue`, 0001-01-01 00:00:00. */
  const MinValue := DateTime(Date(1, 1, 1), 0, 0, 0)

  predicate IsLeapYear(y: int) {
    y % 4 == 0 && (y % 100 != 0 || y % 400 == 0)
  }

  function DaysInMonth(y: int, m: int): int
    requires 1 <= m <= 12
  {
    if m == 2 then (if IsLeapYear(y) then 29 else 28)
    else if m == 4 || m == 6 || m == 9 || m == 11 then 30
    else 31
  }

  /** A date both runtimes can represent (years 1 to 9999). */
  predicate ValidDate(d: Date) {
    1 <= d.year <= 9999 && 1 <= d.month <= 12 && 1 <= d.day <= DaysInMonth(d.year, d.month)
  }

  predicate ValidDateTime(t: DateTime) {
    ValidDate(t.date) && 0 <= t.hour < 24 && 0 <= t.minute < 60 && 0 <= t.second < 60
  }

  /** The calendar day of a timestamp (`DateOnly.FromDateTime`, Python `.date()`). */
  function DateOf(t: DateTime): Date { t.date }

  /** 1 January of a year. */
  function NewYear(year: int): (d: Date)
    ensures 1 <= year <= 9999 ==> ValidDate(d)
    ensures d.year == year
  {
    Date(year, 1, 1)
  }

  // Fixed-width decimal digit fields

  predicate IsDigit(c: char) { '0' <= c <= '9' }

  predicate AllDigits(s: string) { forall c <- s :: IsDigit(c) }

  function Pow10(n: nat): nat { if n == 0 then 1 else 10 * Pow10(n - 1) }

  /** The number a string of decimal digits denotes. */
  function DigitsValue(s: string): (v: nat)
    requires AllDigits(s)
    ensures v < Pow10(|s|)
  {
    if |s| == 0 then 0
    else
      assert IsDigit(s[|s| - 1]);
      DigitsValue(s[..|s| - 1]) * 10 + (s[|s| - 1] as int - '0' as int)
  }

  /** `n` written with exactly `width` digits, zero-padded on the left. */
  function Pad(n: nat, width: nat): (s: string)
    ensures |s| == width && AllDigits(s)
  {
    if width == 0 then "" else Pad(n / 10, width - 1) + [('0' as int + n % 10) as char]
  }

  lemma {:induction false} DigitsValuePad(n: nat, width: nat)
    requires n < Pow10(width)
    ensures DigitsValue(Pad(n, width)) == n
  {
    if width > 0 {
      var s := Pad(n, width);
      assert s[..|s| - 1] == Pad(n / 10, width - 1);
      DigitsValuePad(n / 10, width - 1);
    }
  }

  lemma {:induction false} PadDigitsValue(s: string)
    requires AllDigits(s)
    ensures Pad(DigitsValue(s), |s|) == s
  {
    if |s| > 0 {
      var init := s[..|s| - 1];
      var v := DigitsValue(s);
      assert IsDigit(s[|s| - 1]);
      assert v / 10 == DigitsValue(init);
      assert v % 10 == s[|s| - 1] as int - '0' as int;
      PadDigitsValue(init);
      assert s == init + [s[|s| - 1]];
    }
  }

  // The two formats, parsed exactly (no surrounding whitespace, no sign)

  function DateField(s: string): (d: Option<Date>)
    requires |s| == 8
    ensures d.Some? ==> ValidDate(d.value)
  {
    if !AllDigits(s) then None
    else
      var d := Date(DigitsValue(s[..4]), DigitsValue(s[4..6]), DigitsValue(s[6..]));
      if ValidDate(d) then Some(d) else None
  }

  /** `DateTime.TryParseExact(s, "yyyyMMdd;HHmmss")`. */
  function TryParseStamp(s: string): (t: Option<DateTime>)
    ensures t.Some? ==> ValidDateTime(t.value) && |s| == 15
  {
    if |s| != 15 || s[8] != ';' || !AllDigits(s[9..]) then None
    else
      match DateField(s[..8])
      case None => None
      case Some(d) =>
        var t := DateTime(d, DigitsValue(s[9..11]), DigitsValue(s[11..13]), DigitsValue(s[13..]));
        if ValidDateTime(t) then Some(t) else None
  }

  /** `DateTime.TryParseExact(s, "yyyyMMdd")`. */
  function TryParseDay(s: string): (d: Option<Date>)
    ensures d.Some? ==> ValidDate(d.value) && |s| == 8
  {
    if |s| != 8 then None else DateField(s)
  }

  /** The two exact formats in order: the timestamp, then the date-only
      format at 23:59:59. */
  function ReadDate(s: string): (t: Option<DateTime>)
    ensures t.Some? ==> ValidDateTime(t.value)
  {
    match TryParseStamp(s)
    case Some(t) => Some(t)
    case None =>
      match TryParseDay(s)
      case Some(d) => Some(DateTime(d, 23, 59, 59))
      case None => None
  }

  /** IbkrXmlLoader.ParseDate: `DateTime.MinValue` for a missing, empty or
      unreadable string. */
  function ParseDate(s: Option<string>): (t: DateTime)
    ensures ValidDateTime(t)
    ensures s.None? || s.value == "" ==> t == MinValue
    ensures s.Some? && s.value != "" && ReadDate(s.value).Some? ==> t == ReadDate(s.value).value
    ensures s.Some? && ReadDate(s.value).None? ==> t == MinValue
  {
    if s.None? || s.value == "" then MinValue
    else match ReadDate(s.value)
      case Some(t) => t
      case None => MinValue
  }

  /** The shapes the exact formats accept: fifteen characters with the
      semicolon at index 8 and digits elsewhere, or eight digits. */
  predicate StampShaped(s: string) {
    |s| == 15 && s[8] == ';' && AllDigits(s[..8]) && AllDigits(s[9..])
  }

  predicate DayShaped(s: string) {
    |s| == 8 && AllDigits(s)
  }

  predicate FixedWidth(s: string) {
    StampShaped(s) || DayShaped(s)
  }

  /** Only strings of the two fixed shapes can be read. */
  lemma ReadDateShape(s: string)
    ensures ReadDate(s).Some? ==> FixedWidth(s)
    ensures StampShaped(s) ==> ReadDate(s) == TryParseStamp(s)
  {
  }

  function FormatDay(d: Date): string
    requires ValidDate(d)
  {
    Pad(d.year, 4) + Pad(d.month, 2) + Pad(d.day, 2)
  }

  function FormatStamp(t: DateTime): string
    requires ValidDateTime(t)
  {
    FormatDay(t.date) + ";" + Pad(t.hour, 2) + Pad(t.minute, 2) + Pad(t.second, 2)
  }

  lemma DateFieldFormat(d: Date)
    requires ValidDate(d)
    ensures DateField(FormatDay(d)) == Some(d)
  {
    var y, m, dd := Pad(d.year, 4), Pad(d.month, 2), Pad(d.day, 2);
    var s := FormatDay(d);
    assert s == y + m + dd;
    assert s[..4] == y && s[4..6] == m && s[6..] == dd;
    assert AllDigits(s) by {
      forall c <- s ensures IsDigit(c) {
        assert c in y || c in m || c in dd;
      }
    }
    DigitsValuePad(d.year, 4);
    DigitsValuePad(d.month, 2);
    DigitsValuePad(d.day, 2);
    assert Date(DigitsValue(s[..4]), DigitsValue(s[4..6]), DigitsValue(s[6..])) == d;
  }

  /** Reading a formatted timestamp gives it back. */
  lemma ParseFormatStamp(t: DateTime)
    requires ValidDateTime(t)
    ensures TryParseStamp(FormatStamp(t)) == Some(t)
    ensures ParseDate(Some(FormatStamp(t))) == t
  {
    var s := FormatStamp(t);
    assert s[..8] == FormatDay(t.date);
    assert s[9..11] == Pad(t.hour, 2);
    assert s[11..13] == Pad(t.minute, 2);
    assert s[13..] == Pad(t.second, 2);
    DateFieldFormat(t.date);
    DigitsValuePad(t.hour, 2);
    DigitsValuePad(t.minute, 2);
    DigitsValuePad(t.second, 2);
  }

  /** A bare date is read as the last second of that day. */
  lemma ParseFormatDay(d: Date)
    requires ValidDate(d)
    ensures ParseDate(Some(FormatDay(d))) == DateTime(d, 23, 59, 59)
  {
    DateFieldFormat(d);
  }
}
