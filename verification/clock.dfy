/** Calendar timestamps and the two custom format strings the core uses:
    "dd/MM/yyyy HH:mm:ss" for the order record and "yyyyMMddHHmmssfff" for
    blob names. The clock itself is never read here; a timestamp is always
    an input. */
module Clock {
  import opened Wrappers
  import opened Text

  predicate IsLeapYear(year: int) {
    year % 4 == 0 && (year % 100 != 0 || year % 400 == 0)
  }

  function DaysInMonth(year: int, month: int): (days: int)
    requires 1 <= month <= 12
    ensures 28 <= days <= 31
  {
    if month == 2 then (if IsLeapYear(year) then 29 else 28)
    else if month == 4 || month == 6 || month == 9 || month == 11 then 30
    else 31
  }

  /** The fields of a .NET date and time value, to the millisecond. */
  datatype DateTime = DateTime(
    year: int, month: int, day: int,
    hour: int, minute: int, second: int, millisecond: int)
  {
    /** The ranges a .NET `DateTime` can hold (years 1 to 9999). */
    predicate Valid() {
      && 1 <= year <= 9999
      && 1 <= month <= 12
      && 1 <= day <= DaysInMonth(year, month)
      && 0 <= hour < 24
      && 0 <= minute < 60
      && 0 <= second < 60
      && 0 <= millisecond < 1000
    }

    /** The same instant with the sub-second part dropped. */
    function ToSecond(): DateTime {
      this.(millisecond := 0)
    }
  }

  type ValidDateTime = t: DateTime | t.Valid() witness DateTime(1, 1, 1, 0, 0, 0, 0)

  /** "HH:mm:ss" */
  function FormatTimeOfDay(t: ValidDateTime): string {
    PadDigits(t.hour, 2) + ([':'] + (PadDigits(t.minute, 2) + ([':'] + PadDigits(t.second, 2))))
  }

  /** `ToString("dd/MM/yyyy HH:mm:ss")` under the invariant culture:
      two-digit day, month, hour, minute and second, four-digit year, '/'
      and ':' separators; the milliseconds are not shown. */
  function FormatOrderDate(t: ValidDateTime): (s: string)
    ensures |s| == 19
  {
    PadDigits(t.day, 2) + (['/'] + (PadDigits(t.month, 2) + (['/'] + (PadDigits(t.year, 4)
    + ([' '] + FormatTimeOfDay(t))))))
  }

  /** Reads a `width`-digit field followed by the separator `sep`. */
  function ReadField(s: string, width: nat, sep: char): Option<(nat, string)> {
    var field :- ReadDigits(s, width);
    var rest :- ReadChar(field.1, sep);
    Some((field.0, rest))
  }

  /** Reads "dd/MM/yyyy" off the front of `s`: day, month, year and the
      rest of the text. */
  function ReadCalendarDate(s: string): Option<(nat, nat, nat, string)> {
    var day :- ReadField(s, 2, '/');
    var month :- ReadField(day.1, 2, '/');
    var year :- ReadDigits(month.1, 4);
    Some((day.0, month.0, year.0, year.1))
  }

  /** Reads "HH:mm:ss" off the front of `s`: hour, minute, second and the
      rest of the text. */
  function ReadTimeOfDay(s: string): Option<(nat, nat, nat, string)> {
    var hour :- ReadField(s, 2, ':');
    var minute :- ReadField(hour.1, 2, ':');
    var second :- ReadDigits(minute.1, 2);
    Some((hour.0, minute.0, second.0, second.1))
  }

  /** Reads a "dd/MM/yyyy HH:mm:ss" string back into a timestamp with zero
      milliseconds; text that does not match, or names no valid date, is
      rejected. */
  function ParseOrderDate(s: string): Option<ValidDateTime>
  {
    var date :- ReadCalendarDate(s);
    var s1 :- ReadChar(date.3, ' ');
    var time :- ReadTimeOfDay(s1);
    var t := DateTime(date.2, date.1, date.0, time.0, time.1, time.2, 0);
    if time.3 == [] && t.Valid() then Some(t) else None
  }

  lemma ReadFieldPadded(n: nat, width: nat, sep: char, rest: string)
    requires n < Pow10(width)
    ensures ReadField(PadDigits(n, width) + ([sep] + rest), width, sep) == Some((n, rest))
  {
    ReadPadded(n, width, [sep] + rest);
    ReadLiteral(sep, rest);
  }

  /** `ReadCalendarDate` is its three reads in sequence. */
  lemma ReadCalendarDateSteps(s: string, s1: string, s2: string, day: nat, month: nat, year: nat, rest: string)
    requires ReadField(s, 2, '/') == Some((day, s1))
    requires ReadField(s1, 2, '/') == Some((month, s2))
    requires ReadDigits(s2, 4) == Some((year, rest))
    ensures ReadCalendarDate(s) == Some((day, month, year, rest))
  {
  }

  /** `ReadTimeOfDay` is its three reads in sequence. */
  lemma ReadTimeOfDaySteps(s: string, s1: string, s2: string, hour: nat, minute: nat, second: nat, rest: string)
    requires ReadField(s, 2, ':') == Some((hour, s1))
    requires ReadField(s1, 2, ':') == Some((minute, s2))
    requires ReadDigits(s2, 2) == Some((second, rest))
    ensures ReadTimeOfDay(s) == Some((hour, minute, second, rest))
  {
  }

  lemma ReadCalendarDateRoundTrip(day: nat, month: nat, year: nat, rest: string)
    requires day < 100 && month < 100 && year < 10000
    ensures var s := PadDigits(day, 2) + (['/'] + (PadDigits(month, 2) + (['/'] + (PadDigits(year, 4) + rest))));
            ReadCalendarDate(s) == Some((day, month, year, rest))
  {
    var s2 := PadDigits(year, 4) + rest;
    var s1 := PadDigits(month, 2) + (['/'] + s2);
    ReadFieldPadded(day, 2, '/', s1);
    ReadFieldPadded(month, 2, '/', s2);
    ReadPadded(year, 4, rest);
    ReadCalendarDateSteps(PadDigits(day, 2) + (['/'] + s1), s1, s2, day, month, year, rest);
  }

  lemma ReadTimeOfDayRoundTrip(hour: nat, minute: nat, second: nat, rest: string)
    requires hour < 100 && minute < 100 && second < 100
    ensures var s := PadDigits(hour, 2) + ([':'] + (PadDigits(minute, 2) + ([':'] + (PadDigits(second, 2) + rest))));
            ReadTimeOfDay(s) == Some((hour, minute, second, rest))
  {
    var s2 := PadDigits(second, 2) + rest;
    var s1 := PadDigits(minute, 2) + ([':'] + s2);
    ReadFieldPadded(hour, 2, ':', s1);
    ReadFieldPadded(minute, 2, ':', s2);
    ReadPadded(second, 2, rest);
    ReadTimeOfDaySteps(PadDigits(hour, 2) + ([':'] + s1), s1, s2, hour, minute, second, rest);
  }

  /** `ParseOrderDate` is its three reads in sequence followed by the
      end-of-text and validity checks. */
  lemma ParseOrderDateSteps(s: string, s1: string, s2: string, t: ValidDateTime)
    requires ReadCalendarDate(s) == Some((t.day, t.month, t.year, s1))
    requires ReadChar(s1, ' ') == Some(s2)
    requires ReadTimeOfDay(s2) == Some((t.hour, t.minute, t.second, []))
    ensures ParseOrderDate(s) == Some(t.ToSecond())
  {
  }

  /** Reading the formatted date back gives the timestamp to the second. */
  lemma OrderDateRoundTrip(t: ValidDateTime)
    ensures ParseOrderDate(FormatOrderDate(t)) == Some(t.ToSecond())
  {
    var time := FormatTimeOfDay(t);
    var ss := PadDigits(t.second, 2);
    assert ss + [] == ss;
    ReadTimeOfDayRoundTrip(t.hour, t.minute, t.second, []);
    ReadLiteral(' ', time);
    ReadCalendarDateRoundTrip(t.day, t.month, t.year, [' '] + time);
    ParseOrderDateSteps(FormatOrderDate(t), [' '] + time, time, t);
  }

  /** Two order dates render alike exactly when they agree to the second. */
  lemma OrderDateIdentifiesSecond(a: ValidDateTime, b: ValidDateTime)
    ensures FormatOrderDate(a) == FormatOrderDate(b) <==> a.ToSecond() == b.ToSecond()
  {
    OrderDateRoundTrip(a);
    OrderDateRoundTrip(b);
  }

  /** `ToString("yyyyMMddHHmmssfff")`: the whole timestamp down to the
      millisecond as 17 digits, with no separators. */
  function FormatBlobStamp(t: ValidDateTime): (s: string)
    ensures |s| == 17
  {
    PadDigits(t.year, 4) + (PadDigits(t.month, 2) + (PadDigits(t.day, 2) + (PadDigits(t.hour, 2)
    + (PadDigits(t.minute, 2) + (PadDigits(t.second, 2) + PadDigits(t.millisecond, 3))))))
  }

  /** Reads a "yyyyMMddHHmmssfff" string back into a timestamp. */
  function ParseBlobStamp(s: string): Option<ValidDateTime>
  {
    var year :- ReadDigits(s, 4);
    var month :- ReadDigits(year.1, 2);
    var day :- ReadDigits(month.1, 2);
    var hour :- ReadDigits(day.1, 2);
    var minute :- ReadDigits(hour.1, 2);
    var second :- ReadDigits(minute.1, 2);
    var millisecond :- ReadDigits(second.1, 3);
    var t := DateTime(year.0, month.0, day.0, hour.0, minute.0, second.0, millisecond.0);
    if millisecond.1 == [] && t.Valid() then Some(t) else None
  }

  lemma BlobStampRoundTrip(t: ValidDateTime)
    ensures ParseBlobStamp(FormatBlobStamp(t)) == Some(t)
  {
    var fff := PadDigits(t.millisecond, 3);
    var s5 := PadDigits(t.second, 2) + fff;
    var s4 := PadDigits(t.minute, 2) + s5;
    var s3 := PadDigits(t.hour, 2) + s4;
    var s2 := PadDigits(t.day, 2) + s3;
    var s1 := PadDigits(t.month, 2) + s2;
    ReadPadded(t.year, 4, s1);
    ReadPadded(t.month, 2, s2);
    ReadPadded(t.day, 2, s3);
    ReadPadded(t.hour, 2, s4);
    ReadPadded(t.minute, 2, s5);
    ReadPadded(t.second, 2, fff);
    ReadPadded(t.millisecond, 3, []);
    assert fff + [] == fff;
  }

  /** Two blob stamps are equal exactly when the timestamps are equal to
      the millisecond: nothing finer separates them. */
  lemma BlobStampIdentifiesMillisecond(a: ValidDateTime, b: ValidDateTime)
    ensures FormatBlobStamp(a) == FormatBlobStamp(b) <==> a == b
  {
    BlobStampRoundTrip(a);
    BlobStampRoundTrip(b);
  }
}
