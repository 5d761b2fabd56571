/** The two date layouts of the front end, `formatDateRaw` and
    `formatDateToLocal`: `HH:MM:SS, DD/MM/YYYY` built from the fields a JS
    Date reports.  The two differ only in which getters they read (UTC or
    local).  Parsing a text into a Date is left abstract: a parser
    gives the instant and both readings of its fields, or `None` for an
    Invalid Date. */
module CommonClient {
  import opened Wrappers
  import opened Text

  /** The fields a valid Date reports through one family of getters;
      `month` counts from 0 as `getMonth` does. */
  datatype DateFields = DateFields(year: int, month: int, day: int, hours: int, minutes: int, seconds: int)

  /** A valid JS Date: milliseconds since the epoch, and its fields read
      with the UTC getters and with the local ones. */
  datatype JsDate = JsDate(ms: int, utc: DateFields, local: DateFields)

  /** A value the layout accepts: `null`/`undefined` are `None`; the empty
      text is falsy as well. */
  predicate Present(value: Option<string>) {
    value.Some? && value.value != ""
  }

  /** `n.toString().padStart(2, '0')`. */
  function Two(n: int): string {
    PadStart(IntToString(n), 2, '0')
  }

  /** Three fields with a separator between each two. */
  function Fields3(a: string, b: string, c: string, sep: char): string {
    a + [sep] + b + [sep] + c
  }

  /** `HH:MM:SS` */
  function TimePart(f: DateFields): string {
    Fields3(Two(f.hours), Two(f.minutes), Two(f.seconds), ':')
  }

  /** `DD/MM/YYYY`, the month shifted to count from 1; the year is not padded. */
  function DatePart(f: DateFields): string {
    Fields3(Two(f.day), Two(f.month + 1), IntToString(f.year), '/')
  }

  /** What an Invalid Date prints: every getter gives NaN. */
  const INVALID_LAYOUT := "NaN:NaN:NaN, NaN/NaN/NaN"

  /** `formatDateRaw(value)` when `useLocal` is false (UTC getters) and
      `formatDateToLocal(value)` when it is true (local getters). */
  function FormatDate(value: Option<string>, useLocal: bool, parse: string -> Option<JsDate>): (r: string)
    ensures !Present(value) <==> r == "-"
    ensures Present(value) && parse(value.value).Some? ==>
      r == Layout(Fields(parse(value.value).value, useLocal))
    ensures Present(value) && parse(value.value).None? ==> r == INVALID_LAYOUT
  {
    if !Present(value) then "-"
    else match parse(value.value)
      case None => INVALID_LAYOUT
      case Some(d) => Layout(Fields(d, useLocal))
  }

  function Fields(d: JsDate, useLocal: bool): DateFields {
    if useLocal then d.local else d.utc
  }

  /** `${hours}:${minutes}:${seconds}, ${day}/${month}/${year}` */
  function Layout(f: DateFields): string {
    TimePart(f) + ", " + DatePart(f)
  }

  /** Each padded field of the layout shows its number in two digits when
      the number is below 100; the month is shown counted from 1. */
  lemma TwoDigits(n: int)
    requires 0 <= n < 100
    ensures |Two(n)| == 2 && AllDigits(Two(n)) && DigitsValue(Two(n)) == n
  {
    Pad2Digits(n);
  }

  /** Text made only of digits and minus signs, as a number prints. */
  predicate NumberLike(s: string) {
    s != [] && forall i :: 0 <= i < |s| ==> s[i] == '-' || IsDigit(s[i])
  }

  lemma NumberText(n: int)
    ensures NumberLike(IntToString(n))
  {
    if n < 0 {
      assert IntToString(n) == "-" + NatToString(-n);
    }
  }

  lemma TwoText(n: int)
    ensures NumberLike(Two(n))
  {
    var s := IntToString(n);
    var r := Two(n);
    NumberText(n);
    forall i | 0 <= i < |r|
      ensures r[i] == '-' || IsDigit(r[i])
    {
      if i >= |r| - |s| {
        assert r[i] == r[|r| - |s|..][i - (|r| - |s|)];
      }
    }
  }

  /** Three numbers joined by `:` or `/` hold no comma and neither start
      nor end with white space. */
  lemma ThreeFields(a: string, b: string, c: string, sep: char)
    requires NumberLike(a) && NumberLike(b) && NumberLike(c) && (sep == ':' || sep == '/')
    ensures var s := Fields3(a, b, c, sep);
      ',' !in s && Framed(s)
  {
    var s := Fields3(a, b, c, sep);
    forall i | 0 <= i < |s|
      ensures s[i] != ','
    {
      if i < |a| {
        assert s[i] == a[i];
      } else if i == |a| {
      } else if i <= |a| + |b| {
        assert s[i] == b[i - |a| - 1];
      } else if i == |a| + |b| + 1 {
      } else {
        assert s[i] == c[i - |a| - |b| - 2];
      }
    }
    assert s[0] == a[0];
    assert s[|s| - 1] == c[|c| - 1];
  }

  /** Neither part holds a comma, and each starts and ends with a digit or
      a minus sign. */
  lemma TimeText(f: DateFields)
    ensures ',' !in TimePart(f) && Framed(TimePart(f))
  {
    TwoText(f.hours);
    TwoText(f.minutes);
    TwoText(f.seconds);
    ThreeFields(Two(f.hours), Two(f.minutes), Two(f.seconds), ':');
  }

  lemma DateText(f: DateFields)
    ensures ',' !in DatePart(f) && Framed(DatePart(f))
  {
    var a, b, c := Two(f.day), Two(f.month + 1), IntToString(f.year);
    DateFieldsText(f);
    ThreeFields(a, b, c, '/');
    assert DatePart(f) == Fields3(a, b, c, '/');
  }

  lemma DateFieldsText(f: DateFields)
    ensures NumberLike(Two(f.day)) && NumberLike(Two(f.month + 1)) && NumberLike(IntToString(f.year))
  {
    TwoText(f.day);
    TwoText(f.month + 1);
    NumberText(f.year);
  }

  /** The layout of a valid Date holds exactly one comma, so splitting it at
      `,` gives the clock part, then the calendar part after one space.  The
      dashboard rows rely on this. */
  lemma OneComma(f: DateFields)
    ensures CountChar(Layout(f), ',') == 1
    ensures Split(Layout(f), ',') == [TimePart(f), " " + DatePart(f)]
  {
    TimeText(f);
    DateText(f);
    CommaJoin(TimePart(f), DatePart(f));
  }

  lemma CommaJoin(t: string, d: string)
    requires ',' !in t && ',' !in d
    ensures CountChar(t + ", " + d, ',') == 1
    ensures Split(t + ", " + d, ',') == [t, " " + d]
  {
    var d' := " " + d;
    assert ',' !in d';
    assert t + ", " + d == t + [','] + d';
    SplitAtFirst(t, ',', d');
    SplitAbsent(d', ',');
    CountCharAppend(t + [','], d', ',');
    CountCharAppend(t, [','], ',');
    CountAbsent(t, ',');
    CountAbsent(d', ',');
  }

  /** The clock and calendar parts start and end with a digit (or a minus
      sign), so `trim` leaves them as they are. */
  lemma PartsAreTrimmed(f: DateFields)
    ensures Trim(TimePart(f)) == TimePart(f)
    ensures Trim(" " + DatePart(f)) == DatePart(f)
  {
    TimeText(f);
    DateText(f);
    TrimmedAlready(TimePart(f));
    TrimmedAlready(DatePart(f));
  }

  lemma TrimmedAlready(s: string)
    requires Framed(s)
    ensures Trim(s) == s
    ensures Trim(" " + s) == s
  {
    TrimFramed(s);
    assert TrimStart(" " + s) == TrimStart((" " + s)[1..]);
    assert (" " + s)[1..] == s;
  }
}
