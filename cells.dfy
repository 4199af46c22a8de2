/**
 Cell values as the transfer script reads them through openpyxl, and the two
 views of a value the script relies on: its trimmed text, `str(v).strip()`,
 and its Python truthiness, `not v`.
 */
module Cells {

  type Year = y: int | 1 <= y <= 9999 witness 1
  type Month = m: int | 1 <= m <= 12 witness 1
  type DayOfMonth = d: int | 1 <= d <= 31 witness 1
  type Hour = h: int | 0 <= h < 24
  type Minute = m: int | 0 <= m < 60
  type Second = s: int | 0 <= s < 60
  type Microsecond = u: int | 0 <= u < 1000000

  /** A calendar date: what `datetime.date()` keeps of a timestamp. */
  datatype CalendarDate = CalendarDate(year: Year, month: Month, day: DayOfMonth)

  /** A naive timestamp, the value openpyxl gives for a date-formatted cell. */
  datatype DateTime = DateTime(date: CalendarDate, hour: Hour, minute: Minute, second: Second, microsecond: Microsecond)

  /** A cell value: `None`, a string, a number, or a timestamp. */
  datatype Value = Empty | Text(s: string) | Num(n: int) | Date(stamp: DateTime)

  // ---------------------------------------------------------------------------
  // Ordering of timestamps

  /** Python's `<` on naive timestamps: field by field, from the year down. */
  predicate Earlier(a: DateTime, b: DateTime)
  {
    if a.date.year != b.date.year then a.date.year < b.date.year
    else if a.date.month != b.date.month then a.date.month < b.date.month
    else if a.date.day != b.date.day then a.date.day < b.date.day
    else if a.hour != b.hour then a.hour < b.hour
    else if a.minute != b.minute then a.minute < b.minute
    else if a.second != b.second then a.second < b.second
    else a.microsecond < b.microsecond
  }

  /** A timestamp as one mixed-radix count (every month taken as 31 days). */
  function Ticks(t: DateTime): int
  {
    var days := (t.date.year * 12 + (t.date.month - 1)) * 31 + (t.date.day - 1);
    ((days * 24 + t.hour) * 60 + t.minute) * 60 * 1000000 + t.second * 1000000 + t.microsecond
  }

  /** The count orders timestamps exactly as Python does, and tells distinct timestamps apart;
      so `Earlier` is a strict total order. */
  lemma TicksOrderTimestamps(a: DateTime, b: DateTime)
    ensures Earlier(a, b) <==> Ticks(a) < Ticks(b)
    ensures Ticks(a) == Ticks(b) <==> a == b
  {
  }

  /** Python's `max` over a non-empty list of timestamps: the first greatest element. */
  function MaxDate(ds: seq<DateTime>): (r: DateTime)
    requires |ds| > 0
    ensures r in ds
    ensures forall d :: d in ds ==> !Earlier(r, d)
  {
    if |ds| == 1 then ds[0]
    else
      var m := MaxDate(ds[..|ds| - 1]);
      var last := ds[|ds| - 1];
      assert ds == ds[..|ds| - 1] + [last];
      forall d | d in ds[..|ds| - 1] ensures Ticks(d) <= Ticks(m) {
        TicksOrderTimestamps(m, d);
      }
      TicksOrderTimestamps(m, last);
      if Earlier(m, last) then
        forall d | d in ds ensures !Earlier(last, d) {
          TicksOrderTimestamps(last, d);
        }
        last
      else
        forall d | d in ds ensures !Earlier(m, d) {
          TicksOrderTimestamps(m, d);
        }
        m
  }

  // ---------------------------------------------------------------------------
  // str(v): the text Python gives each kind of value

  predicate IsDecimalDigit(c: char)
  {
    '0' <= c <= '9'
  }

  function DigitChar(d: int): (c: char)
    requires 0 <= d < 10
    ensures IsDecimalDigit(c)
  {
    "0123456789"[d]
  }

  /** `n` written with exactly `width` decimal digits, zero-padded on the left
      (`%0<width>d` for a value that fits in the width). */
  function Digits(n: nat, width: nat): (r: string)
    ensures |r| == width
    ensures forall i :: 0 <= i < |r| ==> IsDecimalDigit(r[i])
  {
    if width == 0 then "" else Digits(n / 10, width - 1) + [DigitChar(n % 10)]
  }

  /** The characters a number's or a timestamp's text is made of. */
  predicate IsNumeralChar(c: char)
  {
    IsDecimalDigit(c) || c == '-' || c == ':' || c == '.' || c == ' '
  }

  predicate AllNumeral(s: string)
  {
    forall i :: 0 <= i < |s| ==> IsNumeralChar(s[i])
  }

  lemma NumeralConcat(a: string, b: string)
    requires AllNumeral(a) && AllNumeral(b)
    ensures AllNumeral(a + b)
  {
  }

  /** `str(n)` for a non-negative integer. */
  function NatText(n: nat): (r: string)
    ensures |r| >= 1
    ensures forall i :: 0 <= i < |r| ==> IsDecimalDigit(r[i])
  {
    if n < 10 then [DigitChar(n)] else NatText(n / 10) + [DigitChar(n % 10)]
  }

  /** `str(n)` for an integer. */
  function IntText(n: int): (r: string)
    ensures |r| >= 1 && (r[0] == '-') == (n < 0)
    ensures forall i :: 0 <= i < |r| ==> IsDecimalDigit(r[i]) || (i == 0 && r[i] == '-')
    ensures AllNumeral(r)
  {
    if n < 0 then "-" + NatText(-n) else NatText(n)
  }

  /** `str(t)` for a timestamp: `YYYY-MM-DD HH:MM:SS`, followed by `.ffffff` when
      the microseconds are not zero. */
  function StampText(t: DateTime): (r: string)
    ensures |r| == if t.microsecond == 0 then 19 else 26
    ensures IsDecimalDigit(r[0]) && IsDecimalDigit(r[|r| - 1])
    ensures AllNumeral(r)
  {
    var fraction := if t.microsecond == 0 then "" else "." + Digits(t.microsecond, 6);
    var day := Digits(t.date.year, 4) + "-" + Digits(t.date.month, 2) + "-" + Digits(t.date.day, 2);
    var time := Digits(t.hour, 2) + ":" + Digits(t.minute, 2) + ":" + Digits(t.second, 2);
    NumeralConcat(day, " ");
    NumeralConcat(day + " ", time);
    NumeralConcat(day + " " + time, fraction);
    day + " " + time + fraction
  }

  /** `str(v)`. */
  function Str(v: Value): string
  {
    match v
    case Empty => "None"
    case Text(s) => s
    case Num(n) => IntText(n)
    case Date(t) => StampText(t)
  }

  // ---------------------------------------------------------------------------
  // str.strip()

  /** The characters for which Python's `str.isspace()` holds. */
  const Whitespace: set<char> := {
    '\t', '\n', '\U{B}', '\U{C}', '\r', '\U{1C}', '\U{1D}', '\U{1E}', '\U{1F}', ' ',
    '\U{85}', '\U{A0}', '\U{1680}',
    '\U{2000}', '\U{2001}', '\U{2002}', '\U{2003}', '\U{2004}', '\U{2005}',
    '\U{2006}', '\U{2007}', '\U{2008}', '\U{2009}', '\U{200A}',
    '\U{2028}', '\U{2029}', '\U{202F}', '\U{205F}', '\U{3000}'
  }

  predicate IsSpace(c: char)
  {
    c in Whitespace
  }

  predicate AllSpace(s: string)
  {
    forall i :: 0 <= i < |s| ==> IsSpace(s[i])
  }

  /** Neither end of `s` is whitespace. */
  predicate Trimmed(s: string)
  {
    s == [] || (!IsSpace(s[0]) && !IsSpace(s[|s| - 1]))
  }

  /** `s` with its leading whitespace removed. */
  function TrimStart(s: string): string
  {
    if s != [] && IsSpace(s[0]) then TrimStart(s[1..]) else s
  }

  /** `s` with its trailing whitespace removed. */
  function TrimEnd(s: string): string
  {
    if s != [] && IsSpace(s[|s| - 1]) then TrimEnd(s[..|s| - 1]) else s
  }

  /** Python's `str.strip()` with no argument. */
  function Strip(s: string): string
  {
    TrimEnd(TrimStart(s))
  }

  /** TrimStart drops a whitespace prefix and stops at the first other character. */
  lemma {:induction false} TrimStartSpec(s: string)
    ensures |TrimStart(s)| <= |s| && TrimStart(s) == s[|s| - |TrimStart(s)|..]
    ensures AllSpace(s[..|s| - |TrimStart(s)|])
    ensures TrimStart(s) == [] || !IsSpace(TrimStart(s)[0])
  {
    if s != [] && IsSpace(s[0]) {
      TrimStartSpec(s[1..]);
      var r := TrimStart(s[1..]);
      assert s[..|s| - |r|] == [s[0]] + s[1..][..|s| - 1 - |r|];
    }
  }

  /** TrimEnd drops a whitespace suffix and stops at the last other character. */
  lemma {:induction false} TrimEndSpec(s: string)
    ensures |TrimEnd(s)| <= |s| && TrimEnd(s) == s[..|TrimEnd(s)|]
    ensures AllSpace(s[|TrimEnd(s)|..])
    ensures TrimEnd(s) == [] || !IsSpace(TrimEnd(s)[|TrimEnd(s)| - 1])
  {
    if s != [] && IsSpace(s[|s| - 1]) {
      TrimEndSpec(s[..|s| - 1]);
      var r := TrimEnd(s[..|s| - 1]);
      assert s[|r|..] == s[..|s| - 1][|r|..] + [s[|s| - 1]];
    }
  }

  /** The stripped text has no whitespace at either end, and is no longer than the original. */
  lemma StripSpec(s: string)
    ensures Trimmed(Strip(s)) && |Strip(s)| <= |s|
  {
    var t := TrimStart(s);
    TrimStartSpec(s);
    TrimEndSpec(t);
    var r := TrimEnd(t);
    assert r != [] ==> r[0] == t[0];
  }

  /** Whitespace in front of a string that does not start with whitespace is exactly what TrimStart drops. */
  lemma {:induction false} TrimStartDropsPadding(pad: string, s: string)
    requires AllSpace(pad)
    ensures TrimStart(pad + s) == TrimStart(s)
  {
    if pad == [] {
      assert pad + s == s;
    } else {
      assert (pad + s)[0] == pad[0];
      assert (pad + s)[1..] == pad[1..] + s;
      TrimStartDropsPadding(pad[1..], s);
    }
  }

  lemma {:induction false} TrimEndDropsPadding(s: string, pad: string)
    requires AllSpace(pad)
    ensures TrimEnd(s + pad) == TrimEnd(s)
  {
    if pad == [] {
      assert s + pad == s;
    } else {
      assert (s + pad)[|s + pad| - 1] == pad[|pad| - 1];
      assert (s + pad)[..|s + pad| - 1] == s + pad[..|pad| - 1];
      TrimEndDropsPadding(s, pad[..|pad| - 1]);
    }
  }

  /** `strip()` removes exactly the surrounding whitespace: padding a trimmed
      string with whitespace on both sides and stripping gives it back. */
  lemma StripRemovesPadding(front: string, core: string, back: string)
    requires AllSpace(front) && AllSpace(back) && Trimmed(core)
    ensures Strip(front + core + back) == core
  {
    TrimStartDropsPadding(front, core + back);
    assert front + core + back == front + (core + back);
    if core == [] {
      assert core + back == back + [];
      TrimStartDropsPadding(back, []);
    } else {
      assert TrimStart(core + back) == core + back;
      TrimEndDropsPadding(core, back);
    }
  }

  /** Stripping twice is stripping once. */
  lemma StripIdempotent(s: string)
    ensures Strip(Strip(s)) == Strip(s)
  {
    var r := Strip(s);
    StripSpec(s);
    StripRemovesPadding([], r, []);
    assert [] + r + [] == r;
  }

  // ---------------------------------------------------------------------------
  // The two views of a value that the script uses

  /** `str(v).strip()`: the text a header cell is matched by. */
  function CellText(v: Value): string
  {
    Strip(Str(v))
  }

  /** A slice of a numeral text is a numeral text. */
  lemma SliceNumeral(s: string, a: nat, b: nat)
    requires AllNumeral(s) && a <= b <= |s|
    ensures AllNumeral(s[a..b])
  {
  }

  /** Stripping keeps only characters of the original text. */
  lemma StripNumeral(s: string)
    requires AllNumeral(s)
    ensures AllNumeral(Strip(s))
  {
    var t := TrimStart(s);
    TrimStartSpec(s);
    SliceNumeral(s, |s| - |t|, |s|);
    var r := TrimEnd(t);
    TrimEndSpec(t);
    SliceNumeral(t, 0, |r|);
  }

  /** A value that is not a string reads as "None" or as digits and punctuation. */
  lemma NonTextReading(v: Value)
    requires !v.Text?
    ensures CellText(v) == "None" || AllNumeral(CellText(v))
  {
    if v.Empty? {
      EmptyText();
    } else {
      StripNumeral(Str(v));
    }
  }

  /** An empty cell reads as the text "None". */
  lemma EmptyText()
    ensures CellText(Empty) == "None"
  {
    StripRemovesPadding([], "None", []);
    assert [] + "None" + [] == "None";
  }

  /** Python truthiness of a value: `None`, `""` and `0` are false, every timestamp is true. */
  predicate Truthy(v: Value)
  {
    match v
    case Empty => false
    case Text(s) => s != ""
    case Num(n) => n != 0
    case Date(_) => true
  }
}
