/** Optional values, standing for Python's `None` where a value may be absent. */
module Options {
  datatype Option<+T> = None | Some(value: T)
}

/**
  Cell values of a worksheet and the date formatting that the loader applies
  to date-typed cells (`%Y-%m-%d %H:%M:%S`).
 */
module Cells {
  import opened Options

  /** A timestamp as Python's `datetime` holds it. `InRange` bounds each field
      on its own: it lets day 31 through in every month, so a few timestamps
      no `datetime` can hold are admitted. */
  datatype Timestamp = Timestamp(year: nat, month: nat, day: nat,
                                 hour: nat, minute: nat, second: nat, microsecond: nat)
  {
    ghost predicate InRange() {
      && 1 <= year <= 9999 && 1 <= month <= 12 && 1 <= day <= 31
      && hour < 24 && minute < 60 && second < 60 && microsecond < 1000000
    }
  }

  type DateTime = t: Timestamp | t.InRange() witness Timestamp(1, 1, 1, 0, 0, 0, 0)

  /** The value of one cell: `None`, text, a number, a boolean or a date. */
  datatype Value = Null | Text(s: string) | Number(n: int) | Flag(b: bool) | Moment(t: DateTime)

  /** A field name: the value of a header cell. */
  type Key = Value

  /** One loaded row, or one document of an index: field name to value. */
  type Record = map<Key, Value>

  function Pow10(n: nat): (p: nat)
    ensures p >= 1
  {
    if n == 0 then 1 else 10 * Pow10(n - 1)
  }

  function DigitChar(d: nat): char
    requires d < 10
  {
    "0123456789"[d]
  }

  predicate IsDigit(c: char) {
    '0' <= c <= '9'
  }

  predicate AllDigits(s: string) {
    forall i :: 0 <= i < |s| ==> IsDigit(s[i])
  }

  /** The low `width` decimal digits of `n`, most significant first, zero padded. */
  function Padded(n: nat, width: nat): (s: string)
    ensures |s| == width && AllDigits(s)
  {
    if width == 0 then "" else Padded(n / 10, width - 1) + [DigitChar(n % 10)]
  }

  function DigitOf(c: char): (d: nat)
    requires IsDigit(c)
    ensures d < 10
  {
    c as int - '0' as int
  }

  /** The number a string of decimal digits denotes. */
  function DigitsValue(s: string): nat
    requires AllDigits(s)
  {
    if s == [] then 0 else 10 * DigitsValue(s[..|s| - 1]) + DigitOf(s[|s| - 1])
  }

  /** Three numbers written `x<sep>yy<sep>zz`, the first one `width` digits wide. */
  function Triple(x: nat, y: nat, z: nat, sep: char, width: nat): string {
    Padded(x, width) + [sep] + Padded(y, 2) + [sep] + Padded(z, 2)
  }

  /** Reads back three numbers laid out as `Triple` writes them. */
  function ParseTriple(s: string, sep: char, width: nat): Option<(nat, nat, nat)> {
    if |s| == width + 6 && s[width] == sep && s[width + 3] == sep
       && AllDigits(s[..width]) && AllDigits(s[width + 1..width + 3]) && AllDigits(s[width + 4..])
    then Some((DigitsValue(s[..width]), DigitsValue(s[width + 1..width + 3]), DigitsValue(s[width + 4..])))
    else None
  }

  /** `strftime('%Y-%m-%d %H:%M:%S')`: microseconds are not written. */
  function FormatDate(t: DateTime): (s: string)
    ensures |s| == 19
    ensures s[4] == '-' && s[7] == '-' && s[10] == ' ' && s[13] == ':' && s[16] == ':'
  {
    Triple(t.year, t.month, t.day, '-', 4) + " " + Triple(t.hour, t.minute, t.second, ':', 2)
  }

  /** Reads back a string in the `%Y-%m-%d %H:%M:%S` layout. */
  function ParseDate(s: string): (r: Option<Timestamp>)
    ensures r.Some? ==> |s| == 19
  {
    if |s| == 19 && s[10] == ' ' then
      match (ParseTriple(s[..10], '-', 4), ParseTriple(s[11..], ':', 2))
      case (Some((y, mo, d)), Some((h, mi, sec))) => Some(Timestamp(y, mo, d, h, mi, sec, 0))
      case _ => None
    else None
  }

  lemma {:induction false} PaddedRoundTrip(n: nat, width: nat)
    requires n < Pow10(width)
    ensures DigitsValue(Padded(n, width)) == n
  {
    if width > 0 {
      var s, q := Padded(n, width), n / 10;
      assert q < Pow10(width - 1) by {
        assert Pow10(width) == 10 * Pow10(width - 1);
      }
      PaddedRoundTrip(q, width - 1);
      assert s[..|s| - 1] == Padded(q, width - 1);
      assert DigitOf(s[|s| - 1]) == n % 10;
      calc {
        DigitsValue(s);
        10 * DigitsValue(Padded(q, width - 1)) + n % 10;
        10 * q + n % 10;
      }
    }
  }

  lemma TripleRoundTrip(x: nat, y: nat, z: nat, sep: char, width: nat)
    requires x < Pow10(width) && y < 100 && z < 100 && !IsDigit(sep)
    ensures ParseTriple(Triple(x, y, z, sep, width), sep, width) == Some((x, y, z))
  {
    var a, b, c := Padded(x, width), Padded(y, 2), Padded(z, 2);
    var s := Triple(x, y, z, sep, width);
    var head := a + [sep] + b;
    assert s == head + ([sep] + c);
    assert s[..width + 3] == head;
    assert s[width + 4..] == c;
    assert head[..width] == a && head[width + 1..] == b;
    assert s[..width] == a;
    assert s[width + 1..width + 3] == b;
    PaddedRoundTrip(x, width);
    PaddedRoundTrip(y, 2);
    PaddedRoundTrip(z, 2);
  }

  /** The formatted date is 19 characters long and reads back as the same
      date and time of day, with the microseconds dropped. */
  lemma FormatDateRoundTrip(t: DateTime)
    ensures |FormatDate(t)| == 19
    ensures ParseDate(FormatDate(t)) == Some(t.(microsecond := 0))
  {
    var s := FormatDate(t);
    assert s[..10] == Triple(t.year, t.month, t.day, '-', 4);
    assert s[11..] == Triple(t.hour, t.minute, t.second, ':', 2);
    TripleRoundTrip(t.year, t.month, t.day, '-', 4);
    TripleRoundTrip(t.hour, t.minute, t.second, ':', 2);
  }

  /** Two dates format alike exactly when they agree up to the second. */
  lemma FormatDateInjective(t: DateTime, u: DateTime)
    ensures FormatDate(t) == FormatDate(u) <==> t.(microsecond := 0) == u.(microsecond := 0)
  {
    FormatDateRoundTrip(t);
    FormatDateRoundTrip(u);
  }

  lemma YearExample()
    ensures Padded(2024, 4) == "2024"
  {
    assert DigitChar(0) == '0' && DigitChar(2) == '2' && DigitChar(4) == '4';
    assert Padded(2, 1) == "2";
    assert Padded(20, 2) == "20";
    assert Padded(202, 3) == "202";
  }

  lemma TwoDigitExamples()
    ensures Padded(1, 2) == "01" && Padded(2, 2) == "02" && Padded(10, 2) == "10" && Padded(0, 2) == "00"
  {
    assert DigitChar(0) == '0' && DigitChar(1) == '1' && DigitChar(2) == '2';
    assert Padded(0, 1) == "0" && Padded(1, 1) == "1";
  }

  /** The example of a date cell holding 2024-01-02 10:00:00. */
  lemma FormatDateExample()
    ensures FormatDate(Timestamp(2024, 1, 2, 10, 0, 0, 0)) == "2024-01-02 10:00:00"
  {
    YearExample();
    TwoDigitExamples();
    assert Triple(2024, 1, 2, '-', 4) == "2024-01-02";
    assert Triple(10, 0, 0, ':', 2) == "10:00:00";
  }
}
