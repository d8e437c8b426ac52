/**
 * Times of day as minutes since midnight, and the zero-padded "HH:MM" strings
 * the views exchange. The slot loop reads the row's start and end through a
 * date-time parse and writes each slot back as the first five characters of
 * the time-of-day rendering; here both are integer arithmetic.
 */
module Clock {
  import opened Types
  import opened Ordering

  const MinutesPerDay: nat := 1440

  predicate IsDigit(c: char) {
    '0' <= c <= '9'
  }

  function DigitValue(c: char): (d: nat)
    requires IsDigit(c)
    ensures d < 10
  {
    c as int - '0' as int
  }

  function DigitChar(d: nat): (c: char)
    requires d < 10
    ensures IsDigit(c) && DigitValue(c) == d
  {
    ('0' as int + d) as char
  }

  /** The minute of day an "HH:MM" string denotes, or None when it is not a time of day. */
  function ParseTime(s: string): (r: Option<nat>)
    ensures r.Some? ==> r.value < MinutesPerDay
    ensures r.Some? ==> |s| == 5 && s[2] == ':'
    ensures r.Some? ==> IsDigit(s[0]) && IsDigit(s[1]) && IsDigit(s[3]) && IsDigit(s[4])
  {
    if |s| == 5 && IsDigit(s[0]) && IsDigit(s[1]) && s[2] == ':' && IsDigit(s[3]) && IsDigit(s[4]) then
      var h := 10 * DigitValue(s[0]) + DigitValue(s[1]);
      var m := 10 * DigitValue(s[3]) + DigitValue(s[4]);
      if h < 24 && m < 60 then Some(60 * h + m) else None
    else
      None
  }

  /** The zero-padded "HH:MM" rendering of a minute of day. */
  function FormatTime(t: nat): (s: string)
    requires t < MinutesPerDay
    ensures |s| == 5 && s[2] == ':'
  {
    var h := t / 60;
    var m := t % 60;
    [DigitChar(h / 10), DigitChar(h % 10), ':', DigitChar(m / 10), DigitChar(m % 10)]
  }

  /** Rendering a time and reading it back gives the same minute. */
  lemma ParseFormat(t: nat)
    requires t < MinutesPerDay
    ensures ParseTime(FormatTime(t)) == Some(t)
  {
    var s := FormatTime(t);
    var h, m := t / 60, t % 60;
    assert 10 * DigitValue(s[0]) + DigitValue(s[1]) == h;
    assert 10 * DigitValue(s[3]) + DigitValue(s[4]) == m;
  }

  /** A string that reads as a time is that time's canonical rendering. */
  lemma FormatParse(s: string)
    requires ParseTime(s).Some?
    ensures FormatTime(ParseTime(s).value) == s
  {
    var h := 10 * DigitValue(s[0]) + DigitValue(s[1]);
    var m := 10 * DigitValue(s[3]) + DigitValue(s[4]);
    var t := 60 * h + m;
    assert t / 60 == h && t % 60 == m;
    assert h / 10 == DigitValue(s[0]) && h % 10 == DigitValue(s[1]);
    assert m / 10 == DigitValue(s[3]) && m % 10 == DigitValue(s[4]);
    var f := FormatTime(t);
    assert f[0] == s[0] && f[1] == s[1] && f[2] == s[2] && f[3] == s[3] && f[4] == s[4];
  }

  /** An earlier minute renders to a string that sorts strictly before. */
  lemma FormatMonotone(t1: nat, t2: nat)
    requires t1 < t2 < MinutesPerDay
    ensures StrLt(FormatTime(t1), FormatTime(t2))
  {
    var a, b := FormatTime(t1), FormatTime(t2);
    var h1, m1, h2, m2 := t1 / 60, t1 % 60, t2 / 60, t2 % 60;
    assert h1 < h2 || (h1 == h2 && m1 < m2);
    if h1 / 10 < h2 / 10 {
      StrLtAt(a, b, 0);
    } else if h1 / 10 == h2 / 10 && h1 % 10 < h2 % 10 {
      assert a[..1] == b[..1];
      StrLtAt(a, b, 1);
    } else {
      assert h1 == h2;
      if m1 / 10 < m2 / 10 {
        assert a[..3] == b[..3];
        StrLtAt(a, b, 3);
      } else {
        assert m1 / 10 == m2 / 10 && m1 % 10 < m2 % 10;
        assert a[..4] == b[..4];
        StrLtAt(a, b, 4);
      }
    }
  }

  /**
   * On well-formed "HH:MM" strings, string order is chronological order; this
   * is what lets the agenda sort times as text.
   */
  lemma TimeOrderIsChronological(s1: string, s2: string)
    requires ParseTime(s1).Some? && ParseTime(s2).Some?
    ensures StrLe(s1, s2) <==> ParseTime(s1).value <= ParseTime(s2).value
  {
    var t1, t2 := ParseTime(s1).value, ParseTime(s2).value;
    FormatParse(s1);
    FormatParse(s2);
    if t1 < t2 {
      FormatMonotone(t1, t2);
    } else if t1 == t2 {
      StrLeReflexive(s1);
    } else {
      FormatMonotone(t2, t1);
      if StrLe(s1, s2) {
        StrLeAntisymmetric(s1, s2);
      }
    }
  }
}
