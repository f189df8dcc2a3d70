/**
 * Departure times: `parseTimeToTodaySeconds`, which reads `H:MM` or `HH:MM`
 * as seconds since midnight, and `isDeparted`, which compares a time with
 * the clock. The clock reading is a parameter (`nowSec`, seconds since
 * local midnight).
 */
module Schedule {
  import opened Wrappers
  import Text

  predicate IsDigit(c: char) { '0' <= c <= '9' }

  function DigitValue(c: char): (n: nat)
    requires IsDigit(c)
    ensures n < 10
  {
    c as int - '0' as int
  }

  function Digit(n: nat): (c: char)
    requires n < 10
    ensures IsDigit(c) && DigitValue(c) == n
  {
    ('0' as int + n) as char
  }

  /** Two decimal digits, with a leading zero below 10. */
  function TwoDigits(n: nat): (s: string)
    requires n < 100
    ensures |s| == 2 && IsDigit(s[0]) && IsDigit(s[1])
    ensures 10 * DigitValue(s[0]) + DigitValue(s[1]) == n
  {
    [Digit(n / 10), Digit(n % 10)]
  }

  /** The text matches `^(\d{1,2}):(\d{2})$`: one or two digits, a colon,
      exactly two digits, and nothing else. */
  predicate TimeShape(s: string) {
    || (|s| == 4 && IsDigit(s[0]) && s[1] == ':' && IsDigit(s[2]) && IsDigit(s[3]))
    || (|s| == 5 && IsDigit(s[0]) && IsDigit(s[1]) && s[2] == ':' && IsDigit(s[3]) && IsDigit(s[4]))
  }

  /** `parseTimeToTodaySeconds`: `hh * 3600 + mm * 60` for a text of the
      time shape, nothing otherwise. Neither part is range-checked. */
  function ParseTime(s: string): (r: Option<int>)
    ensures r.Some? <==> TimeShape(s)
    ensures r.Some? ==> 0 <= r.value <= 99 * 3600 + 99 * 60 && r.value % 60 == 0
  {
    if !TimeShape(s) then None
    else
      var k := |s| - 3;
      var hh := if k == 2 then 10 * DigitValue(s[0]) + DigitValue(s[1]) else DigitValue(s[0]);
      var mm := 10 * DigitValue(s[k + 1]) + DigitValue(s[k + 2]);
      Some(hh * 3600 + mm * 60)
  }

  /** The time a board shows (`HH:MM`, each part two digits). */
  function FormatTime(h: nat, m: nat): string
    requires h < 100 && m < 100
  {
    TwoDigits(h) + ":" + TwoDigits(m)
  }

  /** Reading a formatted time gives back its seconds. */
  lemma ParseFormatted(h: nat, m: nat)
    requires h < 100 && m < 100
    ensures ParseTime(FormatTime(h, m)) == Some(h * 3600 + m * 60)
  {
    var s := FormatTime(h, m);
    assert s[..2] == TwoDigits(h) && s[3..] == TwoDigits(m);
    assert s[0] == TwoDigits(h)[0] && s[1] == TwoDigits(h)[1];
    assert s[3] == TwoDigits(m)[0] && s[4] == TwoDigits(m)[1];
  }

  /** A one-digit hour reads like the same hour with a leading zero. */
  lemma ParseShortHour(h: nat, m: nat)
    requires h < 10 && m < 100
    ensures ParseTime([Digit(h)] + ":" + TwoDigits(m)) == Some(h * 3600 + m * 60)
  {
    var s := [Digit(h)] + ":" + TwoDigits(m);
    assert s[2] == TwoDigits(m)[0] && s[3] == TwoDigits(m)[1];
  }

  /** Minutes are not range-checked: `08:75` reads as `09:15`. */
  lemma MinutesNotChecked()
    ensures ParseTime("08:75") == ParseTime("09:15") == Some(33300)
  {
  }

  /** `isDeparted`: the trimmed time was read, and the clock is past it by
      more than the grace period. */
  function IsDeparted(hhmm: string, nowSec: int, graceSec: int): (b: bool)
    ensures b ==> TimeShape(Text.Trim(hhmm))
  {
    var t := ParseTime(Text.Trim(hhmm));
    t.Some? && nowSec > t.value + graceSec
  }

  /** For a formatted time, departed means strictly past time plus
      grace. */
  lemma DepartedFormatted(h: nat, m: nat, nowSec: int, graceSec: int)
    requires h < 100 && m < 100
    ensures IsDeparted(FormatTime(h, m), nowSec, graceSec) <==> nowSec > h * 3600 + m * 60 + graceSec
  {
    var s := FormatTime(h, m);
    ParseFormatted(h, m);
    Text.TrimAroundCore(0, s, 0);
    assert Text.Spaces(0) + s + Text.Spaces(0) == s;
  }

  /** For a time with a one-digit hour, departed means strictly past
      time plus grace, as for two digits. */
  lemma DepartedShortHour(h: nat, m: nat, nowSec: int, graceSec: int)
    requires h < 10 && m < 100
    ensures IsDeparted([Digit(h)] + ":" + TwoDigits(m), nowSec, graceSec) <==> nowSec > h * 3600 + m * 60 + graceSec
  {
    var s := [Digit(h)] + ":" + TwoDigits(m);
    ParseShortHour(h, m);
    Text.TrimAroundCore(0, s, 0);
    assert Text.Spaces(0) + s + Text.Spaces(0) == s;
  }

  /** Blanks around the time do not matter. */
  lemma DepartedIgnoresPadding(a: nat, t: string, b: nat, nowSec: int, graceSec: int)
    requires |t| > 0 ==> !Text.IsSpace(t[0]) && !Text.IsSpace(t[|t| - 1])
    ensures IsDeparted(Text.Spaces(a) + t + Text.Spaces(b), nowSec, graceSec) == IsDeparted(t, nowSec, graceSec)
  {
    Text.TrimAroundCore(a, t, b);
    Text.TrimAroundCore(0, t, 0);
    assert Text.Spaces(0) + t + Text.Spaces(0) == t;
  }

  /** Once departed, a train stays departed for the rest of the day. */
  lemma DepartedStays(hhmm: string, n1: int, n2: int, graceSec: int)
    requires n1 <= n2 && IsDeparted(hhmm, n1, graceSec)
    ensures IsDeparted(hhmm, n2, graceSec)
  {
  }

  /** A longer grace period never makes a train depart sooner. */
  lemma DepartedGraceMonotone(hhmm: string, nowSec: int, g1: int, g2: int)
    requires g1 <= g2 && IsDeparted(hhmm, nowSec, g2)
    ensures IsDeparted(hhmm, nowSec, g1)
  {
  }

  /** `08:15` with the default 15 s of grace departs at 08:15:16. */
  lemma DepartedExample()
    ensures !IsDeparted("08:15", 29715, 15)
    ensures IsDeparted("08:15", 29716, 15)
  {
    assert TwoDigits(8) == "08" && TwoDigits(15) == "15";
    assert FormatTime(8, 15) == "08:15";
    DepartedFormatted(8, 15, 29715, 15);
    DepartedFormatted(8, 15, 29716, 15);
  }
}
