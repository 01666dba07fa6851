/** The `HH:MM:SS` text the employee view shows for elapsed and remaining time
    (`pad` and `fmt` in employee.js), and a reader that recovers the seconds from it. */
module ClockText {
  import opened Wrappers
  import opened Decimal

  /** `pad(n)`: the numeral of n, zero-padded to at least two characters. */
  function Pad(n: nat): (p: string)
    ensures |p| >= 2 && AllDigits(p)
    ensures n < 100 ==> |p| == 2
  {
    Pad2(NatToString(n))
  }

  /** Hours, minutes and seconds of a count of seconds: the unique split with
      minutes and seconds below sixty. */
  function ClockParts(s: nat): (parts: (nat, nat, nat))
    ensures parts.1 < 60 && parts.2 < 60
    ensures parts.0 * 3600 + parts.1 * 60 + parts.2 == s
  {
    (s / 3600, (s % 3600) / 60, s % 60)
  }

  /** `fmt(s)` for s >= 0 (its callers pass `Math.max(0, elapsed)` and the remaining time). */
  function Fmt(s: nat): (t: string)
    ensures |t| >= 8 && t[|t| - 3] == ':' && t[|t| - 6] == ':'
  {
    var (h, m, sec) := ClockParts(s);
    Pad(h) + ":" + Pad(m) + ":" + Pad(sec)
  }

  /** Reads `H...H:MM:SS` (at least two hour digits, minutes and seconds below sixty). */
  function ParseClock(t: string): Option<nat>
  {
    if |t| < 8 || t[|t| - 6] != ':' || t[|t| - 3] != ':' then None
    else ClockValue(t[..|t| - 6], t[|t| - 5..|t| - 3], t[|t| - 2..])
  }

  function ClockValue(hs: string, ms: string, ss: string): Option<nat>
  {
    if !(AllDigits(hs) && AllDigits(ms) && AllDigits(ss)) then None
    else
      var h, m, sec := DigitsValue(hs), DigitsValue(ms), DigitsValue(ss);
      if m < 60 && sec < 60 then Some(h * 3600 + m * 60 + sec) else None
  }

  lemma PadValue(n: nat)
    ensures DigitsValue(Pad(n)) == n
  {
    NatToStringValue(n);
    Pad2Value(NatToString(n));
  }

  lemma ReadClockText(hs: string, ms: string, ss: string)
    requires |hs| >= 2 && |ms| == 2 && |ss| == 2
    ensures ParseClock(hs + ":" + ms + ":" + ss) == ClockValue(hs, ms, ss)
  {
    var t := hs + ":" + ms + ":" + ss;
    assert t[..|t| - 6] == hs;
    assert t[|t| - 5..|t| - 3] == ms;
    assert t[|t| - 2..] == ss;
  }

  lemma ReadClockFields(h: nat, m: nat, sec: nat)
    requires m < 60 && sec < 60
    ensures ParseClock(Pad(h) + ":" + Pad(m) + ":" + Pad(sec)) == Some(h * 3600 + m * 60 + sec)
  {
    var hs, ms, ss := Pad(h), Pad(m), Pad(sec);
    PadValue(h);
    PadValue(m);
    PadValue(sec);
    assert ClockValue(hs, ms, ss) == Some(h * 3600 + m * 60 + sec);
    ReadClockText(hs, ms, ss);
  }

  /** The clock text loses nothing: reading `fmt(s)` gives back s. */
  lemma FmtRoundTrip(s: nat)
    ensures ParseClock(Fmt(s)) == Some(s)
  {
    var (h, m, sec) := ClockParts(s);
    ReadClockFields(h, m, sec);
  }
}
