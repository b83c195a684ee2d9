/** The two ways elapsed time is written: `Xm Ys` for a number of seconds
    (the shared utilities and the dashboard), and the `MM:SS` clock of the
    study page for a number of milliseconds. */
module TimeFormat {
  import opened Wrappers
  import opened Text
  import Digits

  /** Whole minutes and the seconds left over. */
  datatype MinSec = MinSec(minutes: nat, seconds: nat)

  /** `Math.floor(seconds / 60)` and `seconds % 60` for a whole number of
      seconds. */
  function SplitSeconds(total: nat): (r: MinSec)
    ensures 60 * r.minutes + r.seconds == total
    ensures r.seconds < 60
  {
    MinSec(total / 60, total % 60)
  }

  /** The split is the only one with fewer than 60 seconds left over. */
  lemma SplitSecondsUnique(total: nat, m: nat, s: nat)
    requires 60 * m + s == total && s < 60
    ensures SplitSeconds(total) == MinSec(m, s)
  {
  }

  /** `formatTime(seconds)`: minutes, `m `, seconds, `s`. */
  function FormatTime(total: nat): (t: string)
    ensures 'm' in t && t[|t| - 1] == 's'
  {
    var p := SplitSeconds(total);
    TimeText(p.minutes, p.seconds)
  }

  function TimeText(minutes: nat, seconds: nat): (t: string)
    ensures 'm' in t && t[|t| - 1] == 's'
  {
    Digits.NatToString(minutes) + "m " + Digits.NatToString(seconds) + "s"
  }

  /** The text before the first `sep` and everything after it; `None`
      when there is no `sep`. */
  function SplitAt(t: string, sep: char): (r: Option<(string, string)>)
    ensures r.None? <==> sep !in t
    ensures r.Some? ==> t == r.value.0 + [sep] + r.value.1 && sep !in r.value.0
  {
    if |t| == 0 then None
    else if t[0] == sep then Some(([], t[1..]))
    else match SplitAt(t[1..], sep)
      case None => None
      case Some((before, after)) => Some(([t[0]] + before, after))
  }

  /** Reading a time back: `parseInt` of what precedes the first `sep`
      and of what follows it, as minutes and seconds. */
  function ReadMinSec(t: string, sep: char): Option<int> {
    match SplitAt(t, sep)
    case None => None
    case Some((before, after)) => Combine(Digits.ParseInt(before), Digits.ParseInt(after))
  }

  function Combine(minutes: Option<int>, seconds: Option<int>): Option<int> {
    if minutes.Some? && seconds.Some? then Some(60 * minutes.value + seconds.value) else None
  }

  /** Reading `Xm Ys` back. */
  function ParseTime(t: string): Option<int> {
    ReadMinSec(t, 'm')
  }

  /** Splitting at a separator that the first part does not contain gives
      back the two parts. */
  lemma {:induction false} SplitAtLayout(m: string, sep: char, rest: string)
    requires sep !in m
    ensures SplitAt(m + [sep] + rest, sep) == Some((m, rest))
    decreases |m|
  {
    var t := m + [sep] + rest;
    if |m| == 0 {
      assert t[1..] == rest;
    } else {
      assert t[1..] == m[1..] + [sep] + rest;
      SplitAtLayout(m[1..], sep, rest);
      assert [m[0]] + m[1..] == m;
    }
  }

  /** Reading a time reads the two parts on either side of the separator. */
  lemma ReadMinSecLayout(m: string, sep: char, rest: string)
    requires sep !in m
    ensures ReadMinSec(m + [sep] + rest, sep) == Combine(Digits.ParseInt(m), Digits.ParseInt(rest))
  {
    SplitAtLayout(m, sep, rest);
  }

  /** A digit string holds no separator that is not a digit. */
  lemma NoSeparatorInDigits(m: string, sep: char)
    requires Digits.AllDigits(m) && !Digits.IsDigit(sep)
    ensures sep !in m
  {
  }

  /** The seconds part, ` Ys`, reads as `Y`. */
  lemma SecondsPartReads(b: nat)
    ensures Digits.ParseInt(" " + Digits.NatToString(b) + "s") == Some(b)
  {
    var s := Digits.NatToString(b);
    var t := " " + s + "s";
    assert t[1..] == s + "s";
    Digits.ParseIntNatToString(b, "s");
  }

  /** The `Xm Ys` text split at its `m`. */
  lemma TimeTextShape(a: nat, b: nat)
    ensures TimeText(a, b) == Digits.NatToString(a) + ['m'] + (" " + Digits.NatToString(b) + "s")
  {
    assert "m " + Digits.NatToString(b) == ['m'] + " " + Digits.NatToString(b);
  }

  /** The minutes part reads as `X`. */
  lemma MinutesPartReads(a: nat)
    ensures Digits.ParseInt(Digits.NatToString(a)) == Some(a)
  {
    Digits.ParseIntNatToString(a, "");
    assert Digits.NatToString(a) + "" == Digits.NatToString(a);
  }

  /** Minutes and seconds read back from their `Xm Ys` text. */
  lemma TimeTextRoundTrip(a: nat, b: nat)
    ensures ParseTime(TimeText(a, b)) == Some(60 * a + b)
  {
    var m := Digits.NatToString(a);
    var rest := " " + Digits.NatToString(b) + "s";
    TimeTextShape(a, b);
    NoSeparatorInDigits(m, 'm');
    MinutesPartReads(a);
    SecondsPartReads(b);
    PartsReadBack(m, 'm', rest, a, b, 60 * a + b);
  }

  /** Every number of seconds reads back from its `Xm Ys` text. */
  lemma FormatTimeRoundTrip(total: nat)
    ensures ParseTime(FormatTime(total)) == Some(total)
  {
    var p := SplitSeconds(total);
    var m := Digits.NatToString(p.minutes);
    var rest := " " + Digits.NatToString(p.seconds) + "s";
    assert FormatTime(total) == TimeText(p.minutes, p.seconds);
    TimeTextShape(p.minutes, p.seconds);
    NoSeparatorInDigits(m, 'm');
    MinutesPartReads(p.minutes);
    SecondsPartReads(p.seconds);
    PartsReadBack(m, 'm', rest, p.minutes, p.seconds, total);
  }

  // ----------------------------------------------------------------- clock

  /** The study page's `formatTime(milliseconds)`: whole seconds, split
      into minutes and seconds, each padded to two digits. The clock shows
      every whole second elapsed, however many minutes. */
  function Clock(ms: nat): (t: string)
    ensures ms < 100 * 60000 ==> |t| == 5 && t[2] == ':'
  {
    var p := SplitSeconds(ms / 1000);
    ClockText(p.minutes, p.seconds)
  }

  function ClockText(minutes: nat, seconds: nat): (t: string)
    ensures minutes < 100 && seconds < 100 ==> |t| == 5 && t[2] == ':'
  {
    Digits.Pad2(minutes) + ":" + Digits.Pad2(seconds)
  }

  /** Every clock reads back as the whole seconds it shows. */
  lemma ClockRoundTrip(ms: nat)
    ensures ParseClock(Clock(ms)) == Some(ms / 1000)
  {
    SecondsClockRoundTrip(ms / 1000);
  }

  /** A number of seconds, split and written as a clock, reads back. */
  lemma SecondsClockRoundTrip(total: nat)
    ensures var p := SplitSeconds(total); ParseClock(ClockText(p.minutes, p.seconds)) == Some(total)
  {
    var p := SplitSeconds(total);
    var m := Digits.Pad2(p.minutes);
    var s := Digits.Pad2(p.seconds);
    assert ClockText(p.minutes, p.seconds) == m + [':'] + s;
    assert ':' !in m by {
      NoSeparatorInDigits(m, ':');
    }
    PaddedPartReads(p.minutes);
    PaddedPartReads(p.seconds);
    PartsReadBack(m, ':', s, p.minutes, p.seconds, total);
  }

  /** Reading an `MM:SS` clock back as a number of seconds. */
  function ParseClock(t: string): Option<int> {
    ReadMinSec(t, ':')
  }

  /** A padded number reads back as itself. */
  lemma PaddedPartReads(a: nat)
    ensures Digits.ParseInt(Digits.Pad2(a)) == Some(a)
  {
    Digits.ParseIntDigits(Digits.Pad2(a));
  }

  /** Minutes and seconds read back from their clock text. */
  lemma ClockTextRoundTrip(a: nat, b: nat)
    ensures ParseClock(ClockText(a, b)) == Some(60 * a + b)
  {
    var m := Digits.Pad2(a);
    var s := Digits.Pad2(b);
    assert ClockText(a, b) == m + [':'] + s;
    assert ':' !in m by {
      NoSeparatorInDigits(m, ':');
    }
    PaddedPartReads(a);
    PaddedPartReads(b);
    PartsReadBack(m, ':', s, a, b, 60 * a + b);
  }

  /** A time whose two parts read as `x` and `y` reads as `60 * x + y`. */
  lemma PartsReadBack(m: string, sep: char, rest: string, x: int, y: int, n: int)
    requires sep !in m
    requires Digits.ParseInt(m) == Some(x) && Digits.ParseInt(rest) == Some(y)
    requires 60 * x + y == n
    ensures ReadMinSec(m + [sep] + rest, sep) == Some(n)
  {
    ReadMinSecLayout(m, sep, rest);
    CombineReads(Digits.ParseInt(m), Digits.ParseInt(rest), x, y, n);
  }

  lemma CombineReads(pm: Option<int>, ps: Option<int>, x: int, y: int, n: int)
    requires pm == Some(x) && ps == Some(y) && 60 * x + y == n
    ensures Combine(pm, ps) == Some(n)
  {
  }
}
