/** The calendar page: study sessions planned per date, kept in time
    order; the two shown in a day cell; the five shown as upcoming; and
    the `YYYY-MM-DD` keys that name the days. */
module Calendar {
  import opened Wrappers
  import opened Text
  import Digits
  import opened Sorting

  /** A planned session. `duration` is in hours. */
  datatype StudySession = StudySession(time: string, subject: string, duration: real, notes: string)

  /** The sessions of each date, keyed by `YYYY-MM-DD`. */
  type Sessions = map<string, seq<StudySession>>

  /** The form's fields. `duration` is `None` when `parseFloat` gives NaN. */
  datatype SessionData = SessionData(date: string, time: string, subject: string, duration: Option<real>, notes: string)

  function TimeOf(s: StudySession): string {
    s.time
  }

  /** `validateSessionData`: date, time and subject filled in and a
      positive duration. */
  predicate ValidateSessionData(d: SessionData) {
    d.date != "" && d.time != "" && d.subject != "" && d.duration.Some? && d.duration.value > 0.0
  }

  /** The sessions stored for a date; none when the date has no entry. */
  function SessionsOn(cal: Sessions, date: string): seq<StudySession> {
    if date in cal then cal[date] else []
  }

  /** `addSessionToCalendar` with `sortSessionsByTime`: the session is
      added to its date's list, which is then stably sorted by time. */
  function AddSessionToCalendar(cal: Sessions, d: SessionData): (r: Sessions)
    requires d.duration.Some?
    ensures d.date in r
    ensures forall k :: k != d.date ==> (k in r <==> k in cal) && (k in r ==> r[k] == cal[k])
    ensures |r[d.date]| == |SessionsOn(cal, d.date)| + 1
    ensures multiset(r[d.date]) == multiset(SessionsOn(cal, d.date)) + multiset{NewSession(d)}
    ensures SortedBy(r[d.date], TimeOf)
  {
    var day := SessionsOn(cal, d.date) + [NewSession(d)];
    SortSorted(day, TimeOf);
    SortPermutes(day, TimeOf);
    cal[d.date := Sort(day, TimeOf)]
  }

  function NewSession(d: SessionData): StudySession
    requires d.duration.Some?
  {
    StudySession(d.time, d.subject, d.duration.value, d.notes)
  }

  /** When a date's list is already in time order, the new session goes
      in after every session at the same time or earlier, and the others
      keep their order. */
  lemma AddInsertsAfterEqualTimes(cal: Sessions, d: SessionData)
    requires d.duration.Some?
    requires SortedBy(SessionsOn(cal, d.date), TimeOf)
    ensures var before := SessionsOn(cal, d.date);
      var p := InsertIndex(before, NewSession(d), TimeOf);
      AddSessionToCalendar(cal, d)[d.date] == before[..p] + [NewSession(d)] + before[p..]
  {
    var before := SessionsOn(cal, d.date);
    var day := before + [NewSession(d)];
    assert day[..|day| - 1] == before;
    SortOfSorted(before, TimeOf);
    InsertSplices(before, NewSession(d), TimeOf);
  }

  /** `saveStudySession`: invalid form data changes nothing. */
  function SaveStudySession(cal: Sessions, d: SessionData): (r: Sessions)
    ensures !ValidateSessionData(d) ==> r == cal
    ensures ValidateSessionData(d) ==> r == AddSessionToCalendar(cal, d)
  {
    if ValidateSessionData(d) then AddSessionToCalendar(cal, d) else cal
  }

  /** `renderStudySessionsForDay`: at most the first two sessions of the
      date. */
  function DaySessions(cal: Sessions, date: string): (r: seq<StudySession>)
    ensures |r| == if |SessionsOn(cal, date)| < 2 then |SessionsOn(cal, date)| else 2
    ensures r == SessionsOn(cal, date)[..|r|]
  {
    var s := SessionsOn(cal, date);
    if |s| < 2 then s else s[..2]
  }

  // ------------------------------------------------------------- upcoming

  /** A session listed as upcoming, with the date it is planned on. */
  datatype Upcoming = Upcoming(date: string, time: string, subject: string)

  /** The moment an upcoming session starts, as the text `date time` that
      the source hands to `new Date`. */
  function StartKey(u: Upcoming): string {
    u.date + " " + u.time
  }

  /** `sortAndLimitUpcomingSessions`: the earliest five, in order. */
  function SortAndLimitUpcoming(upcoming: seq<Upcoming>): (r: seq<Upcoming>)
    ensures |r| == if |upcoming| < 5 then |upcoming| else 5
    ensures SortedBy(r, StartKey)
    ensures multiset(r) <= multiset(upcoming)
    ensures r == Sort(upcoming, StartKey)[..|r|]
  {
    var sorted := Sort(upcoming, StartKey);
    SortSorted(upcoming, StartKey);
    SortPermutes(upcoming, StartKey);
    var r := if |sorted| < 5 then sorted else sorted[..5];
    assert sorted == r + sorted[|r|..];
    assert multiset(sorted) == multiset(r) + multiset(sorted[|r|..]);
    r
  }

  // ------------------------------------------------------------ date keys

  /** `formatDateString`: the year as written, then the month (counted
      from 0, as `getMonth` returns it) plus one and the day, each padded to
      two digits. */
  function FormatDateString(year: nat, monthIndex: nat, day: nat): (key: string)
    ensures monthIndex < 99 && day < 100 ==> |key| == |Digits.NatToString(year)| + 6
    ensures forall i :: 0 <= i < |key| ==> Digits.IsDigit(key[i]) || key[i] == '-'
    ensures monthIndex < 99 && day < 100 ==>
      var y := |Digits.NatToString(year)|;
      key[y] == '-' && key[y + 3] == '-' && forall i :: 0 <= i < |key| && i != y && i != y + 3 ==> Digits.IsDigit(key[i])
  {
    Digits.NatToString(year) + "-" + Digits.Pad2(monthIndex + 1) + "-" + Digits.Pad2(day)
  }

  /** The third `-`-separated field of a key, as `split('-')[2]` gives it;
      `None` when the key has fewer than three fields. */
  function ThirdField(key: string): (r: Option<string>)
    ensures r.Some? ==> '-' !in r.value
  {
    var i := IndexOf(key, '-');
    if i < 0 then None
    else
      var rest := key[i + 1..];
      var j := IndexOf(rest, '-');
      if j < 0 then None
      else
        var tail := rest[j + 1..];
        var k := IndexOf(tail, '-');
        Some(if k < 0 then tail else tail[..k])
  }

  /** The second `-`-separated field of a key, as `split('-')[1]` gives it;
      `None` when the key has no `-`. */
  function SecondField(key: string): (r: Option<string>)
    ensures r.Some? ==> '-' !in r.value
  {
    var i := IndexOf(key, '-');
    if i < 0 then None
    else
      var rest := key[i + 1..];
      var j := IndexOf(rest, '-');
      Some(if j < 0 then rest else rest[..j])
  }

  /** The day a cell shows, read back from its key by `addDayContent`:
      `parseInt` of the third field; NaN is `None`. */
  function DayOfKey(key: string): Option<int> {
    match ThirdField(key)
    case None => None
    case Some(f) => Digits.ParseInt(f)
  }

  /** A key written by `formatDateString` reads back as the day it was
      made for. */
  lemma DayOfFormattedKey(year: nat, monthIndex: nat, day: nat)
    requires monthIndex < 99 && day < 100
    ensures DayOfKey(FormatDateString(year, monthIndex, day)) == Some(day)
  {
    var y := Digits.NatToString(year);
    var m := Digits.Pad2(monthIndex + 1);
    var d := Digits.Pad2(day);
    var key := FormatDateString(year, monthIndex, day);
    assert '-' !in y;
    assert key == y + ['-'] + (m + "-" + d);
    IndexOfAfterPrefix(y, '-', m + "-" + d);
    var rest := key[|y| + 1..];
    assert rest == m + ['-'] + d;
    assert '-' !in m;
    IndexOfAfterPrefix(m, '-', d);
    var tail := rest[|m| + 1..];
    assert tail == d;
    assert ThirdField(key) == Some(d);
    Digits.ParseIntDigits(d);
  }

  /** `split('-')[1]` of three dash-free parts joined by dashes is the
      middle part. */
  lemma SecondFieldOfJoin(y: string, m: string, d: string)
    requires '-' !in y && '-' !in m
    ensures SecondField(y + "-" + m + "-" + d) == Some(m)
  {
    var key := y + "-" + m + "-" + d;
    assert key == y + ['-'] + (m + "-" + d);
    IndexOfAfterPrefix(y, '-', m + "-" + d);
    var rest := key[|y| + 1..];
    assert rest == m + ['-'] + d;
    IndexOfAfterPrefix(m, '-', d);
    assert rest[..|m|] == m;
  }

  /** A key is `YYYY-MM-DD`: `parseInt` of the whole key reads the year,
      and the second field reads back as the month counted from 1. */
  lemma YearAndMonthOfFormattedKey(year: nat, monthIndex: nat, day: nat)
    requires monthIndex < 99 && day < 100
    ensures Digits.ParseInt(FormatDateString(year, monthIndex, day)) == Some(year)
    ensures match SecondField(FormatDateString(year, monthIndex, day))
            case None => false
            case Some(f) => Digits.ParseInt(f) == Some(monthIndex + 1)
  {
    var y := Digits.NatToString(year);
    var m := Digits.Pad2(monthIndex + 1);
    var d := Digits.Pad2(day);
    assert FormatDateString(year, monthIndex, day) == y + ("-" + m + "-" + d);
    Digits.ParseIntNatToString(year, "-" + m + "-" + d);
    assert '-' !in y && '-' !in m;
    SecondFieldOfJoin(y, m, d);
    Digits.ParseIntDigits(m);
  }
}
