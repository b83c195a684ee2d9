/** The analytics page's weekly focus chart: saved sessions grouped by
    weekday, Monday first, each day showing the rounded average of its
    sessions' focus percentages, with a fixed sample week shown when there
    is nothing to average. */
module Analytics {
  import JsMath

  /** `Date.getDay()`: 0 is Sunday. */
  type Weekday = d: int | 0 <= d < 7

  /** A saved session as the chart reads it. The weekday of `started_at`
      is given rather than computed from a date. */
  datatype SessionRecord = SessionRecord(weekday: Weekday, durationMs: int, focusedMs: int)

  const SampleWeek: seq<int> := [85, 92, 78, 88, 95, 70, 65]

  /** The chart's column for a weekday: Monday is 0, Sunday 6. */
  function ChartDay(d: Weekday): (c: Weekday)
    ensures c == (d + 6) % 7
  {
    if d == 0 then 6 else d - 1
  }

  /** The weekday shown in a column. */
  function WeekdayOfColumn(c: Weekday): Weekday {
    (c + 1) % 7
  }

  /** The column mapping is a bijection on the seven days. */
  lemma ChartDayBijective(d: Weekday, c: Weekday)
    ensures WeekdayOfColumn(ChartDay(d)) == d
    ensures ChartDay(WeekdayOfColumn(c)) == c
  {
  }

  /** A session's focus percentage: the focused share of its duration,
      times 100, rounded half up. The share is exact here; the page
      rounds a floating-point product instead. */
  function FocusPercent(s: SessionRecord): (p: int)
    requires s.durationMs > 0
    ensures WellFormed(s) ==> 0 <= p <= 100
    ensures s.focusedMs == s.durationMs ==> p == 100
  {
    var p := JsMath.RoundRatio(100 * s.focusedMs, s.durationMs);
    assert WellFormed(s) ==> 0 <= p <= 100 by {
      if WellFormed(s) {
        JsMath.RoundRatioScaledBounds(s.focusedMs, s.durationMs, 100);
      }
    }
    assert s.focusedMs == s.durationMs ==> p == 100 by {
      if s.focusedMs == s.durationMs {
        JsMath.RoundRatioUnique(100 * s.focusedMs, s.durationMs, 100);
      }
    }
    p
  }

  /** Whether a session counts: only sessions with a positive duration. */
  predicate Counts(s: SessionRecord) {
    s.durationMs > 0
  }

  /** The sum of the counted sessions' percentages in a column. */
  function ColumnTotal(sessions: seq<SessionRecord>, c: Weekday): int {
    if |sessions| == 0 then 0
    else
      var last := sessions[|sessions| - 1];
      ColumnTotal(sessions[..|sessions| - 1], c)
        + (if Counts(last) && ChartDay(last.weekday) == c then FocusPercent(last) else 0)
  }

  /** The number of counted sessions in a column. */
  function ColumnCount(sessions: seq<SessionRecord>, c: Weekday): nat {
    if |sessions| == 0 then 0
    else
      var last := sessions[|sessions| - 1];
      ColumnCount(sessions[..|sessions| - 1], c) + (if Counts(last) && ChartDay(last.weekday) == c then 1 else 0)
  }

  /** A column's average: the rounded mean, 0 with no sessions. */
  function ColumnAverage(sessions: seq<SessionRecord>, c: Weekday): int {
    var n := ColumnCount(sessions, c);
    if n > 0 then JsMath.RoundRatio(ColumnTotal(sessions, c), n) else 0
  }

  function Averages(sessions: seq<SessionRecord>): (r: seq<int>)
    ensures |r| == 7
    ensures forall c: Weekday :: r[c] == ColumnAverage(sessions, c)
  {
    seq(7, c requires 0 <= c < 7 => ColumnAverage(sessions, c))
  }

  /** `processFocusData`: the seven column averages, or the sample week
      when every average is 0. */
  function ProcessFocusData(sessions: seq<SessionRecord>): (r: seq<int>)
    ensures |r| == 7
    ensures (forall c: Weekday :: ColumnAverage(sessions, c) == 0) ==> r == SampleWeek
    ensures (exists c: Weekday :: ColumnAverage(sessions, c) != 0) ==> r == Averages(sessions)
  {
    var avg := Averages(sessions);
    if forall c: Weekday :: avg[c] == 0 then SampleWeek else avg
  }

  /** The same computation as the source writes it: one pass adding each
      counted session to its column, then one averaging pass. */
  method ProcessFocusDataLoop(sessions: seq<SessionRecord>) returns (r: seq<int>)
    ensures r == ProcessFocusData(sessions)
  {
    var totals := [0, 0, 0, 0, 0, 0, 0];
    var counts: seq<nat> := [0, 0, 0, 0, 0, 0, 0];
    var k := 0;
    while k < |sessions|
      invariant 0 <= k <= |sessions|
      invariant |totals| == 7 && |counts| == 7
      invariant forall c: Weekday :: totals[c] == ColumnTotal(sessions[..k], c)
      invariant forall c: Weekday :: counts[c] == ColumnCount(sessions[..k], c)
    {
      var s := sessions[k];
      assert sessions[..k + 1][..k] == sessions[..k];
      if s.durationMs > 0 {
        var day := ChartDay(s.weekday);
        totals := totals[day := totals[day] + FocusPercent(s)];
        counts := counts[day := counts[day] + 1];
      }
      k := k + 1;
    }
    assert sessions[..k] == sessions;
    var averages: seq<int> := [];
    while |averages| < 7
      invariant |averages| <= 7
      invariant forall c :: 0 <= c < |averages| ==> averages[c] == ColumnAverage(sessions, c)
    {
      var c := |averages|;
      var v := if counts[c] > 0 then JsMath.RoundRatio(totals[c], counts[c]) else 0;
      averages := averages + [v];
    }
    var allZero := true;
    var i := 0;
    while i < 7
      invariant 0 <= i <= 7
      invariant allZero <==> forall c: Weekday :: c < i ==> averages[c] == 0
    {
      if averages[i] != 0 {
        allZero := false;
      }
      i := i + 1;
    }
    r := if allZero then SampleWeek else averages;
  }

  /** A session with no positive duration adds nothing to the chart. */
  lemma UncountedSessionIgnored(sessions: seq<SessionRecord>, s: SessionRecord)
    requires s.durationMs <= 0
    ensures ProcessFocusData(sessions + [s]) == ProcessFocusData(sessions)
  {
    var t := sessions + [s];
    assert t[..|t| - 1] == sessions;
    assert forall c: Weekday :: ColumnAverage(t, c) == ColumnAverage(sessions, c);
  }

  /** With no sessions the sample week is shown. */
  lemma NoSessionsShowSample()
    ensures ProcessFocusData([]) == SampleWeek
  {
    assert forall c: Weekday :: ColumnAverage([], c) == 0;
  }

  /** Whatever the sessions, if none of them counts the sample week is
      shown. */
  lemma {:induction false} UncountedSessionsShowSample(sessions: seq<SessionRecord>)
    requires forall i :: 0 <= i < |sessions| ==> !Counts(sessions[i])
    ensures ProcessFocusData(sessions) == SampleWeek
    decreases |sessions|
  {
    if |sessions| == 0 {
      NoSessionsShowSample();
    } else {
      var init := sessions[..|sessions| - 1];
      UncountedSessionsShowSample(init);
      assert sessions == init + [sessions[|sessions| - 1]];
      UncountedSessionIgnored(init, sessions[|sessions| - 1]);
    }
  }

  /** A session is well formed when it was never focused for longer than
      it ran. */
  predicate WellFormed(s: SessionRecord) {
    0 <= s.focusedMs <= s.durationMs
  }

  /** A column's total lies between 0 and 100 per counted session. */
  lemma {:induction false} ColumnTotalBounds(sessions: seq<SessionRecord>, c: Weekday)
    requires forall i :: 0 <= i < |sessions| ==> WellFormed(sessions[i])
    ensures 0 <= ColumnTotal(sessions, c) <= 100 * ColumnCount(sessions, c)
    decreases |sessions|
  {
    if |sessions| > 0 {
      var last := sessions[|sessions| - 1];
      ColumnTotalBounds(sessions[..|sessions| - 1], c);
      if Counts(last) {
        JsMath.RoundRatioScaledBounds(last.focusedMs, last.durationMs, 100);
      }
    }
  }

  /** With well-formed sessions every column shows a percentage. */
  lemma AveragesArePercentages(sessions: seq<SessionRecord>, c: Weekday)
    requires forall i :: 0 <= i < |sessions| ==> WellFormed(sessions[i])
    ensures 0 <= ProcessFocusData(sessions)[c] <= 100
  {
    ColumnTotalBounds(sessions, c);
    if ColumnCount(sessions, c) > 0 {
      JsMath.RoundRatioWithin(ColumnTotal(sessions, c), ColumnCount(sessions, c), 100);
    }
  }
}
