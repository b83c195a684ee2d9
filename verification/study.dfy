/** The study page: the session a start button creates, the once-a-second
    focus tracker with its 30-second idle limit, the pet's mood reactions,
    the coin reward and the numbers saved when a session ends. */
module Study {
  import opened Wrappers
  import opened PetStats
  import Digits
  import JsMath

  const MinuteMs: nat := 60000
  const TickMs: nat := 1000
  const IdleLimitMs: int := 30000
  const DefaultDurationMs: nat := 25 * 60000

  // -------------------------------------------------------------- sessions

  /** The session types a user can pick; any other value of the option's
      `data-type` is `OtherKind`. */
  datatype SessionKind = Custom | Pomodoro | FocusMode | OtherKind

  /** A running session. `duration` is `None` for a session with no time
      limit. */
  datatype Session = Session(
    kind: SessionKind,
    duration: Option<nat>,
    startTime: int,
    totalTime: nat,
    focusTime: nat,
    distractions: nat)

  /** `startSession`: with no option selected no session starts. A custom
      session lasts the entered number of minutes when that parses to a
      positive number and 25 minutes otherwise; a focus session has no
      limit; every other type lasts 25 minutes. */
  function StartSession(selected: Option<SessionKind>, customInput: string, now: int): (r: Option<Session>)
    ensures selected.None? <==> r.None?
    ensures r.Some? ==> r.value.kind == selected.value && r.value.startTime == now
    ensures r.Some? ==> r.value.totalTime == 0 && r.value.focusTime == 0 && r.value.distractions == 0
    ensures r.Some? ==> (r.value.duration.None? <==> selected.value == FocusMode)
    ensures r.Some? && selected.value == Custom && Digits.ParseInt(customInput).Some? && Digits.ParseInt(customInput).value > 0
            ==> r.value.duration == Some(Digits.ParseInt(customInput).value * MinuteMs)
    ensures r.Some? && selected.value == Custom && !(Digits.ParseInt(customInput).Some? && Digits.ParseInt(customInput).value > 0)
            ==> r.value.duration == Some(DefaultDurationMs)
    ensures r.Some? && (selected.value == Pomodoro || selected.value == OtherKind) ==> r.value.duration == Some(DefaultDurationMs)
  {
    match selected
    case None => None
    case Some(kind) =>
      var duration: Option<nat> :=
        match kind
        case Custom =>
          var custom := Digits.ParseInt(customInput);
          if custom.Some? && custom.value > 0 then Some(custom.value * MinuteMs) else Some(DefaultDurationMs)
        case Pomodoro => Some(DefaultDurationMs)
        case FocusMode => None
        case OtherKind => Some(DefaultDurationMs);
      Some(Session(kind, duration, now, 0, 0, 0))
  }

  /** A custom session of `n` minutes typed as digits lasts `n` minutes. */
  lemma CustomMinutes(n: nat, now: int)
    requires n > 0
    ensures StartSession(Some(Custom), Digits.NatToString(n), now).value.duration == Some(n * MinuteMs)
  {
    Digits.ParseIntNatToString(n, "");
    assert Digits.NatToString(n) + "" == Digits.NatToString(n);
  }

  // --------------------------------------------------------- focus tracker

  /** The tracker's own record of focus, kept alongside the session's. */
  datatype FocusData = FocusData(
    isFocused: bool,
    lastActivity: int,
    distractions: nat,
    totalFocusTime: nat)

  datatype Tracker = Tracker(focus: FocusData, session: Session, pet: Vitals)

  /** `updateFocusTracking` at time `now`: the user counts as focused when
      the last activity was less than 30 seconds ago. A focused tick adds a
      second of focus time to both records; a tick that loses focus counts
      one distraction in both. The pet's stats are not touched, because the
      stat-changing `updatePetStats(action)` is overridden by a later
      display-only method of the same name. */
  function UpdateFocusTracking(t: Tracker, now: int): (r: Tracker)
    ensures r.focus.isFocused <==> now - t.focus.lastActivity < IdleLimitMs
    ensures r.focus.isFocused ==>
      && r.focus.totalFocusTime == t.focus.totalFocusTime + TickMs
      && r.session.focusTime == t.session.focusTime + TickMs
      && r.focus.distractions == t.focus.distractions
      && r.session.distractions == t.session.distractions
    ensures !r.focus.isFocused ==>
      && r.focus.totalFocusTime == t.focus.totalFocusTime
      && r.session.focusTime == t.session.focusTime
      && r.focus.distractions == t.focus.distractions + (if t.focus.isFocused then 1 else 0)
      && r.session.distractions == t.session.distractions + (if t.focus.isFocused then 1 else 0)
    ensures r.pet == t.pet
    ensures r.focus.lastActivity == t.focus.lastActivity
    ensures r.session.totalTime == t.session.totalTime && r.session.startTime == t.session.startTime
  {
    var wasFocused := t.focus.isFocused;
    var focused := now - t.focus.lastActivity < IdleLimitMs;
    var f := t.focus.(isFocused := focused);
    if focused then
      Tracker(f.(totalFocusTime := f.totalFocusTime + TickMs),
              t.session.(focusTime := t.session.focusTime + TickMs), t.pet)
    else if wasFocused then
      Tracker(f.(distractions := f.distractions + 1),
              t.session.(distractions := t.session.distractions + 1), t.pet)
    else
      Tracker(f, t.session, t.pet)
  }

  /** Ticks at the given times, in order, with no activity in between. */
  function Run(t: Tracker, nows: seq<int>): Tracker
    decreases |nows|
  {
    if |nows| == 0 then t else Run(UpdateFocusTracking(t, nows[0]), nows[1..])
  }

  predicate AllIdle(t: Tracker, nows: seq<int>) {
    forall i :: 0 <= i < |nows| ==> nows[i] - t.focus.lastActivity >= IdleLimitMs
  }

  /** Idle ticks on an unfocused tracker change nothing. */
  lemma {:induction false} IdleWhileUnfocused(t: Tracker, nows: seq<int>)
    requires !t.focus.isFocused && AllIdle(t, nows)
    ensures Run(t, nows) == t
    decreases |nows|
  {
    if |nows| > 0 {
      var t' := UpdateFocusTracking(t, nows[0]);
      assert t' == t;
      IdleWhileUnfocused(t', nows[1..]);
    }
  }

  /** A stretch of idle ticks counts at most one distraction and adds no
      focus time, however long it lasts. */
  lemma IdleStretchCountsOnce(t: Tracker, nows: seq<int>)
    requires AllIdle(t, nows)
    ensures Run(t, nows).focus.distractions <= t.focus.distractions + 1
    ensures Run(t, nows).focus.totalFocusTime == t.focus.totalFocusTime
  {
    if |nows| > 0 {
      var t' := UpdateFocusTracking(t, nows[0]);
      assert AllIdle(t', nows[1..]) by {
        forall i | 0 <= i < |nows[1..]|
          ensures nows[1..][i] - t'.focus.lastActivity >= IdleLimitMs
        {
          assert nows[1..][i] == nows[i + 1];
        }
      }
      IdleWhileUnfocused(t', nows[1..]);
    }
  }

  /** `updateActivity`: any input marks the user active now. */
  function UpdateActivity(t: Tracker, now: int): (r: Tracker)
    ensures r.focus.lastActivity == now
    ensures r.(focus := r.focus.(lastActivity := t.focus.lastActivity)) == t
  {
    t.(focus := t.focus.(lastActivity := now))
  }

  /** An activity makes the next tick a focused one. */
  lemma ActivityRefocuses(t: Tracker, now: int, later: int)
    requires now <= later < now + IdleLimitMs
    ensures UpdateFocusTracking(UpdateActivity(t, now), later).focus.isFocused
  {
  }

  /** `handleVisibilityChange`: hiding the tab loses focus and counts a
      distraction, even when focus was already lost; showing it again
      counts as activity. */
  function HandleVisibilityChange(t: Tracker, hidden: bool, now: int): (r: Tracker)
    ensures hidden ==> !r.focus.isFocused && r.focus.distractions == t.focus.distractions + 1
    ensures hidden ==> r.focus == t.focus.(isFocused := false, distractions := t.focus.distractions + 1)
    ensures !hidden ==> r == UpdateActivity(t, now)
    ensures r.session == t.session && r.pet == t.pet
  {
    if hidden then t.(focus := t.focus.(isFocused := false, distractions := t.focus.distractions + 1))
    else UpdateActivity(t, now)
  }

  // -------------------------------------------------------------- pet mood

  /** The mood a detector reports; anything else is `OtherSignal`. */
  datatype Signal = HappySignal | SadSignal | OtherSignal

  /** `updatePetState`: happy adds 5 happiness and 2 energy, capped at 100;
      sad takes 10 and 5, floored at 0; any other mood changes nothing. */
  function UpdatePetState(v: Vitals, mood: Signal): (r: Vitals)
    ensures mood == HappySignal ==> r == Vitals(Nudge(v.happiness, 5.0), Nudge(v.energy, 2.0))
    ensures mood == SadSignal ==> r == Vitals(Nudge(v.happiness, -10.0), Nudge(v.energy, -5.0))
    ensures mood == OtherSignal ==> r == v
    ensures ValidVitals(v) ==> ValidVitals(r)
  {
    match mood
    case HappySignal => Vitals(Min(100.0, v.happiness + 5.0), Min(100.0, v.energy + 2.0))
    case SadSignal => Vitals(Max(0.0, v.happiness - 10.0), Max(0.0, v.energy - 5.0))
    case OtherSignal => v
  }

  /** On vitals in range, a mood change is the shared clamped update. */
  lemma MoodChangeIsClampedUpdate(v: Vitals, focus: real)
    requires ValidVitals(v)
    ensures var u := UpdatePetStats(Stats(v.happiness, v.energy, focus), Changes(Some(5.0), Some(2.0), None));
      UpdatePetState(v, HappySignal) == Vitals(u.happiness, u.energy)
    ensures var u := UpdatePetStats(Stats(v.happiness, v.energy, focus), Changes(Some(-10.0), Some(-5.0), None));
      UpdatePetState(v, SadSignal) == Vitals(u.happiness, u.energy)
  {
  }

  /** `handleActivity`: input after focus was lost restores focus and
      cheers the pet up; input while focused changes nothing here. */
  function HandleActivity(t: Tracker): (r: Tracker)
    ensures r.focus.isFocused
    ensures t.focus.isFocused ==> r == t
    ensures !t.focus.isFocused ==> r.pet == UpdatePetState(t.pet, HappySignal)
    ensures !t.focus.isFocused ==> r.focus == t.focus.(isFocused := true)
    ensures r.session == t.session && r.focus.distractions == t.focus.distractions
  {
    if !t.focus.isFocused then
      Tracker(t.focus.(isFocused := true), t.session, UpdatePetState(t.pet, HappySignal))
    else t
  }

  /** A click reaches only `handleActivity`, which does not restart the idle
      clock: once the last recorded activity is 30 s old, the next tick
      after a click refocuses drops focus again and counts one more
      distraction. */
  lemma ClickDoesNotRefreshIdleClock(t: Tracker, now: int)
    requires !t.focus.isFocused && now - t.focus.lastActivity >= IdleLimitMs
    ensures var r := UpdateFocusTracking(HandleActivity(t), now);
      && !r.focus.isFocused
      && r.focus.distractions == t.focus.distractions + 1
      && r.focus.lastActivity == t.focus.lastActivity
  {
  }

  /** A mouse move or key press reaches two listeners in the order they were
      registered: `updateActivity`, bound when the page starts, then
      `handleActivity`, bound when distraction detection starts. */
  function HandleMoveOrKey(t: Tracker, now: int): (r: Tracker)
    ensures r.focus.isFocused && r.focus.lastActivity == now
    ensures r.focus.distractions == t.focus.distractions
    ensures r.focus.totalFocusTime == t.focus.totalFocusTime
    ensures r.session == t.session
    ensures !t.focus.isFocused ==> r.pet == UpdatePetState(t.pet, HappySignal)
    ensures t.focus.isFocused ==> r.pet == t.pet
  {
    HandleActivity(UpdateActivity(t, now))
  }

  /** Unlike a click, a mouse move or key press restarts the idle clock:
      every tick within the next 30 s is focused. */
  lemma MoveOrKeyRefreshesIdleClock(t: Tracker, now: int, later: int)
    requires now <= later < now + IdleLimitMs
    ensures UpdateFocusTracking(HandleMoveOrKey(t, now), later).focus.isFocused
  {
  }

  /** `getPetState`: the saved `pet_state`. */
  function GetPetState(v: Vitals): (m: Mood)
    ensures m == MoodOf(v.happiness, v.energy)
  {
    if v.happiness >= 70.0 && v.energy >= 70.0 then Happy
    else if v.happiness >= 40.0 && v.energy >= 40.0 then Neutral
    else Sad
  }

  // -------------------------------------------------------- session end

  datatype CurrencyUpdate = CurrencyUpdate(earned: nat, balance: Option<int>)

  /** `updateCurrency`: one coin per whole minute of focus, added to the
      stored balance. A balance that is missing or empty reads as "0"; one
      that does not parse gives NaN (`None`). */
  function UpdateCurrency(stored: Option<string>, totalFocusTime: nat): (r: CurrencyUpdate)
    ensures MinuteMs * r.earned <= totalFocusTime < MinuteMs * (r.earned + 1)
    ensures var text := if stored.None? || stored.value == "" then "0" else stored.value;
      && (Digits.ParseInt(text).Some? ==> r.balance == Some(Digits.ParseInt(text).value + r.earned))
      && (Digits.ParseInt(text).None? ==> r.balance.None?)
  {
    var earned := JsMath.FloorDiv(totalFocusTime, MinuteMs);
    var text := if stored.None? || stored.value == "" then "0" else stored.value;
    match Digits.ParseInt(text)
    case Some(current) => CurrencyUpdate(earned, Some(current + earned))
    case None => CurrencyUpdate(earned, None)
  }

  /** A balance written as digits reads back and grows by the coins
      earned. */
  lemma CurrencyAccumulates(balance: nat, totalFocusTime: nat)
    ensures UpdateCurrency(Some(Digits.NatToString(balance)), totalFocusTime).balance
         == Some(balance + totalFocusTime / MinuteMs)
  {
    Digits.ParseIntNatToString(balance, "");
    assert Digits.NatToString(balance) + "" == Digits.NatToString(balance);
  }

  /** `unfocused_ms` in the saved session: the time not spent focused,
      never negative. */
  function UnfocusedMs(s: Session): (u: nat)
    ensures s.focusTime <= s.totalTime ==> u + s.focusTime == s.totalTime
    ensures s.focusTime > s.totalTime ==> u == 0
  {
    if s.totalTime - s.focusTime > 0 then s.totalTime - s.focusTime else 0
  }

  /** `calculateFocusLevel`: the focused share of the session as a rounded
      percentage; 0 with no session or no elapsed time. The share is taken
      exactly and rounded half up; the page rounds the floating-point
      product `(focusTime / totalTime) * 100`, which can fall just below a
      half and round down. */
  function CalculateFocusLevel(s: Option<Session>): (level: int)
    ensures s.None? || s.value.totalTime == 0 ==> level == 0
    ensures s.Some? && s.value.totalTime > 0 ==>
      2 * s.value.totalTime * level <= 200 * s.value.focusTime + s.value.totalTime < 2 * s.value.totalTime * (level + 1)
  {
    if s.None? || s.value.totalTime == 0 then 0
    else
      JsMath.RoundRatio(100 * s.value.focusTime, s.value.totalTime)
  }

  /** A session never focused for longer than it ran scores between 0 and
      100. */
  lemma FocusLevelInRange(s: Session)
    requires s.focusTime <= s.totalTime
    ensures 0 <= CalculateFocusLevel(Some(s)) <= 100
  {
    if s.totalTime > 0 {
      JsMath.RoundRatioScaledBounds(s.focusTime, s.totalTime, 100);
    }
  }

  /** A fully focused session scores 100. */
  lemma FullFocusScoresHundred(s: Session)
    requires s.totalTime > 0 && s.focusTime == s.totalTime
    ensures CalculateFocusLevel(Some(s)) == 100
  {
    JsMath.RoundRatioUnique(100 * s.focusTime, s.totalTime, 100);
  }
}
