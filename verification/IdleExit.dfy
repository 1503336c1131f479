/**
 The idle self-exit of `darkmux acp` (src/acp.rs): the activity mark, the
 command counter and the never-cleared latch, and a run of the exit loop
 interleaved with client traffic.

 Times are seconds on a monotonic 64-bit clock. Each load of the loop's check
 is a step of its own, and so is each half of a two-part update; only a stamp
 (reading the clock and storing it) is taken as one step.
 */
module IdleExit {
  import opened Wrappers

  const U64_MAX: nat := 0xFFFF_FFFF_FFFF_FFFF
  const HARD_IDLE_MULTIPLIER: nat := 48
  const HARD_IDLE_FLOOR_SECONDS: nat := 7 * 24 * 60 * 60

  function SaturatingMul(a: nat, b: nat): nat {
    if a * b > U64_MAX then U64_MAX else a * b
  }

  function SaturatingSub(a: nat, b: nat): nat {
    if a < b then 0 else a - b
  }

  /** The ceiling for a process some client once attached to: the larger of a
      week and 48 windows, within 64 bits. */
  function HardIdleThreshold(window: nat): (ceiling: nat)
    requires window <= U64_MAX
    ensures window <= ceiling <= U64_MAX
    ensures 48 * window <= U64_MAX ==> ceiling == if 48 * window < 604_800 then 604_800 else 48 * window
    ensures 48 * window > U64_MAX ==> ceiling == U64_MAX == 18_446_744_073_709_551_615
  {
    var scaled := SaturatingMul(window, HARD_IDLE_MULTIPLIER);
    if scaled < HARD_IDLE_FLOOR_SECONDS then HARD_IDLE_FLOOR_SECONDS else scaled
  }

  /** The window until some client has attached, and the ceiling ever after. */
  function Threshold(attached: bool, window: nat): (threshold: nat)
    requires window <= U64_MAX
    ensures !attached ==> threshold == window
    ensures attached && 48 * window <= U64_MAX ==> threshold == if 48 * window < 604_800 then 604_800 else 48 * window
    ensures attached && 48 * window > U64_MAX ==> threshold == U64_MAX
  {
    if attached then HardIdleThreshold(window) else window
  }

  /** What the exit check reads. */
  datatype Meter = Meter(lastActivity: nat, inFlight: int, everAttached: bool)

  /** Idle for the threshold with no command in flight. */
  predicate Decides(m: Meter, now: nat, window: nat)
    requires window <= U64_MAX
  {
    m.inFlight <= 0 && SaturatingSub(now, m.lastActivity) >= Threshold(m.everAttached, window)
  }

  class IdleState {
    var lastActivity: nat
    var inFlight: int
    var sessionEverAttached: bool

    function View(): Meter
      reads this
    {
      Meter(lastActivity, inFlight, sessionEverAttached)
    }

    constructor ()
      ensures View() == Meter(0, 0, false)
    {
      lastActivity, inFlight, sessionEverAttached := 0, 0, false;
    }

    method RecordActivity(now: nat)
      modifies this
      ensures View() == old(View()).(lastActivity := now)
    {
      lastActivity := now;
    }

    method RecordSessionAttached(now: nat)
      modifies this
      ensures View() == Meter(now, old(inFlight), true)
    {
      sessionEverAttached := true;
      RecordActivity(now);
    }

    method CommandStarted()
      modifies this
      ensures View() == old(View()).(inFlight := old(inFlight) + 1)
    {
      inFlight := inFlight + 1;
    }

    method CommandFinished(now: nat)
      modifies this
      ensures View() == Meter(now, old(inFlight) - 1, old(sessionEverAttached))
    {
      RecordActivity(now);
      inFlight := inFlight - 1;
    }

    method ShouldIdleExit(now: nat, window: nat) returns (exit: bool)
      requires window <= U64_MAX
      ensures exit == Decides(View(), now, window)
    {
      if inFlight > 0 {
        return false;
      }
      var idleFor := SaturatingSub(now, lastActivity);
      var threshold := if sessionEverAttached then HardIdleThreshold(window) else window;
      return idleFor >= threshold;
    }
  }

  // ---- a run ---------------------------------------------------------------------

  datatype Event =
    | Passes(seconds: nat)
    | Traffic                  // a message that stamps activity
    | AttachLatches            // record_session_attached, first store
    | AttachStamps             //   ... and its stamp
    | CommandStarts
    | CommandStamps            // command_finished: the stamp
    | CommandLeaves            //   ... and the decrement
    | LoopWakes                // the loop reads the clock
    | LoopLoadsCount
    | LoopLoadsActivity
    | LoopLoadsLatch           // and decides

  /** Where the loop is in one check. */
  datatype Check =
    | Asleep
    | Woken(now: nat)
    | CountZero(now: nat)
    | Aged(idleFor: nat)
    | Exited(idleFor: nat, threshold: nat)

  datatype System = System(clock: nat, meter: Meter, unstamped: nat, stamped: nat, check: Check)

  const START := System(0, Meter(0, 0, false), 0, 0, Asleep)

  predicate Enabled(sys: System, e: Event) {
    && !sys.check.Exited?
    && match e
       case Passes(d) => sys.clock + d <= U64_MAX
       case CommandStamps => sys.unstamped > 0
       case CommandLeaves => sys.stamped > 0
       case LoopWakes => sys.check.Asleep?
       case LoopLoadsCount => sys.check.Woken?
       case LoopLoadsActivity => sys.check.CountZero?
       case LoopLoadsLatch => sys.check.Aged?
       case _ => true
  }

  function Stamped(sys: System): System {
    sys.(meter := sys.meter.(lastActivity := sys.clock))
  }

  function Step(sys: System, e: Event, window: nat): System
    requires Enabled(sys, e) && window <= U64_MAX
  {
    match e
    case Passes(d) => sys.(clock := sys.clock + d)
    case Traffic => Stamped(sys)
    case AttachLatches => sys.(meter := sys.meter.(everAttached := true))
    case AttachStamps => Stamped(sys)
    case CommandStarts =>
      sys.(meter := sys.meter.(inFlight := sys.meter.inFlight + 1), unstamped := sys.unstamped + 1)
    case CommandStamps =>
      Stamped(sys).(unstamped := sys.unstamped - 1, stamped := sys.stamped + 1)
    case CommandLeaves =>
      sys.(meter := sys.meter.(inFlight := sys.meter.inFlight - 1), stamped := sys.stamped - 1)
    case LoopWakes => sys.(check := Woken(sys.clock))
    case LoopLoadsCount =>
      sys.(check := if sys.meter.inFlight > 0 then Asleep else CountZero(sys.check.now))
    case LoopLoadsActivity =>
      sys.(check := Aged(SaturatingSub(sys.check.now, sys.meter.lastActivity)))
    case LoopLoadsLatch =>
      var threshold := Threshold(sys.meter.everAttached, window);
      sys.(check := if sys.check.idleFor >= threshold then Exited(sys.check.idleFor, threshold) else Asleep)
  }

  function After(events: seq<Event>, window: nat): Option<System>
    requires window <= U64_MAX
    decreases |events|
  {
    if events == [] then Some(START)
    else
      var before := After(events[..|events| - 1], window);
      var e := events[|events| - 1];
      if before.Some? && Enabled(before.value, e) then Some(Step(before.value, e, window)) else None
  }

  // ---- a run, read from its events alone --------------------------------------------

  function Clock(events: seq<Event>): nat
    decreases |events|
  {
    if events == [] then 0
    else
      var e := events[|events| - 1];
      Clock(events[..|events| - 1]) + if e.Passes? then e.seconds else 0
  }

  predicate Stamps(e: Event) {
    e.Traffic? || e.AttachStamps? || e.CommandStamps?
  }

  /** When the client was last heard, or a command last finished. */
  function LastHeard(events: seq<Event>): nat
    decreases |events|
  {
    if events == [] then 0
    else if Stamps(events[|events| - 1]) then Clock(events[..|events| - 1])
    else LastHeard(events[..|events| - 1])
  }

  function Count(events: seq<Event>, e: Event): nat
    decreases |events|
  {
    if events == [] then 0
    else Count(events[..|events| - 1], e) + if events[|events| - 1] == e then 1 else 0
  }

  /** Commands started and not yet off the counter. */
  function Running(events: seq<Event>): int {
    Count(events, CommandStarts) - Count(events, CommandLeaves)
  }

  /** How long the process has gone unheard. */
  function Silence(events: seq<Event>): int {
    Clock(events) - LastHeard(events)
  }

  /** The state a run's events call for. */
  ghost predicate Agrees(sys: System, events: seq<Event>) {
    && sys.clock == Clock(events) <= U64_MAX
    && sys.meter.lastActivity == LastHeard(events) <= Clock(events)
    && sys.meter.inFlight == Running(events) == sys.unstamped + sys.stamped
    && sys.meter.everAttached == (AttachLatches in events)
  }

  lemma MeterStep(sys: System, before: seq<Event>, e: Event, window: nat)
    requires window <= U64_MAX && Agrees(sys, before) && Enabled(sys, e)
    ensures Agrees(Step(sys, e, window), before + [e])
  {
    assert (before + [e])[..|before|] == before;
    assert AttachLatches in before + [e] <==> AttachLatches in before || e == AttachLatches;
  }

  /** The command counter is the commands started less those finished, the
      activity mark the last stamp, and the latch whether any session ever
      attached, in every reachable state. */
  lemma {:induction false} MeterIsExact(events: seq<Event>, window: nat)
    requires window <= U64_MAX && After(events, window).Some?
    ensures Agrees(After(events, window).value, events)
    decreases |events|
  {
    if events != [] {
      var before, e := events[..|events| - 1], events[|events| - 1];
      MeterIsExact(before, window);
      MeterStep(After(before, window).value, before, e, window);
      assert events == before + [e];
    }
  }

  // ---- when the loop exits -------------------------------------------------------------

  predicate LoopStep(e: Event) {
    e.LoopWakes? || e.LoopLoadsCount? || e.LoopLoadsActivity? || e.LoopLoadsLatch?
  }

  /** The loop's latest step is `e`, at `k`. */
  predicate Latest(events: seq<Event>, k: nat, e: Event) {
    && k < |events| && events[k] == e && LoopStep(e)
    && forall i | k < i < |events| :: !LoopStep(events[i])
  }

  /** The loop is in a check that woke at `w`... */
  predicate WokeAt(events: seq<Event>, w: nat) {
    Latest(events, w, LoopWakes)
  }

  /** ... whose own load of the counter, at `c`, found no command running... */
  predicate CountedAt(events: seq<Event>, w: nat, c: nat) {
    Latest(events, c, LoopLoadsCount) && WokeAt(events[..c], w) && Running(events[..c]) == 0
  }

  /** ... and which loaded the mark at `a`. */
  predicate AgedAt(events: seq<Event>, w: nat, c: nat, a: nat) {
    Latest(events, a, LoopLoadsActivity) && CountedAt(events[..a], w, c)
  }

  /** How long the process had gone unheard, by a mark loaded at `a`, when the
      check woke at `w`. */
  function IdleFor(events: seq<Event>, w: nat, a: nat): nat
    requires w <= |events| && a <= |events|
  {
    SaturatingSub(Clock(events[..w]), LastHeard(events[..a]))
  }

  /** One check that has loaded the mark, and what it makes of it. */
  predicate Aging(events: seq<Event>, w: nat, c: nat, a: nat, idle: nat) {
    AgedAt(events, w, c, a) && w < c < a && idle == IdleFor(events, w, a)
  }

  /** What the loads of the check say, wherever the loop is in it. */
  ghost predicate Loaded(events: seq<Event>, check: Check) {
    match check
    case Asleep => true
    case Woken(now) => exists w: nat :: WokeAt(events, w) && now == Clock(events[..w])
    case CountZero(now) => exists w: nat, c: nat :: CountedAt(events, w, c) && w < c && now == Clock(events[..w])
    case Aged(idle) => exists w: nat, c: nat, a: nat :: Aging(events, w, c, a, idle)
    case Exited(idle, threshold) => true
  }

  lemma LatestStays(events: seq<Event>, k: nat, e: Event, next: Event)
    requires Latest(events, k, e) && !LoopStep(next)
    ensures Latest(events + [next], k, e) && (events + [next])[..k] == events[..k]
  {
  }

  lemma LatestIsOne(events: seq<Event>, j: nat, d: Event, k: nat, e: Event)
    requires Latest(events, j, d) && Latest(events, k, e)
    ensures j == k && d == e
  {
  }

  lemma AgingIsOne(events: seq<Event>, w: nat, c: nat, a: nat, idle: nat, w': nat, c': nat, a': nat)
    requires Aging(events, w, c, a, idle) && AgedAt(events, w', c', a')
    ensures w == w' && c == c' && a == a'
  {
    LatestIsOne(events, a, LoopLoadsActivity, a', LoopLoadsActivity);
    LatestIsOne(events[..a], c, LoopLoadsCount, c', LoopLoadsCount);
    LatestIsOne(events[..a][..c], w, LoopWakes, w', LoopWakes);
  }

  lemma CountLoaded(sys: System, events: seq<Event>, window: nat)
    requires window <= U64_MAX && Agrees(sys, events) && Enabled(sys, LoopLoadsCount)
    requires Loaded(events, sys.check)
    ensures Loaded(events + [LoopLoadsCount], Step(sys, LoopLoadsCount, window).check)
  {
    var next := events + [LoopLoadsCount];
    assert next[..|events|] == events;
    var w: nat :| WokeAt(events, w) && sys.check.now == Clock(events[..w]);
    assert next[..w] == events[..w];
    if sys.meter.inFlight <= 0 {
      assert CountedAt(next, w, |events|);
    }
  }

  lemma ActivityLoaded(sys: System, events: seq<Event>, window: nat)
    requires window <= U64_MAX && Agrees(sys, events) && Enabled(sys, LoopLoadsActivity)
    requires Loaded(events, sys.check)
    ensures Loaded(events + [LoopLoadsActivity], Step(sys, LoopLoadsActivity, window).check)
  {
    var next := events + [LoopLoadsActivity];
    assert next[..|events|] == events;
    var w: nat, c: nat :| CountedAt(events, w, c) && w < c && sys.check.now == Clock(events[..w]);
    assert next[..w] == events[..w];
    assert Aging(next, w, c, |events|, IdleFor(next, w, |events|));
  }

  lemma CountedStays(events: seq<Event>, w: nat, c: nat, e: Event)
    requires CountedAt(events, w, c) && w < c && !LoopStep(e)
    ensures CountedAt(events + [e], w, c) && (events + [e])[..w] == events[..w]
  {
    LatestStays(events, c, LoopLoadsCount, e);
  }

  lemma AgingStays(events: seq<Event>, w: nat, c: nat, a: nat, idle: nat, e: Event)
    requires Aging(events, w, c, a, idle) && !LoopStep(e)
    ensures Aging(events + [e], w, c, a, idle)
  {
    LatestStays(events, a, LoopLoadsActivity, e);
    assert (events + [e])[..w] == events[..w];
  }

  /** A step that is none of the loop's keeps what its loads said. */
  lemma OthersKeep(sys: System, events: seq<Event>, e: Event, window: nat)
    requires window <= U64_MAX && Enabled(sys, e) && !LoopStep(e)
    requires Loaded(events, sys.check)
    ensures Loaded(events + [e], Step(sys, e, window).check)
  {
    match sys.check {
      case Woken(now) =>
        var w: nat :| WokeAt(events, w) && now == Clock(events[..w]);
        LatestStays(events, w, LoopWakes, e);
        assert WokeAt(events + [e], w);
      case CountZero(now) =>
        var w: nat, c: nat :| CountedAt(events, w, c) && w < c && now == Clock(events[..w]);
        CountedStays(events, w, c, e);
      case Aged(idle) =>
        var w: nat, c: nat, a: nat :| Aging(events, w, c, a, idle);
        AgingStays(events, w, c, a, idle, e);
      case _ =>
    }
  }

  lemma WakeLoaded(sys: System, events: seq<Event>, window: nat)
    requires window <= U64_MAX && Agrees(sys, events) && Enabled(sys, LoopWakes)
    ensures Loaded(events + [LoopWakes], Step(sys, LoopWakes, window).check)
  {
    var next := events + [LoopWakes];
    assert next[..|events|] == events;
    assert WokeAt(next, |events|);
  }

  lemma LoadStep(sys: System, events: seq<Event>, e: Event, window: nat)
    requires window <= U64_MAX && Agrees(sys, events) && Enabled(sys, e)
    requires Loaded(events, sys.check)
    ensures Loaded(events + [e], Step(sys, e, window).check)
  {
    match e
    case LoopWakes => WakeLoaded(sys, events, window);
    case LoopLoadsCount => CountLoaded(sys, events, window);
    case LoopLoadsActivity => ActivityLoaded(sys, events, window);
    case LoopLoadsLatch =>
    case _ => OthersKeep(sys, events, e, window);
  }

  lemma {:induction false} LoadsAreKept(events: seq<Event>, window: nat)
    requires window <= U64_MAX && After(events, window).Some?
    ensures Loaded(events, After(events, window).value.check)
    decreases |events|
  {
    if events != [] {
      var before, e := events[..|events| - 1], events[|events| - 1];
      LoadsAreKept(before, window);
      MeterIsExact(before, window);
      LoadStep(After(before, window).value, before, e, window);
      assert events == before + [e];
    }
  }

  /** The last step of a run decides a check to exit. */
  ghost predicate ExitsNow(events: seq<Event>, window: nat)
    requires window <= U64_MAX
  {
    && events != [] && events[|events| - 1] == LoopLoadsLatch
    && var before := events[..|events| - 1];
       exists w: nat, c: nat, a: nat, idle: nat ::
         Aging(before, w, c, a, idle) && idle >= Threshold(AttachLatches in before, window)
  }

  /** The loop has exited exactly when the run ends in a check whose own load of
      the counter found no command running and whose own load of the mark found
      the process unheard for the threshold: the window if no session had ever
      attached by then, and otherwise the hard ceiling, whatever closed since. */
  lemma {:induction false} ExitIsDue(events: seq<Event>, window: nat)
    requires window <= U64_MAX && After(events, window).Some?
    ensures After(events, window).value.check.Exited? <==> ExitsNow(events, window)
  {
    if events != [] {
      var before, e := events[..|events| - 1], events[|events| - 1];
      LoadsAreKept(before, window);
      MeterIsExact(before, window);
      if e == LoopLoadsLatch {
        LatchDecides(After(before, window).value, before, window);
      }
    }
  }

  lemma LatchDecides(sys: System, before: seq<Event>, window: nat)
    requires window <= U64_MAX && Agrees(sys, before) && Enabled(sys, LoopLoadsLatch) && Loaded(before, sys.check)
    ensures Step(sys, LoopLoadsLatch, window).check.Exited? <==>
            exists w: nat, c: nat, a: nat, idle: nat ::
              Aging(before, w, c, a, idle) && idle >= Threshold(AttachLatches in before, window)
  {
    var w: nat, c: nat, a: nat :| Aging(before, w, c, a, sys.check.idleFor);
    forall w': nat, c': nat, a': nat, idle: nat | Aging(before, w', c', a', idle) ensures idle == sys.check.idleFor {
      AgingIsOne(before, w, c, a, sys.check.idleFor, w', c', a');
    }
  }

  lemma {:induction false} ClockGrows(events: seq<Event>, p: nat, q: nat)
    requires p <= q <= |events|
    ensures Clock(events[..p]) <= Clock(events[..q])
  {
    if p < q {
      assert events[..q][..q - 1] == events[..q - 1];
      ClockGrows(events, p, q - 1);
    }
  }

  /** So at an exit the process has been unheard that long when the mark is
      loaded, not only when the check woke. */
  lemma {:induction false} ExitIsSilent(events: seq<Event>, window: nat)
    requires window <= U64_MAX && After(events, window).Some? && After(events, window).value.check.Exited?
    ensures var before := events[..|events| - 1];
            exists w: nat, c: nat, a: nat ::
              AgedAt(before, w, c, a) && Silence(before[..a]) >= Threshold(AttachLatches in before, window)
  {
    ExitIsDue(events, window);
    var before := events[..|events| - 1];
    var w: nat, c: nat, a: nat, idle: nat :| Aging(before, w, c, a, idle) && idle >= Threshold(AttachLatches in before, window);
    RunsInto(events, |events| - 1, window);
    IdleIsSilence(before, w, a, window);
  }

  lemma {:induction false} CountSplits(events: seq<Event>, n: nat, e: Event)
    requires n <= |events|
    ensures Count(events, e) == Count(events[..n], e) + Count(events[n..], e)
    decreases |events|
  {
    if n < |events| {
      CountSplits(events[..|events| - 1], n, e);
      assert events[..|events| - 1][..n] == events[..n];
      assert events[n..][..|events| - n - 1] == events[..|events| - 1][n..];
    } else {
      assert events[..n] == events;
    }
  }

  /** The race that is left, exactly: the commands running at an exit are those
      started after its check's load of the counter and not yet finished. */
  lemma {:induction false} RunningAtExit(events: seq<Event>, window: nat)
    requires window <= U64_MAX && After(events, window).Some? && After(events, window).value.check.Exited?
    ensures var before := events[..|events| - 1];
            exists w: nat, c: nat, a: nat ::
              AgedAt(before, w, c, a) && c <= |before| && Running(events) == Running(before[c..])
  {
    ExitIsDue(events, window);
    var before := events[..|events| - 1];
    var w: nat, c: nat, a: nat, idle: nat :| Aging(before, w, c, a, idle) && idle >= Threshold(AttachLatches in before, window);
    assert events == before + [LoopLoadsLatch];
    assert before[..a][..c] == before[..c];
    CountSplits(before, c, CommandStarts);
    CountSplits(before, c, CommandLeaves);
  }

  lemma IdleIsSilence(events: seq<Event>, w: nat, a: nat, window: nat)
    requires window <= U64_MAX && After(events, window).Some? && w <= a <= |events|
    ensures IdleFor(events, w, a) <= Silence(events[..a])
  {
    ClockGrows(events, w, a);
    RunsInto(events, a, window);
    MeterIsExact(events[..a], window);
  }

  lemma {:induction false} RunsInto(events: seq<Event>, n: nat, window: nat)
    requires window <= U64_MAX && n <= |events| && After(events, window).Some?
    ensures After(events[..n], window).Some?
    decreases |events|
  {
    if n < |events| {
      RunsInto(events[..|events| - 1], n, window);
      assert events[..|events| - 1][..n] == events[..n];
    } else {
      assert events[..n] == events;
    }
  }

  /** A check nothing interleaves with. */
  function Undisturbed(sys: System, window: nat): Check
    requires window <= U64_MAX && sys.check.Asleep?
  {
    var counted := Step(Step(sys, LoopWakes, window), LoopLoadsCount, window);
    if counted.check.Asleep? then Asleep
    else Step(Step(counted, LoopLoadsActivity, window), LoopLoadsLatch, window).check
  }

  /** An undisturbed check exits exactly when no command is running and the
      process has been unheard for its threshold. */
  lemma {:induction false} UndisturbedCheckIsExact(events: seq<Event>, window: nat)
    requires window <= U64_MAX && After(events, window).Some? && After(events, window).value.check.Asleep?
    ensures var sys := After(events, window).value;
            && (Undisturbed(sys, window).Exited? <==>
                  Running(events) == 0 && Silence(events) >= Threshold(AttachLatches in events, window))
            && (Undisturbed(sys, window).Exited? <==> Decides(sys.meter, sys.clock, window))
  {
    MeterIsExact(events, window);
  }
}
