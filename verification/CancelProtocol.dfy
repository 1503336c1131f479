/**
 Every interleaving of prompts, cancels and closes over the abort registry
 (src/acp.rs): each event is one step of `run_cancellable`, of a handler or of
 a spawned task, and holds the registry's lock at most once.

 `Live` and `Hit` read a run's events alone, without looking at the registry:
 they are what the registry is judged against.
 */
module CancelProtocol {
  import opened Wrappers
  import opened CancelRegistry

  /** How a spawned task ends: its work returned, failed or panicked, or the
      runtime stopped it because its handle was aborted. */
  datatype Outcome = Finished | Failed | Panicked | Stopped

  datatype StopReason = EndTurn | Cancelled

  /** Where one call of `run_cancellable` is. */
  datatype Phase =
    | Waiting
    | Refused
    | Cleared
    | Spawned(handle: Handle)
    | MustAbort(handle: Handle)
    | Awaiting(handle: Handle)
    | Joined(handle: Handle, outcome: Outcome)
    | Gone(spawned: Option<Handle>, stop: Option<StopReason>)

  datatype Prompt = Prompt(session: SessionId, phase: Phase)

  datatype System = System(reg: Registry, prompts: map<Ticket, Prompt>,
                           nextHandle: Handle, outcomes: map<Handle, Outcome>, counted: nat)

  datatype Event =
    | PromptArrives(session: SessionId)
    | Checks(ticket: Ticket)
    | Spawns(ticket: Ticket)
    | Attaches(ticket: Ticket)
    | AbortsNow(ticket: Ticket)
    | CancelArrives(session: SessionId)
    | CloseArrives(session: SessionId)
    | Settles(handle: Handle, outcome: Outcome)
    | Joins(ticket: Ticket)
    | DropsTicket(ticket: Ticket)
    | Abandoned(ticket: Ticket)

  const START := System(Registry(map[], 1, {}), map[], 0, map[], 0)

  predicate InPhase(sys: System, t: Ticket, allowed: Phase -> bool) {
    t in sys.prompts && allowed(sys.prompts[t].phase)
  }

  /** What may happen next. A prompt's future can be abandoned only where it
      awaits: before its first poll, or on its task. */
  predicate Enabled(sys: System, e: Event) {
    match e
    case PromptArrives(_) => true
    case Checks(t) => InPhase(sys, t, (p: Phase) => p.Waiting?)
    case Spawns(t) => InPhase(sys, t, (p: Phase) => p.Cleared?)
    case Attaches(t) => InPhase(sys, t, (p: Phase) => p.Spawned?)
    case AbortsNow(t) => InPhase(sys, t, (p: Phase) => p.MustAbort?)
    case CancelArrives(_) => true
    case CloseArrives(_) => true
    case Settles(h, o) => h < sys.nextHandle && h !in sys.outcomes && (o.Stopped? ==> h in sys.reg.aborted)
    case Joins(t) => InPhase(sys, t, (p: Phase) => p.Awaiting? && p.handle in sys.outcomes)
    case DropsTicket(t) => InPhase(sys, t, (p: Phase) => p.Refused? || p.Joined?)
    case Abandoned(t) => InPhase(sys, t, (p: Phase) => p.Waiting? || p.Awaiting?)
  }

  function Moved(sys: System, t: Ticket, phase: Phase): System
    requires t in sys.prompts
  {
    sys.(prompts := sys.prompts[t := Prompt(sys.prompts[t].session, phase)])
  }

  function ReasonFor(outcome: Outcome): StopReason {
    if outcome.Stopped? then Cancelled else EndTurn
  }

  /** The phase a prompt is left in once its ticket drops. */
  function Left(phase: Phase): Phase {
    match phase
    case Refused => Gone(None, Some(Cancelled))
    case Joined(h, outcome) => Gone(Some(h), Some(ReasonFor(outcome)))
    case Awaiting(h) => Gone(Some(h), None)
    case _ => Gone(None, None)
  }

  function Step(sys: System, e: Event): System
    requires Enabled(sys, e)
  {
    match e
    case PromptArrives(s) =>
      sys.(reg := Reserve(sys.reg, s), prompts := sys.prompts[sys.reg.nextTicket := Prompt(s, Waiting)])
    case Checks(t) =>
      Moved(sys, t, if IsCancelled(sys.reg, sys.prompts[t].session, t) then Refused else Cleared)
    case Spawns(t) =>
      Moved(sys, t, Spawned(sys.nextHandle)).(nextHandle := sys.nextHandle + 1)
    case Attaches(t) =>
      var h := sys.prompts[t].phase.handle;
      var (reg, must) := Attach(sys.reg, sys.prompts[t].session, t, h);
      Moved(sys, t, if must then MustAbort(h) else Awaiting(h)).(reg := reg)
    case AbortsNow(t) =>
      var h := sys.prompts[t].phase.handle;
      Moved(sys, t, Awaiting(h)).(reg := sys.reg.(aborted := sys.reg.aborted + {h}))
    case CancelArrives(s) => Struck(sys, s)
    case CloseArrives(s) => Struck(sys, s)
    case Settles(h, o) => sys.(outcomes := sys.outcomes[h := o])
    case Joins(t) =>
      var h := sys.prompts[t].phase.handle;
      Moved(sys, t, Joined(h, sys.outcomes[h]))
    case DropsTicket(t) => Leaves(sys, t)
    case Abandoned(t) => Leaves(sys, t)
  }

  function Struck(sys: System, s: SessionId): System {
    sys.(reg := Abort(sys.reg, s), counted := sys.counted + NewlyReached(EntriesOf(sys.reg, s)))
  }

  function Leaves(sys: System, t: Ticket): System
    requires t in sys.prompts
  {
    Moved(sys, t, Left(sys.prompts[t].phase)).(reg := Drop(sys.reg, sys.prompts[t].session, t))
  }

  /** The state a run of events leaves, if each was possible when it came. */
  function After(events: seq<Event>): Option<System>
    decreases |events|
  {
    if events == [] then Some(START)
    else
      var before := After(events[..|events| - 1]);
      var e := events[|events| - 1];
      if before.Some? && Enabled(before.value, e) then Some(Step(before.value, e)) else None
  }

  // ---- a run, read without the registry -------------------------------------------

  /** The ticket the next prompt will get. */
  function Minted(events: seq<Event>): Ticket
    decreases |events|
  {
    if events == [] then 1
    else Minted(events[..|events| - 1]) + if events[|events| - 1].PromptArrives? then 1 else 0
  }

  function LiveAfter(live: map<Ticket, SessionId>, minted: Ticket, e: Event): map<Ticket, SessionId> {
    match e
    case PromptArrives(s) => live[minted := s]
    case DropsTicket(t) => live - {t}
    case Abandoned(t) => live - {t}
    case _ => live
  }

  /** Tickets minted and not dropped, with their sessions. */
  function Live(events: seq<Event>): map<Ticket, SessionId>
    decreases |events|
  {
    if events == [] then map[]
    else
      var before := events[..|events| - 1];
      LiveAfter(Live(before), Minted(before), events[|events| - 1])
  }

  predicate Strikes(e: Event, s: SessionId) {
    e == CancelArrives(s) || e == CloseArrives(s)
  }

  function LiveIn(live: map<Ticket, SessionId>, s: SessionId): set<Ticket> {
    set t | t in live && live[t] == s
  }

  function HitAfter(hit: set<Ticket>, live: map<Ticket, SessionId>, e: Event): set<Ticket> {
    match e
    case CancelArrives(s) => hit + LiveIn(live, s)
    case CloseArrives(s) => hit + LiveIn(live, s)
    case _ => hit
  }

  /** Tickets live when a cancel or close hit their session. */
  function Hit(events: seq<Event>): set<Ticket>
    decreases |events|
  {
    if events == [] then {}
    else
      var before := events[..|events| - 1];
      HitAfter(Hit(before), Live(before), events[|events| - 1])
  }

  ghost predicate StruckAt(events: seq<Event>, t: Ticket, j: int) {
    0 <= j < |events| && t in Live(events[..j]) && Strikes(events[j], Live(events[..j])[t])
  }

  /** `Hit` holds exactly the tickets some cancel or close found live. */
  lemma {:induction false} HitMeans(events: seq<Event>, t: Ticket)
    ensures t in Hit(events) <==> exists j :: StruckAt(events, t, j)
    decreases |events|
  {
    if events != [] {
      var before, n := events[..|events| - 1], |events| - 1;
      HitMeans(before, t);
      forall j | 0 <= j < n ensures StruckAt(events, t, j) <==> StruckAt(before, t, j) {
        assert events[..j] == before[..j];
      }
      if t in Hit(before) {
        var j :| StruckAt(before, t, j);
        assert StruckAt(events, t, j);
      } else if t in Hit(events) {
        assert StruckAt(events, t, n);
      } else {
        assert !StruckAt(events, t, n);
      }
    }
  }

  // ---- the registry as a table of the live prompts ----------------------------------

  function StateFor(phase: Phase, hit: bool): TaskState {
    match phase
    case MustAbort(_) => TaskState.Aborted
    case Awaiting(h) => if hit then TaskState.Aborted else Running(h)
    case Joined(h, _) => if hit then TaskState.Aborted else Running(h)
    case _ => if hit then ReservedCancelled else Reserved
  }

  /** The entry ticket `t` should have among session `s`'s. */
  function Line(prompts: map<Ticket, Prompt>, hit: set<Ticket>, s: SessionId, t: Ticket): Option<Entry> {
    if t in prompts && !prompts[t].phase.Gone? && prompts[t].session == s
    then Some(Entry(t, StateFor(prompts[t].phase, t in hit)))
    else None
  }

  /** Session `s`'s entries for the tickets below `n`. */
  function Table(prompts: map<Ticket, Prompt>, hit: set<Ticket>, s: SessionId, n: nat): seq<Entry> {
    if n == 0 then []
    else
      var line := Line(prompts, hit, s, n - 1);
      Table(prompts, hit, s, n - 1) + if line.Some? then [line.value] else []
  }

  lemma {:induction false} TableSame(p: map<Ticket, Prompt>, a: set<Ticket>, q: map<Ticket, Prompt>, b: set<Ticket>,
                                     s: SessionId, n: nat)
    requires forall t: nat | t < n :: Line(p, a, s, t) == Line(q, b, s, t)
    ensures Table(p, a, s, n) == Table(q, b, s, n)
  {
    if n > 0 {
      TableSame(p, a, q, b, s, n - 1);
      assert Line(p, a, s, n - 1) == Line(q, b, s, n - 1);
    }
  }

  /** Every row is its ticket's line, and tickets increase down the table. */
  lemma {:induction false} TableRows(p: map<Ticket, Prompt>, hit: set<Ticket>, s: SessionId, n: nat)
    ensures forall i | 0 <= i < |Table(p, hit, s, n)| ::
              Table(p, hit, s, n)[i].ticket < n &&
              Line(p, hit, s, Table(p, hit, s, n)[i].ticket) == Some(Table(p, hit, s, n)[i])
    ensures forall i, j | 0 <= i < j < |Table(p, hit, s, n)| ::
              Table(p, hit, s, n)[i].ticket < Table(p, hit, s, n)[j].ticket
  {
    if n > 0 {
      TableRows(p, hit, s, n - 1);
    }
  }

  /** Every line has its row. */
  lemma {:induction false} RowOf(p: map<Ticket, Prompt>, hit: set<Ticket>, s: SessionId, n: nat, t: Ticket)
    returns (k: nat)
    requires t < n && Line(p, hit, s, t).Some?
    ensures k < |Table(p, hit, s, n)| && Table(p, hit, s, n)[k] == Line(p, hit, s, t).value
    ensures IndexOf(Table(p, hit, s, n), t) == Some(k)
  {
    k := RowAt(p, hit, s, n, t);
    TableRows(p, hit, s, n);
  }

  lemma {:induction false} RowAt(p: map<Ticket, Prompt>, hit: set<Ticket>, s: SessionId, n: nat, t: Ticket)
    returns (k: nat)
    requires t < n && Line(p, hit, s, t).Some?
    ensures k < |Table(p, hit, s, n)| && Table(p, hit, s, n)[k] == Line(p, hit, s, t).value
  {
    if t == n - 1 {
      k := |Table(p, hit, s, n - 1)|;
    } else {
      k := RowAt(p, hit, s, n - 1, t);
    }
  }

  /** Changing one ticket's line rewrites its row in place. */
  lemma {:induction false} TableUpdate(p: map<Ticket, Prompt>, q: map<Ticket, Prompt>, hit: set<Ticket>,
                                       s: SessionId, n: nat, t: Ticket, k: nat)
    requires forall u: nat | u < n && u != t :: Line(p, hit, s, u) == Line(q, hit, s, u)
    requires Line(p, hit, s, t).Some? && Line(q, hit, s, t).Some?
    requires k < |Table(p, hit, s, n)| && Table(p, hit, s, n)[k].ticket == t
    ensures Table(q, hit, s, n) == Table(p, hit, s, n)[k := Line(q, hit, s, t).value]
  {
    TableRows(p, hit, s, n);
    var rest := Table(p, hit, s, n - 1);
    if t == n - 1 {
      TableRows(p, hit, s, n - 1);
      TableSame(p, hit, q, hit, s, n - 1);
    } else {
      assert Line(p, hit, s, n - 1) == Line(q, hit, s, n - 1);
      TableUpdate(p, q, hit, s, n - 1, t, k);
    }
  }

  /** Losing one ticket's line removes its row. */
  lemma {:induction false} TableWithout(p: map<Ticket, Prompt>, q: map<Ticket, Prompt>, hit: set<Ticket>,
                                        s: SessionId, n: nat, t: Ticket)
    requires forall u: nat | u < n && u != t :: Line(p, hit, s, u) == Line(q, hit, s, u)
    requires Line(q, hit, s, t).None?
    ensures Table(q, hit, s, n) == Without(Table(p, hit, s, n), t)
  {
    if n > 0 {
      TableWithout(p, q, hit, s, n - 1, t);
      var line := Line(p, hit, s, n - 1);
      if line.Some? {
        WithoutAppend(Table(p, hit, s, n - 1), line.value, t);
      } else {
        assert Table(p, hit, s, n) == Table(p, hit, s, n - 1);
      }
      assert t != n - 1 ==> line == Line(q, hit, s, n - 1);
    }
  }

  lemma WithoutAppend(entries: seq<Entry>, e: Entry, t: Ticket)
    ensures Without(entries + [e], t) == Without(entries, t) + if e.ticket != t then [e] else []
  {
    assert (entries + [e])[..|entries|] == entries;
  }

  /** Hitting a session turns each of its rows as a cancel does. */
  lemma {:induction false} TableStruck(p: map<Ticket, Prompt>, hit: set<Ticket>, more: set<Ticket>,
                                       s: SessionId, n: nat)
    requires forall t: nat | t < n && Line(p, hit, s, t).Some? :: t in more
    requires hit <= more
    ensures Table(p, more, s, n) == CancelledEntries(Table(p, hit, s, n))
  {
    if n > 0 {
      TableStruck(p, hit, more, s, n - 1);
      var line := Line(p, hit, s, n - 1);
      if line.Some? {
        assert n - 1 in more;
        CancelledAppend(Table(p, hit, s, n - 1), line.value);
      }
    }
  }

  lemma CancelledAppend(entries: seq<Entry>, e: Entry)
    ensures CancelledEntries(entries + [e]) == CancelledEntries(entries) + [Entry(e.ticket, CancelledState(e.state))]
  {
  }

  // ---- what every step keeps -------------------------------------------------------

  ghost predicate Tabled(sys: System, hit: set<Ticket>, s: SessionId) {
    EntriesOf(sys.reg, s) == Table(sys.prompts, hit, s, sys.reg.nextTicket)
  }

  /** The registry is the table of live prompts, with no key for an empty one. */
  ghost predicate RegistryOk(sys: System, hit: set<Ticket>) {
    && (forall s :: Tabled(sys, hit, s))
    && (forall s | s in sys.reg.tasks :: sys.reg.tasks[s] != [])
  }

  function HandleOf(phase: Phase): Option<Handle> {
    match phase
    case Spawned(h) => Some(h)
    case MustAbort(h) => Some(h)
    case Awaiting(h) => Some(h)
    case Joined(h, _) => Some(h)
    case Gone(h, _) => h
    case _ => None
  }

  /** A prompt is past its attach step, abort included. */
  predicate Attached(phase: Phase) {
    (phase.Gone? && phase.spawned.Some?) || phase.Awaiting? || phase.Joined?
  }

  function StopOf(phase: Phase): Option<StopReason> {
    match phase
    case Refused => Some(Cancelled)
    case Joined(_, outcome) => Some(ReasonFor(outcome))
    case Gone(_, stop) => stop
    case _ => None
  }

  /** What one prompt's cancel history says about its task. */
  predicate PromptOk(phase: Phase, hit: bool, aborted: set<Handle>, nextHandle: Handle) {
    && (HandleOf(phase).Some? ==> HandleOf(phase).value < nextHandle)
    && (HandleOf(phase).Some? ==> (HandleOf(phase).value in aborted <==> hit && Attached(phase)))
    && (phase.MustAbort? ==> hit)
    && (StopOf(phase) == Some(Cancelled) ==> hit)
  }

  ghost predicate PromptsOk(sys: System, hit: set<Ticket>) {
    && hit <= sys.prompts.Keys
    && (forall t | t in sys.prompts ::
          t < sys.reg.nextTicket && PromptOk(sys.prompts[t].phase, t in hit, sys.reg.aborted, sys.nextHandle))
  }

  ghost predicate HandlesOk(sys: System) {
    && (forall t, u | t in sys.prompts && u in sys.prompts && t != u ::
          HandleOf(sys.prompts[t].phase).Some? ==> HandleOf(sys.prompts[t].phase) != HandleOf(sys.prompts[u].phase))
    && (forall h | h in sys.reg.aborted :: h < sys.nextHandle)
    && (forall h | h in sys.outcomes && sys.outcomes[h].Stopped? :: h in sys.reg.aborted)
  }

  ghost predicate Inv(sys: System, hit: set<Ticket>) {
    RegistryOk(sys, hit) && PromptsOk(sys, hit) && HandlesOk(sys)
  }

  /** What a step adds to the tickets hit. */
  function HitBy(sys: System, e: Event): set<Ticket> {
    match e
    case CancelArrives(s) => InFlightIn(sys, s)
    case CloseArrives(s) => InFlightIn(sys, s)
    case _ => {}
  }

  function InFlightIn(sys: System, s: SessionId): set<Ticket> {
    set t | t in sys.prompts && !sys.prompts[t].phase.Gone? && sys.prompts[t].session == s
  }

  /** Moving a prompt to a phase with the same entry keeps the registry right. */
  lemma MoveKeepsRegistry(sys: System, hit: set<Ticket>, t: Ticket, phase: Phase)
    requires RegistryOk(sys, hit) && t in sys.prompts
    requires !sys.prompts[t].phase.Gone? && !phase.Gone?
    requires StateFor(sys.prompts[t].phase, t in hit) == StateFor(phase, t in hit)
    ensures RegistryOk(Moved(sys, t, phase), hit)
  {
    var next := Moved(sys, t, phase);
    forall s ensures Tabled(next, hit, s) {
      assert Tabled(sys, hit, s);
      TableSame(sys.prompts, hit, next.prompts, hit, s, sys.reg.nextTicket);
    }
  }

  lemma ArrivalKeepsRegistry(sys: System, hit: set<Ticket>, s: SessionId)
    requires Inv(sys, hit)
    ensures RegistryOk(Step(sys, PromptArrives(s)), hit)
  {
    var next := Step(sys, PromptArrives(s));
    var n := sys.reg.nextTicket;
    assert n !in sys.prompts;
    forall u ensures Tabled(next, hit, u) {
      assert Tabled(sys, hit, u);
      TableSame(sys.prompts, hit, next.prompts, hit, u, n);
      assert Line(next.prompts, hit, u, n) == if u == s then Some(Entry(n, Reserved)) else None;
    }
  }

  lemma LeavingKeepsRegistry(sys: System, hit: set<Ticket>, t: Ticket)
    requires Inv(sys, hit) && t in sys.prompts
    ensures RegistryOk(Leaves(sys, t), hit)
  {
    var next := Leaves(sys, t);
    var own := sys.prompts[t].session;
    assert Tabled(sys, hit, own);
    TableWithout(sys.prompts, next.prompts, hit, own, sys.reg.nextTicket, t);
    forall s ensures Tabled(next, hit, s) {
      assert Tabled(sys, hit, s);
      if s != own {
        TableSame(sys.prompts, hit, next.prompts, hit, s, sys.reg.nextTicket);
      }
    }
  }

  /** What the registry holds for a live prompt. */
  lemma EntryOf(sys: System, hit: set<Ticket>, t: Ticket) returns (k: nat)
    requires Inv(sys, hit) && t in sys.prompts && !sys.prompts[t].phase.Gone?
    ensures var entries := EntriesOf(sys.reg, sys.prompts[t].session);
            k < |entries| && IndexOf(entries, t) == Some(k) && entries[k].ticket == t &&
            entries[k].state == StateFor(sys.prompts[t].phase, t in hit)
    ensures sys.prompts[t].session in sys.reg.tasks
  {
    assert Tabled(sys, hit, sys.prompts[t].session);
    k := RowOf(sys.prompts, hit, sys.prompts[t].session, sys.reg.nextTicket, t);
  }

  /** A cancel aborts the handle of each running prompt it newly hits... */
  lemma CancelAborts(sys: System, hit: set<Ticket>, t: Ticket)
    requires Inv(sys, hit) && t in sys.prompts && !sys.prompts[t].phase.Gone?
    requires Attached(sys.prompts[t].phase) && t !in hit
    ensures sys.prompts[t].phase.handle in RunningHandles(EntriesOf(sys.reg, sys.prompts[t].session))
  {
    var entries := EntriesOf(sys.reg, sys.prompts[t].session);
    var k := EntryOf(sys, hit, t);
    assert entries[k].state == Running(sys.prompts[t].phase.handle);
  }

  /** ... and no other. */
  lemma CancelAbortsOnly(sys: System, hit: set<Ticket>, s: SessionId, h: Handle) returns (t: Ticket)
    requires Inv(sys, hit) && h in RunningHandles(EntriesOf(sys.reg, s))
    ensures t in InFlightIn(sys, s) && t !in hit
    ensures Attached(sys.prompts[t].phase) && HandleOf(sys.prompts[t].phase) == Some(h)
  {
    var entries := EntriesOf(sys.reg, s);
    var k :| 0 <= k < |entries| && entries[k].state.Running? && entries[k].state.handle == h;
    assert Tabled(sys, hit, s);
    TableRows(sys.prompts, hit, s, sys.reg.nextTicket);
    t := entries[k].ticket;
    assert Line(sys.prompts, hit, s, t) == Some(entries[k]);
  }

  lemma StruckPrompt(sys: System, hit: set<Ticket>, s: SessionId, t: Ticket)
    requires Inv(sys, hit) && t in sys.prompts
    ensures PromptOk(sys.prompts[t].phase, t in hit + InFlightIn(sys, s), Struck(sys, s).reg.aborted, sys.nextHandle)
  {
    var phase := sys.prompts[t].phase;
    assert PromptOk(phase, t in hit, sys.reg.aborted, sys.nextHandle);
    if HandleOf(phase).Some? {
      var h := HandleOf(phase).value;
      if h in RunningHandles(EntriesOf(sys.reg, s)) {
        var u := CancelAbortsOnly(sys, hit, s, h);
        assert u == t;
        assert s in sys.reg.tasks;
      } else if t in InFlightIn(sys, s) && t !in hit && Attached(phase) {
        CancelAborts(sys, hit, t);
        assert false;
      }
    }
  }

  lemma StruckKeepsPrompts(sys: System, hit: set<Ticket>, s: SessionId)
    requires Inv(sys, hit)
    ensures PromptsOk(Struck(sys, s), hit + InFlightIn(sys, s))
  {
    forall t | t in sys.prompts
      ensures PromptOk(sys.prompts[t].phase, t in hit + InFlightIn(sys, s), Struck(sys, s).reg.aborted, sys.nextHandle)
    {
      StruckPrompt(sys, hit, s, t);
    }
  }

  lemma StruckKeepsHandles(sys: System, hit: set<Ticket>, s: SessionId)
    requires Inv(sys, hit)
    ensures HandlesOk(Struck(sys, s))
  {
    forall h | h in RunningHandles(EntriesOf(sys.reg, s)) ensures h < sys.nextHandle {
      var t := CancelAbortsOnly(sys, hit, s, h);
    }
  }

  lemma StruckKeepsRegistry(sys: System, hit: set<Ticket>, s: SessionId)
    requires Inv(sys, hit)
    ensures RegistryOk(Struck(sys, s), hit + InFlightIn(sys, s))
  {
    var next, more := Struck(sys, s), hit + InFlightIn(sys, s);
    forall u ensures Tabled(next, more, u) {
      assert Tabled(sys, hit, u);
      if u == s {
        TableStruck(sys.prompts, hit, more, s, sys.reg.nextTicket);
      } else {
        TableSame(sys.prompts, hit, sys.prompts, more, u, sys.reg.nextTicket);
      }
    }
  }

  /** Moving one prompt to a phase that is right for it keeps all prompts right. */
  lemma MoveKeepsPrompts(sys: System, hit: set<Ticket>, t: Ticket, phase: Phase)
    requires PromptsOk(sys, hit) && HandlesOk(sys) && t in sys.prompts
    requires PromptOk(phase, t in hit, sys.reg.aborted, sys.nextHandle)
    requires HandleOf(phase) == HandleOf(sys.prompts[t].phase)
    ensures PromptsOk(Moved(sys, t, phase), hit) && HandlesOk(Moved(sys, t, phase))
  {
  }

  lemma ArrivalKeeps(sys: System, hit: set<Ticket>, s: SessionId)
    requires Inv(sys, hit)
    ensures Inv(Step(sys, PromptArrives(s)), hit)
  {
    ArrivalKeepsRegistry(sys, hit, s);
  }

  /** The pre-check refuses exactly the prompts already hit. */
  lemma CheckSeesHit(sys: System, hit: set<Ticket>, t: Ticket)
    requires Inv(sys, hit) && Enabled(sys, Checks(t))
    ensures IsCancelled(sys.reg, sys.prompts[t].session, t) <==> t in hit
  {
    var k := EntryOf(sys, hit, t);
  }

  lemma CheckKeeps(sys: System, hit: set<Ticket>, t: Ticket)
    requires Inv(sys, hit) && Enabled(sys, Checks(t))
    ensures Inv(Step(sys, Checks(t)), hit)
  {
    CheckSeesHit(sys, hit, t);
    var phase := if t in hit then Refused else Cleared;
    MoveKeepsRegistry(sys, hit, t, phase);
    MoveKeepsPrompts(sys, hit, t, phase);
  }

  lemma SpawnKeeps(sys: System, hit: set<Ticket>, t: Ticket)
    requires Inv(sys, hit) && Enabled(sys, Spawns(t))
    ensures Inv(Step(sys, Spawns(t)), hit)
  {
    var next := Step(sys, Spawns(t));
    MoveKeepsRegistry(sys, hit, t, Spawned(sys.nextHandle));
    assert forall s :: Tabled(Moved(sys, t, Spawned(sys.nextHandle)), hit, s) ==> Tabled(next, hit, s);
    assert sys.nextHandle !in sys.reg.aborted;
    forall u | u in next.prompts
      ensures PromptOk(next.prompts[u].phase, u in hit, next.reg.aborted, next.nextHandle)
    {
      if u != t {
        assert PromptOk(sys.prompts[u].phase, u in hit, sys.reg.aborted, sys.nextHandle);
      }
    }
  }

  /** Attach is only ever reached in `Reserved` or `ReservedCancelled`, the
      latter exactly when a cancel has hit the prompt; so its catch-all arm
      never overwrites an `Aborted`. */
  lemma AttachSees(sys: System, hit: set<Ticket>, t: Ticket)
    requires Inv(sys, hit) && Enabled(sys, Attaches(t))
    ensures var k := IndexOf(EntriesOf(sys.reg, sys.prompts[t].session), t);
            k.Some? && EntriesOf(sys.reg, sys.prompts[t].session)[k.value].state ==
                       if t in hit then ReservedCancelled else Reserved
  {
    var k := EntryOf(sys, hit, t);
  }

  lemma AttachKeepsRegistry(sys: System, hit: set<Ticket>, t: Ticket)
    requires Inv(sys, hit) && Enabled(sys, Attaches(t))
    ensures RegistryOk(Step(sys, Attaches(t)), hit)
    ensures Step(sys, Attaches(t)).prompts[t].phase ==
            var h := sys.prompts[t].phase.handle; if t in hit then MustAbort(h) else Awaiting(h)
  {
    var next, own := Step(sys, Attaches(t)), sys.prompts[t].session;
    var k := EntryOf(sys, hit, t);
    assert Tabled(sys, hit, own);
    TableUpdate(sys.prompts, next.prompts, hit, own, sys.reg.nextTicket, t, k);
    forall s ensures Tabled(next, hit, s) {
      assert Tabled(sys, hit, s);
      if s != own {
        TableSame(sys.prompts, hit, next.prompts, hit, s, sys.reg.nextTicket);
      }
    }
  }

  lemma AttachKeeps(sys: System, hit: set<Ticket>, t: Ticket)
    requires Inv(sys, hit) && Enabled(sys, Attaches(t))
    ensures Inv(Step(sys, Attaches(t)), hit)
  {
    AttachKeepsRegistry(sys, hit, t);
    MoveKeepsPrompts(sys, hit, t, Step(sys, Attaches(t)).prompts[t].phase);
  }

  lemma AbortKeeps(sys: System, hit: set<Ticket>, t: Ticket)
    requires Inv(sys, hit) && Enabled(sys, AbortsNow(t))
    ensures Inv(Step(sys, AbortsNow(t)), hit)
  {
    var next, h := Step(sys, AbortsNow(t)), sys.prompts[t].phase.handle;
    MoveKeepsRegistry(sys, hit, t, Awaiting(h));
    assert forall s :: Tabled(Moved(sys, t, Awaiting(h)), hit, s) ==> Tabled(next, hit, s);
    forall u | u in next.prompts
      ensures PromptOk(next.prompts[u].phase, u in hit, next.reg.aborted, next.nextHandle)
    {
      assert PromptOk(sys.prompts[u].phase, u in hit, sys.reg.aborted, sys.nextHandle);
    }
  }

  lemma SettleKeeps(sys: System, hit: set<Ticket>, h: Handle, o: Outcome)
    requires Inv(sys, hit) && Enabled(sys, Settles(h, o))
    ensures Inv(Step(sys, Settles(h, o)), hit)
  {
    assert forall s :: Tabled(sys, hit, s) ==> Tabled(Step(sys, Settles(h, o)), hit, s);
  }

  lemma JoinKeeps(sys: System, hit: set<Ticket>, t: Ticket)
    requires Inv(sys, hit) && Enabled(sys, Joins(t))
    ensures Inv(Step(sys, Joins(t)), hit)
  {
    var h := sys.prompts[t].phase.handle;
    MoveKeepsRegistry(sys, hit, t, Joined(h, sys.outcomes[h]));
    MoveKeepsPrompts(sys, hit, t, Joined(h, sys.outcomes[h]));
  }

  lemma LeavingKeeps(sys: System, hit: set<Ticket>, t: Ticket)
    requires Inv(sys, hit) && (Enabled(sys, DropsTicket(t)) || Enabled(sys, Abandoned(t)))
    ensures Inv(Leaves(sys, t), hit)
  {
    LeavingKeepsRegistry(sys, hit, t);
    MoveKeepsPrompts(sys, hit, t, Left(sys.prompts[t].phase));
  }

  lemma StruckKeeps(sys: System, hit: set<Ticket>, s: SessionId)
    requires Inv(sys, hit)
    ensures Inv(Struck(sys, s), hit + InFlightIn(sys, s))
  {
    StruckKeepsRegistry(sys, hit, s);
    StruckKeepsPrompts(sys, hit, s);
    StruckKeepsHandles(sys, hit, s);
  }

  lemma StepKeeps(sys: System, hit: set<Ticket>, e: Event)
    requires Inv(sys, hit) && Enabled(sys, e)
    ensures Inv(Step(sys, e), hit + HitBy(sys, e))
  {
    assert hit + {} == hit;
    match e
    case PromptArrives(s) => ArrivalKeeps(sys, hit, s);
    case Checks(t) => CheckKeeps(sys, hit, t);
    case Spawns(t) => SpawnKeeps(sys, hit, t);
    case Attaches(t) => AttachKeeps(sys, hit, t);
    case AbortsNow(t) => AbortKeeps(sys, hit, t);
    case CancelArrives(s) => StruckKeeps(sys, hit, s);
    case CloseArrives(s) => StruckKeeps(sys, hit, s);
    case Settles(h, o) => SettleKeeps(sys, hit, h, o);
    case Joins(t) => JoinKeeps(sys, hit, t);
    case DropsTicket(t) => LeavingKeeps(sys, hit, t);
    case Abandoned(t) => LeavingKeeps(sys, hit, t);
  }

  // ---- the count a cancel returns ---------------------------------------------------

  lemma UnreachedIs(sys: System, hit: set<Ticket>, s: SessionId)
    requires Inv(sys, hit)
    ensures Unreached(EntriesOf(sys.reg, s)) == InFlightIn(sys, s) - hit
  {
    var entries := EntriesOf(sys.reg, s);
    assert Tabled(sys, hit, s);
    forall t | t in Unreached(entries) ensures t in InFlightIn(sys, s) - hit {
      var k := ReachedAt(entries, t);
      TableRows(sys.prompts, hit, s, sys.reg.nextTicket);
      assert Line(sys.prompts, hit, s, t) == Some(entries[k]);
    }
    forall t | t in InFlightIn(sys, s) - hit ensures t in Unreached(entries) {
      var k := EntryOf(sys, hit, t);
      assert PromptOk(sys.prompts[t].phase, t in hit, sys.reg.aborted, sys.nextHandle);
    }
  }

  lemma StruckCounts(sys: System, hit: set<Ticket>, s: SessionId)
    requires Inv(sys, hit) && sys.counted == |hit|
    ensures Struck(sys, s).counted == |hit + InFlightIn(sys, s)|
  {
    UnreachedIs(sys, hit, s);
    assert Tabled(sys, hit, s);
    TableRows(sys.prompts, hit, s, sys.reg.nextTicket);
    CountsPrompts(EntriesOf(sys.reg, s));
    assert hit + InFlightIn(sys, s) == hit + (InFlightIn(sys, s) - hit);
  }

  // ---- every reachable state ----------------------------------------------------------

  /** The live tickets a run shows are the prompts not yet gone. */
  ghost predicate LiveOk(sys: System, live: map<Ticket, SessionId>) {
    && (forall t :: t in live <==> t in sys.prompts && !sys.prompts[t].phase.Gone?)
    && (forall t | t in live :: live[t] == sys.prompts[t].session)
  }

  lemma LiveStep(sys: System, e: Event, live: map<Ticket, SessionId>)
    requires LiveOk(sys, live) && Enabled(sys, e)
    ensures LiveOk(Step(sys, e), LiveAfter(live, sys.reg.nextTicket, e))
    ensures Step(sys, e).reg.nextTicket == sys.reg.nextTicket + if e.PromptArrives? then 1 else 0
  {
  }

  lemma HitStep(sys: System, e: Event, hit: set<Ticket>, live: map<Ticket, SessionId>)
    requires LiveOk(sys, live) && Enabled(sys, e)
    ensures HitAfter(hit, live, e) == hit + HitBy(sys, e)
  {
    if e.CancelArrives? || e.CloseArrives? {
      assert LiveIn(live, e.session) == InFlightIn(sys, e.session);
    }
  }

  lemma CountStep(sys: System, e: Event, hit: set<Ticket>)
    requires Inv(sys, hit) && Enabled(sys, e) && sys.counted == |hit|
    ensures Step(sys, e).counted == |hit + HitBy(sys, e)|
  {
    if e.CancelArrives? || e.CloseArrives? {
      StruckCounts(sys, hit, e.session);
    } else {
      assert hit + {} == hit;
    }
  }

  ghost predicate Good(sys: System, hit: set<Ticket>, live: map<Ticket, SessionId>, minted: Ticket) {
    Inv(sys, hit) && LiveOk(sys, live) && sys.reg.nextTicket == minted && sys.counted == |hit|
  }

  lemma GoodAtStart()
    ensures Good(START, {}, map[], 1)
  {
    forall s ensures Tabled(START, {}, s) {
      assert Table(START.prompts, {}, s, 0) == [];
    }
  }

  lemma GoodStep(sys: System, e: Event, hit: set<Ticket>, live: map<Ticket, SessionId>, minted: Ticket)
    requires Good(sys, hit, live, minted) && Enabled(sys, e)
    ensures Good(Step(sys, e), HitAfter(hit, live, e), LiveAfter(live, minted, e),
                 minted + if e.PromptArrives? then 1 else 0)
  {
    HitStep(sys, e, hit, live);
    CountStep(sys, e, hit);
    LiveStep(sys, e, live);
    StepKeeps(sys, hit, e);
  }

  /** Every reachable state agrees with the run that reached it. */
  lemma {:induction false} Reached(events: seq<Event>)
    requires After(events).Some?
    ensures Good(After(events).value, Hit(events), Live(events), Minted(events))
    decreases |events|
  {
    if events == [] {
      GoodAtStart();
    } else {
      var before := events[..|events| - 1];
      Reached(before);
      GoodStep(After(before).value, events[|events| - 1], Hit(before), Live(before), Minted(before));
    }
  }

  // ---- the theorems ---------------------------------------------------------------------

  /** A prompt's ticket is live when a cancel or close hits its session: then
      it never spawns its work, or its handle is aborted no later than its
      attach step. A prompt that none hit is never aborted, never refused and
      never reports `Cancelled`. */
  lemma {:induction false} CancelIsExact(events: seq<Event>, t: Ticket)
    requires After(events).Some? && t in After(events).value.prompts
    ensures var sys := After(events).value; var phase := sys.prompts[t].phase;
            Attached(phase) ==> (HandleOf(phase).value in sys.reg.aborted <==> exists j :: StruckAt(events, t, j))
    ensures var phase := After(events).value.prompts[t].phase;
            phase.Refused? || phase.MustAbort? || StopOf(phase) == Some(Cancelled) ==> exists j :: StruckAt(events, t, j)
  {
    Reached(events);
    HitMeans(events, t);
    var sys := After(events).value;
    assert PromptOk(sys.prompts[t].phase, t in Hit(events), sys.reg.aborted, sys.nextHandle);
  }

  // ---- which stop reason a prompt ends with ------------------------------------------

  /** The prompt's check came after a cancel or close that found it live. */
  ghost predicate RefusedByStrike(events: seq<Event>, t: Ticket) {
    exists j, i :: 0 <= i < j < |events| && events[j] == Checks(t) && StruckAt(events, t, i)
  }

  /** How many tasks have been spawned: handles count up from zero. */
  function SpawnCount(events: seq<Event>): Handle
    decreases |events|
  {
    if events == [] then 0
    else SpawnCount(events[..|events| - 1]) + if events[|events| - 1].Spawns? then 1 else 0
  }

  /** The prompt's spawn, at `j`, got this handle. */
  predicate SpawnedAt(events: seq<Event>, t: Ticket, j: int, h: Handle) {
    0 <= j < |events| && events[j] == Spawns(t) && h == SpawnCount(events[..j])
  }

  /** The prompt's task settled so. */
  ghost predicate SettledAs(events: seq<Event>, t: Ticket, o: Outcome) {
    exists j, h, k :: SpawnedAt(events, t, j, h) && 0 <= k < |events| && events[k] == Settles(h, o)
  }

  /** What a step makes of the refusals. */
  function RefusedBy(e: Event, hit: set<Ticket>): set<Ticket> {
    if e.Checks? && e.ticket in hit then {e.ticket} else {}
  }

  function TasksWith(tasks: map<Ticket, Handle>, e: Event, spawns: Handle): map<Ticket, Handle> {
    if e.Spawns? then tasks[e.ticket := spawns] else tasks
  }

  function SettledWith(settled: map<Handle, Outcome>, e: Event): map<Handle, Outcome> {
    if e.Settles? then settled[e.handle := e.outcome] else settled
  }

  /** The same, gathered along the run: the refused tickets... */
  function Refusals(events: seq<Event>): set<Ticket>
    decreases |events|
  {
    if events == [] then {}
    else
      var before, e := events[..|events| - 1], events[|events| - 1];
      Refusals(before) + RefusedBy(e, Hit(before))
  }

  /** ... the task of each ticket... */
  function TaskOf(events: seq<Event>): map<Ticket, Handle>
    decreases |events|
  {
    if events == [] then map[]
    else
      var before, e := events[..|events| - 1], events[|events| - 1];
      TasksWith(TaskOf(before), e, SpawnCount(before))
  }

  /** ... and how each task settled. */
  function Settled(events: seq<Event>): map<Handle, Outcome>
    decreases |events|
  {
    if events == [] then map[]
    else
      var before, e := events[..|events| - 1], events[|events| - 1];
      SettledWith(Settled(before), e)
  }

  lemma {:induction false} RefusalsMean(events: seq<Event>, t: Ticket)
    ensures t in Refusals(events) <==> RefusedByStrike(events, t)
    decreases |events|
  {
    if events != [] {
      var before, n := events[..|events| - 1], |events| - 1;
      RefusalsMean(before, t);
      HitMeans(before, t);
      forall i | 0 <= i < n ensures StruckAt(events, t, i) <==> StruckAt(before, t, i) {
        assert events[..i] == before[..i];
      }
      if t in Refusals(events) && t !in Refusals(before) {
        var i :| StruckAt(before, t, i);
        assert events[n] == Checks(t) && StruckAt(events, t, i);
      }
      if RefusedByStrike(before, t) {
        var j, i :| 0 <= i < j < |before| && before[j] == Checks(t) && StruckAt(before, t, i);
        assert events[j] == Checks(t) && StruckAt(events, t, i);
      }
    }
  }

  /** The prompt's phase, as the run's events have it. */
  predicate PhaseTold(phase: Phase, t: Ticket, refused: set<Ticket>, tasks: map<Ticket, Handle>, settled: map<Handle, Outcome>) {
    match phase
    case Waiting => t !in refused && t !in tasks
    case Refused => t in refused && t !in tasks
    case Cleared => t !in refused && t !in tasks
    case Spawned(h) => t !in refused && t in tasks && tasks[t] == h
    case MustAbort(h) => t !in refused && t in tasks && tasks[t] == h
    case Awaiting(h) => t !in refused && t in tasks && tasks[t] == h
    case Joined(h, o) => t !in refused && t in tasks && tasks[t] == h && h in settled && settled[h] == o
    case Gone(_, _) => true
  }

  ghost predicate Told(sys: System, refused: set<Ticket>, tasks: map<Ticket, Handle>, settled: map<Handle, Outcome>, spawns: Handle) {
    && sys.outcomes == settled && sys.nextHandle == spawns
    && (forall t | t in refused || t in tasks :: t in sys.prompts)
    && (forall t | t in sys.prompts :: PhaseTold(sys.prompts[t].phase, t, refused, tasks, settled))
  }

  lemma PhaseStep(sys: System, e: Event, hit: set<Ticket>, refused: set<Ticket>, tasks: map<Ticket, Handle>,
                  settled: map<Handle, Outcome>, spawns: Handle, t: Ticket)
    requires Inv(sys, hit) && Enabled(sys, e) && Told(sys, refused, tasks, settled, spawns) && t in Step(sys, e).prompts
    ensures PhaseTold(Step(sys, e).prompts[t].phase, t, refused + RefusedBy(e, hit), TasksWith(tasks, e, spawns), SettledWith(settled, e))
  {
    assert t in sys.prompts ==> PhaseTold(sys.prompts[t].phase, t, refused, tasks, settled);
    match e {
      case Checks(u) => CheckSeesHit(sys, hit, u);
      case _ =>
    }
  }

  lemma ToldStep(sys: System, e: Event, hit: set<Ticket>, refused: set<Ticket>, tasks: map<Ticket, Handle>,
                 settled: map<Handle, Outcome>, spawns: Handle)
    requires Inv(sys, hit) && Enabled(sys, e) && Told(sys, refused, tasks, settled, spawns)
    ensures Told(Step(sys, e), refused + RefusedBy(e, hit), TasksWith(tasks, e, spawns), SettledWith(settled, e),
                 spawns + if e.Spawns? then 1 else 0)
  {
    forall t | t in Step(sys, e).prompts
      ensures PhaseTold(Step(sys, e).prompts[t].phase, t, refused + RefusedBy(e, hit), TasksWith(tasks, e, spawns), SettledWith(settled, e))
    {
      PhaseStep(sys, e, hit, refused, tasks, settled, spawns, t);
    }
  }

  lemma {:induction false} RunIsTold(events: seq<Event>)
    requires After(events).Some?
    ensures Told(After(events).value, Refusals(events), TaskOf(events), Settled(events), SpawnCount(events))
    decreases |events|
  {
    if events != [] {
      var before := events[..|events| - 1];
      RunIsTold(before);
      Reached(before);
      ToldStep(After(before).value, events[|events| - 1], Hit(before), Refusals(before), TaskOf(before),
               Settled(before), SpawnCount(before));
    }
  }

  lemma SpawnedNext(events: seq<Event>, before: seq<Event>, t: Ticket, h: Handle)
    requires events != [] && before == events[..|events| - 1]
    ensures (exists j :: SpawnedAt(events, t, j, h)) <==>
            (exists j :: SpawnedAt(before, t, j, h)) || (events[|before|] == Spawns(t) && h == SpawnCount(before))
  {
    var n := |before|;
    forall j | 0 <= j < n ensures SpawnedAt(events, t, j, h) <==> SpawnedAt(before, t, j, h) {
      assert events[..j] == before[..j];
    }
    if j :| SpawnedAt(before, t, j, h) {
      assert SpawnedAt(events, t, j, h);
    }
    if events[n] == Spawns(t) && h == SpawnCount(before) {
      assert SpawnedAt(events, t, n, h);
    }
  }

  lemma {:induction false} TaskOfMeans(events: seq<Event>, t: Ticket, h: Handle)
    requires After(events).Some?
    ensures t in TaskOf(events) && TaskOf(events)[t] == h <==> exists j :: SpawnedAt(events, t, j, h)
    decreases |events|
  {
    if events != [] {
      var before, n := events[..|events| - 1], |events| - 1;
      TaskOfMeans(before, t, h);
      SpawnedNext(events, before, t, h);
      if events[n] == Spawns(t) {
        NoTaskYet(before, t);
      }
    }
  }

  /** A prompt about to spawn has no task. */
  lemma NoTaskYet(before: seq<Event>, t: Ticket)
    requires After(before).Some? && Enabled(After(before).value, Spawns(t))
    ensures t !in TaskOf(before)
  {
    RunIsTold(before);
    assert PhaseTold(After(before).value.prompts[t].phase, t, Refusals(before), TaskOf(before), Settled(before));
  }

  lemma {:induction false} SettledMeans(events: seq<Event>, h: Handle, o: Outcome)
    requires After(events).Some?
    ensures h in Settled(events) && Settled(events)[h] == o <==> Settles(h, o) in events
    decreases |events|
  {
    if events != [] {
      var before, e := events[..|events| - 1], events[|events| - 1];
      SettledMeans(before, h, o);
      if e.Settles? {
        SettlesOnce(before, e.handle, e.outcome);
      }
      assert events == before + [e];
    }
  }

  lemma SettlesOnce(before: seq<Event>, h: Handle, o: Outcome)
    requires After(before).Some? && Enabled(After(before).value, Settles(h, o))
    ensures h !in Settled(before)
  {
    RunIsTold(before);
  }

  lemma SettledAsMeans(events: seq<Event>, t: Ticket, o: Outcome)
    requires After(events).Some?
    ensures SettledAs(events, t, o) <==>
            t in TaskOf(events) && TaskOf(events)[t] in Settled(events) && Settled(events)[TaskOf(events)[t]] == o
  {
    if SettledAs(events, t, o) {
      var j, h, k :| SpawnedAt(events, t, j, h) && 0 <= k < |events| && events[k] == Settles(h, o);
      TaskOfMeans(events, t, h);
      SettledMeans(events, h, o);
    }
    if t in TaskOf(events) && TaskOf(events)[t] in Settled(events) && Settled(events)[TaskOf(events)[t]] == o {
      var h := TaskOf(events)[t];
      TaskOfMeans(events, t, h);
      SettledMeans(events, h, o);
      var j :| SpawnedAt(events, t, j, h);
      var k :| 0 <= k < |events| && events[k] == Settles(h, o);
      assert SpawnedAt(events, t, j, h) && events[k] == Settles(h, o);
    }
  }

  /** The stop reason the run's events call for when the prompt ends. */
  ghost function ReasonCalledFor(events: seq<Event>, t: Ticket): StopReason {
    if RefusedByStrike(events, t) || SettledAs(events, t, Stopped) then Cancelled else EndTurn
  }

  /** The prompt's task, if it spawned one. */
  function TaskIn(events: seq<Event>, t: Ticket): Option<Handle> {
    if t in TaskOf(events) then Some(TaskOf(events)[t]) else None
  }

  /** How a prompt stands once its ticket is dropped, by its own step or because
      its future was. */
  ghost function EndCalledFor(events: seq<Event>, t: Ticket, abandoned: bool): Phase {
    Gone(TaskIn(events, t), if abandoned then None else Some(ReasonCalledFor(events, t)))
  }

  lemma LeavesTold(before: seq<Event>, t: Ticket, abandoned: bool)
    requires After(before).Some? && Enabled(After(before).value, if abandoned then Abandoned(t) else DropsTicket(t))
    ensures Left(After(before).value.prompts[t].phase) == EndCalledFor(before, t, abandoned)
  {
    RunIsTold(before);
    RefusalsMean(before, t);
    SettledAsMeans(before, t, Stopped);
    assert PhaseTold(After(before).value.prompts[t].phase, t, Refusals(before), TaskOf(before), Settled(before));
  }

  lemma GoneKept(sys: System, e: Event, hit: set<Ticket>, t: Ticket)
    requires PromptsOk(sys, hit) && Enabled(sys, e) && t in sys.prompts && sys.prompts[t].phase.Gone?
    ensures t in Step(sys, e).prompts && Step(sys, e).prompts[t] == sys.prompts[t]
  {
  }

  lemma {:induction false} GoneStays(events: seq<Event>, n: nat, t: Ticket)
    requires After(events).Some? && n <= |events| && After(events[..n]).Some?
    requires t in After(events[..n]).value.prompts && After(events[..n]).value.prompts[t].phase.Gone?
    ensures t in After(events).value.prompts && After(events).value.prompts[t] == After(events[..n]).value.prompts[t]
    decreases |events|
  {
    if n == |events| {
      assert events[..n] == events;
    } else {
      var before := events[..|events| - 1];
      assert before[..n] == events[..n];
      GoneStays(before, n, t);
      Reached(before);
      GoneKept(After(before).value, events[|events| - 1], Hit(before), t);
    }
  }

  lemma RunsPast(events: seq<Event>, i: nat)
    requires After(events).Some? && i < |events|
    ensures After(events[..i]).Some? && Enabled(After(events[..i]).value, events[i])
    ensures After(events[..i + 1]) == Some(Step(After(events[..i]).value, events[i]))
  {
    RunsThrough(events, i + 1);
    assert events[..i + 1][..i] == events[..i] && events[..i + 1][i] == events[i];
  }

  /** A prompt that drops its ticket reports `Cancelled` exactly when its check
      came after a cancel or close that found it live, or its task was stopped,
      and `EndTurn` otherwise, a failed or panicked task included. One that is
      abandoned reports nothing. */
  lemma {:induction false} StopReasonIsExact(events: seq<Event>, i: nat, t: Ticket)
    requires After(events).Some? && i < |events| && (events[i] == DropsTicket(t) || events[i] == Abandoned(t))
    ensures t in After(events).value.prompts
    ensures After(events).value.prompts[t].phase == EndCalledFor(events[..i], t, events[i] == Abandoned(t))
  {
    RunsPast(events, i);
    LeavesTold(events[..i], t, events[i] == Abandoned(t));
    GoneStays(events, i + 1, t);
  }

  /** A prompt not yet past its check, or refused by it. */
  predicate Unstarted(phase: Phase) {
    phase.Waiting? || phase.Refused? || (phase.Gone? && phase.spawned.None?)
  }

  /** A prompt hit before its check never starts, however the run goes on. */
  lemma {:induction false} HitBeforeCheckNeverStarts(events: seq<Event>, n: nat, t: Ticket)
    requires After(events).Some? && n <= |events| && After(events[..n]).Some?
    requires t in Hit(events[..n]) && t in After(events[..n]).value.prompts
    requires After(events[..n]).value.prompts[t].phase.Waiting?
    ensures t in After(events).value.prompts && Unstarted(After(events).value.prompts[t].phase)
    ensures t in Hit(events)
    decreases |events|
  {
    if n == |events| {
      assert events[..n] == events;
    } else {
      var before := events[..|events| - 1];
      assert before[..n] == events[..n];
      HitBeforeCheckNeverStarts(before, n, t);
      Reached(before);
      UnstartedStays(After(before).value, events[|events| - 1], Hit(before), t);
    }
  }

  lemma UnstartedStays(sys: System, e: Event, hit: set<Ticket>, t: Ticket)
    requires Inv(sys, hit) && Enabled(sys, e) && t in hit && t in sys.prompts && Unstarted(sys.prompts[t].phase)
    ensures t in Step(sys, e).prompts && Unstarted(Step(sys, e).prompts[t].phase)
  {
    match e {
      case PromptArrives(_) =>
        assert PromptOk(sys.prompts[t].phase, t in hit, sys.reg.aborted, sys.nextHandle);
      case Checks(u) =>
        CheckSeesHit(sys, hit, u);
      case _ =>
    }
  }

  /** One entry for each ticket live in the session, and no other. */
  ghost predicate ListsLive(entries: seq<Entry>, live: map<Ticket, SessionId>, s: SessionId) {
    && (forall i | 0 <= i < |entries| :: entries[i].ticket in live && live[entries[i].ticket] == s)
    && (forall i, j | 0 <= i < j < |entries| :: entries[i].ticket != entries[j].ticket)
    && (forall t | t in live && live[t] == s :: exists i :: 0 <= i < |entries| && entries[i].ticket == t)
  }

  lemma ListsLiveTickets(sys: System, hit: set<Ticket>, live: map<Ticket, SessionId>, minted: Ticket, s: SessionId)
    requires Good(sys, hit, live, minted)
    ensures ListsLive(EntriesOf(sys.reg, s), live, s)
  {
    var entries := EntriesOf(sys.reg, s);
    assert Tabled(sys, hit, s);
    TableRows(sys.prompts, hit, s, sys.reg.nextTicket);
    forall i | 0 <= i < |entries| ensures entries[i].ticket in live && live[entries[i].ticket] == s {
      assert Line(sys.prompts, hit, s, entries[i].ticket) == Some(entries[i]);
    }
    forall t | t in live && live[t] == s
      ensures exists i :: 0 <= i < |entries| && entries[i].ticket == t
    {
      var k := EntryOf(sys, hit, t);
    }
  }

  lemma KeyMeansEntry(r: Registry, live: map<Ticket, SessionId>, s: SessionId)
    requires ListsLive(EntriesOf(r, s), live, s)
    requires s in r.tasks ==> r.tasks[s] != []
    ensures s in r.tasks <==> LiveIn(live, s) != {}
  {
    if s in r.tasks {
      assert EntriesOf(r, s)[0].ticket in LiveIn(live, s);
    }
  }

  /** In every reachable state each live ticket has exactly one entry, in its
      own session, each entry a live ticket, and a session key exists exactly
      when some prompt of that session is live. */
  lemma RegistryMatches(events: seq<Event>, s: SessionId)
    requires After(events).Some?
    ensures ListsLive(EntriesOf(After(events).value.reg, s), Live(events), s)
    ensures s in After(events).value.reg.tasks <==> LiveIn(Live(events), s) != {}
  {
    Reached(events);
    ListsLiveTickets(After(events).value, Hit(events), Live(events), Minted(events), s);
    KeyMeansEntry(After(events).value.reg, Live(events), s);
  }

  /** Whenever an attach runs, it finds `Reserved` or `ReservedCancelled`: the
      latter exactly for a prompt a cancel or close has hit. */
  lemma {:induction false} AttachFindsReservation(events: seq<Event>, t: Ticket)
    requires After(events).Some? && Enabled(After(events).value, Attaches(t))
    ensures var sys := After(events).value; var entries := EntriesOf(sys.reg, sys.prompts[t].session);
            var k := IndexOf(entries, t);
            k.Some? && (entries[k.value].state == Reserved || entries[k.value].state == ReservedCancelled) &&
            (entries[k.value].state == ReservedCancelled <==> exists j :: StruckAt(events, t, j))
  {
    Reached(events);
    HitMeans(events, t);
    AttachSees(After(events).value, Hit(events), t);
  }

  /** The counts all cancels and closes returned add up to the number of
      prompts ever hit. */
  lemma CountsAreExact(events: seq<Event>)
    requires After(events).Some?
    ensures After(events).value.counted == |Hit(events)|
  {
    Reached(events);
  }

  /** A cancel or close leaves the other sessions' prompts as they were: same
      entries, same phases, and no handle of theirs newly aborted. */
  lemma CancelIsIsolated(events: seq<Event>, e: Event, s: SessionId, t: Ticket)
    requires After(events).Some? && Strikes(e, s)
    requires t in After(events).value.prompts && After(events).value.prompts[t].session != s
    ensures var sys := After(events).value; var phase := sys.prompts[t].phase;
            && Step(sys, e).prompts == sys.prompts
            && EntriesOf(Step(sys, e).reg, sys.prompts[t].session) == EntriesOf(sys.reg, sys.prompts[t].session)
            && (HandleOf(phase).Some? && HandleOf(phase).value in Step(sys, e).reg.aborted ==>
                  HandleOf(phase).value in sys.reg.aborted)
  {
    Reached(events);
    var sys, hit := After(events).value, Hit(events);
    var phase := sys.prompts[t].phase;
    CancelTouchesOwnSession(sys.reg, s, sys.prompts[t].session);
    if HandleOf(phase).Some? && HandleOf(phase).value in RunningHandles(EntriesOf(sys.reg, s)) {
      var u := CancelAbortsOnly(sys, hit, s, HandleOf(phase).value);
      assert false;
    }
  }

  lemma {:induction false} MintedGrows(events: seq<Event>, n: nat)
    requires n <= |events|
    ensures Minted(events[..n]) <= Minted(events)
    decreases |events|
  {
    if n < |events| {
      var before := events[..|events| - 1];
      assert before[..n] == events[..n];
      MintedGrows(before, n);
    } else {
      assert events[..n] == events;
    }
  }

  lemma {:induction false} RunsThrough(events: seq<Event>, n: nat)
    requires n <= |events| && After(events).Some?
    ensures After(events[..n]).Some?
    decreases |events|
  {
    if n < |events| {
      var before := events[..|events| - 1];
      assert before[..n] == events[..n];
      RunsThrough(before, n);
    } else {
      assert events[..n] == events;
    }
  }

  /** A ticket once live in a session is a prompt of that session for good. */
  lemma {:induction false} SessionFixed(events: seq<Event>, n: nat, t: Ticket)
    requires n <= |events| && After(events).Some? && t in Live(events[..n])
    ensures t in After(events).value.prompts && After(events).value.prompts[t].session == Live(events[..n])[t]
    decreases |events|
  {
    if n < |events| {
      var before := events[..|events| - 1];
      assert before[..n] == events[..n];
      SessionFixed(before, n, t);
      Reached(before);
      SessionStays(After(before).value, events[|events| - 1], Hit(before), t);
    } else {
      assert events[..n] == events;
      Reached(events);
    }
  }

  lemma SessionStays(sys: System, e: Event, hit: set<Ticket>, t: Ticket)
    requires PromptsOk(sys, hit) && Enabled(sys, e) && t in sys.prompts
    ensures t in Step(sys, e).prompts && Step(sys, e).prompts[t].session == sys.prompts[t].session
  {
    assert t < sys.reg.nextTicket;
  }

  /** A prompt that arrives after the last cancel or close of its session is
      never aborted or refused, however many earlier prompts that one hit. */
  lemma {:induction false} StaleCancelIsHarmless(events: seq<Event>, n: nat, t: Ticket)
    requires After(events).Some? && n <= |events| && t in After(events).value.prompts
    requires Minted(events[..n]) <= t
    requires forall j | n <= j < |events| :: !Strikes(events[j], After(events).value.prompts[t].session)
    ensures var sys := After(events).value; var phase := sys.prompts[t].phase;
            && (Attached(phase) ==> HandleOf(phase).value !in sys.reg.aborted)
            && !phase.Refused? && !phase.MustAbort? && StopOf(phase) != Some(Cancelled)
  {
    forall j ensures !StruckAt(events, t, j) {
      if 0 <= j < |events| && t in Live(events[..j]) {
        if j < n {
          NotYetLive(events, j, n, t);
        } else {
          SessionFixed(events, j, t);
        }
      }
    }
    CancelIsExact(events, t);
  }

  lemma NotYetLive(events: seq<Event>, j: nat, n: nat, t: Ticket)
    requires After(events).Some? && j <= n <= |events| && Minted(events[..n]) <= t
    ensures t !in Live(events[..j])
  {
    RunsThrough(events, j);
    Reached(events[..j]);
    MintedGrows(events[..n], j);
    assert events[..n][..j] == events[..j];
  }
}
