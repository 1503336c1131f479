/**
 The abort registry behind `session/cancel` and `session/close`
 (src/acp.rs): the mutex-held map of in-flight prompts, one step per lock.

 A session id and an abort handle are taken as numbers; `aborted` records the
 handles on which `abort()` was called, which is all a task sees of them.
 */
module CancelRegistry {
  import opened Wrappers

  type SessionId = nat
  type Ticket = nat
  type Handle = nat

  datatype TaskState = Reserved | ReservedCancelled | Running(handle: Handle) | Aborted

  /** One in-flight prompt's entry. */
  datatype Entry = Entry(ticket: Ticket, state: TaskState)

  datatype Registry = Registry(tasks: map<SessionId, seq<Entry>>, nextTicket: Ticket, aborted: set<Handle>)

  /** The session's entries; a session with nothing in flight has none. */
  function EntriesOf(r: Registry, s: SessionId): seq<Entry> {
    if s in r.tasks then r.tasks[s] else []
  }

  /** The registry with `s`'s entries replaced; an empty list leaves no key. */
  function WithEntries(r: Registry, s: SessionId, entries: seq<Entry>): Registry {
    r.(tasks := if entries == [] then r.tasks - {s} else r.tasks[s := entries])
  }

  /** The first entry of a ticket. */
  function IndexOf(entries: seq<Entry>, t: Ticket): (k: Option<nat>)
    ensures k.Some? ==> k.value < |entries| && entries[k.value].ticket == t
    ensures k.Some? ==> forall i | 0 <= i < k.value :: entries[i].ticket != t
    ensures k.None? ==> forall i | 0 <= i < |entries| :: entries[i].ticket != t
  {
    if entries == [] then None
    else if entries[0].ticket == t then Some(0)
    else
      var k := IndexOf(entries[1..], t);
      if k.None? then None else Some(k.value + 1)
  }

  function Reserve(r: Registry, s: SessionId): Registry {
    WithEntries(r, s, EntriesOf(r, s) + [Entry(r.nextTicket, Reserved)]).(nextTicket := r.nextTicket + 1)
  }

  /** What an attach leaves, and whether the caller must abort the handle. */
  function Attach(r: Registry, s: SessionId, t: Ticket, h: Handle): (Registry, bool) {
    var k := IndexOf(EntriesOf(r, s), t);
    if k.None? then (r, false)
    else
      var cancelled := r.tasks[s][k.value].state == ReservedCancelled;
      var state := if cancelled then Aborted else Running(h);
      (r.(tasks := r.tasks[s := r.tasks[s][k.value := Entry(t, state)]]), cancelled)
  }

  predicate IsCancelled(r: Registry, s: SessionId, t: Ticket) {
    var k := IndexOf(EntriesOf(r, s), t);
    k.Some? && r.tasks[s][k.value].state == ReservedCancelled
  }

  /** What a cancel makes of one entry's state. */
  function CancelledState(state: TaskState): TaskState {
    match state
    case Reserved => ReservedCancelled
    case Running(_) => Aborted
    case ReservedCancelled => ReservedCancelled
    case Aborted => Aborted
  }

  function CancelledEntries(entries: seq<Entry>): seq<Entry> {
    seq(|entries|, k requires 0 <= k < |entries| => Entry(entries[k].ticket, CancelledState(entries[k].state)))
  }

  /** Entries no earlier cancel reached. */
  function Unreached(entries: seq<Entry>): set<Ticket> {
    set k | 0 <= k < |entries| && (entries[k].state.Reserved? || entries[k].state.Running?) :: entries[k].ticket
  }

  function NewlyReached(entries: seq<Entry>): nat {
    if entries == [] then 0
    else
      var last := entries[|entries| - 1].state;
      NewlyReached(entries[..|entries| - 1]) + if last.Reserved? || last.Running? then 1 else 0
  }

  function RunningHandles(entries: seq<Entry>): set<Handle> {
    set k | 0 <= k < |entries| && entries[k].state.Running? :: entries[k].state.handle
  }

  function Abort(r: Registry, s: SessionId): Registry {
    if s !in r.tasks then r
    else Registry(r.tasks[s := CancelledEntries(r.tasks[s])], r.nextTicket, r.aborted + RunningHandles(r.tasks[s]))
  }

  function Without(entries: seq<Entry>, t: Ticket): seq<Entry> {
    if entries == [] then []
    else
      var last := entries[|entries| - 1];
      Without(entries[..|entries| - 1], t) + if last.ticket != t then [last] else []
  }

  function Drop(r: Registry, s: SessionId, t: Ticket): Registry {
    if s !in r.tasks then r else WithEntries(r, s, Without(r.tasks[s], t))
  }

  /** The map every handler and every ticket shares. */
  class InFlight {
    var tasks: map<SessionId, seq<Entry>>
    var nextTicket: Ticket
    var aborted: set<Handle>

    function View(): Registry
      reads this
    {
      Registry(tasks, nextTicket, aborted)
    }

    constructor ()
      ensures View() == Registry(map[], 1, {})
    {
      tasks, nextTicket, aborted := map[], 1, {};
    }

    /** `reserve_prompt` */
    method ReservePrompt(s: SessionId) returns (t: Ticket)
      modifies this
      ensures t == old(nextTicket)
      ensures View() == Reserve(old(View()), s)
    {
      t := nextTicket;
      nextTicket := nextTicket + 1;
      var entries := if s in tasks then tasks[s] else [];
      tasks := tasks[s := entries + [Entry(t, Reserved)]];
    }

    /** `attach_abort_handle` */
    method AttachAbortHandle(s: SessionId, t: Ticket, h: Handle) returns (mustAbort: bool)
      modifies this
      ensures (View(), mustAbort) == Attach(old(View()), s, t, h)
    {
      if s !in tasks {
        return false;
      }
      var k := FindEntry(tasks[s], t);
      if k.None? {
        return false;
      }
      match tasks[s][k.value].state {
        case ReservedCancelled =>
          tasks := tasks[s := tasks[s][k.value := Entry(t, Aborted)]];
          mustAbort := true;
        case _ =>
          tasks := tasks[s := tasks[s][k.value := Entry(t, Running(h))]];
          mustAbort := false;
      }
    }

    /** `reservation_cancelled` */
    method ReservationCancelled(s: SessionId, t: Ticket) returns (cancelled: bool)
      ensures cancelled == IsCancelled(View(), s, t)
    {
      if s !in tasks {
        return false;
      }
      var k := FindEntry(tasks[s], t);
      return k.Some? && tasks[s][k.value].state == ReservedCancelled;
    }

    /** `abort_session_prompts` */
    method AbortSessionPrompts(s: SessionId) returns (reached: nat)
      modifies this
      ensures View() == Abort(old(View()), s)
      ensures reached == NewlyReached(EntriesOf(old(View()), s))
    {
      if s !in tasks {
        return 0;
      }
      reached := 0;
      ghost var was := tasks[s];
      var entries := tasks[s];
      for k := 0 to |entries|
        invariant |entries| == |was| && tasks == old(tasks) && nextTicket == old(nextTicket)
        invariant forall i | 0 <= i < k :: entries[i] == CancelledEntries(was)[i]
        invariant forall i | k <= i < |was| :: entries[i] == was[i]
        invariant aborted == old(aborted) + RunningHandles(was[..k])
        invariant reached == NewlyReached(was[..k])
      {
        assert was[..k + 1] == was[..k] + [was[k]];
        assert was[..k + 1][..k] == was[..k];
        var task := entries[k];
        match task.state {
          case Reserved =>
            entries := entries[k := Entry(task.ticket, ReservedCancelled)];
            reached := reached + 1;
          case Running(handle) =>
            entries := entries[k := Entry(task.ticket, TaskState.Aborted)];
            assert was[..k + 1][k].state.handle == handle;
            aborted := aborted + {handle};
            reached := reached + 1;
          case ReservedCancelled =>
          case Aborted =>
        }
        assert RunningHandles(was[..k + 1]) == RunningHandles(was[..k]) + RunningHandles([was[k]]) by {
          HandlesConcat(was[..k], [was[k]]);
        }
      }
      assert was[..|was|] == was;
      assert entries == CancelledEntries(was);
      tasks := tasks[s := entries];
    }

    /** `PromptTicket::drop` */
    method DropTicket(s: SessionId, t: Ticket)
      modifies this
      ensures View() == Drop(old(View()), s, t)
    {
      if s in tasks {
        var kept := Retain(tasks[s], t);
        if kept == [] {
          tasks := tasks - {s};
        } else {
          tasks := tasks[s := kept];
        }
      }
    }
  }

  lemma HandlesConcat(a: seq<Entry>, b: seq<Entry>)
    ensures RunningHandles(a + b) == RunningHandles(a) + RunningHandles(b)
  {
    forall h | h in RunningHandles(b) ensures h in RunningHandles(a + b) {
      var k :| 0 <= k < |b| && b[k].state.Running? && b[k].state.handle == h;
      assert (a + b)[|a| + k] == b[k];
    }
    forall h | h in RunningHandles(a) ensures h in RunningHandles(a + b) {
      var k :| 0 <= k < |a| && a[k].state.Running? && a[k].state.handle == h;
      assert (a + b)[k] == a[k];
    }
  }

  method FindEntry(entries: seq<Entry>, t: Ticket) returns (k: Option<nat>)
    ensures k == IndexOf(entries, t)
  {
    for i := 0 to |entries|
      invariant forall j | 0 <= j < i :: entries[j].ticket != t
    {
      if entries[i].ticket == t {
        return Some(i);
      }
    }
    return None;
  }

  method Retain(entries: seq<Entry>, t: Ticket) returns (kept: seq<Entry>)
    ensures kept == Without(entries, t)
  {
    kept := [];
    for k := 0 to |entries|
      invariant kept == Without(entries[..k], t)
    {
      assert entries[..k + 1][..k] == entries[..k];
      if entries[k].ticket != t {
        kept := kept + [entries[k]];
      }
    }
    assert entries[..|entries|] == entries;
  }

  // ---- what one cancel does -----------------------------------------------------

  /** A cancel leaves every other session's prompts alone. */
  lemma CancelTouchesOwnSession(r: Registry, s: SessionId, other: SessionId)
    requires other != s
    ensures EntriesOf(Abort(r, s), other) == EntriesOf(r, other)
    ensures (other in Abort(r, s).tasks) == (other in r.tasks)
  {
  }

  /** A repeated cancel is inert: it changes nothing and reaches nobody. */
  lemma {:induction false} CancelTwice(r: Registry, s: SessionId)
    ensures Abort(Abort(r, s), s) == Abort(r, s)
    ensures NewlyReached(EntriesOf(Abort(r, s), s)) == 0
  {
    NothingLeft(EntriesOf(r, s));
    if s in r.tasks {
      var once := CancelledEntries(r.tasks[s]);
      assert CancelledEntries(once) == once;
      assert RunningHandles(once) == {};
    }
  }

  lemma {:induction false} NothingLeft(entries: seq<Entry>)
    ensures NewlyReached(CancelledEntries(entries)) == 0
    decreases |entries|
  {
    if entries != [] {
      NothingLeft(entries[..|entries| - 1]);
      assert CancelledEntries(entries)[..|entries| - 1] == CancelledEntries(entries[..|entries| - 1]);
    }
  }

  lemma ReachedAt(entries: seq<Entry>, t: Ticket) returns (k: nat)
    requires t in Unreached(entries)
    ensures k < |entries| && entries[k].ticket == t && (entries[k].state.Reserved? || entries[k].state.Running?)
  {
    k :| 0 <= k < |entries| && (entries[k].state.Reserved? || entries[k].state.Running?) && entries[k].ticket == t;
  }

  lemma UnreachedGrows(front: seq<Entry>, last: Entry)
    ensures Unreached(front + [last]) ==
            Unreached(front) + if last.state.Reserved? || last.state.Running? then {last.ticket} else {}
  {
    var entries := front + [last];
    assert entries[|front|] == last;
    forall t | t in Unreached(front) ensures t in Unreached(entries) {
      var k := ReachedAt(front, t);
      assert entries[k] == front[k];
    }
    forall t | t in Unreached(entries) && t !in Unreached(front)
      ensures (last.state.Reserved? || last.state.Running?) && t == last.ticket
    {
      var _ := ReachedAt(entries, t);
    }
  }

  lemma NotReached(entries: seq<Entry>, t: Ticket)
    requires forall i | 0 <= i < |entries| :: entries[i].ticket != t
    ensures t !in Unreached(entries)
  {
  }

  /** With one entry a ticket, the count a cancel returns is the number of
      prompts it newly reached. */
  lemma {:induction false} CountsPrompts(entries: seq<Entry>)
    requires forall i, j | 0 <= i < j < |entries| :: entries[i].ticket != entries[j].ticket
    ensures NewlyReached(entries) == |Unreached(entries)|
    decreases |entries|
  {
    if entries != [] {
      var front, last := entries[..|entries| - 1], entries[|entries| - 1];
      CountsPrompts(front);
      UnreachedGrows(front, last);
      assert entries == front + [last];
      assert forall i | 0 <= i < |front| :: front[i].ticket == entries[i].ticket;
      NotReached(front, last.ticket);
    }
  }
}
