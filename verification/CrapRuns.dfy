/**
 Whole histories of the CRAP ratchet (scripts/complexity-ratchet.py, `--crap`):
 each run scores the rows it was given, re-keys the entries that moved, may
 prune, and judges.
 */
module CrapRuns {
  import opened Wrappers
  import opened Ratchet
  import opened Moves
  import opened Allowances
  import opened RatchetRuns

  /** A function's row: no CRAP number means no coverage data. */
  datatype Row = Row(key: Key, cc: int, crap: Option<real>)

  /** The scored rows as a dict, unless two share a key. */
  function Scored(rows: seq<Row>): Option<Scores>
    decreases |rows|
  {
    if rows == [] then Some(map[])
    else
      var before, row := Scored(rows[..|rows| - 1]), rows[|rows| - 1];
      if before.None? || row.crap.None? then before
      else if row.key in before.value then None
      else Some(before.value[row.key := row.crap.value])
  }

  /** Keys with a row that has no coverage data. */
  function Dark(rows: seq<Row>): set<Key> {
    set i | 0 <= i < |rows| && rows[i].crap.None? :: rows[i].key
  }

  /** A row with no data scores its baseline entry, or is left out. */
  function CrapScores(rows: seq<Row>, baseline: Scores): Option<Scores> {
    var scored := Scored(rows);
    if scored.None? then None
    else Some((map k | k in Dark(rows) && k in baseline :: baseline[k]) + scored.value)
  }

  function CcOf(rows: seq<Row>): Complexities
    decreases |rows|
  {
    if rows == [] then map[]
    else CcOf(rows[..|rows| - 1])[rows[|rows| - 1].key := rows[|rows| - 1].cc]
  }

  lemma {:induction false} ScoredIs(rows: seq<Row>, k: Key)
    requires Scored(rows).Some?
    ensures k in Scored(rows).value <==> exists i :: 0 <= i < |rows| && rows[i].key == k && rows[i].crap.Some?
    ensures forall i | 0 <= i < |rows| && rows[i].key == k && rows[i].crap.Some? :: Scored(rows).value[k] == rows[i].crap.value
    decreases |rows|
  {
    if rows != [] {
      var before, last := rows[..|rows| - 1], rows[|rows| - 1];
      ScoredIs(before, k);
      assert rows == before + [last];
    }
  }

  /** A function with no coverage data is held: it has not vanished, is no
      gain, breaks nothing, and its entry survives a prune unchanged. */
  lemma {:induction false} NoDataIsHeld(rows: seq<Row>, baseline: Scores, allowlist: Allowlist, k: Key)
    requires AllAbove(baseline, CRAP_LIMIT) && CrapScores(rows, baseline).Some?
    requires k in baseline && k !in allowlist && k in Dark(rows)
    requires forall i | 0 <= i < |rows| && rows[i].key == k :: rows[i].crap.None?
    ensures var measured := CrapScores(rows, baseline).value;
            && k in measured
            && (forall p: Problem | p.key == k :: !IsProblem(p, measured, baseline, allowlist, CRAP_LIMIT))
            && (forall g: Gain | g.key == k :: !IsGain(g, measured, baseline, CRAP_LIMIT))
            && k in Pruned(measured, baseline, CRAP_LIMIT) && Pruned(measured, baseline, CRAP_LIMIT)[k] == baseline[k]
  {
    ScoredIs(rows, k);
  }

  // ---- one run -----------------------------------------------------------------------------

  /** The stored baseline, with the complexity of each entry when stored. */
  datatype CrapBaseline = CrapBaseline(entries: Scores, cc: Complexities)

  datatype CrapRun = CrapRun(rows: seq<Row>, allowlist: Allowlist, prune: bool)

  /** The baseline with what moved re-keyed. */
  ghost function Effective(run: CrapRun, was: CrapBaseline): Scores
    requires CrapScores(run.rows, was.entries).Some?
  {
    var measured := CrapScores(run.rows, was.entries).value;
    var found := MovesOf(measured, was.entries, CcOf(run.rows), was.cc);
    MovesMatch(found, found, measured, was.entries, CcOf(run.rows), was.cc);
    WithMoves(was.entries, found)
  }

  /** What the run is judged against. */
  ghost function Against(run: CrapRun, was: CrapBaseline): Scores
    requires CrapScores(run.rows, was.entries).Some?
  {
    var measured := CrapScores(run.rows, was.entries).value;
    if run.prune then Pruned(measured, Effective(run, was), CRAP_LIMIT) else Effective(run, was)
  }

  function StoredWith(entries: Scores, cc: Complexities): CrapBaseline {
    CrapBaseline(entries, map k | k in entries && k in cc :: cc[k])
  }

  /** What the run leaves stored: only a prune writes anything, moves too. */
  ghost function CrapStored(run: CrapRun, was: CrapBaseline): CrapBaseline {
    if run.prune && CrapScores(run.rows, was.entries).Some?
    then StoredWith(Against(run, was), was.cc + CcOf(run.rows))
    else was
  }

  ghost predicate CrapAccepted(run: CrapRun, was: CrapBaseline) {
    && CrapScores(run.rows, was.entries).Some?
    && Passes(CrapScores(run.rows, was.entries).value, Against(run, was), run.allowlist, CRAP_LIMIT)
  }

  /** What `--init` leaves stored: here the allowlist plays no part. */
  function CrapInit(rows: seq<Row>, was: CrapBaseline): CrapBaseline {
    if was.entries == map[] && Scored(rows).Some?
    then StoredWith(Over(Scored(rows).value, map[], CRAP_LIMIT), CcOf(rows))
    else was
  }

  lemma EmptyAddsNothing(rows: seq<Row>)
    ensures CrapScores(rows, map[]) == Scored(rows)
  {
    if Scored(rows).Some? {
      assert CrapScores(rows, map[]).value == Scored(rows).value;
    }
  }

  class CrapBaselineFile {
    var stored: CrapBaseline

    constructor ()
      ensures stored == CrapBaseline(map[], map[])
    {
      stored := CrapBaseline(map[], map[]);
    }

    /** `--init` */
    method Init(rows: seq<Row>) returns (done: bool)
      modifies this
      ensures done == (old(stored).entries == map[] && Scored(rows).Some?)
      ensures stored == CrapInit(rows, old(stored))
    {
      var measured := CrapScores(rows, stored.entries);
      EmptyAddsNothing(rows);
      if measured.None? || stored.entries != map[] {
        return false;
      }
      stored := StoredWith(Over(measured.value, map[], CRAP_LIMIT), CcOf(rows));
      return true;
    }

    /** The gate itself: find what moved, prune, judge. */
    method Gate(run: CrapRun, measuredKeys: seq<Key>, baselineKeys: seq<Key>, allowlistKeys: seq<Key>)
      returns (passed: bool)
      requires CrapScores(run.rows, stored.entries).Some? ==> Walks(measuredKeys, CrapScores(run.rows, stored.entries).value)
      requires Walks(baselineKeys, stored.entries) && Walks(allowlistKeys, run.allowlist)
      modifies this
      ensures stored == CrapStored(run, old(stored))
      ensures passed <==> CrapAccepted(run, old(stored))
    {
      var measured := CrapScores(run.rows, stored.entries);
      if measured.None? {
        return false;
      }
      var ccNow := CcOf(run.rows);
      var found := FindMoves(measured.value, measuredKeys, stored.entries, baselineKeys, ccNow, stored.cc);
      MovesMatch(found, found, measured.value, stored.entries, ccNow, stored.cc);
      var baseline := WithMoves(stored.entries, found);
      if run.prune {
        baseline := Pruned(measured.value, baseline, CRAP_LIMIT);
        stored := StoredWith(baseline, stored.cc + ccNow);
      }
      var problems := Judge(measured.value, measuredKeys, baseline, run.allowlist, allowlistKeys, CRAP_LIMIT);
      passed := problems == Some([]);
    }
  }

  ghost function CrapAfter(first: CrapBaseline, runs: seq<CrapRun>): CrapBaseline
    decreases |runs|
  {
    if runs == [] then first else CrapStored(runs[|runs| - 1], CrapAfter(first, runs[..|runs| - 1]))
  }

  // ---- moves create no allowance --------------------------------------------------------------

  lemma EffectiveKeeps(run: CrapRun, was: CrapBaseline)
    requires CrapScores(run.rows, was.entries).Some? && AllAbove(was.entries, CRAP_LIMIT)
    ensures AllAbove(Effective(run, was), CRAP_LIMIT)
    ensures Recorded(Effective(run, was)) == Recorded(was.entries)
    ensures Excess(Effective(run, was), CRAP_LIMIT) == Excess(was.entries, CRAP_LIMIT)
  {
    var measured := CrapScores(run.rows, was.entries).value;
    var found := MovesOf(measured, was.entries, CcOf(run.rows), was.cc);
    MovesMatch(found, found, measured, was.entries, CcOf(run.rows), was.cc);
    MovesKeepScores(was.entries, found, measured, CRAP_LIMIT);
  }

  lemma AgainstKeeps(run: CrapRun, was: CrapBaseline)
    requires CrapScores(run.rows, was.entries).Some? && AllAbove(was.entries, CRAP_LIMIT)
    ensures AllAbove(Against(run, was), CRAP_LIMIT)
    ensures Excess(Against(run, was), CRAP_LIMIT) <= Excess(was.entries, CRAP_LIMIT)
  {
    EffectiveKeeps(run, was);
    ExcessMonotone(Against(run, was), Effective(run, was), CRAP_LIMIT);
  }

  /** Along any history of moves, prunes and judgements, entries stay above
      the limit and the allowance as a whole never grows. */
  lemma {:induction false} AllowanceNeverGrows(first: CrapBaseline, runs: seq<CrapRun>, n: nat)
    requires AllAbove(first.entries, CRAP_LIMIT) && n <= |runs|
    ensures AllAbove(CrapAfter(first, runs).entries, CRAP_LIMIT)
    ensures Excess(CrapAfter(first, runs).entries, CRAP_LIMIT) <= Excess(CrapAfter(first, runs[..n]).entries, CRAP_LIMIT)
    decreases |runs|
  {
    if runs != [] {
      var before, run := runs[..|runs| - 1], runs[|runs| - 1];
      AllowanceNeverGrows(first, before, if n < |runs| then n else 0);
      var was := CrapAfter(first, before);
      if run.prune && CrapScores(run.rows, was.entries).Some? {
        AgainstKeeps(run, was);
      }
      if n < |runs| {
        assert before[..n] == runs[..n];
      }
    }
    if n == |runs| {
      assert runs[..n] == runs;
    }
  }

  /** Whatever an accepted run has above the limit, moved or not, adds up to no
      more than it did at any earlier point. */
  lemma {:induction false} CrapDebtNeverGrows(first: CrapBaseline, runs: seq<CrapRun>, n: nat, i: nat)
    requires AllAbove(first.entries, CRAP_LIMIT) && n <= i < |runs|
    requires CrapAccepted(runs[i], CrapAfter(first, runs[..i]))
    ensures var measured := CrapScores(runs[i].rows, CrapAfter(first, runs[..i]).entries).value;
            Excess(Over(measured, runs[i].allowlist, CRAP_LIMIT), CRAP_LIMIT) <=
              Excess(CrapAfter(first, runs[..n]).entries, CRAP_LIMIT)
  {
    var was := CrapAfter(first, runs[..i]);
    AllowanceNeverGrows(first, runs[..i], n);
    assert runs[..i][..n] == runs[..n];
    AgainstKeeps(runs[i], was);
    PassingStaysWithin(CrapScores(runs[i].rows, was.entries).value, Against(runs[i], was), runs[i].allowlist, CRAP_LIMIT);
  }

  /** Pruning decides nothing: a run passes with `--prune` exactly when it
      passes without. */
  lemma {:induction false} CrapPruneKeepsVerdict(run: CrapRun, was: CrapBaseline)
    requires AllAbove(was.entries, CRAP_LIMIT)
    ensures CrapAccepted(run.(prune := true), was) <==> CrapAccepted(run.(prune := false), was)
  {
    if CrapScores(run.rows, was.entries).Some? {
      EffectiveKeeps(run, was);
      PruneKeepsVerdict(CrapScores(run.rows, was.entries).value, Effective(run, was), run.allowlist, CRAP_LIMIT);
    }
  }

  /** A moved function is held to the score recorded under its old key. */
  lemma {:induction false} MovedIsHeldToItsScore(run: CrapRun, was: CrapBaseline, n: Key, o: Key)
    requires CrapAccepted(run, was) && AllAbove(was.entries, CRAP_LIMIT) && n !in run.allowlist
    requires IsMove(n, o, CrapScores(run.rows, was.entries).value, was.entries, CcOf(run.rows), was.cc)
    ensures o in was.entries && CrapScores(run.rows, was.entries).value[n] <= was.entries[o]
  {
    var measured := CrapScores(run.rows, was.entries).value;
    var found := MovesOf(measured, was.entries, CcOf(run.rows), was.cc);
    MovesMatch(found, found, measured, was.entries, CcOf(run.rows), was.cc);
    EffectiveKeeps(run, was);
    assert Effective(run, was)[n] == was.entries[o];
    if run.prune {
      PruneKeepsVerdict(measured, Effective(run, was), run.allowlist, CRAP_LIMIT);
    }
    assert !IsProblem(Above(n, measured[n], ItsBaseline, was.entries[o]), measured, Effective(run, was), run.allowlist, CRAP_LIMIT);
  }

  /** In a run, `n` is the function that stood under `o`, and no other is. */
  ghost predicate Became(run: CrapRun, was: CrapBaseline, n: Key, o: Key)
    requires CrapScores(run.rows, was.entries).Some?
  {
    var measured, cc := CrapScores(run.rows, was.entries).value, CcOf(run.rows);
    Takes(n, o, measured, was.entries, cc, was.cc) && forall m | Takes(m, o, measured, was.entries, cc, was.cc) :: m == n
  }

  lemma EffectiveIs(run: CrapRun, was: CrapBaseline, k: Key)
    requires CrapScores(run.rows, was.entries).Some? && k in CrapScores(run.rows, was.entries).value
    ensures k in was.entries ==> k in Effective(run, was) && Effective(run, was)[k] == was.entries[k]
    ensures k !in was.entries ==> (k in Effective(run, was) <==> exists o :: Became(run, was, k, o))
    ensures forall o | Became(run, was, k, o) :: k in Effective(run, was) && Effective(run, was)[k] == was.entries[o]
  {
    var measured, cc := CrapScores(run.rows, was.entries).value, CcOf(run.rows);
    var found := MovesOf(measured, was.entries, cc, was.cc);
    MovesMatch(found, found, measured, was.entries, cc, was.cc);
    forall n, o ensures n in found && found[n] == o <==> Became(run, was, n, o) {
      MoveIff(found, measured, was.entries, cc, was.cc, n, o);
    }
    if k in found {
      assert Became(run, was, k, found[k]);
    }
  }

  /** What a function must stay within: its entry, or the entry of the function it
      was, or ten. */
  ghost predicate WithinItsOwn(run: CrapRun, was: CrapBaseline, k: Key, score: real)
    requires CrapScores(run.rows, was.entries).Some?
  {
    && (k in was.entries ==> score <= was.entries[k])
    && (forall o | o in was.entries && Became(run, was, k, o) :: score <= was.entries[o])
    && (k !in was.entries && (forall o :: !Became(run, was, k, o)) ==> score <= 10.0)
  }

  /** A run is accepted, pruning or not, exactly when the allowlist is in order
      and every function off it stays within its own. */
  lemma {:induction false} CrapAcceptedIff(run: CrapRun, was: CrapBaseline)
    requires CrapScores(run.rows, was.entries).Some? && AllAbove(was.entries, CRAP_LIMIT)
    ensures var measured := CrapScores(run.rows, was.entries).value;
            CrapAccepted(run, was) <==>
            && (forall k | k in run.allowlist :: Allowed(run.allowlist[k]))
            && (forall k | k in measured && k in run.allowlist ::
                  run.allowlist[k].max.Some? && measured[k] <= run.allowlist[k].max.value)
            && (forall k | k in measured && k !in run.allowlist :: WithinItsOwn(run, was, k, measured[k]))
  {
    var measured := CrapScores(run.rows, was.entries).value;
    EffectiveKeeps(run, was);
    PruneKeepsVerdict(measured, Effective(run, was), run.allowlist, CRAP_LIMIT);
    PassesIff(measured, Effective(run, was), run.allowlist, CRAP_LIMIT);
    forall k | k in measured
      ensures WithinItsOwn(run, was, k, measured[k]) <==>
              measured[k] <= if k in Effective(run, was) then Effective(run, was)[k] else CRAP_LIMIT
    {
      EffectiveIs(run, was, k);
    }
  }

  // ---- when `--init` can raise a cap -------------------------------------------------------------

  /** What a function may score, the allowlist aside. */
  function CrapCap(k: Key, baseline: CrapBaseline): real {
    if k in baseline.entries then baseline.entries[k] else CRAP_LIMIT
  }

  /** `--init` raises a cap exactly when the baseline is empty, no two scored
      rows share a key, and some row scores above the limit, allowlisted or not. */
  lemma {:induction false} CrapInitRaisesIff(was: CrapBaseline, rows: seq<Row>)
    requires AllAbove(was.entries, CRAP_LIMIT)
    ensures (exists k :: CrapCap(k, CrapInit(rows, was)) > CrapCap(k, was)) <==>
            && was.entries == map[] && Scored(rows).Some?
            && exists i :: 0 <= i < |rows| && rows[i].crap.Some? && rows[i].crap.value > CRAP_LIMIT
  {
    if was.entries == map[] && Scored(rows).Some? {
      if i :| 0 <= i < |rows| && rows[i].crap.Some? && rows[i].crap.value > CRAP_LIMIT {
        ScoredIs(rows, rows[i].key);
        assert CrapCap(rows[i].key, CrapInit(rows, was)) > CrapCap(rows[i].key, was);
      }
      if k :| CrapCap(k, CrapInit(rows, was)) > CrapCap(k, was) {
        ScoredIs(rows, k);
      }
    }
  }

  /** A history whose prune drops its one entry, after which `--init` lets that
      function above its first cap. */
  lemma CrapInitCanReopen()
    ensures var first := CrapBaseline(map["a.rs::f" := 40.0], map["a.rs::f" := 3]);
            var pruned := CrapAfter(first, [CrapRun([Row("a.rs::f", 3, Some(9.0))], map[], true)]);
            && AllAbove(first.entries, CRAP_LIMIT) && pruned.entries == map[]
            && CrapCap("a.rs::f", CrapInit([Row("a.rs::f", 3, Some(80.0))], pruned)) > CrapCap("a.rs::f", first)
  {
    var first := CrapBaseline(map["a.rs::f" := 40.0], map["a.rs::f" := 3]);
    var run := CrapRun([Row("a.rs::f", 3, Some(9.0))], map[], true);
    assert [run][..0] == [];
    assert CrapAfter(first, [run]) == CrapStored(run, first);
    ScoredIs(run.rows, "a.rs::f");
    assert run.rows[0].crap == Some(9.0);
    assert CrapAfter(first, [run]).entries == map[];
    ScoredIs([Row("a.rs::f", 3, Some(80.0))], "a.rs::f");
  }

  /** The first CRAP baseline holds exactly the scored functions above the limit,
      each at its score and with its own complexity. */
  lemma {:induction false} CrapInitIs(was: CrapBaseline, rows: seq<Row>, k: Key)
    requires was.entries == map[] && Scored(rows).Some?
    ensures k in CrapInit(rows, was).entries <==>
            exists i :: 0 <= i < |rows| && rows[i].key == k && rows[i].crap.Some? && rows[i].crap.value > 10.0
    ensures forall i | 0 <= i < |rows| && rows[i].key == k && rows[i].crap.Some? && rows[i].crap.value > 10.0 ::
              CrapInit(rows, was).entries[k] == rows[i].crap.value
    ensures k in CrapInit(rows, was).cc <==> k in CrapInit(rows, was).entries
  {
    ScoredIs(rows, k);
    CcHas(rows, k);
    if i :| 0 <= i < |rows| && rows[i].key == k && rows[i].crap.Some? && rows[i].crap.value > CRAP_LIMIT {
      assert k in CrapInit(rows, was).entries;
    }
  }

  /** Row `i` is the last of a key. */
  predicate LastOf(rows: seq<Row>, i: nat, k: Key) {
    i < |rows| && rows[i].key == k && forall j | i < j < |rows| :: rows[j].key != k
  }

  lemma {:induction false} CcIs(rows: seq<Row>, i: nat, k: Key)
    requires LastOf(rows, i, k)
    ensures k in CcOf(rows) && CcOf(rows)[k] == rows[i].cc
    decreases |rows|
  {
    if i < |rows| - 1 {
      CcIs(rows[..|rows| - 1], i, k);
    }
  }

  /** A key's score is that of its row with data, whatever other rows it has; with
      none, its baseline entry, if a row without data holds it. */
  lemma {:induction false} CrapScoresAre(rows: seq<Row>, baseline: Scores, k: Key)
    requires CrapScores(rows, baseline).Some?
    ensures var measured := CrapScores(rows, baseline).value;
            if exists i :: 0 <= i < |rows| && rows[i].key == k && rows[i].crap.Some?
            then k in measured && forall i | 0 <= i < |rows| && rows[i].key == k && rows[i].crap.Some? ::
                                    measured[k] == rows[i].crap.value
            else (k in measured <==> k in baseline && exists i :: 0 <= i < |rows| && rows[i].key == k)
                 && (k in measured ==> measured[k] == baseline[k])
  {
    ScoredIs(rows, k);
  }

  /** What a prune stores beside each entry is the complexity of its last row in
      this run, or without one what was stored before; and beside nothing else. */
  lemma {:induction false} StoredComplexityIs(run: CrapRun, was: CrapBaseline, k: Key)
    requires run.prune && CrapScores(run.rows, was.entries).Some?
    ensures var now := CrapStored(run, was);
            && (k !in now.entries ==> k !in now.cc)
            && (forall i: nat | LastOf(run.rows, i, k) && k in now.entries :: k in now.cc && now.cc[k] == run.rows[i].cc)
            && ((forall i | 0 <= i < |run.rows| :: run.rows[i].key != k) && k in now.entries ==>
                  (k in now.cc <==> k in was.cc) && (k in now.cc ==> now.cc[k] == was.cc[k]))
  {
    CcHas(run.rows, k);
    forall i: nat | LastOf(run.rows, i, k) ensures k in CcOf(run.rows) && CcOf(run.rows)[k] == run.rows[i].cc {
      CcIs(run.rows, i, k);
    }
  }

  lemma {:induction false} CcHas(rows: seq<Row>, k: Key)
    ensures k in CcOf(rows) <==> exists i :: 0 <= i < |rows| && rows[i].key == k
    decreases |rows|
  {
    if rows != [] {
      CcHas(rows[..|rows| - 1], k);
      assert rows == rows[..|rows| - 1] + [rows[|rows| - 1]];
    }
  }
}
