/**
 Whole histories of the complexity ratchet (scripts/complexity-ratchet.py):
 the baseline `--init` stores, then any sequence of measurements, judged or
 failed, with or without `--prune`.
 */
module RatchetRuns {
  import opened Wrappers
  import opened Ratchet
  import opened Allowances

  /** One run of the gate. The allowlist may differ from run to run. */
  datatype Run = Run(measured: Scores, allowlist: Allowlist, prune: bool)

  /** The first baseline: what is above the limit and not allowlisted. */
  function FirstBaseline(measured: Scores, allowlist: Allowlist): Scores {
    map k | k in measured && measured[k] > LIMIT && k !in allowlist :: measured[k]
  }

  /** The baseline a run leaves stored, and is judged against. */
  function Stored(run: Run, baseline: Scores): Scores {
    if run.prune then Pruned(run.measured, baseline, LIMIT) else baseline
  }

  ghost predicate Accepted(run: Run, baseline: Scores) {
    Passes(run.measured, Stored(run, baseline), run.allowlist, LIMIT)
  }

  class BaselineFile {
    var entries: Scores

    constructor ()
      ensures entries == map[]
    {
      entries := map[];
    }

    /** `--init` */
    method Init(measured: Scores, allowlist: Allowlist) returns (stored: bool)
      modifies this
      ensures stored == (old(entries) == map[])
      ensures entries == if stored then FirstBaseline(measured, allowlist) else old(entries)
    {
      if entries != map[] {
        return false;
      }
      entries := FirstBaseline(measured, allowlist);
      return true;
    }

    /** The gate itself: prune, note the gains, judge. */
    method Gate(run: Run, measuredKeys: seq<Key>, allowlistKeys: seq<Key>, baselineKeys: seq<Key>)
      returns (notes: seq<Gain>, passed: bool)
      requires Walks(measuredKeys, run.measured) && Walks(allowlistKeys, run.allowlist)
      requires Walks(baselineKeys, Stored(run, entries))
      modifies this
      ensures entries == Stored(run, old(entries))
      ensures forall g :: g in notes <==> IsGain(g, run.measured, entries, LIMIT)
      ensures passed <==> Accepted(run, old(entries))
    {
      if run.prune {
        entries := Pruned(run.measured, entries, LIMIT);
      }
      notes := Gains(run.measured, entries, baselineKeys, LIMIT);
      var problems := Judge(run.measured, measuredKeys, entries, run.allowlist, allowlistKeys, LIMIT);
      passed := problems == Some([]);
    }
  }

  /** The baseline after a history. */
  function After(first: Scores, runs: seq<Run>): Scores
    decreases |runs|
  {
    if runs == [] then first else Stored(runs[|runs| - 1], After(first, runs[..|runs| - 1]))
  }

  /** What a function that is not allowlisted may score. */
  function Cap(k: Key, baseline: Scores): real {
    if k in baseline then baseline[k] else LIMIT
  }

  lemma FirstIsAbove(measured: Scores, allowlist: Allowlist)
    ensures AllAbove(FirstBaseline(measured, allowlist), LIMIT)
    ensures forall k :: Cap(k, FirstBaseline(measured, allowlist)) <= LIMIT ||
              (k in measured && k !in allowlist && Cap(k, FirstBaseline(measured, allowlist)) == measured[k])
  {
  }

  /** Nothing a run stores is new or higher. */
  ghost predicate Tightened(now: Scores, was: Scores) {
    && AllAbove(now, LIMIT)
    && (forall k | k in now :: k in was && now[k] <= was[k])
  }

  /** Along any history, from any point on: entries only leave or fall, stay
      above the limit, and no cap rises. */
  lemma {:induction false} EntriesOnlyFall(first: Scores, runs: seq<Run>, n: nat)
    requires AllAbove(first, LIMIT) && n <= |runs|
    ensures Tightened(After(first, runs), After(first, runs[..n]))
    ensures Tightened(After(first, runs[..n]), first)
    ensures forall k :: Cap(k, After(first, runs)) <= Cap(k, After(first, runs[..n])) <= Cap(k, first)
    decreases |runs|
  {
    if n == |runs| {
      assert runs[..n] == runs;
      if runs != [] {
        EntriesOnlyFall(first, runs[..n - 1], n - 1);
        assert runs[..n - 1][..n - 1] == runs[..n - 1];
      }
    } else {
      var before := runs[..|runs| - 1];
      assert before[..n] == runs[..n];
      EntriesOnlyFall(first, before, n);
    }
  }

  /** No accepted function that is not allowlisted ever scores above what the
      baseline, at this or any earlier point, let it. */
  lemma {:induction false} NeverAboveAnEarlierCap(first: Scores, runs: seq<Run>, n: nat, i: nat, k: Key)
    requires AllAbove(first, LIMIT) && n <= i < |runs| && Accepted(runs[i], After(first, runs[..i]))
    requires k in runs[i].measured && k !in runs[i].allowlist
    ensures runs[i].measured[k] <= Cap(k, After(first, runs[..n])) <= Cap(k, first)
  {
    var before, score := After(first, runs[..i]), runs[i].measured[k];
    assert runs[..i + 1][..i] == runs[..i];
    assert runs[..i][..n] == runs[..n];
    EntriesOnlyFall(first, runs[..i + 1], i);
    EntriesOnlyFall(first, runs[..i], n);
    NoScoreAboveCap(runs[i].measured, Stored(runs[i], before), runs[i].allowlist, k);
  }

  /** From `--init` on: no accepted function that is not allowlisted, then or
      now, ever scores above the larger of the limit and its score at the start;
      one the start did not measure stays within the limit. */
  lemma {:induction false} NeverAboveTheStart(measured: Scores, allowlist: Allowlist, runs: seq<Run>, i: nat, k: Key)
    requires i < |runs| && Accepted(runs[i], After(FirstBaseline(measured, allowlist), runs[..i]))
    requires k in runs[i].measured && k !in runs[i].allowlist && k !in allowlist
    ensures runs[i].measured[k] <= LIMIT || (k in measured && runs[i].measured[k] <= measured[k])
  {
    FirstIsAbove(measured, allowlist);
    NeverAboveAnEarlierCap(FirstBaseline(measured, allowlist), runs, 0, i, k);
  }

  lemma NoScoreAboveCap(measured: Scores, baseline: Scores, allowlist: Allowlist, k: Key)
    requires Passes(measured, baseline, allowlist, LIMIT) && k in measured && k !in allowlist
    ensures measured[k] <= Cap(k, baseline)
  {
    var why := if k in baseline then ItsBaseline else TheLimit;
    assert !IsProblem(Above(k, measured[k], why, Cap(k, baseline)), measured, baseline, allowlist, LIMIT);
  }

  /** An accepted function that is allowlisted scores at most the ceiling. */
  lemma AllowlistedStaysUnderCeiling(run: Run, baseline: Scores, k: Key)
    requires Accepted(run, baseline) && k in run.measured && k in run.allowlist
    ensures run.measured[k] <= CEILING
  {
    assert run.allowlist[k].max.Some?;
    assert !IsProblem(BadAllowance(k), run.measured, Stored(run, baseline), run.allowlist, LIMIT);
    assert !IsProblem(Above(k, run.measured[k], AllowlistedMax, run.allowlist[k].max.value),
                      run.measured, Stored(run, baseline), run.allowlist, LIMIT);
  }

  /** A pruned gain is kept: after `--prune` at `n`, no later accepted run lets
      the function above the larger of the limit and its score then. */
  lemma {:induction false} GainsAreKept(first: Scores, runs: seq<Run>, n: nat, i: nat, k: Key)
    requires AllAbove(first, LIMIT) && n < i < |runs| && runs[n].prune
    requires Accepted(runs[i], After(first, runs[..i]))
    requires k in runs[i].measured && k !in runs[i].allowlist
    ensures runs[i].measured[k] <= LIMIT || runs[i].measured[k] <= Now(runs[n].measured, k)
  {
    NeverAboveAnEarlierCap(first, runs, n + 1, i, k);
    assert runs[..n + 1][..n] == runs[..n];
  }

  // ---- the allowance as a whole -----------------------------------------------------------

  /** What a measurement has above the limit outside the allowlist. */
  function Over(measured: Scores, allowlist: Allowlist, limit: real): Scores {
    map k | k in measured && k !in allowlist && measured[k] > limit :: measured[k]
  }

  /** What an accepted measurement has above the limit, the baseline allowed. */
  lemma {:induction false} PassingStaysWithin(measured: Scores, baseline: Scores, allowlist: Allowlist, limit: real)
    requires Passes(measured, baseline, allowlist, limit) && AllAbove(baseline, limit)
    ensures Excess(Over(measured, allowlist, limit), limit) <= Excess(baseline, limit)
    ensures Over(measured, allowlist, limit).Keys <= baseline.Keys
  {
    var over := Over(measured, allowlist, limit);
    forall k | k in over ensures k in baseline && over[k] <= baseline[k] {
      var why := if k in baseline then ItsBaseline else TheLimit;
      var cap := if k in baseline then baseline[k] else limit;
      assert !IsProblem(Above(k, measured[k], why, cap), measured, baseline, allowlist, limit);
    }
    ExcessMonotone(over, baseline, limit);
  }

  /** Along any history from `--init`, whatever an accepted run has above the
      limit adds up to no more than it did at the start. */
  lemma {:induction false} DebtNeverGrows(first: Scores, runs: seq<Run>, i: nat)
    requires AllAbove(first, LIMIT) && i < |runs| && Accepted(runs[i], After(first, runs[..i]))
    ensures Excess(Over(runs[i].measured, runs[i].allowlist, LIMIT), LIMIT) <= Excess(first, LIMIT)
    ensures Over(runs[i].measured, runs[i].allowlist, LIMIT).Keys <= first.Keys
  {
    assert runs[..i + 1][..i] == runs[..i];
    EntriesOnlyFall(first, runs[..i + 1], 0);
    assert runs[..i + 1][..0] == [];
    ExcessMonotone(After(first, runs[..i + 1]), first, LIMIT);
    PassingStaysWithin(runs[i].measured, After(first, runs[..i + 1]), runs[i].allowlist, LIMIT);
  }

  // ---- when `--init` can raise a cap ----------------------------------------------------------

  /** `--init` asks only that the baseline be empty, which a history of prunes
      can make it: it raises a cap exactly when the baseline is empty and some
      function off the allowlist measures above the limit. */
  lemma {:induction false} InitRaisesIff(baseline: Scores, measured: Scores, allowlist: Allowlist)
    requires AllAbove(baseline, LIMIT)
    ensures (exists k :: Cap(k, if baseline == map[] then FirstBaseline(measured, allowlist) else baseline) > Cap(k, baseline))
            <==> baseline == map[] && exists k :: k in measured && k !in allowlist && measured[k] > LIMIT
  {
    if baseline == map[] {
      var first := FirstBaseline(measured, allowlist);
      if k :| k in measured && k !in allowlist && measured[k] > LIMIT {
        assert Cap(k, first) > Cap(k, baseline);
      }
    }
  }

  /** A history that prunes its one entry away, after which `--init` lets that
      function above its first cap. */
  lemma InitCanReopen()
    ensures var first := map["a.rs::f" := 12.0];
            var runs := [Run(map["a.rs::f" := 9.0], map[], true)];
            && AllAbove(first, LIMIT) && After(first, runs) == map[]
            && Cap("a.rs::f", FirstBaseline(map["a.rs::f" := 40.0], map[])) > Cap("a.rs::f", first)
  {
    var first := map["a.rs::f" := 12.0];
    var run := Run(map["a.rs::f" := 9.0], map[], true);
    assert [run][..0] == [];
    assert After(first, [run]) == Stored(run, After(first, []));
  }
}
