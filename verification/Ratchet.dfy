/**
 The complexity and CRAP ratchet's judgement (scripts/complexity-ratchet.py):
 one measurement against a baseline and an allowlist.

 A score is a complexity or a CRAP number. Where the source walks a dict in
 sorted order, the keys in that order are a parameter.
 */
module Ratchet {
  import opened Wrappers

  type Key = string
  type Scores = map<Key, real>

  const LIMIT := 10.0
  const CRAP_LIMIT := 10.0
  const CEILING := 25.0

  /** An allowlist entry as it was read: either part may be missing. */
  datatype Allowance = Allowance(max: Option<real>, reason: Option<string>)
  type Allowlist = map<Key, Allowance>

  datatype Why = AllowlistedMax | ItsBaseline | TheLimit

  datatype Problem = BadAllowance(key: Key) | Above(key: Key, score: real, why: Why, cap: real)

  datatype Gain = GoneOrAtLimit(key: Key, was: real) | Fell(key: Key, was: real, now: real)

  /** `keys` walks a dict's keys, each once. */
  ghost predicate Walks<V>(keys: seq<Key>, m: map<Key, V>) {
    && (forall k :: k in keys <==> k in m)
    && (forall i, j | 0 <= i < j < |keys| :: keys[i] != keys[j])
  }

  predicate Distinct<T(==)>(xs: seq<T>) {
    forall i, j | 0 <= i < j < |xs| :: xs[i] != xs[j]
  }

  predicate Allowed(a: Allowance) {
    && (a.max.Some? ==> a.max.value <= CEILING)
    && a.reason.Some? && a.reason.value != ""
  }

  /** What a function may score, and by what right. */
  function CapOf(k: Key, baseline: Scores, allowlist: Allowlist, limit: real): Option<(real, Why)> {
    if k in allowlist then
      if allowlist[k].max.Some? then Some((allowlist[k].max.value, AllowlistedMax)) else None
    else if k in baseline then Some((baseline[k], ItsBaseline))
    else Some((limit, TheLimit))
  }

  /** An allowlisted function whose entry has no max cannot be judged at all. */
  ghost predicate Judgeable(measured: Scores, allowlist: Allowlist) {
    forall k | k in measured && k in allowlist :: allowlist[k].max.Some?
  }

  /** The ways `measured` breaks the ratchet. */
  predicate IsProblem(p: Problem, measured: Scores, baseline: Scores, allowlist: Allowlist, limit: real) {
    match p
    case BadAllowance(k) => k in allowlist && !Allowed(allowlist[k])
    case Above(k, score, why, cap) =>
      k in measured && score == measured[k] > cap && CapOf(k, baseline, allowlist, limit) == Some((cap, why))
  }

  /** A measurement the ratchet accepts. */
  ghost predicate Passes(measured: Scores, baseline: Scores, allowlist: Allowlist, limit: real) {
    Judgeable(measured, allowlist) && forall p :: !IsProblem(p, measured, baseline, allowlist, limit)
  }

  /** Nothing comes back exactly when the run fails on an allowlist entry with
      no max; otherwise every problem is listed, once, and nothing else. */
  method Judge(measured: Scores, measuredKeys: seq<Key>, baseline: Scores,
               allowlist: Allowlist, allowlistKeys: seq<Key>, limit: real)
    returns (problems: Option<seq<Problem>>)
    requires Walks(measuredKeys, measured) && Walks(allowlistKeys, allowlist)
    ensures problems.Some? <==> Judgeable(measured, allowlist)
    ensures problems.Some? ==> Distinct(problems.value)
    ensures problems.Some? ==> forall p :: p in problems.value <==> IsProblem(p, measured, baseline, allowlist, limit)
    ensures problems == Some([]) <==> Passes(measured, baseline, allowlist, limit)
  {
    var bad := BadAllowances(allowlist, allowlistKeys);
    var above: seq<Problem> := [];
    for i := 0 to |measuredKeys|
      invariant forall j | 0 <= j < i && measuredKeys[j] in allowlist :: allowlist[measuredKeys[j]].max.Some?
      invariant Distinct(above)
      invariant forall p :: p in above <==>
                  p.Above? && p.key in measuredKeys[..i] && IsProblem(p, measured, baseline, allowlist, limit)
    {
      var key := measuredKeys[i];
      assert measuredKeys[..i + 1] == measuredKeys[..i] + [key];
      var cap := CapOf(key, baseline, allowlist, limit);
      if cap.None? {
        assert key in measured;
        return None;
      }
      if measured[key] > cap.value.0 {
        above := above + [Above(key, measured[key], cap.value.1, cap.value.0)];
      }
    }
    assert measuredKeys[..|measuredKeys|] == measuredKeys;
    problems := Some(bad + above);
    assert forall p :: p in bad + above <==> p in bad || p in above;
    if bad + above != [] {
      assert (bad + above)[0] in bad + above;
    }
  }

  method BadAllowances(allowlist: Allowlist, keys: seq<Key>) returns (problems: seq<Problem>)
    requires Walks(keys, allowlist)
    ensures Distinct(problems)
    ensures forall p :: p in problems <==> p.BadAllowance? && p.key in allowlist && !Allowed(allowlist[p.key])
  {
    problems := [];
    for i := 0 to |keys|
      invariant Distinct(problems)
      invariant forall p :: p in problems <==> p.BadAllowance? && p.key in keys[..i] && !Allowed(allowlist[p.key])
    {
      assert keys[..i + 1] == keys[..i] + [keys[i]];
      if !Allowed(allowlist[keys[i]]) {
        problems := problems + [BadAllowance(keys[i])];
      }
    }
    assert keys[..|keys|] == keys;
  }

  function Now(measured: Scores, k: Key): real {
    if k in measured then measured[k] else 0.0
  }

  predicate IsGain(g: Gain, measured: Scores, baseline: Scores, limit: real) {
    && g.key in baseline && g.was == baseline[g.key] && Now(measured, g.key) < g.was
    && g == if Now(measured, g.key) <= limit then GoneOrAtLimit(g.key, g.was)
            else Fell(g.key, g.was, Now(measured, g.key))
  }

  /** Every baseline entry its function has beaten, once, and nothing else. */
  method Gains(measured: Scores, baseline: Scores, keys: seq<Key>, limit: real) returns (notes: seq<Gain>)
    requires Walks(keys, baseline)
    ensures Distinct(notes)
    ensures forall g :: g in notes <==> IsGain(g, measured, baseline, limit)
  {
    notes := [];
    for i := 0 to |keys|
      invariant Distinct(notes)
      invariant forall g :: g in notes <==> g.key in keys[..i] && IsGain(g, measured, baseline, limit)
    {
      assert keys[..i + 1] == keys[..i] + [keys[i]];
      var now := Now(measured, keys[i]);
      if now < baseline[keys[i]] {
        notes := notes + [if now <= limit then GoneOrAtLimit(keys[i], baseline[keys[i]])
                          else Fell(keys[i], baseline[keys[i]], now)];
      }
    }
    assert keys[..|keys|] == keys;
  }

  function Min(a: real, b: real): real {
    if b < a then b else a
  }

  /** The baseline lowered to what was measured, without the entries now at or
      under the limit. */
  function Pruned(measured: Scores, baseline: Scores, limit: real): Scores {
    map k | k in baseline && Now(measured, k) > limit :: Min(baseline[k], Now(measured, k))
  }

  /** Every entry of a baseline is above the limit. */
  ghost predicate AllAbove(baseline: Scores, limit: real) {
    forall k | k in baseline :: baseline[k] > limit
  }

  // ---- pruning ----------------------------------------------------------------------

  /** A key whose entry is below its measurement, itself within the limit:
      pruning forgives it. */
  predicate Forgiven(k: Key, measured: Scores, baseline: Scores, allowlist: Allowlist, limit: real) {
    k in measured && k in baseline && k !in allowlist && baseline[k] < measured[k] <= limit
  }

  lemma PrunedProblem(p: Problem, measured: Scores, baseline: Scores, allowlist: Allowlist, limit: real)
    requires limit >= 0.0
    ensures IsProblem(p, measured, Pruned(measured, baseline, limit), allowlist, limit) <==>
            IsProblem(p, measured, baseline, allowlist, limit) &&
            !(p.Above? && Forgiven(p.key, measured, baseline, allowlist, limit))
  {
  }

  /** Pruning before judging changes no problem exactly when no entry that is
      not allowlisted sits below a measurement within the limit. */
  lemma {:induction false} PruneKeepsProblemsIff(measured: Scores, baseline: Scores, allowlist: Allowlist, limit: real)
    requires limit >= 0.0
    ensures (forall p :: IsProblem(p, measured, Pruned(measured, baseline, limit), allowlist, limit) <==>
                         IsProblem(p, measured, baseline, allowlist, limit)) <==>
            (forall k :: !Forgiven(k, measured, baseline, allowlist, limit))
  {
    forall p ensures IsProblem(p, measured, Pruned(measured, baseline, limit), allowlist, limit) <==>
                     IsProblem(p, measured, baseline, allowlist, limit) &&
                     !(p.Above? && Forgiven(p.key, measured, baseline, allowlist, limit))
    {
      PrunedProblem(p, measured, baseline, allowlist, limit);
    }
    forall k | Forgiven(k, measured, baseline, allowlist, limit)
      ensures IsProblem(Above(k, measured[k], ItsBaseline, baseline[k]), measured, baseline, allowlist, limit)
    {
    }
  }

  /** A baseline of entries above the limit is judged alike pruned or not. */
  lemma {:induction false} PruneKeepsVerdict(measured: Scores, baseline: Scores, allowlist: Allowlist, limit: real)
    requires limit >= 0.0 && AllAbove(baseline, limit)
    ensures Passes(measured, Pruned(measured, baseline, limit), allowlist, limit) <==>
            Passes(measured, baseline, allowlist, limit)
    ensures forall p :: IsProblem(p, measured, Pruned(measured, baseline, limit), allowlist, limit) <==>
                        IsProblem(p, measured, baseline, allowlist, limit)
  {
    PruneKeepsProblemsIff(measured, baseline, allowlist, limit);
  }

  /** A fresh prune leaves no gain, and pruning again changes nothing. */
  lemma {:induction false} FreshPruneHasNoGain(measured: Scores, baseline: Scores, limit: real, g: Gain)
    requires limit >= 0.0
    ensures !IsGain(g, measured, Pruned(measured, baseline, limit), limit)
    ensures Pruned(measured, Pruned(measured, baseline, limit), limit) == Pruned(measured, baseline, limit)
  {
  }

  /** With every entry above the limit, pruning changes something exactly when
      a gain is there to keep. */
  lemma {:induction false} PruneIsForGains(measured: Scores, baseline: Scores, limit: real)
    requires limit >= 0.0 && AllAbove(baseline, limit)
    ensures Pruned(measured, baseline, limit) == baseline <==> forall g :: !IsGain(g, measured, baseline, limit)
  {
    var after := Pruned(measured, baseline, limit);
    forall k | k in baseline && Now(measured, k) < baseline[k]
      ensures exists g :: IsGain(g, measured, baseline, limit) && g.key == k
    {
      var g := if Now(measured, k) <= limit then GoneOrAtLimit(k, baseline[k])
               else Fell(k, baseline[k], Now(measured, k));
      assert IsGain(g, measured, baseline, limit);
    }
    if forall g :: !IsGain(g, measured, baseline, limit) {
      assert forall k | k in baseline :: Now(measured, k) >= baseline[k];
      assert after == baseline;
    }
  }

  // ---- what a run is accepted on -------------------------------------------------------------

  /** A run passes exactly when every allowlist entry has a reason and allows at
      most 25, and every function measured is within its own cap: its entry's max,
      its baseline, or the limit. */
  lemma PassesIff(measured: Scores, baseline: Scores, allowlist: Allowlist, limit: real)
    ensures Passes(measured, baseline, allowlist, limit) <==>
            && (forall k | k in allowlist :: allowlist[k].reason.Some? && allowlist[k].reason.value != "")
            && (forall k | k in allowlist && allowlist[k].max.Some? :: allowlist[k].max.value <= 25.0)
            && (forall k | k in measured && k in allowlist ::
                  allowlist[k].max.Some? && measured[k] <= allowlist[k].max.value)
            && (forall k | k in measured && k !in allowlist && k in baseline :: measured[k] <= baseline[k])
            && (forall k | k in measured && k !in allowlist && k !in baseline :: measured[k] <= limit)
  {
    if Passes(measured, baseline, allowlist, limit) {
      forall k | k in allowlist ensures Allowed(allowlist[k]) {
        assert !IsProblem(BadAllowance(k), measured, baseline, allowlist, limit);
      }
      forall k | k in measured
        ensures CapOf(k, baseline, allowlist, limit).Some? && measured[k] <= CapOf(k, baseline, allowlist, limit).value.0
      {
        var cap := CapOf(k, baseline, allowlist, limit).value;
        assert !IsProblem(Above(k, measured[k], cap.1, cap.0), measured, baseline, allowlist, limit);
      }
    }
  }

  /** A prune keeps exactly the entries whose function is above the limit, each
      at the lower of what it was and what was measured. */
  lemma PrunedIs(measured: Scores, baseline: Scores, limit: real, k: Key)
    requires limit >= 0.0
    ensures k in Pruned(measured, baseline, limit) <==> k in baseline && k in measured && measured[k] > limit
    ensures k in Pruned(measured, baseline, limit) ==>
            var kept := Pruned(measured, baseline, limit)[k];
            kept <= baseline[k] && kept <= measured[k] && (kept == baseline[k] || kept == measured[k])
  {
  }

  /** A gain is an entry whose function is gone or within the limit, or else below
      its entry; it names the entry, and the score unless it is gone. */
  lemma GainIff(g: Gain, measured: Scores, baseline: Scores, limit: real)
    requires limit >= 0.0 && AllAbove(baseline, limit)
    ensures IsGain(g, measured, baseline, limit) <==>
            && g.key in baseline && g.was == baseline[g.key]
            && if g.GoneOrAtLimit? then g.key !in measured || measured[g.key] <= limit
               else g.key in measured && limit < measured[g.key] < baseline[g.key] && g.now == measured[g.key]
  {
  }

  /** A function above its cap is reported with its score, the cap, and whose cap
      it is: its allowlist entry's, its baseline's, or everyone's. */
  lemma ProblemIff(k: Key, score: real, why: Why, cap: real, measured: Scores, baseline: Scores, allowlist: Allowlist, limit: real)
    ensures IsProblem(Above(k, score, why, cap), measured, baseline, allowlist, limit) <==>
            && k in measured && measured[k] == score > cap
            && match why
               case AllowlistedMax => k in allowlist && allowlist[k].max == Some(cap)
               case ItsBaseline => k !in allowlist && k in baseline && baseline[k] == cap
               case TheLimit => k !in allowlist && k !in baseline && cap == limit
  {
  }
}
