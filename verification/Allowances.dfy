/**
 What a baseline allows in all: the scores it records, and how far they reach
 above the limit together (scripts/complexity-ratchet.py).
 */
module Allowances {
  import opened Ratchet
  import opened Moves

  ghost function AnyKey(m: Scores): (k: Key)
    requires m != map[]
    ensures k in m
  {
    var k :| k in m;
    k
  }

  /** The scores a baseline records, repeats included. */
  ghost function Recorded(baseline: Scores): multiset<real> {
    if baseline == map[] then multiset{}
    else Recorded(baseline - {AnyKey(baseline)}) + multiset{baseline[AnyKey(baseline)]}
  }

  /** How far the entries are above the limit, all together. */
  ghost function Excess(baseline: Scores, limit: real): real {
    if baseline == map[] then 0.0
    else Excess(baseline - {AnyKey(baseline)}, limit) + (baseline[AnyKey(baseline)] - limit)
  }

  lemma Unfolded(m: Scores)
    requires m != map[]
    ensures Recorded(m) == Recorded(m - {AnyKey(m)}) + multiset{m[AnyKey(m)]}
  {
  }

  lemma Swap(base: multiset<real>, x: real, y: real, all: multiset<real>, most: multiset<real>)
    requires all == most + multiset{y} && most == base + multiset{x}
    ensures all == base + multiset{y} + multiset{x}
  {
  }

  lemma {:induction false} TakeRecorded(m: Scores, k: Key)
    requires k in m
    ensures Recorded(m) == Recorded(m - {k}) + multiset{m[k]}
    decreases |m|
  {
    var r := AnyKey(m);
    Unfolded(m);
    if r != k {
      var rest := m - {k} - {r};
      assert m - {r} - {k} == rest;
      TakeRecorded(m - {r}, k);
      TakeRecorded(m - {k}, r);
      Swap(Recorded(rest), m[k], m[r], Recorded(m), Recorded(m - {r}));
    }
  }

  lemma {:induction false} TakeExcess(m: Scores, limit: real, k: Key)
    requires k in m
    ensures Excess(m, limit) == Excess(m - {k}, limit) + (m[k] - limit)
    decreases |m|
  {
    var r := AnyKey(m);
    if r != k {
      TakeExcess(m - {r}, limit, k);
      TakeExcess(m - {k}, limit, r);
      assert m - {r} - {k} == m - {k} - {r};
    }
  }

  lemma PutOne(m: Scores, limit: real, k: Key, v: real)
    requires k !in m
    ensures Recorded(m[k := v]) == Recorded(m) + multiset{v}
    ensures Excess(m[k := v], limit) == Excess(m, limit) + (v - limit)
  {
    TakeRecorded(m[k := v], k);
    TakeExcess(m[k := v], limit, k);
    assert m[k := v] - {k} == m;
  }

  /** Fewer and lower entries allow no more. */
  lemma {:induction false} ExcessMonotone(a: Scores, b: Scores, limit: real)
    requires forall k | k in a :: k in b && a[k] <= b[k]
    requires AllAbove(b, limit)
    ensures Excess(a, limit) <= Excess(b, limit)
    decreases |b|
  {
    if b != map[] {
      var k :| k in b;
      TakeExcess(b, limit, k);
      ExcessMonotone(a - {k}, b - {k}, limit);
      if k in a {
        TakeExcess(a, limit, k);
      } else {
        assert a - {k} == a;
      }
    } else {
      assert a == map[];
    }
  }

  /** Re-keying entries keeps what is recorded: the same scores, as often, and
      so the same allowance. */
  lemma {:induction false} MovesKeepScores(baseline: Scores, found: map<Key, Key>, measured: Scores, limit: real)
    requires Matching(found, measured, baseline)
    ensures Recorded(WithMoves(baseline, found)) == Recorded(baseline)
    ensures Excess(WithMoves(baseline, found), limit) == Excess(baseline, limit)
    decreases |found|
  {
    if found == map[] {
      assert WithMoves(baseline, found) == baseline;
    } else {
      var n :| n in found;
      var rest := found - {n};
      MovesKeepScores(baseline, rest, measured, limit);
      OneMove(baseline, found, n, measured, limit);
    }
  }

  lemma ValuesWithout(found: map<Key, Key>, n: Key)
    requires n in found && forall m | m in found && found[m] == found[n] :: m == n
    ensures (found - {n}).Values == found.Values - {found[n]}
  {
    var rest := found - {n};
    forall o | o in found.Values && o != found[n] ensures o in rest.Values {
      var m :| m in found && found[m] == o;
      assert rest[m] == o;
    }
  }

  lemma MoveOneMore(baseline: Scores, found: map<Key, Key>, n: Key, measured: Scores)
    requires Matching(found, measured, baseline) && n in found
    ensures var was := WithMoves(baseline, found - {n}); var o := found[n];
            o in was && was[o] == baseline[o] && n !in was - {o} &&
            WithMoves(baseline, found) == (was - {o})[n := baseline[o]]
  {
    ValuesWithout(found, n);
  }

  lemma OneMove(baseline: Scores, found: map<Key, Key>, n: Key, measured: Scores, limit: real)
    requires Matching(found, measured, baseline) && n in found
    ensures Recorded(WithMoves(baseline, found)) == Recorded(WithMoves(baseline, found - {n}))
    ensures Excess(WithMoves(baseline, found), limit) == Excess(WithMoves(baseline, found - {n}), limit)
  {
    MoveOneMore(baseline, found, n, measured);
    Rekeyed(WithMoves(baseline, found - {n}), found[n], n, limit);
  }

  lemma Rekeyed(m: Scores, o: Key, n: Key, limit: real)
    requires o in m && n !in m - {o}
    ensures Recorded((m - {o})[n := m[o]]) == Recorded(m)
    ensures Excess((m - {o})[n := m[o]], limit) == Excess(m, limit)
  {
    TakeRecorded(m, o);
    TakeExcess(m, limit, o);
    PutOne(m - {o}, limit, n, m[o]);
  }
}
