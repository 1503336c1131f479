/**
 Move detection in the CRAP ratchet (scripts/complexity-ratchet.py): a new key
 takes over a vanished one's entry when no other pairing is possible.
 */
module Moves {
  import opened Wrappers
  import opened Ratchet

  type Complexities = map<Key, int>

  /** The last `::` segment of a key. */
  function FnName(key: Key): string {
    SegmentBefore(key, |key|)
  }

  function SegmentBefore(key: Key, i: nat): string
    requires i <= |key|
  {
    if i < 2 then key
    else if key[i - 2] == ':' && key[i - 1] == ':' then key[i..]
    else SegmentBefore(key, i - 1)
  }

  predicate HasSeparator(s: string) {
    exists i :: 0 <= i < |s| - 1 && s[i] == ':' && s[i + 1] == ':'
  }

  /** A name holds no separator, and what comes before it ends in one. */
  lemma {:induction false} FnNameIsLastSegment(key: Key)
    ensures var name := FnName(key);
            !HasSeparator(name) &&
            (name == key || exists path: string :: key == path + "::" + name)
  {
    LastSegment(key, |key|);
  }

  lemma {:induction false} LastSegment(key: Key, i: nat)
    requires i <= |key| && (i > 0 ==> !HasSeparator(key[i - 1..])) && (i == 0 ==> !HasSeparator(key))
    ensures var name := SegmentBefore(key, i);
            !HasSeparator(name) &&
            (name == key || exists path: string :: key == path + "::" + name)
    decreases i
  {
    if i >= 2 {
      if key[i - 2] == ':' && key[i - 1] == ':' {
        assert key == key[..i - 2] + "::" + key[i..];
        NoneInSuffix(key[i - 1..], 1);
        assert key[i - 1..][1..] == key[i..];
      } else {
        NoneAtFront(key[i - 2..]);
        LastSegment(key, i - 1);
      }
    } else if i == 1 {
      assert key[0..] == key;
    }
  }

  lemma NoneInSuffix(s: string, n: nat)
    requires n <= |s| && !HasSeparator(s)
    ensures !HasSeparator(s[n..])
  {
    forall i | 0 <= i < |s[n..]| - 1 ensures !(s[n..][i] == ':' && s[n..][i + 1] == ':') {
      assert s[n..][i] == s[n + i] && s[n..][i + 1] == s[n + i + 1];
    }
  }

  lemma NoneAtFront(s: string)
    requires |s| >= 2 && !HasSeparator(s[1..]) && !(s[0] == ':' && s[1] == ':')
    ensures !HasSeparator(s)
  {
    forall i | 0 < i < |s| - 1 ensures !(s[i] == ':' && s[i + 1] == ':') {
      assert s[i] == s[1..][i - 1] && s[i + 1] == s[1..][i];
    }
  }

  // ---- which functions moved ------------------------------------------------------------

  /** The vanished entries with `new`'s function name. */
  function SameName(new_: Key, measured: Scores, baseline: Scores): set<Key> {
    set v | v in baseline && v !in measured && FnName(v) == FnName(new_)
  }

  predicate SameComplexity(v: Key, new_: Key, ccNow: Complexities, ccBase: Complexities) {
    v in ccBase && new_ in ccNow && ccBase[v] == ccNow[new_]
  }

  /** What `new` may have been: by name, and by complexity too when several
      share the name. */
  function Candidates(new_: Key, measured: Scores, baseline: Scores, ccNow: Complexities, ccBase: Complexities): set<Key> {
    var same := SameName(new_, measured, baseline);
    if |same| > 1 then set v | v in same && SameComplexity(v, new_, ccNow, ccBase) else same
  }

  predicate Claims(new_: Key, old_: Key, measured: Scores, baseline: Scores, ccNow: Complexities, ccBase: Complexities) {
    new_ in measured && new_ !in baseline && Candidates(new_, measured, baseline, ccNow, ccBase) == {old_}
  }

  /** `new` is the one new key with `old` as its one candidate. */
  ghost predicate IsMove(new_: Key, old_: Key, measured: Scores, baseline: Scores, ccNow: Complexities, ccBase: Complexities) {
    && Claims(new_, old_, measured, baseline, ccNow, ccBase)
    && forall other | Claims(other, old_, measured, baseline, ccNow, ccBase) :: other == new_
  }

  /** `found` holds every move, and nothing else. */
  ghost predicate FindsMoves(found: map<Key, Key>, measured: Scores, baseline: Scores,
                             ccNow: Complexities, ccBase: Complexities) {
    && (forall n | n in found :: IsMove(n, found[n], measured, baseline, ccNow, ccBase))
    && (forall n, o | IsMove(n, o, measured, baseline, ccNow, ccBase) :: n in found && found[n] == o)
  }

  lemma {:induction false} DistinctSize(xs: seq<Key>)
    requires Distinct(xs)
    ensures |set x | x in xs| == |xs|
    decreases |xs|
  {
    if xs != [] {
      var front, last := xs[..|xs| - 1], xs[|xs| - 1];
      DistinctSize(front);
      assert xs == front + [last];
      assert (set x | x in xs) == (set x | x in front) + {last};
    } else {
      assert (set x: Key | x in xs) == {};
    }
  }

  method VanishedKeys(measured: Scores, baseline: Scores, baselineKeys: seq<Key>) returns (vanished: seq<Key>)
    requires Walks(baselineKeys, baseline)
    ensures Distinct(vanished) && forall v :: v in vanished <==> v in baseline && v !in measured
  {
    vanished := [];
    for i := 0 to |baselineKeys|
      invariant Distinct(vanished) && forall v :: v in vanished <==> v in baselineKeys[..i] && v !in measured
    {
      assert baselineKeys[..i + 1] == baselineKeys[..i] + [baselineKeys[i]];
      if baselineKeys[i] !in measured {
        vanished := vanished + [baselineKeys[i]];
      }
    }
    assert baselineKeys[..|baselineKeys|] == baselineKeys;
  }

  method Keep(xs: seq<Key>, test: Key -> bool) returns (kept: seq<Key>)
    requires Distinct(xs)
    ensures Distinct(kept) && forall x :: x in kept <==> x in xs && test(x)
  {
    kept := [];
    for i := 0 to |xs|
      invariant Distinct(kept) && forall x :: x in kept <==> x in xs[..i] && test(x)
    {
      assert xs[..i + 1] == xs[..i] + [xs[i]];
      if test(xs[i]) {
        kept := kept + [xs[i]];
      }
    }
    assert xs[..|xs|] == xs;
  }

  /** The one entry a new key may take, if there is one. */
  method ClaimOf(new_: Key, vanished: seq<Key>, measured: Scores, baseline: Scores,
                 ccNow: Complexities, ccBase: Complexities)
    returns (claim: Option<Key>)
    requires Distinct(vanished) && forall v :: v in vanished <==> v in baseline && v !in measured
    ensures claim.Some? ==> Candidates(new_, measured, baseline, ccNow, ccBase) == {claim.value}
    ensures claim.None? ==> |Candidates(new_, measured, baseline, ccNow, ccBase)| != 1
  {
    var same := Keep(vanished, v => FnName(v) == FnName(new_));
    DistinctSize(same);
    assert (set v | v in same) == SameName(new_, measured, baseline);
    if |same| > 1 {
      same := Keep(same, v => SameComplexity(v, new_, ccNow, ccBase));
      DistinctSize(same);
    }
    assert (set v | v in same) == Candidates(new_, measured, baseline, ccNow, ccBase);
    if |same| == 1 {
      assert (set v | v in same) == {same[0]};
      return Some(same[0]);
    }
    return None;
  }

  /** Each entry's claimants among `news`. */
  ghost predicate Claimed(claims: map<Key, seq<Key>>, news: seq<Key>, claim: (Key, Key) -> bool) {
    && (forall o | o in claims :: claims[o] != [] && Distinct(claims[o]))
    && (forall o, n | o in claims && n in claims[o] :: n in news && claim(n, o))
    && (forall o, n | n in news && claim(n, o) :: o in claims && n in claims[o])
  }

  lemma ClaimAdded(claims: map<Key, seq<Key>>, news: seq<Key>, new_: Key, old_: Key, claim: (Key, Key) -> bool)
    requires Claimed(claims, news, claim)
    requires new_ !in news && claim(new_, old_) && forall o | claim(new_, o) :: o == old_
    ensures Claimed(claims[old_ := (if old_ in claims then claims[old_] else []) + [new_]], news + [new_], claim)
  {
    var was := if old_ in claims then claims[old_] else [];
    assert new_ !in was;
    assert Distinct(was + [new_]);
  }

  method GatherClaims(measured: Scores, measuredKeys: seq<Key>, baseline: Scores, baselineKeys: seq<Key>,
                      ccNow: Complexities, ccBase: Complexities)
    returns (claims: map<Key, seq<Key>>)
    requires Walks(measuredKeys, measured) && Walks(baselineKeys, baseline)
    ensures Claimed(claims, measuredKeys, (n, o) => Claims(n, o, measured, baseline, ccNow, ccBase))
  {
    ghost var claimRel := (n, o) => Claims(n, o, measured, baseline, ccNow, ccBase);
    var vanished := VanishedKeys(measured, baseline, baselineKeys);
    claims := map[];
    for i := 0 to |measuredKeys|
      invariant Claimed(claims, measuredKeys[..i], claimRel)
    {
      var new_ := measuredKeys[i];
      assert measuredKeys[..i + 1] == measuredKeys[..i] + [new_];
      if new_ !in baseline {
        var claim := ClaimOf(new_, vanished, measured, baseline, ccNow, ccBase);
        if claim.Some? {
          assert forall o | claimRel(new_, o) :: o in {claim.value};
          ClaimAdded(claims, measuredKeys[..i], new_, claim.value, claimRel);
          claims := claims[claim.value := (if claim.value in claims then claims[claim.value] else []) + [new_]];
        }
      }
    }
    assert measuredKeys[..|measuredKeys|] == measuredKeys;
  }

  lemma LoneClaim(claims: map<Key, seq<Key>>, news: seq<Key>, old_: Key, claim: (Key, Key) -> bool)
    requires Claimed(claims, news, claim) && old_ in claims && |claims[old_]| == 1
    ensures claim(claims[old_][0], old_)
    ensures forall other | other in news && claim(other, old_) :: other == claims[old_][0]
  {
    assert claims[old_][0] in claims[old_];
    forall other | other in news && claim(other, old_) ensures other == claims[old_][0] {
      assert other in claims[old_];
    }
  }

  lemma SoleClaimant(claims: map<Key, seq<Key>>, news: seq<Key>, new_: Key, old_: Key, claim: (Key, Key) -> bool)
    requires Claimed(claims, news, claim) && new_ in news
    requires claim(new_, old_) && forall n | claim(n, old_) :: n == new_
    ensures old_ in claims && claims[old_] == [new_]
  {
    var list := claims[old_];
    forall i | 0 <= i < |list| ensures list[i] == new_ {
      assert list[i] in list;
      assert claim(list[i], old_);
    }
    assert list[0] == list[|list| - 1];
  }

  /** Every move there is. */
  ghost function MovesOf(measured: Scores, baseline: Scores, ccNow: Complexities, ccBase: Complexities)
    : (found: map<Key, Key>)
    ensures FindsMoves(found, measured, baseline, ccNow, ccBase)
  {
    var movers := set n | n in measured && exists o :: IsMove(n, o, measured, baseline, ccNow, ccBase);
    var found := map n | n in movers :: Origin(n, measured, baseline, ccNow, ccBase);
    assert forall n, o | IsMove(n, o, measured, baseline, ccNow, ccBase) :: n in movers && found[n] == o;
    found
  }

  ghost function Origin(new_: Key, measured: Scores, baseline: Scores, ccNow: Complexities, ccBase: Complexities): (o: Key)
    requires exists o :: IsMove(new_, o, measured, baseline, ccNow, ccBase)
    ensures IsMove(new_, o, measured, baseline, ccNow, ccBase)
    ensures forall p | IsMove(new_, p, measured, baseline, ccNow, ccBase) :: p == o
  {
    var o :| IsMove(new_, o, measured, baseline, ccNow, ccBase);
    assert forall p | IsMove(new_, p, measured, baseline, ccNow, ccBase) :: p in {o};
    o
  }

  /** Whatever order the dicts are walked in, the moves found are the ones the
      measurement and the baseline determine. */
  method FindMoves(measured: Scores, measuredKeys: seq<Key>, baseline: Scores, baselineKeys: seq<Key>,
                   ccNow: Complexities, ccBase: Complexities)
    returns (found: map<Key, Key>)
    requires Walks(measuredKeys, measured) && Walks(baselineKeys, baseline)
    ensures found == MovesOf(measured, baseline, ccNow, ccBase)
  {
    var claims := GatherClaims(measured, measuredKeys, baseline, baselineKeys, ccNow, ccBase);
    found := map[];
    var left := claims.Keys;
    while left != {}
      invariant left <= claims.Keys
      invariant forall n | n in found :: IsMove(n, found[n], measured, baseline, ccNow, ccBase)
      invariant forall o | o in claims.Keys - left && |claims[o]| == 1 :: claims[o][0] in found && found[claims[o][0]] == o
      decreases left
    {
      var old_ :| old_ in left;
      left := left - {old_};
      if |claims[old_]| == 1 {
        LoneClaim(claims, measuredKeys, old_, (n, o) => Claims(n, o, measured, baseline, ccNow, ccBase));
        OneOrigin(claims[old_][0], old_, found, measured, baseline, ccNow, ccBase);
        found := found[claims[old_][0] := old_];
      }
    }
    forall n, o | IsMove(n, o, measured, baseline, ccNow, ccBase) ensures n in found && found[n] == o {
      SoleClaimant(claims, measuredKeys, n, o, (n, o) => Claims(n, o, measured, baseline, ccNow, ccBase));
    }
    SameMoves(found, MovesOf(measured, baseline, ccNow, ccBase), measured, baseline, ccNow, ccBase);
  }

  lemma OneOrigin(new_: Key, old_: Key, found: map<Key, Key>, measured: Scores, baseline: Scores,
                  ccNow: Complexities, ccBase: Complexities)
    requires IsMove(new_, old_, measured, baseline, ccNow, ccBase)
    requires forall n | n in found :: IsMove(n, found[n], measured, baseline, ccNow, ccBase)
    ensures new_ in found ==> found[new_] == old_
  {
    if new_ in found {
      assert old_ in Candidates(new_, measured, baseline, ccNow, ccBase);
    }
  }

  // ---- what the moves are -----------------------------------------------------------------

  /** A partial matching of new keys to vanished entries. */
  ghost predicate Matching(found: map<Key, Key>, measured: Scores, baseline: Scores) {
    && (forall n | n in found :: n in measured && n !in baseline && found[n] in baseline && found[n] !in measured)
    && (forall m, n | m in found && n in found && found[m] == found[n] :: m == n)
  }

  /** The moves are injective, from new keys to vanished ones, between
      functions of one name, and the only moves there are. */
  lemma {:induction false} MovesMatch(found: map<Key, Key>, other: map<Key, Key>, measured: Scores, baseline: Scores,
                   ccNow: Complexities, ccBase: Complexities)
    requires FindsMoves(found, measured, baseline, ccNow, ccBase)
    ensures Matching(found, measured, baseline)
    ensures forall n | n in found :: FnName(n) == FnName(found[n])
    ensures FindsMoves(other, measured, baseline, ccNow, ccBase) ==> other == found
  {
    forall n | n in found
      ensures n in measured && n !in baseline && found[n] in baseline && found[n] !in measured
      ensures FnName(n) == FnName(found[n])
    {
      assert IsMove(n, found[n], measured, baseline, ccNow, ccBase);
      assert found[n] in Candidates(n, measured, baseline, ccNow, ccBase);
    }
    forall m, n | m in found && n in found && found[m] == found[n] ensures m == n {
      assert IsMove(m, found[m], measured, baseline, ccNow, ccBase);
      assert IsMove(n, found[n], measured, baseline, ccNow, ccBase);
    }
    if FindsMoves(other, measured, baseline, ccNow, ccBase) {
      SameMoves(found, other, measured, baseline, ccNow, ccBase);
    }
  }

  lemma SameMoves(found: map<Key, Key>, other: map<Key, Key>, measured: Scores, baseline: Scores,
                  ccNow: Complexities, ccBase: Complexities)
    requires FindsMoves(found, measured, baseline, ccNow, ccBase)
    requires FindsMoves(other, measured, baseline, ccNow, ccBase)
    ensures other == found
  {
    forall n | n in found ensures n in other && other[n] == found[n] {
      assert IsMove(n, found[n], measured, baseline, ccNow, ccBase);
    }
    forall n | n in other ensures n in found {
      assert IsMove(n, other[n], measured, baseline, ccNow, ccBase);
    }
  }

  /** The baseline with each moved entry under its new key. */
  function WithMoves(baseline: Scores, found: map<Key, Key>): Scores
    requires forall n | n in found :: found[n] in baseline
  {
    (map k | k in baseline && k !in found.Values :: baseline[k]) +
    (map n | n in found :: baseline[found[n]])
  }

  // ---- what a move is, without the candidates --------------------------------------------------

  /** `old` is a vanished entry with the function name of `new`, a new key. */
  predicate MayBe(new_: Key, old_: Key, measured: Scores, baseline: Scores) {
    new_ in measured && new_ !in baseline && old_ in baseline && old_ !in measured && FnName(new_) == FnName(old_)
  }

  predicate AsComplex(new_: Key, old_: Key, ccNow: Complexities, ccBase: Complexities) {
    new_ in ccNow && old_ in ccBase && ccNow[new_] == ccBase[old_]
  }

  /** It is the only such entry, or the only one of the complexity `new` has. */
  ghost predicate Takes(new_: Key, old_: Key, measured: Scores, baseline: Scores, ccNow: Complexities, ccBase: Complexities) {
    && MayBe(new_, old_, measured, baseline)
    && (|| (forall v | MayBe(new_, v, measured, baseline) :: v == old_)
        || (AsComplex(new_, old_, ccNow, ccBase)
            && forall v | MayBe(new_, v, measured, baseline) && AsComplex(new_, v, ccNow, ccBase) :: v == old_))
  }

  lemma LoneSet(s: set<Key>, x: Key)
    requires x in s
    ensures |s| > 1 <==> exists y :: y in s && y != x
  {
    var others := s - {x};
    assert s == others + {x};
    if y :| y in s && y != x {
      assert y in others;
    } else {
      assert others == {};
    }
  }

  lemma ClaimsIsTakes(n: Key, o: Key, measured: Scores, baseline: Scores, ccNow: Complexities, ccBase: Complexities)
    ensures Claims(n, o, measured, baseline, ccNow, ccBase) <==> Takes(n, o, measured, baseline, ccNow, ccBase)
  {
    if n in measured && n !in baseline {
      var same := SameName(n, measured, baseline);
      assert forall v :: v in same <==> MayBe(n, v, measured, baseline);
      if o in same {
        LoneSet(same, o);
        CandidatesAre(n, o, measured, baseline, ccNow, ccBase);
      } else {
        assert o !in Candidates(n, measured, baseline, ccNow, ccBase);
      }
    }
  }

  lemma CandidatesAre(n: Key, o: Key, measured: Scores, baseline: Scores, ccNow: Complexities, ccBase: Complexities)
    requires o in SameName(n, measured, baseline)
    ensures var same := SameName(n, measured, baseline);
            Candidates(n, measured, baseline, ccNow, ccBase) == {o} <==>
            if |same| > 1 then AsComplex(n, o, ccNow, ccBase) && forall v | v in same && AsComplex(n, v, ccNow, ccBase) :: v == o
            else forall v | v in same :: v == o
  {
    var same := SameName(n, measured, baseline);
    var found := Candidates(n, measured, baseline, ccNow, ccBase);
    assert forall v :: v in found <==> v in same && (|same| > 1 ==> AsComplex(n, v, ccNow, ccBase));
    if o in found && forall v | v in found :: v == o {
      assert found == {o};
    }
  }

  /** The moves are exactly these: the new key takes one vanished entry of its
      function name, the only one or the only one of its complexity, and no other
      new key takes that entry. */
  lemma MoveIff(found: map<Key, Key>, measured: Scores, baseline: Scores, ccNow: Complexities, ccBase: Complexities, n: Key, o: Key)
    requires FindsMoves(found, measured, baseline, ccNow, ccBase)
    ensures n in found && found[n] == o <==>
            && Takes(n, o, measured, baseline, ccNow, ccBase)
            && forall m | Takes(m, o, measured, baseline, ccNow, ccBase) :: m == n
  {
    forall m ensures Claims(m, o, measured, baseline, ccNow, ccBase) <==> Takes(m, o, measured, baseline, ccNow, ccBase) {
      ClaimsIsTakes(m, o, measured, baseline, ccNow, ccBase);
    }
    assert IsMove(n, o, measured, baseline, ccNow, ccBase) <==> n in found && found[n] == o;
  }
}
