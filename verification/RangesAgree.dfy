/**
 Line-summed depth against character-level matching: the test ranges of
 scripts/ci-mutants-summary.py and the blocks of scripts/rust_source.py.
 */
module RangesAgree {
  import opened Wrappers
  import opened RustText
  import opened BraceDeltas
  import opened RustBlocks
  import opened TestRanges

  /** The lines carry the counts the brace scan gives them. */
  ghost predicate Reads(text: string, lines: seq<Line>) {
    && |lines| == LineCount(text)
    && forall l | 0 <= l < |lines| ::
         lines[l].opens == CountOn(text, Braces(text, 0, Code), '{', l) &&
         lines[l].closes == CountOn(text, Braces(text, 0, Code), '}', l)
  }

  function LineOf(text: string, p: nat): nat {
    if p < |text| then Newlines(text, p) else 0
  }

  /** Openers less closers among the first `n` braces. */
  function Net(text: string, bs: seq<nat>, n: nat): int
    requires n <= |bs|
  {
    if n == 0 then 0 else Net(text, bs, n - 1) + DeltaAt(text, bs[n - 1])
  }

  /** ... and among those, the ones on lines before `l`. */
  function NetBefore(text: string, bs: seq<nat>, n: nat, l: nat): int
    requires n <= |bs|
  {
    if n == 0 then 0
    else NetBefore(text, bs, n - 1, l) + if LineOf(text, bs[n - 1]) < l then DeltaAt(text, bs[n - 1]) else 0
  }

  predicate InText(text: string, bs: seq<nat>) {
    forall i | 0 <= i < |bs| :: bs[i] < |text|
  }

  predicate Ascending(bs: seq<nat>) {
    forall i, j | 0 <= i < j < |bs| :: bs[i] < bs[j]
  }

  lemma {:induction false} BracesInside(text: string, i: nat, state: ScanState)
    ensures forall b | b in Braces(text, i, state) :: i <= b < |text| && IsBrace(text[b])
    decreases if i < |text| then |text| - i else 0
  {
    if i < |text| {
      BracesInside(text, StepFrom(text, i, state).0, StepFrom(text, i, state).1);
    }
  }

  lemma AscendCons(b: nat, rest: seq<nat>)
    requires Ascending(rest) && forall x | x in rest :: b < x
    ensures Ascending([b] + rest)
  {
    var all := [b] + rest;
    forall i, j | 0 <= i < j < |all| ensures all[i] < all[j] {
      assert all[j] == rest[j - 1] && rest[j - 1] in rest;
      assert i > 0 ==> all[i] == rest[i - 1];
    }
  }

  lemma {:induction false} BracesAscend(text: string, i: nat, state: ScanState)
    ensures Ascending(Braces(text, i, state)) && InText(text, Braces(text, i, state))
    decreases if i < |text| then |text| - i else 0
  {
    BracesInside(text, i, state);
    if i < |text| {
      var next := StepFrom(text, i, state);
      var rest := Braces(text, next.0, next.1);
      BracesAscend(text, next.0, next.1);
      BracesInside(text, next.0, next.1);
      if state == Code && IsBrace(text[i]) {
        AscendCons(i, rest);
      } else {
        assert [] + rest == rest;
      }
    }
  }

  lemma {:induction false} CountIsNet(text: string, bs: seq<nat>, n: nat, l: nat)
    requires n <= |bs| && InText(text, bs)
    ensures NetBefore(text, bs, n, l + 1) ==
            NetBefore(text, bs, n, l) + CountOn(text, bs[..n], '{', l) - CountOn(text, bs[..n], '}', l)
  {
    if n > 0 {
      CountIsNet(text, bs, n - 1, l);
      assert bs[..n] == bs[..n - 1] + [bs[n - 1]];
      CountOnAppend(text, bs[..n - 1], bs[n - 1], '{', l);
      CountOnAppend(text, bs[..n - 1], bs[n - 1], '}', l);
    }
  }

  lemma {:induction false} NoneBeforeFirst(text: string, bs: seq<nat>, n: nat)
    requires n <= |bs|
    ensures NetBefore(text, bs, n, 0) == 0
  {
    if n > 0 {
      NoneBeforeFirst(text, bs, n - 1);
    }
  }

  /** Line-summed depth is the net of the braces on the lines above. */
  lemma {:induction false} DepthIsNet(text: string, lines: seq<Line>, bs: seq<nat>, l: nat)
    requires Reads(text, lines) && bs == Braces(text, 0, Code) && InText(text, bs) && l <= |lines|
    ensures Depth(lines, l) == NetBefore(text, bs, |bs|, l)
    decreases l
  {
    if l == 0 {
      NoneBeforeFirst(text, bs, |bs|);
    } else {
      DepthIsNet(text, lines, bs, l - 1);
      CountIsNet(text, bs, |bs|, l - 1);
      assert bs[..|bs|] == bs;
    }
  }

  /** The braces before `k` are those on lines before `l`. */
  predicate Cuts(text: string, bs: seq<nat>, k: nat, l: nat) {
    k <= |bs| && forall i | 0 <= i < |bs| :: i < k <==> LineOf(text, bs[i]) < l
  }

  lemma {:induction false} CutNet(text: string, bs: seq<nat>, k: nat, l: nat, n: nat)
    requires Cuts(text, bs, k, l) && n <= |bs|
    ensures NetBefore(text, bs, n, l) == Net(text, bs, if n < k then n else k)
  {
    if n > 0 {
      CutNet(text, bs, k, l, n - 1);
    }
  }

  /** Some number of braces stands before each line. */
  lemma {:induction false} CutExists(text: string, bs: seq<nat>, l: nat) returns (k: nat)
    requires Ascending(bs) && InText(text, bs)
    ensures Cuts(text, bs, k, l)
  {
    k := |bs|;
    while k > 0 && LineOf(text, bs[k - 1]) >= l
      invariant k <= |bs| && forall i | k <= i < |bs| :: LineOf(text, bs[i]) >= l
    {
      k := k - 1;
    }
    forall i | 0 <= i < k ensures LineOf(text, bs[i]) < l {
      if i < k - 1 {
        NewlinesMonotone(text, bs[i], bs[k - 1]);
      }
    }
  }

  // ---- where a block closes --------------------------------------------------------------------

  /** From brace `j`, `depth` blocks deep, brace `m` is the first to close them. */
  ghost predicate ClosedBy(text: string, bs: seq<nat>, j: nat, depth: nat, m: nat) {
    && j <= m < |bs| && Net(text, bs, m + 1) == Net(text, bs, j) - depth
    && forall i | j < i <= m :: Net(text, bs, i) > Net(text, bs, j) - depth
  }

  lemma {:induction false} MatchCloses(text: string, bs: seq<nat>, j: nat, depth: nat) returns (m: nat)
    requires j <= |bs| && depth > 0
    ensures Match(text, bs[j..], depth).Some? ==> ClosedBy(text, bs, j, depth, m) && Match(text, bs[j..], depth).value == bs[m]
    ensures Match(text, bs[j..], depth).None? ==> forall i | j < i <= |bs| :: Net(text, bs, i) > Net(text, bs, j) - depth
    decreases |bs| - j
  {
    m := j;
    if j < |bs| {
      var next := depth + DeltaAt(text, bs[j]);
      assert bs[j..] == [bs[j]] + bs[j + 1..];
      MatchCons(text, bs[j], bs[j + 1..], depth);
      assert Net(text, bs, j + 1) == Net(text, bs, j) + DeltaAt(text, bs[j]);
      if next > 0 {
        m := MatchCloses(text, bs, j + 1, next);
      }
    }
  }

  lemma TailOf(b: nat, rest: seq<nat>, k: nat)
    requires 0 < k <= |rest|
    ensures ([b] + rest)[k] == rest[k - 1] || k == |rest|
    ensures k < |rest| + 1 ==> ([b] + rest)[k] == rest[k - 1] && ([b] + rest)[k + 1..] == rest[k..]
  {
  }

  lemma HeadOf(b: nat, rest: seq<nat>)
    ensures ([b] + rest)[0] == b && ([b] + rest)[1..] == rest
  {
  }

  /** The braces from some brace read as code on are the scan from there. */
  lemma {:induction false} ScanFromBrace(text: string, i: nat, state: ScanState, k: nat, bs: seq<nat>)
    requires bs == Braces(text, i, state) && k < |bs|
    ensures bs[k] < |text| && bs[k + 1..] == Braces(text, bs[k] + 1, Code)
    decreases if i < |text| then |text| - i else 0
  {
    if i < |text| {
      var next := StepFrom(text, i, state);
      var rest := Braces(text, next.0, next.1);
      if state == Code && IsBrace(text[i]) {
        HeadOf(i, rest);
        if k > 0 {
          ScanFromBrace(text, next.0, next.1, k - 1, rest);
          TailOf(i, rest, k);
        }
      } else {
        assert bs == rest;
        ScanFromBrace(text, next.0, next.1, k, rest);
      }
    }
  }

  // ---- the two readings --------------------------------------------------------------------------

  /** The module header on line `l`: its first brace is `bs[k]`. */
  predicate HeaderBrace(text: string, bs: seq<nat>, k: nat, l: nat) {
    k < |bs| && DeltaAt(text, bs[k]) == 1 && LineOf(text, bs[k]) == l && Cuts(text, bs, k, l)
  }

  /** Strictly inside the block the depth is above the header's. */
  lemma {:induction false} InsideIsDeeper(text: string, lines: seq<Line>, bs: seq<nat>, k: nat, l: nat, m: nat, n: nat)
    requires Reads(text, lines) && bs == Braces(text, 0, Code) && InText(text, bs) && Ascending(bs)
    requires HeaderBrace(text, bs, k, l) && l < n <= |lines|
    requires k < m <= |bs| && (m < |bs| ==> n <= LineOf(text, bs[m]))
    requires forall i | k + 1 < i <= m :: Net(text, bs, i) > Net(text, bs, k + 1) - 1
    ensures Depth(lines, n) > Depth(lines, l)
  {
    var c := CutExists(text, bs, n);
    assert k < c;
    assert m < |bs| ==> c <= m;
    DepthIsNet(text, lines, bs, l);
    DepthIsNet(text, lines, bs, n);
    CutNet(text, bs, k, l, |bs|);
    CutNet(text, bs, c, n, |bs|);
    assert Net(text, bs, k + 1) == Net(text, bs, k) + 1;
  }

  /** The walk from a header's brace, against the braces after it. */
  lemma BlockOf(text: string, bs: seq<nat>, k: nat)
    requires SameQuotes(text) && bs == Braces(text, 0, Code) && k < |bs|
    ensures EndsAt(text, BlockEndFrom(text, bs[k] + 1, 1), Match(text, bs[k + 1..], 1))
  {
    ScanFromBrace(text, 0, Code, k, bs);
    BlockEndIsMatch(text, bs[k] + 1, 1);
  }

  /** A header's range is its block, matched brace by brace, exactly when the
      line the block closes on does not open again above the header's depth. */
  lemma {:induction false} RangeIsBlock(text: string, lines: seq<Line>, bs: seq<nat>, k: nat, l: nat, p: nat)
    requires SameQuotes(text) && Reads(text, lines) && Steady(lines) && Header(lines, l)
    requires bs == Braces(text, 0, Code) && HeaderBrace(text, bs, k, l)
    requires Match(text, bs[k + 1..], 1) == Some(p) && LineOf(text, p) > l
    ensures BlockEndFrom(text, bs[k] + 1, 1) == p + 1 && LineOf(text, p) < |lines|
    ensures Range(l + 1, LineOf(text, p) + 1) in Scanned(lines).ranges <==>
            Depth(lines, LineOf(text, p) + 1) <= Depth(lines, l)
  {
    BlockOf(text, bs, k);
    var m := CodeMatch(text, bs, k);
    OnSomeLine(text, p);
    ClosedRange(text, lines, bs, k, l, m);
  }

  lemma CodeMatch(text: string, bs: seq<nat>, k: nat) returns (m: nat)
    requires bs == Braces(text, 0, Code) && k < |bs|
    ensures Ascending(bs) && InText(text, bs)
    ensures Match(text, bs[k + 1..], 1).Some? ==> ClosedBy(text, bs, k + 1, 1, m) && Match(text, bs[k + 1..], 1).value == bs[m]
    ensures Match(text, bs[k + 1..], 1).None? ==> forall i | k + 1 < i <= |bs| :: Net(text, bs, i) > Net(text, bs, k + 1) - 1
  {
    BracesAscend(text, 0, Code);
    m := MatchCloses(text, bs, k + 1, 1);
  }

  /** A block the text never closes has no range, and its walk runs off the end. */
  lemma {:induction false} UnclosedHasNoRange(text: string, lines: seq<Line>, bs: seq<nat>, k: nat, l: nat, r: Range)
    requires SameQuotes(text) && Reads(text, lines) && Steady(lines) && Header(lines, l)
    requires bs == Braces(text, 0, Code) && HeaderBrace(text, bs, k, l)
    requires Match(text, bs[k + 1..], 1).None?
    ensures BlockEndFrom(text, bs[k] + 1, 1) >= |text|
    ensures r in Scanned(lines).ranges ==> r.first != l + 1
  {
    BlockOf(text, bs, k);
    var m := CodeMatch(text, bs, k);
    RangesAreReturns(lines, r);
    if r in Scanned(lines).ranges && r.first == l + 1 {
      InsideIsDeeper(text, lines, bs, k, l, |bs|, l + 1);
      InsideIsDeeper(text, lines, bs, k, l, |bs|, r.last);
    }
  }

  lemma ClosedRange(text: string, lines: seq<Line>, bs: seq<nat>, k: nat, l: nat, m: nat)
    requires Reads(text, lines) && Steady(lines) && Header(lines, l)
    requires bs == Braces(text, 0, Code) && InText(text, bs) && Ascending(bs)
    requires HeaderBrace(text, bs, k, l) && ClosedBy(text, bs, k + 1, 1, m)
    requires l < LineOf(text, bs[m]) < |lines|
    ensures Range(l + 1, LineOf(text, bs[m]) + 1) in Scanned(lines).ranges <==>
            Depth(lines, LineOf(text, bs[m]) + 1) <= Depth(lines, l)
  {
    var last := LineOf(text, bs[m]);
    forall n | l < n < last + 1 ensures Depth(lines, n) > Depth(lines, l) {
      InsideIsDeeper(text, lines, bs, k, l, m, n);
    }
    HeaderOpens(lines, l);
    RangesAreReturns(lines, Range(l + 1, last + 1));
  }

  lemma HeaderOpens(lines: seq<Line>, l: nat)
    requires Header(lines, l) && Depth(lines, l + 1) > Depth(lines, l)
    ensures Opens(lines, l)
  {
  }
}
