/**
 The unified-diff walk behind the mutation floor (scripts/ci-mutants-summary.py,
 `count_added_lines`): which file and which new-file line each added line
 belongs to, and whether it could have produced a mutant.

 The diff is its lines. The file system, the hint pattern and the shape test
 on one line's text are parameters, so what holds, holds for all of them.
 */
module DiffWalk {
  import opened Wrappers
  import TestRanges

  type Range = TestRanges.Range

  datatype Setting = Setting(
    reachable: string -> bool,             // in this invocation's mutation scope
    underTests: string -> bool,            // under a `tests` directory
    testRanges: string -> Option<seq<Range>>,  // the file's test ranges, if it could be read
    hintIsTest: string -> bool,            // a hunk's trailing text names a test module
    countable: string -> bool              // `added_line_is_countable`
  )

  // ---- reading one line ---------------------------------------------------------------

  const GIT := "diff --git "
  const DEV_NULL := "/dev/null"

  predicate StartsWith(line: string, prefix: string) {
    |prefix| <= |line| && line[..|prefix|] == prefix
  }

  predicate IsDigit(c: char) {
    '0' <= c <= '9'
  }

  /** Where a run of digits starting at `i` ends. */
  function DigitsEnd(s: string, i: nat): (j: nat)
    requires i <= |s|
    ensures i <= j <= |s|
    decreases |s| - i
  {
    if i < |s| && IsDigit(s[i]) then DigitsEnd(s, i + 1) else i
  }

  function Number(digits: string): nat
    requires forall i | 0 <= i < |digits| :: IsDigit(digits[i])
  {
    if digits == [] then 0
    else
      assert IsDigit(digits[|digits| - 1]);
      10 * Number(digits[..|digits| - 1]) + (digits[|digits| - 1] as int - '0' as int)
  }

  /** Past `start[,count]` at `i`, and what the start was. */
  function RangeAt(s: string, i: nat): (r: Option<(string, nat)>)
    requires i <= |s|
    ensures r.Some? ==> i < r.value.1 <= |s| && forall k | 0 <= k < |r.value.0| :: IsDigit(r.value.0[k])
  {
    var j := DigitsEnd(s, i);
    DigitsAre(s, i);
    if j == i then None
    else if j < |s| && s[j] == ',' && DigitsEnd(s, j + 1) > j + 1 then Some((s[i..j], DigitsEnd(s, j + 1)))
    else Some((s[i..j], j))
  }

  lemma {:induction false} DigitsAre(s: string, i: nat)
    requires i <= |s|
    ensures forall k | i <= k < DigitsEnd(s, i) :: IsDigit(s[k])
    ensures DigitsEnd(s, i) < |s| ==> !IsDigit(s[DigitsEnd(s, i)])
    decreases |s| - i
  {
    if i < |s| && IsDigit(s[i]) {
      DigitsAre(s, i + 1);
    }
  }

  predicate Two(s: string, i: nat, a: char, b: char) {
    i + 2 <= |s| && s[i] == a && s[i + 1] == b
  }

  /** The new side's start and the trailing text of a well-formed hunk header:
      `@@ -start[,count] +start[,count] @@hint`. */
  function HunkHeader(line: string): Option<(nat, string)> {
    if !(Two(line, 0, '@', '@') && Two(line, 2, ' ', '-')) then None
    else
      var old_ := RangeAt(line, 4);
      if old_.None? || !Two(line, old_.value.1, ' ', '+') then None
      else
        var new_ := RangeAt(line, old_.value.1 + 2);
        if new_.None? then None
        else
          var k := new_.value.1;
          if Two(line, k, ' ', '@') && k + 2 < |line| && line[k + 2] == '@'
          then Some((Number(new_.value.0), line[k + 3..]))
          else None
  }

  datatype Kind =
    | GitLine
    | FileLine(path: Option<string>)
    | HunkLine(header: Option<(nat, string)>)
    | AddedLine(text: string)
    | ContextLine
    | OtherLine

  /** The path a `+++` line names, if it names a file. */
  function HeaderPath(line: string): Option<string> {
    var raw := if |line| >= 4 && line[3] == ' ' then line[4..] else "";
    var path := if Two(raw, 0, 'b', '/') then raw[2..] else raw;
    if path == "" || path == DEV_NULL then None else Some(path)
  }

  function Classify(line: string): Kind {
    if StartsWith(line, GIT) then GitLine
    else if Two(line, 0, '+', '+') && |line| > 2 && line[2] == '+' then FileLine(HeaderPath(line))
    else if Two(line, 0, '@', '@') then HunkLine(HunkHeader(line))
    else if |line| > 0 && line[0] == '+' then AddedLine(line[1..])
    else if |line| > 0 && line[0] == ' ' then ContextLine
    else OtherLine
  }

  // ---- the walk ---------------------------------------------------------------------------

  datatype Walker = Walker(added: nat, countable: nat, path: Option<string>, skip: bool,
                           ranges: Option<seq<Range>>, hunkAllTest: bool, newLine: int)

  const START := Walker(0, 0, None, false, None, false, 0)

  predicate Skipped(cfg: Setting, path: string) {
    cfg.underTests(path) || !cfg.reachable(path)
  }

  function RangesFor(cfg: Setting, path: string): Option<seq<Range>> {
    if Skipped(cfg, path) then None else cfg.testRanges(path)
  }

  predicate InRanges(ranges: seq<Range>, line: int) {
    exists k :: 0 <= k < |ranges| && ranges[k].first <= line <= ranges[k].last
  }

  /** Whether an added line with this text counts, where the walker stands. */
  predicate Counts(cfg: Setting, w: Walker, text: string) {
    && !w.skip
    && !(if w.ranges.Some? then InRanges(w.ranges.value, w.newLine) else w.hunkAllTest)
    && cfg.countable(text)
  }

  function Step(cfg: Setting, w: Walker, kind: Kind): Walker {
    match kind
    case GitLine => w.(path := None, skip := false, ranges := None, hunkAllTest := false)
    case FileLine(None) => w.(path := None, skip := false, ranges := None)
    case FileLine(Some(path)) =>
      w.(path := Some(path), skip := Skipped(cfg, path), ranges := RangesFor(cfg, path))
    case HunkLine(None) => w
    case HunkLine(Some((start, hint))) =>
      w.(newLine := start, hunkAllTest := w.ranges.None? && cfg.hintIsTest(hint))
    case AddedLine(text) =>
      w.(added := w.added + 1, countable := w.countable + (if Counts(cfg, w, text) then 1 else 0), newLine := w.newLine + 1)
    case ContextLine => w.(newLine := w.newLine + 1)
    case OtherLine => w
  }

  /** Of the other lines only a hunk header that reads moves the walk: a removed
      line, a `\ No newline` and a header cut short leave it where it was. */
  lemma OthersMoveNothing(cfg: Setting, w: Walker, line: string)
    requires !StartsWith(line, "diff --git ") && HunkHeader(line).None?
    requires line != "" ==> line[0] != '+' && line[0] != ' '
    ensures Step(cfg, w, Classify(line)) == w
  {
  }

  function Walked(cfg: Setting, w: Walker, lines: seq<string>): Walker
    decreases |lines|
  {
    if lines == [] then w
    else Step(cfg, Walked(cfg, w, lines[..|lines| - 1]), Classify(lines[|lines| - 1]))
  }

  lemma {:induction false} WalkedConcat(cfg: Setting, w: Walker, a: seq<string>, b: seq<string>)
    ensures Walked(cfg, w, a + b) == Walked(cfg, Walked(cfg, w, a), b)
    decreases |b|
  {
    if b == [] {
      assert a + b == a;
    } else {
      WalkedConcat(cfg, w, a, b[..|b| - 1]);
      assert (a + b)[..|a + b| - 1] == a + b[..|b| - 1];
    }
  }

  method InTestRange(ranges: seq<Range>, line: int) returns (inside: bool)
    ensures inside == InRanges(ranges, line)
  {
    for k := 0 to |ranges|
      invariant !InRanges(ranges[..k], line)
    {
      if ranges[k].first <= line <= ranges[k].last {
        return true;
      }
    }
    return false;
  }

  method CountAddedLines(cfg: Setting, lines: seq<string>) returns (added: nat, countable: nat)
    ensures added == Walked(cfg, START, lines).added && countable == Walked(cfg, START, lines).countable
  {
    added, countable := 0, 0;
    var path: Option<string> := None;
    var skipFile := false;
    var fileRanges: Option<seq<Range>> := None;
    var hunkAllTest := false;
    var newLine := 0;
    for i := 0 to |lines|
      invariant Walker(added, countable, path, skipFile, fileRanges, hunkAllTest, newLine) == Walked(cfg, START, lines[..i])
    {
      assert lines[..i + 1][..i] == lines[..i];
      match Classify(lines[i]) {
        case GitLine =>
          path, skipFile, fileRanges, hunkAllTest := None, false, None, false;
        case FileLine(None) =>
          path, skipFile, fileRanges := None, false, None;
        case FileLine(Some(raw)) =>
          path := Some(raw);
          skipFile := cfg.underTests(raw);
          if !skipFile && !cfg.reachable(raw) {
            skipFile := true;
          }
          if skipFile {
            fileRanges := None;
          } else {
            fileRanges := cfg.testRanges(raw);
          }
        case HunkLine(None) =>
        case HunkLine(Some((start, hint))) =>
          newLine := start;
          hunkAllTest := fileRanges.None? && cfg.hintIsTest(hint);
        case ContextLine =>
          newLine := newLine + 1;
        case OtherLine =>
        case AddedLine(text) =>
          added := added + 1;
          if skipFile {
            newLine := newLine + 1;
            continue;
          }
          var excluded: bool;
          if fileRanges.Some? {
            excluded := InTestRange(fileRanges.value, newLine);
          } else {
            excluded := hunkAllTest;
          }
          if !excluded && cfg.countable(text) {
            countable := countable + 1;
          }
          newLine := newLine + 1;
      }
    }
    assert lines[..|lines|] == lines;
  }

  // ---- narrowing the scope -------------------------------------------------------------------

  /** Two walks of one diff, the first under a narrower scope: the narrower
      skips what the wider does, and agrees with it on every file it keeps. */
  ghost predicate Narrower(a: Walker, b: Walker) {
    && a.added == b.added && a.countable <= b.countable && a.newLine == b.newLine && a.path == b.path
    && (b.skip ==> a.skip)
    && (!a.skip ==> a.ranges == b.ranges)
    && (b.ranges.None? ==> a.ranges.None?)
    && (b.hunkAllTest ==> a.hunkAllTest)
  }

  lemma NarrowerStep(narrow: Setting, wide: Setting, a: Walker, b: Walker, kind: Kind)
    requires narrow == wide.(reachable := narrow.reachable)
    requires forall p :: narrow.reachable(p) ==> wide.reachable(p)
    requires Narrower(a, b)
    ensures Narrower(Step(narrow, a, kind), Step(wide, b, kind))
  {
  }

  /** Narrowing the scope adds nothing: the same lines are added, and no more
      of them count. */
  lemma {:induction false} NarrowingOnlyExcludes(narrow: Setting, wide: Setting, lines: seq<string>)
    requires narrow == wide.(reachable := narrow.reachable)
    requires forall p :: narrow.reachable(p) ==> wide.reachable(p)
    ensures Narrower(Walked(narrow, START, lines), Walked(wide, START, lines))
    decreases |lines|
  {
    if lines != [] {
      var before := lines[..|lines| - 1];
      NarrowingOnlyExcludes(narrow, wide, before);
      NarrowerStep(narrow, wide, Walked(narrow, START, before), Walked(wide, START, before), Classify(lines[|lines| - 1]));
    }
  }

  lemma {:induction false} CountableAtMostAdded(cfg: Setting, lines: seq<string>)
    ensures Walked(cfg, START, lines).countable <= Walked(cfg, START, lines).added
    decreases |lines|
  {
    if lines != [] {
      CountableAtMostAdded(cfg, lines[..|lines| - 1]);
    }
  }

  datatype Breakdown = Breakdown(added: int, structure: int, manifest: int, listing: int, countable: int)

  function Scoped(cfg: Setting, reachable: string -> bool): Setting {
    cfg.(reachable := reachable)
  }

  /** The exclusions the floor's log reports: what structure alone drops, what
      the manifest's scope drops after that, and what the listing drops last.
      A scope that was not given reaches everything. */
  method CountChangedLines(cfg: Setting, lines: seq<string>, manifest: Option<string -> bool>, listed: Option<string -> bool>)
    returns (b: Breakdown)
    ensures b.structure >= 0 && b.manifest >= 0 && b.listing >= 0 && b.countable >= 0
    ensures b.structure + b.manifest + b.listing + b.countable == b.added
    ensures manifest.None? ==> b.manifest == 0
    ensures listed.None? ==> b.listing == 0
    ensures b.added == Walked(Scoped(cfg, _ => true), START, lines).added
    ensures b.structure == b.added - Walked(Scoped(cfg, _ => true), START, lines).countable
    ensures b.manifest + b.listing + b.countable == Walked(Scoped(cfg, _ => true), START, lines).countable
    ensures b.listing + b.countable ==
            Walked(Scoped(cfg, if manifest.Some? then manifest.value else _ => true), START, lines).countable
    ensures b.countable == Walked(Scoped(cfg, p => (manifest.Some? ==> manifest.value(p)) && (listed.Some? ==> listed.value(p))),
                                  START, lines).countable
  {
    var all := (p: string) => true;
    var inManifest := if manifest.Some? then manifest.value else all;
    var inBoth := p => (manifest.Some? ==> manifest.value(p)) && (listed.Some? ==> listed.value(p));
    var added, countable := CountAddedLines(Scoped(cfg, inBoth), lines);
    var _, unscoped := CountAddedLines(Scoped(cfg, all), lines);
    var _, inScope := CountAddedLines(Scoped(cfg, inManifest), lines);
    NarrowingOnlyExcludes(Scoped(cfg, inBoth), Scoped(cfg, inManifest), lines);
    NarrowingOnlyExcludes(Scoped(cfg, inManifest), Scoped(cfg, all), lines);
    CountableAtMostAdded(Scoped(cfg, all), lines);
    if manifest.None? {
      NarrowingOnlyExcludes(Scoped(cfg, all), Scoped(cfg, inManifest), lines);
    }
    if listed.None? {
      NarrowingOnlyExcludes(Scoped(cfg, inManifest), Scoped(cfg, inBoth), lines);
    }
    b := Breakdown(added, added - unscoped, unscoped - inScope, inScope - countable, countable);
  }
}
