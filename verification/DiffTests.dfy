/**
 From a diff to the blocks of the files it changes: the walk's test ranges are
 the character-level blocks of the cfg(test) modules, so an added line counts
 exactly when it stands outside them all.
 */
module DiffTests {
  import opened Wrappers
  import opened RustText
  import opened BraceDeltas
  import opened RustBlocks
  import opened RangesAgree
  import TestRanges
  import opened DiffWalk
  import opened DiffPrinted
  import opened DiffExact

  /** A file's text, and its lines as the range walk sees them. */
  datatype Source = Source(text: string, lines: seq<TestRanges.Line>)

  function BracesOf(src: Source): seq<nat> {
    Braces(src.text, 0, Code)
  }

  /** The block that the header on line `l` opens with its first brace, `k`,
      closes at `p`. */
  ghost predicate TestBlock(src: Source, l: nat, k: nat, p: nat) {
    && TestRanges.Opens(src.lines, l) && HeaderBrace(src.text, BracesOf(src), k, l)
    && Match(src.text, BracesOf(src)[k + 1..], 1) == Some(p)
  }

  /** The line, counted from 1, is in a cfg(test) block... */
  ghost predicate InTestBlock(src: Source, line: int) {
    exists l: nat, k: nat, p: nat :: TestBlock(src, l, k, p) && l + 1 <= line <= LineOf(src.text, p) + 1
  }

  /** ... or is a cfg(test) item that opens none, `mod t;` say. */
  predicate IsLoneTest(src: Source, line: int) {
    line > 0 && TestRanges.Lone(src.lines, line - 1)
  }

  /** The block from brace `k` of the header on line `l`, if it closes, closes on
      a later line that does not open again above the header's depth. */
  ghost predicate ClosesTidily(src: Source, l: nat, k: nat) {
    && l < |src.lines| && HeaderBrace(src.text, BracesOf(src), k, l)
    && var close := Match(src.text, BracesOf(src)[k + 1..], 1);
       close.Some? ==>
         && l < LineOf(src.text, close.value) < |src.lines|
         && TestRanges.Depth(src.lines, LineOf(src.text, close.value) + 1) <= TestRanges.Depth(src.lines, l)
  }

  /** A file both scans read alike, whose cfg(test) blocks are such. */
  ghost predicate Tidy(src: Source) {
    && SameQuotes(src.text) && Reads(src.text, src.lines) && TestRanges.Steady(src.lines)
    && forall l: nat | TestRanges.Opens(src.lines, l) :: exists k: nat :: ClosesTidily(src, l, k)
  }

  lemma FirstBraceIsOne(text: string, bs: seq<nat>, j: nat, k: nat, l: nat)
    requires HeaderBrace(text, bs, j, l) && HeaderBrace(text, bs, k, l)
    ensures j == k
  {
  }

  lemma TidyBlock(src: Source, l: nat, k: nat, p: nat)
    requires Tidy(src) && TestBlock(src, l, k, p)
    ensures ClosesTidily(src, l, k)
  {
    var j: nat :| ClosesTidily(src, l, j);
    FirstBraceIsOne(src.text, BracesOf(src), j, k, l);
  }

  lemma BlockIsRange(src: Source, l: nat, k: nat, p: nat)
    requires Tidy(src) && TestBlock(src, l, k, p)
    ensures TestRanges.Range(l + 1, LineOf(src.text, p) + 1) in TestRanges.Scanned(src.lines).ranges
  {
    TidyBlock(src, l, k, p);
    RangeIsBlock(src.text, src.lines, BracesOf(src), k, l, p);
  }

  /** Every range that returns is some header's block. */
  lemma RangeIsSome(src: Source, r: TestRanges.Range) returns (l: nat, k: nat, p: nat)
    requires Tidy(src) && r in TestRanges.Scanned(src.lines).ranges
    requires r.first > 0 && TestRanges.Returns(src.lines, r.first - 1, r.last)
    ensures TestBlock(src, l, k, p) && r == TestRanges.Range(l + 1, LineOf(src.text, p) + 1)
  {
    TestRanges.RangesAreReturns(src.lines, r);
    l := r.first - 1;
    k :| ClosesTidily(src, l, k);
    p := CloseOf(src, l, k, r);
    BlockIsRange(src, l, k, p);
    TestRanges.RangesAreReturns(src.lines, TestRanges.Range(l + 1, LineOf(src.text, p) + 1));
    OneReturn(src.lines, l, r.last, LineOf(src.text, p) + 1);
  }

  lemma CloseOf(src: Source, l: nat, k: nat, r: TestRanges.Range) returns (p: nat)
    requires Tidy(src) && TestRanges.Opens(src.lines, l) && ClosesTidily(src, l, k)
    requires r in TestRanges.Scanned(src.lines).ranges && r.first == l + 1
    ensures TestBlock(src, l, k, p)
  {
    var close := Match(src.text, BracesOf(src)[k + 1..], 1);
    if close.None? {
      UnclosedHasNoRange(src.text, src.lines, BracesOf(src), k, l, r);
      assert false;
    }
    p := close.value;
  }

  lemma OneReturn(lines: seq<TestRanges.Line>, l: nat, e: nat, f: nat)
    requires TestRanges.Returns(lines, l, e) && TestRanges.Returns(lines, l, f)
    ensures e == f
  {
  }

  lemma RangeToItem(src: Source, r: TestRanges.Range, line: int)
    requires Tidy(src) && r in TestRanges.Scanned(src.lines).ranges && r.first <= line <= r.last
    ensures InTestBlock(src, line) || IsLoneTest(src, line)
  {
    TestRanges.RangesAreReturns(src.lines, r);
    if TestRanges.Returns(src.lines, r.first - 1, r.last) {
      var l, k, p := RangeIsSome(src, r);
    }
  }

  lemma ItemToRange(src: Source, line: int) returns (r: TestRanges.Range)
    requires Tidy(src) && (InTestBlock(src, line) || IsLoneTest(src, line))
    ensures r in TestRanges.Scanned(src.lines).ranges && r.first <= line <= r.last
  {
    if InTestBlock(src, line) {
      var l: nat, k: nat, p: nat :| TestBlock(src, l, k, p) && l + 1 <= line <= LineOf(src.text, p) + 1;
      BlockIsRange(src, l, k, p);
      r := TestRanges.Range(l + 1, LineOf(src.text, p) + 1);
    } else {
      r := TestRanges.Range(line, line);
      TestRanges.RangesAreReturns(src.lines, r);
    }
  }

  /** The lines in some range are those in some block, and the lone items. */
  lemma RangesAreBlocks(src: Source, line: int)
    requires Tidy(src)
    ensures InRanges(TestRanges.Scanned(src.lines).ranges, line) <==> InTestBlock(src, line) || IsLoneTest(src, line)
  {
    var ranges := TestRanges.Scanned(src.lines).ranges;
    if InRanges(ranges, line) {
      var i :| 0 <= i < |ranges| && ranges[i].first <= line <= ranges[i].last;
      RangeToItem(src, ranges[i], line);
    } else if InTestBlock(src, line) || IsLoneTest(src, line) {
      var r := ItemToRange(src, line);
    }
  }

  // ---- the added lines ----------------------------------------------------------------

  /** Whether an added line counts, by its file's ranges. */
  predicate CountsHere(cfg: Setting, v: Visit) {
    && v.path.Some? && !cfg.underTests(v.path.value) && cfg.reachable(v.path.value) && cfg.countable(v.text)
    && (var ranges := cfg.testRanges(v.path.value); ranges.Some? ==> !InRanges(ranges.value, v.line))
  }

  ghost predicate AllCountHere(cfg: Setting, visits: seq<Visit>) {
    forall v | v in visits && v.path.Some? && cfg.testRanges(v.path.value).Some? :: v.counts <==> CountsHere(cfg, v)
  }

  lemma {:induction false} EditsCountHere(cfg: Setting, path: Option<string>, hint: string, first: nat, edits: seq<Edit>)
    ensures AllCountHere(cfg, AddedBy(cfg, path, hint, first, edits))
    decreases |edits|
  {
    if edits != [] {
      EditsCountHere(cfg, path, hint, first, edits[..|edits| - 1]);
    }
  }

  lemma {:induction false} FileCountsHere(cfg: Setting, path: Option<string>, pieces: seq<Piece>)
    ensures AllCountHere(cfg, AddedInFile(cfg, path, pieces))
    decreases |pieces|
  {
    if pieces != [] {
      var before, last := pieces[..|pieces| - 1], pieces[|pieces| - 1];
      FileCountsHere(cfg, path, before);
      if last.Hunk? {
        EditsCountHere(cfg, path, last.hint, |NewFile(before)| + 1, last.edits);
      }
    }
  }

  lemma {:induction false} DiffCountsHere(cfg: Setting, diff: seq<Patch>)
    ensures AllCountHere(cfg, AddedInDiff(cfg, diff))
    decreases |diff|
  {
    if diff != [] {
      DiffCountsHere(cfg, diff[..|diff| - 1]);
      FileCountsHere(cfg, diff[|diff| - 1].path, diff[|diff| - 1].pieces);
    }
  }

  /** End to end: over a printed diff, a line the walk meets in a tidy file is
      counted exactly when its file is in scope, its text is countable, and it
      stands outside every cfg(test) item of the new file. */
  lemma CountsOutsideTests(cfg: Setting, diff: seq<Patch>, v: Visit, src: Source)
    requires AllWellFormed(diff) && PlainDiff(diff)
    requires v in Visits(cfg, DiffWalk.START, PrintDiff(diff)) && v.path.Some?
    requires Tidy(src) && cfg.testRanges(v.path.value) == Some(TestRanges.Scanned(src.lines).ranges)
    ensures v.counts <==> !cfg.underTests(v.path.value) && cfg.reachable(v.path.value) && cfg.countable(v.text)
                          && !InTestBlock(src, v.line) && !IsLoneTest(src, v.line)
  {
    WalkIsExact(cfg, diff);
    DiffCountsHere(cfg, diff);
    RangesAreBlocks(src, v.line);
  }
}
