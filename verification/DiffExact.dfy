/**
 What the diff walk sees in a printed diff (scripts/ci-mutants-summary.py,
 `count_added_lines`): exactly the lines the edit script adds, each at the
 place it has in the new file.
 */
module DiffExact {
  import opened Wrappers
  import opened DiffWalk
  import opened DiffPrinted

  /** An added line as the walk meets it, and whether it counts. */
  datatype Visit = Visit(path: Option<string>, line: int, text: string, counts: bool)

  /** The added lines a walk meets, in order. */
  function Visits(cfg: Setting, w: Walker, lines: seq<string>): seq<Visit>
    decreases |lines|
  {
    if lines == [] then []
    else
      var before := lines[..|lines| - 1];
      Visits(cfg, w, before) + VisitOf(cfg, Walked(cfg, w, before), Classify(lines[|lines| - 1]))
  }

  function VisitOf(cfg: Setting, w: Walker, kind: Kind): seq<Visit> {
    match kind
    case AddedLine(text) => [Visit(w.path, w.newLine, text, Counts(cfg, w, text))]
    case _ => []
  }

  function Counting(visits: seq<Visit>): nat
    decreases |visits|
  {
    if visits == [] then 0
    else Counting(visits[..|visits| - 1]) + if visits[|visits| - 1].counts then 1 else 0
  }

  /** The two totals are those of the visits. */
  lemma {:induction false} TotalsAreVisits(cfg: Setting, lines: seq<string>)
    ensures Walked(cfg, START, lines).added == |Visits(cfg, START, lines)|
    ensures Walked(cfg, START, lines).countable == Counting(Visits(cfg, START, lines))
    decreases |lines|
  {
    if lines != [] {
      var before := lines[..|lines| - 1];
      TotalsAreVisits(cfg, before);
      CountingOne(cfg, Visits(cfg, START, before), Walked(cfg, START, before), Classify(lines[|lines| - 1]));
    }
  }

  lemma CountingOne(cfg: Setting, seen: seq<Visit>, w: Walker, kind: Kind)
    requires w.added == |seen| && w.countable == Counting(seen)
    ensures Step(cfg, w, kind).added == |seen + VisitOf(cfg, w, kind)|
    ensures Step(cfg, w, kind).countable == Counting(seen + VisitOf(cfg, w, kind))
  {
    var more := VisitOf(cfg, w, kind);
    if kind.AddedLine? {
      assert (seen + more)[..|seen|] == seen;
    } else {
      assert seen + more == seen;
    }
  }

  lemma {:induction false} VisitsConcat(cfg: Setting, w: Walker, a: seq<string>, b: seq<string>)
    ensures Visits(cfg, w, a + b) == Visits(cfg, w, a) + Visits(cfg, Walked(cfg, w, a), b)
    decreases |b|
  {
    if b == [] {
      assert a + b == a;
    } else {
      var rest, last := b[..|b| - 1], b[|b| - 1];
      VisitsConcat(cfg, w, a, rest);
      WalkedConcat(cfg, w, a, rest);
      assert (a + b)[..|a + b| - 1] == a + rest;
      assert (a + b)[|a + b| - 1] == last;
    }
  }

  // ---- printing ---------------------------------------------------------------------------

  function OldCount(edits: seq<Edit>): nat
    decreases |edits|
  {
    if edits == [] then 0
    else OldCount(edits[..|edits| - 1]) + if edits[|edits| - 1].Add? then 0 else 1
  }

  function NewLines(edits: seq<Edit>): seq<string>
    decreases |edits|
  {
    if edits == [] then []
    else
      var e := edits[|edits| - 1];
      NewLines(edits[..|edits| - 1]) + if e.Delete? then [] else [e.text]
  }

  function PrintEdit(e: Edit): string {
    match e
    case Keep(t) => [' '] + t
    case Delete(t) => ['-'] + t
    case Add(t) => ['+'] + t
  }

  function PrintEdits(edits: seq<Edit>): seq<string>
    decreases |edits|
  {
    if edits == [] then [] else PrintEdits(edits[..|edits| - 1]) + [PrintEdit(edits[|edits| - 1])]
  }

  function PieceOld(p: Piece): nat {
    match p
    case Gap(lines) => |lines|
    case Hunk(_, edits) => OldCount(edits)
  }

  function PieceNew(p: Piece): seq<string> {
    match p
    case Gap(lines) => lines
    case Hunk(_, edits) => NewLines(edits)
  }

  function OldBefore(pieces: seq<Piece>): nat
    decreases |pieces|
  {
    if pieces == [] then 0 else OldBefore(pieces[..|pieces| - 1]) + PieceOld(pieces[|pieces| - 1])
  }

  /** The new file. */
  function NewFile(pieces: seq<Piece>): seq<string>
    decreases |pieces|
  {
    if pieces == [] then [] else NewFile(pieces[..|pieces| - 1]) + PieceNew(pieces[|pieces| - 1])
  }

  function PrintPiece(old_: nat, new_: nat, p: Piece): seq<string> {
    match p
    case Gap(_) => []
    case Hunk(hint, edits) => [HunkText(old_, OldCount(edits), new_, |NewLines(edits)|, hint)] + PrintEdits(edits)
  }

  function PrintPieces(pieces: seq<Piece>): seq<string>
    decreases |pieces|
  {
    if pieces == [] then []
    else
      var before := pieces[..|pieces| - 1];
      PrintPieces(before) + PrintPiece(OldBefore(before), |NewFile(before)|, pieces[|pieces| - 1])
  }

  function FileText(path: Option<string>): string {
    ['+', '+', '+', ' '] + if path.Some? then ['b', '/'] + path.value else DEV_NULL
  }

  function PrintPatch(p: Patch): seq<string> {
    [GIT + p.names] + p.extra + [FileText(p.path)] + PrintPieces(p.pieces)
  }

  function PrintDiff(diff: seq<Patch>): seq<string>
    decreases |diff|
  {
    if diff == [] then [] else PrintDiff(diff[..|diff| - 1]) + PrintPatch(diff[|diff| - 1])
  }

  /** No added line that the printed `+` would turn into a file header. */
  predicate Plain(edits: seq<Edit>)
    decreases |edits|
  {
    edits == [] || (Plain(edits[..|edits| - 1]) && PlainEdit(edits[|edits| - 1]))
  }

  predicate PlainEdit(e: Edit) {
    e.Add? ==> !Two(e.text, 0, '+', '+')
  }

  predicate PlainPieces(pieces: seq<Piece>)
    decreases |pieces|
  {
    pieces == [] || (PlainPieces(pieces[..|pieces| - 1]) && PlainPiece(pieces[|pieces| - 1]))
  }

  predicate PlainPiece(p: Piece) {
    p.Hunk? ==> Plain(p.edits)
  }

  predicate PlainDiff(diff: seq<Patch>)
    decreases |diff|
  {
    diff == [] || (PlainDiff(diff[..|diff| - 1]) && PlainPieces(diff[|diff| - 1].pieces))
  }

  /** A diff git prints: other header lines mean nothing to the walk, a path is
      one, and a deleted file's new side is empty. */
  predicate WellFormed(p: Patch) {
    && (forall i | 0 <= i < |p.extra| :: Classify(p.extra[i]).OtherLine?)
    && (p.path.Some? ==> p.path.value != "" && p.path.value != DEV_NULL)
    && (p.path.None? ==> NewFile(p.pieces) == [])
  }

  ghost predicate AllWellFormed(diff: seq<Patch>)
    decreases |diff|
  {
    diff == [] || (AllWellFormed(diff[..|diff| - 1]) && WellFormed(diff[|diff| - 1]))
  }

  // ---- what the script adds ----------------------------------------------------------------

  /** Whether a line added to `path` counts, by where it really is. */
  predicate TrulyCounts(cfg: Setting, path: Option<string>, hint: string, line: int, text: string) {
    && path.Some? && !cfg.underTests(path.value) && cfg.reachable(path.value)
    && !(match cfg.testRanges(path.value) case Some(ranges) => InRanges(ranges, line) case None => cfg.hintIsTest(hint))
    && cfg.countable(text)
  }

  /** The lines an edit script adds, its first new line being `first`. */
  function AddedBy(cfg: Setting, path: Option<string>, hint: string, first: nat, edits: seq<Edit>): seq<Visit>
    decreases |edits|
  {
    if edits == [] then []
    else
      var before, e := edits[..|edits| - 1], edits[|edits| - 1];
      var line := first + |NewLines(before)|;
      AddedBy(cfg, path, hint, first, before) +
      if e.Add? then [Visit(path, line, e.text, TrulyCounts(cfg, path, hint, line, e.text))] else []
  }

  function AddedInPiece(cfg: Setting, path: Option<string>, new_: nat, p: Piece): seq<Visit> {
    match p
    case Gap(_) => []
    case Hunk(hint, edits) => AddedBy(cfg, path, hint, new_ + 1, edits)
  }

  function AddedInFile(cfg: Setting, path: Option<string>, pieces: seq<Piece>): seq<Visit>
    decreases |pieces|
  {
    if pieces == [] then []
    else
      var before := pieces[..|pieces| - 1];
      AddedInFile(cfg, path, before) + AddedInPiece(cfg, path, |NewFile(before)|, pieces[|pieces| - 1])
  }

  function AddedInDiff(cfg: Setting, diff: seq<Patch>): seq<Visit>
    decreases |diff|
  {
    if diff == [] then []
    else
      var last := diff[|diff| - 1];
      AddedInDiff(cfg, diff[..|diff| - 1]) + AddedInFile(cfg, last.path, last.pieces)
  }

  // ---- each line is where it is said to be ---------------------------------------------------

  /** `v` stands in the new file, at its number. */
  predicate Stands(v: Visit, file: seq<string>, from: nat) {
    from < v.line <= |file| && file[v.line - 1] == v.text
  }

  /** All stand in the new file, past its first `from` lines, in order. */
  predicate AllStand(visits: seq<Visit>, file: seq<string>, from: nat) {
    && (forall k | 0 <= k < |visits| :: Stands(visits[k], file, from))
    && (forall j, k | 0 <= j < k < |visits| :: visits[j].line < visits[k].line)
  }

  lemma StandOn(seen: seq<Visit>, more: seq<Visit>, file: seq<string>, added: seq<string>, from: nat)
    requires AllStand(seen, file, from) && AllStand(more, file + added, |file|) && from <= |file|
    ensures AllStand(seen + more, file + added, from)
  {
    var all, bigger := seen + more, file + added;
    forall k | 0 <= k < |all| ensures Stands(all[k], bigger, from) && (k < |seen| ==> all[k].line <= |file|) {
      if k < |seen| {
        assert Stands(seen[k], file, from);
        assert bigger[seen[k].line - 1] == file[seen[k].line - 1];
      } else {
        assert Stands(more[k - |seen|], bigger, |file|);
      }
    }
    forall j, k | 0 <= j < k < |all| ensures all[j].line < all[k].line {
      if j < |seen| <= k {
        assert Stands(more[k - |seen|], bigger, |file|);
      }
    }
  }

  lemma OneStands(v: Visit, file: seq<string>)
    requires v.line == |file| + 1
    ensures AllStand([v], file + [v.text], |file|)
  {
  }

  lemma EditStands(cfg: Setting, path: Option<string>, hint: string, file: seq<string>, e: Edit)
    ensures AllStand(if e.Add? then [Visit(path, |file| + 1, e.text, TrulyCounts(cfg, path, hint, |file| + 1, e.text))] else [],
                     file + (if e.Delete? then [] else [e.text]), |file|)
  {
    if e.Add? {
      OneStands(Visit(path, |file| + 1, e.text, TrulyCounts(cfg, path, hint, |file| + 1, e.text)), file);
    }
  }

  lemma {:induction false} EditsStand(cfg: Setting, path: Option<string>, hint: string, before: seq<string>, edits: seq<Edit>)
    ensures AllStand(AddedBy(cfg, path, hint, |before| + 1, edits), before + NewLines(edits), |before|)
    decreases |edits|
  {
    if edits != [] {
      var rest, e := edits[..|edits| - 1], edits[|edits| - 1];
      EditsStand(cfg, path, hint, before, rest);
      EditsStandOn(cfg, path, hint, before, rest, e);
      assert edits == rest + [e];
    }
  }

  lemma EditsStandOn(cfg: Setting, path: Option<string>, hint: string, before: seq<string>, rest: seq<Edit>, e: Edit)
    requires AllStand(AddedBy(cfg, path, hint, |before| + 1, rest), before + NewLines(rest), |before|)
    ensures AllStand(AddedBy(cfg, path, hint, |before| + 1, rest + [e]), before + NewLines(rest + [e]), |before|)
  {
    var file, added := before + NewLines(rest), if e.Delete? then [] else [e.text];
    var line := |file| + 1;
    var more := if e.Add? then [Visit(path, line, e.text, TrulyCounts(cfg, path, hint, line, e.text))] else [];
    EditStands(cfg, path, hint, file, e);
    StandOn(AddedBy(cfg, path, hint, |before| + 1, rest), more, file, added, |before|);
    AddedSnoc(cfg, path, hint, |before| + 1, rest, e);
    EditSnoc(rest, e);
    assert file + added == before + (NewLines(rest) + added);
  }

  /** Every line a file's script adds stands in its new file at the number it
      is given, and the numbers increase. */
  lemma {:induction false} AddedLinesStand(cfg: Setting, path: Option<string>, pieces: seq<Piece>)
    ensures AllStand(AddedInFile(cfg, path, pieces), NewFile(pieces), 0)
    decreases |pieces|
  {
    if pieces != [] {
      var before, last := pieces[..|pieces| - 1], pieces[|pieces| - 1];
      AddedLinesStand(cfg, path, before);
      var file := NewFile(before);
      if last.Hunk? {
        EditsStand(cfg, path, last.hint, file, last.edits);
      }
      StandOn(AddedInFile(cfg, path, before), AddedInPiece(cfg, path, |file|, last), file, PieceNew(last), 0);
    }
  }

  // ---- the walk ------------------------------------------------------------------------------

  /** The walker is inside the file's part of the diff. */
  predicate Inside(cfg: Setting, w: Walker, path: Option<string>) {
    && w.path == path
    && w.skip == (path.Some? && Skipped(cfg, path.value))
    && w.ranges == if path.Some? then RangesFor(cfg, path.value) else None
  }

  /** ... and inside a hunk, at new-file line `line`. */
  predicate InHunk(cfg: Setting, w: Walker, path: Option<string>, hint: string, line: int) {
    Inside(cfg, w, path) && w.newLine == line && w.hunkAllTest == (w.ranges.None? && cfg.hintIsTest(hint))
  }

  lemma DiffersAtStart(line: string, prefix: string)
    requires line != [] && prefix != [] && line[0] != prefix[0]
    ensures !StartsWith(line, prefix)
  {
    assert |prefix| <= |line| ==> line[..|prefix|][0] == line[0];
  }

  lemma NotGit(line: string)
    requires line != [] && line[0] != 'd'
    ensures !StartsWith(line, GIT)
  {
    assert GIT[0] == 'd';
    DiffersAtStart(line, GIT);
  }

  lemma PrintedEdit(e: Edit)
    ensures Classify(PrintEdit(e)) == match e
            case Keep(_) => ContextLine
            case Delete(_) => OtherLine
            case Add(t) => if Two(t, 0, '+', '+') then FileLine(HeaderPath(PrintEdit(e))) else AddedLine(t)
  {
    var line := PrintEdit(e);
    assert line[1..] == e.text;
    NotGit(line);
    if |e.text| >= 2 {
      assert line[1] == e.text[0] && line[2] == e.text[1];
    }
  }

  lemma Snoc(cfg: Setting, w: Walker, lines: seq<string>, line: string)
    ensures Walked(cfg, w, lines + [line]) == Step(cfg, Walked(cfg, w, lines), Classify(line))
    ensures Visits(cfg, w, lines + [line]) == Visits(cfg, w, lines) + VisitOf(cfg, Walked(cfg, w, lines), Classify(line))
  {
    assert (lines + [line])[..|lines|] == lines;
  }

  lemma OneEdit(cfg: Setting, w: Walker, path: Option<string>, hint: string, line: int, e: Edit)
    requires InHunk(cfg, w, path, hint, line) && (path.Some? || e.Delete?)
    requires e.Add? ==> !Two(e.text, 0, '+', '+')
    ensures InHunk(cfg, Step(cfg, w, Classify(PrintEdit(e))), path, hint, line + if e.Delete? then 0 else 1)
    ensures VisitOf(cfg, w, Classify(PrintEdit(e))) ==
            if e.Add? then [Visit(path, line, e.text, TrulyCounts(cfg, path, hint, line, e.text))] else []
  {
    PrintedEdit(e);
  }

  /** What one more edit adds to the printing and to the new file. */
  lemma EditSnoc(before: seq<Edit>, e: Edit)
    ensures PrintEdits(before + [e]) == PrintEdits(before) + [PrintEdit(e)]
    ensures NewLines(before + [e]) == NewLines(before) + if e.Delete? then [] else [e.text]
  {
    assert (before + [e])[..|before|] == before;
  }

  lemma AddedSnoc(cfg: Setting, path: Option<string>, hint: string, first: nat, before: seq<Edit>, e: Edit)
    ensures var line := first + |NewLines(before)|;
            AddedBy(cfg, path, hint, first, before + [e]) == AddedBy(cfg, path, hint, first, before) +
              if e.Add? then [Visit(path, line, e.text, TrulyCounts(cfg, path, hint, line, e.text))] else []
  {
    assert (before + [e])[..|before|] == before;
  }

  lemma OneMoreEdit(cfg: Setting, w: Walker, path: Option<string>, hint: string, first: nat, before: seq<Edit>, e: Edit)
    requires InHunk(cfg, Walked(cfg, w, PrintEdits(before)), path, hint, first + |NewLines(before)|)
    requires Visits(cfg, w, PrintEdits(before)) == AddedBy(cfg, path, hint, first, before)
    requires PlainEdit(e) && (path.Some? || e.Delete?)
    ensures InHunk(cfg, Walked(cfg, w, PrintEdits(before + [e])), path, hint, first + |NewLines(before + [e])|)
    ensures Visits(cfg, w, PrintEdits(before + [e])) == AddedBy(cfg, path, hint, first, before + [e])
  {
    EditSnoc(before, e);
    OneEdit(cfg, Walked(cfg, w, PrintEdits(before)), path, hint, first + |NewLines(before)|, e);
    Snoc(cfg, w, PrintEdits(before), PrintEdit(e));
    AddedSnoc(cfg, path, hint, first, before, e);
  }

  lemma {:induction false} EditsWalk(cfg: Setting, w: Walker, path: Option<string>, hint: string, first: nat, edits: seq<Edit>)
    requires InHunk(cfg, w, path, hint, first) && Plain(edits) && (path.Some? || NewLines(edits) == [])
    ensures InHunk(cfg, Walked(cfg, w, PrintEdits(edits)), path, hint, first + |NewLines(edits)|)
    ensures Visits(cfg, w, PrintEdits(edits)) == AddedBy(cfg, path, hint, first, edits)
    decreases |edits|
  {
    if edits != [] {
      var before, e := edits[..|edits| - 1], edits[|edits| - 1];
      EditsWalk(cfg, w, path, hint, first, before);
      OneMoreEdit(cfg, w, path, hint, first, before, e);
      assert edits == before + [e];
    }
  }

  lemma {:induction false} NothingAdded(cfg: Setting, path: Option<string>, hint: string, first: nat, edits: seq<Edit>)
    requires NewLines(edits) == []
    ensures AddedBy(cfg, path, hint, first, edits) == []
    decreases |edits|
  {
    if edits != [] {
      NothingAdded(cfg, path, hint, first, edits[..|edits| - 1]);
    }
  }

  lemma HunkClass(old_: nat, olds: nat, new_: nat, news: nat, hint: string)
    ensures Classify(HunkText(old_, olds, new_, news, hint)) == HunkLine(Some((RangeStart(new_, news), hint)))
  {
    HunkReads(old_, olds, new_, news, hint);
    var line := HunkText(old_, olds, new_, news, hint);
    assert line[0] == '@' && line[1] == '@';
    NotGit(line);
  }

  lemma HunkWalk(cfg: Setting, w: Walker, path: Option<string>, old_: nat, new_: nat, hint: string, edits: seq<Edit>)
    requires Inside(cfg, w, path) && Plain(edits) && (path.Some? || NewLines(edits) == [])
    ensures Inside(cfg, Walked(cfg, w, PrintPiece(old_, new_, Hunk(hint, edits))), path)
    ensures Visits(cfg, w, PrintPiece(old_, new_, Hunk(hint, edits))) == AddedBy(cfg, path, hint, new_ + 1, edits)
  {
    var header := HunkText(old_, OldCount(edits), new_, |NewLines(edits)|, hint);
    var start := RangeStart(new_, |NewLines(edits)|);
    HunkClass(old_, OldCount(edits), new_, |NewLines(edits)|, hint);
    Snoc(cfg, w, [], header);
    assert [] + [header] == [header];
    var inHunk := Walked(cfg, w, [header]);
    EditsWalk(cfg, inHunk, path, hint, start, edits);
    WalkedConcat(cfg, w, [header], PrintEdits(edits));
    VisitsConcat(cfg, w, [header], PrintEdits(edits));
    if NewLines(edits) == [] {
      NothingAdded(cfg, path, hint, start, edits);
      NothingAdded(cfg, path, hint, new_ + 1, edits);
    }
  }

  lemma {:induction false} PiecesWalk(cfg: Setting, w: Walker, path: Option<string>, pieces: seq<Piece>)
    requires Inside(cfg, w, path) && PlainPieces(pieces) && (path.Some? || NewFile(pieces) == [])
    ensures Inside(cfg, Walked(cfg, w, PrintPieces(pieces)), path)
    ensures Visits(cfg, w, PrintPieces(pieces)) == AddedInFile(cfg, path, pieces)
    decreases |pieces|
  {
    if pieces != [] {
      var before, last := pieces[..|pieces| - 1], pieces[|pieces| - 1];
      PiecesWalk(cfg, w, path, before);
      var lines, more := PrintPieces(before), PrintPiece(OldBefore(before), |NewFile(before)|, last);
      WalkedConcat(cfg, w, lines, more);
      VisitsConcat(cfg, w, lines, more);
      if last.Hunk? {
        HunkWalk(cfg, Walked(cfg, w, lines), path, OldBefore(before), |NewFile(before)|, last.hint, last.edits);
      }
    }
  }

  lemma HeaderClass(path: Option<string>)
    requires path.Some? ==> path.value != "" && path.value != DEV_NULL
    ensures Classify(FileText(path)) == FileLine(path)
  {
    var line := FileText(path);
    NotGit(line);
    if path.Some? {
      assert line[4..] == ['b', '/'] + path.value;
      assert line[4..][2..] == path.value;
    } else {
      assert line[4..] == DEV_NULL;
      assert DEV_NULL[0] == '/';
    }
  }

  lemma {:induction false} ExtraWalk(cfg: Setting, w: Walker, extra: seq<string>)
    requires forall i | 0 <= i < |extra| :: Classify(extra[i]).OtherLine?
    ensures Walked(cfg, w, extra) == w && Visits(cfg, w, extra) == []
    decreases |extra|
  {
    if extra != [] {
      ExtraWalk(cfg, w, extra[..|extra| - 1]);
    }
  }

  lemma HeadWalk(cfg: Setting, w: Walker, p: Patch)
    requires WellFormed(p)
    ensures Inside(cfg, Walked(cfg, w, [GIT + p.names] + p.extra + [FileText(p.path)]), p.path)
    ensures Visits(cfg, w, [GIT + p.names] + p.extra + [FileText(p.path)]) == []
  {
    var git := [GIT + p.names];
    assert StartsWith(git[0], GIT);
    assert git == [] + git;
    Snoc(cfg, w, [], git[0]);
    ExtraWalk(cfg, Walked(cfg, w, git), p.extra);
    WalkedConcat(cfg, w, git, p.extra);
    VisitsConcat(cfg, w, git, p.extra);
    HeaderClass(p.path);
    Snoc(cfg, w, git + p.extra, FileText(p.path));
  }

  lemma PatchWalk(cfg: Setting, w: Walker, p: Patch)
    requires WellFormed(p) && PlainPieces(p.pieces)
    ensures Visits(cfg, w, PrintPatch(p)) == AddedInFile(cfg, p.path, p.pieces)
  {
    var head := [GIT + p.names] + p.extra + [FileText(p.path)];
    HeadWalk(cfg, w, p);
    PiecesWalk(cfg, Walked(cfg, w, head), p.path, p.pieces);
    VisitsConcat(cfg, w, head, PrintPieces(p.pieces));
  }

  /** Over a printed diff the walk meets exactly the lines the scripts add, in
      order, each in its file and at its true new-file number, across hunks and
      files; and it counts those that truly count. */
  lemma {:induction false} WalkIsExact(cfg: Setting, diff: seq<Patch>)
    requires AllWellFormed(diff) && PlainDiff(diff)
    ensures Visits(cfg, START, PrintDiff(diff)) == AddedInDiff(cfg, diff)
    ensures Walked(cfg, START, PrintDiff(diff)).added == |AddedInDiff(cfg, diff)|
    ensures Walked(cfg, START, PrintDiff(diff)).countable == Counting(AddedInDiff(cfg, diff))
    decreases |diff|
  {
    DiffWalks(cfg, diff);
    TotalsAreVisits(cfg, PrintDiff(diff));
  }

  lemma {:induction false} DiffWalks(cfg: Setting, diff: seq<Patch>)
    requires AllWellFormed(diff) && PlainDiff(diff)
    ensures Visits(cfg, START, PrintDiff(diff)) == AddedInDiff(cfg, diff)
    decreases |diff|
  {
    if diff != [] {
      var before, last := diff[..|diff| - 1], diff[|diff| - 1];
      DiffWalks(cfg, before);
      PatchWalk(cfg, Walked(cfg, START, PrintDiff(before)), last);
      VisitsConcat(cfg, START, PrintDiff(before), PrintPatch(last));
    }
  }

  // ---- an added line starting with `++` ----------------------------------------------------

  predicate ReadAs(line: string, kind: Kind) {
    kind == GitLine || |line| >= 0
  }

  // The trigger keeps the reading of a line folded where only counts matter.
  ghost predicate IsAdded(line: string) {
    forall kind: Kind {:trigger ReadAs(line, kind)} :: ReadAs(line, kind) && kind == Classify(line) ==> kind.AddedLine?
  }

  lemma IsAddedMeans(line: string)
    ensures IsAdded(line) <==> Classify(line).AddedLine?
  {
    assert ReadAs(line, Classify(line));
  }

  /** The lines a walk counts as added: their kinds alone decide. */
  ghost function AddedKinds(lines: seq<string>): nat
    decreases |lines|
  {
    if lines == [] then 0
    else AddedKinds(lines[..|lines| - 1]) + if IsAdded(lines[|lines| - 1]) then 1 else 0
  }

  lemma {:induction false} AddedIsKinds(cfg: Setting, lines: seq<string>)
    ensures Walked(cfg, START, lines).added == AddedKinds(lines)
    decreases |lines|
  {
    if lines != [] {
      AddedIsKinds(cfg, lines[..|lines| - 1]);
      IsAddedMeans(lines[|lines| - 1]);
    }
  }

  lemma {:induction false} KindsConcat(a: seq<string>, b: seq<string>)
    ensures AddedKinds(a + b) == AddedKinds(a) + AddedKinds(b)
    decreases |b|
  {
    if b == [] {
      assert a + b == a;
    } else {
      KindsConcat(a, b[..|b| - 1]);
      assert (a + b)[..|a + b| - 1] == a + b[..|b| - 1];
      assert (a + b)[|a + b| - 1] == b[|b| - 1];
    }
  }

  function Adds(edits: seq<Edit>): nat
    decreases |edits|
  {
    if edits == [] then 0 else Adds(edits[..|edits| - 1]) + if edits[|edits| - 1].Add? then 1 else 0
  }

  function AddsIn(pieces: seq<Piece>): nat
    decreases |pieces|
  {
    if pieces == [] then 0
    else
      var last := pieces[|pieces| - 1];
      AddsIn(pieces[..|pieces| - 1]) + AddsOf(last)
  }

  function AddsInDiff(diff: seq<Patch>): nat
    decreases |diff|
  {
    if diff == [] then 0 else AddsInDiff(diff[..|diff| - 1]) + AddsIn(diff[|diff| - 1].pieces)
  }

  lemma {:induction false} EditKinds(edits: seq<Edit>)
    ensures AddedKinds(PrintEdits(edits)) <= Adds(edits)
    ensures AddedKinds(PrintEdits(edits)) == Adds(edits) <==> Plain(edits)
    decreases |edits|
  {
    if edits != [] {
      var before, e := edits[..|edits| - 1], edits[|edits| - 1];
      EditKinds(before);
      PrintedEdit(e);
      KindsConcat(PrintEdits(before), [PrintEdit(e)]);
      OneKind(PrintEdit(e));
      assert edits == before + [e];
    }
  }

  lemma OneKind(line: string)
    ensures AddedKinds([line]) == if Classify(line).AddedLine? then 1 else 0
  {
    IsAddedMeans(line);
    assert AddedKinds([]) == 0;
  }

  function AddsOf(p: Piece): nat {
    if p.Hunk? then Adds(p.edits) else 0
  }

  lemma PieceKinds(old_: nat, new_: nat, p: Piece)
    ensures AddedKinds(PrintPiece(old_, new_, p)) <= AddsOf(p)
    ensures AddedKinds(PrintPiece(old_, new_, p)) == AddsOf(p) <==> PlainPiece(p)
  {
    if p.Hunk? {
      var header := HunkText(old_, OldCount(p.edits), new_, |NewLines(p.edits)|, p.hint);
      HunkClass(old_, OldCount(p.edits), new_, |NewLines(p.edits)|, p.hint);
      OneKind(header);
      KindsConcat([header], PrintEdits(p.edits));
      EditKinds(p.edits);
    }
  }

  lemma JoinKinds(a: seq<string>, b: seq<string>, most: nat, more: nat, plainA: bool, plainB: bool)
    requires AddedKinds(a) <= most && (AddedKinds(a) == most <==> plainA)
    requires AddedKinds(b) <= more && (AddedKinds(b) == more <==> plainB)
    ensures AddedKinds(a + b) <= most + more && (AddedKinds(a + b) == most + more <==> plainA && plainB)
  {
    KindsConcat(a, b);
  }

  predicate Whole(n: nat, len: nat) {
    n == len
  }

  // The triggers keep the printing folded while its lines are counted.
  ghost predicate PrintsPieces(pieces: seq<Piece>, lines: seq<string>) {
    forall n: nat {:trigger Whole(n, |pieces|)} :: Whole(n, |pieces|) ==> n == |pieces| && lines == PrintPieces(pieces[..n])
  }

  lemma PiecesFolded(pieces: seq<Piece>, lines: seq<string>)
    ensures PrintsPieces(pieces, lines) <==> lines == PrintPieces(pieces)
  {
    assert Whole(|pieces|, |pieces|);
    assert pieces[..|pieces|] == pieces;
  }

  lemma NextPiece(before: seq<Piece>, p: Piece, first: seq<string>) returns (more: seq<string>)
    requires PrintsPieces(before, first)
    ensures PrintsPieces(before + [p], first + more)
    ensures AddedKinds(more) <= AddsOf(p) && (AddedKinds(more) == AddsOf(p) <==> PlainPiece(p))
  {
    more := PrintPiece(OldBefore(before), |NewFile(before)|, p);
    PieceKinds(OldBefore(before), |NewFile(before)|, p);
    PiecesFolded(before, first);
    assert (before + [p])[..|before|] == before;
    PiecesFolded(before + [p], first + more);
  }

  lemma {:induction false} PiecesKinds(pieces: seq<Piece>) returns (lines: seq<string>)
    ensures PrintsPieces(pieces, lines)
    ensures AddedKinds(lines) <= AddsIn(pieces)
    ensures AddedKinds(lines) == AddsIn(pieces) <==> PlainPieces(pieces)
    decreases |pieces|
  {
    if pieces == [] {
      lines := [];
      PiecesFolded(pieces, lines);
    } else {
      var before, last := pieces[..|pieces| - 1], pieces[|pieces| - 1];
      var first := PiecesKinds(before);
      var more := NextPiece(before, last, first);
      JoinKinds(first, more, AddsIn(before), AddsOf(last), PlainPieces(before), PlainPiece(last));
      assert pieces == before + [last];
      lines := first + more;
    }
  }

  lemma {:induction false} ExtraKinds(extra: seq<string>)
    requires forall i | 0 <= i < |extra| :: Classify(extra[i]).OtherLine?
    ensures AddedKinds(extra) == 0
    decreases |extra|
  {
    if extra != [] {
      ExtraKinds(extra[..|extra| - 1]);
      IsAddedMeans(extra[|extra| - 1]);
    }
  }

  lemma HeadKinds(p: Patch)
    requires WellFormed(p)
    ensures AddedKinds([GIT + p.names] + p.extra + [FileText(p.path)]) == 0
  {
    var git, file := [GIT + p.names], [FileText(p.path)];
    assert StartsWith(git[0], GIT);
    OneKind(git[0]);
    ExtraKinds(p.extra);
    HeaderClass(p.path);
    OneKind(file[0]);
    KindsConcat(git, p.extra);
    KindsConcat(git + p.extra, file);
  }

  /** The added total of a printed diff is the number of lines its scripts add
      exactly when none of those starts with `++`. */
  lemma {:induction false} AddedIsExactIff(cfg: Setting, diff: seq<Patch>)
    requires AllWellFormed(diff)
    ensures Walked(cfg, START, PrintDiff(diff)).added <= AddsInDiff(diff)
    ensures Walked(cfg, START, PrintDiff(diff)).added == AddsInDiff(diff) <==> PlainDiff(diff)
  {
    AddedIsKinds(cfg, PrintDiff(diff));
    var lines := DiffKinds(diff);
    DiffFolded(diff, lines);
  }

  lemma PatchKinds(p: Patch)
    requires WellFormed(p)
    ensures AddedKinds(PrintPatch(p)) <= AddsIn(p.pieces)
    ensures AddedKinds(PrintPatch(p)) == AddsIn(p.pieces) <==> PlainPieces(p.pieces)
  {
    HeadKinds(p);
    var lines := PiecesKinds(p.pieces);
    PiecesFolded(p.pieces, lines);
    KindsConcat([GIT + p.names] + p.extra + [FileText(p.path)], lines);
  }

  ghost predicate PrintsDiff(diff: seq<Patch>, lines: seq<string>) {
    forall n: nat {:trigger Whole(n, |diff|)} :: Whole(n, |diff|) ==> n == |diff| && lines == PrintDiff(diff[..n])
  }

  lemma DiffFolded(diff: seq<Patch>, lines: seq<string>)
    ensures PrintsDiff(diff, lines) <==> lines == PrintDiff(diff)
  {
    assert Whole(|diff|, |diff|);
    assert diff[..|diff|] == diff;
  }

  lemma NextPatch(before: seq<Patch>, p: Patch, first: seq<string>) returns (more: seq<string>)
    requires PrintsDiff(before, first) && WellFormed(p)
    ensures PrintsDiff(before + [p], first + more)
    ensures AddedKinds(more) <= AddsIn(p.pieces) && (AddedKinds(more) == AddsIn(p.pieces) <==> PlainPieces(p.pieces))
  {
    more := PrintPatch(p);
    PatchKinds(p);
    DiffFolded(before, first);
    assert (before + [p])[..|before|] == before;
    DiffFolded(before + [p], first + more);
  }

  lemma {:induction false} DiffKinds(diff: seq<Patch>) returns (lines: seq<string>)
    requires AllWellFormed(diff)
    ensures PrintsDiff(diff, lines)
    ensures AddedKinds(lines) <= AddsInDiff(diff)
    ensures AddedKinds(lines) == AddsInDiff(diff) <==> PlainDiff(diff)
    decreases |diff|
  {
    if diff == [] {
      lines := [];
      DiffFolded(diff, lines);
    } else {
      var before, last := diff[..|diff| - 1], diff[|diff| - 1];
      var first := DiffKinds(before);
      var more := NextPatch(before, last, first);
      JoinKinds(first, more, AddsInDiff(before), AddsIn(last.pieces), PlainDiff(before), PlainPieces(last.pieces));
      assert diff == before + [last];
      lines := first + more;
    }
  }
}
