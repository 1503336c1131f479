/**
 From characters to verdicts: a file is lexed, its false regions become spans
 of lines and columns, and a mutant inside one of them is left out
 (`cfg_false_spans` and `platform_not_built` in scripts/ci-mutants-summary.py).
 */
module PlatformMutants {
  import opened RustTokens
  import opened RustText
  import opened RustLexer
  import opened CfgPredicate
  import opened ItemEnd
  import opened CfgSpans
  import opened CfgItems
  import opened CfgSites
  import CfgExact
  import opened CfgScanPrinted

  /** From a position up to, not including, another. */
  datatype Span = Span(start: Pos, end: Pos)

  /** Just past a token, from its place and its text alone. */
  function PosEnd(t: Lexeme): Pos {
    var s := t.tok.text;
    if Newlines(s, |s|) == 0 then Pos(t.line, t.col + |s|)
    else Pos(t.line + Newlines(s, |s|), |s| - LineStart(s, |s|) + 1)
  }

  predicate MarkInside(toks: seq<Lexeme>, m: Mark) {
    m.Region? ==> m.first < |toks| && m.last < |toks|
  }

  function SpanOf(toks: seq<Lexeme>, m: Mark): Span
    requires m.Region? && MarkInside(toks, m)
  {
    Span(Pos(toks[m.first].line, toks[m.first].col), PosEnd(toks[m.last]))
  }

  predicate Encloses(s: Span, start: Pos, end: Pos) {
    AtOrBefore(s.start, start) && AtOrBefore(end, s.end)
  }

  ghost predicate MarksInFile(toks: seq<Lexeme>, marks: seq<Mark>) {
    forall m | m in marks :: MarkInside(toks, m)
  }

  /** The marks, as the flag and the spans the source returns. */
  ghost predicate SpansOf(toks: seq<Lexeme>, marks: seq<Mark>, wholeFile: bool, spans: seq<Span>) {
    && MarksInFile(toks, marks)
    && (wholeFile <==> WholeFile in marks)
    && (forall m | m in marks && m.Region? :: SpanOf(toks, m) in spans)
    && (forall s | s in spans :: exists m | m in marks :: m.Region? && s == SpanOf(toks, m))
  }

  lemma LexUnique(text: string, a: seq<Stretch>, b: seq<Stretch>)
    requires IsLexOf(a, text) && IsLexOf(b, text)
    ensures a == b
  {
    assert FromStart(text, 0);
  }

  /** What the scan of one file found, whichever way its tokens are named. */
  ghost predicate Scanned(kw: Keywords, text: string, cfg: TargetCfg, ss: seq<Stretch>, pairs: map<nat, nat>,
                          wholeFile: bool, spans: seq<Span>)
  {
    && Inside(text, ss) && IsBracketMap(Toks(Placed(text, ss)), pairs)
    && SpansOf(Placed(text, ss), AllMarks(kw, Toks(Placed(text, ss)), cfg, pairs), wholeFile, spans)
  }

  /** The scan of one file: is all of it false, and which spans are; with the
      bracket map it used. */
  method CfgFalseSpans(kw: Keywords, text: string, cfg: TargetCfg)
    returns (wholeFile: bool, spans: seq<Span>, pairs: map<nat, nat>)
    ensures forall ss | IsLexOf(ss, text) :: Scanned(kw, text, cfg, ss, pairs, wholeFile, spans)
  {
    var toks := Lex(text);
    ghost var found := StretchesFrom(text, 0);
    assert IsLexOf(found, text);
    LexInOrder(found, text);
    var marks, bracket := FalseMarks(kw, Toks(toks), cfg);
    pairs := bracket;
    MarksInside(kw, Toks(toks), pairs, cfg, 0);
    wholeFile, spans := PlaceMarks(toks, marks);
    forall ss | IsLexOf(ss, text) ensures Scanned(kw, text, cfg, ss, pairs, wholeFile, spans) {
      LexUnique(text, ss, found);
    }
  }

  method PlaceMarks(toks: seq<Lexeme>, marks: seq<Mark>) returns (wholeFile: bool, spans: seq<Span>)
    requires MarksInFile(toks, marks)
    ensures SpansOf(toks, marks, wholeFile, spans)
  {
    wholeFile, spans := false, [];
    for k := 0 to |marks|
      invariant wholeFile <==> WholeFile in marks[..k]
      invariant forall i | 0 <= i < k && marks[i].Region? :: SpanOf(toks, marks[i]) in spans
      invariant forall s | s in spans :: exists m | m in marks :: m.Region? && s == SpanOf(toks, m)
    {
      assert marks[k] in marks;
      assert marks[..k + 1] == marks[..k] + [marks[k]];
      if marks[k].WholeFile? {
        wholeFile := true;
      } else {
        spans := spans + [SpanOf(toks, marks[k])];
      }
    }
    assert marks[..|marks|] == marks;
  }

  /** Marks name tokens of the file. */
  lemma {:induction false} MarksInside(kw: Keywords, toks: seq<Token>, pairs: map<nat, nat>, cfg: TargetCfg, k: nat)
    requires IsBracketMap(toks, pairs)
    ensures forall m | m in Scan(kw, toks, pairs, cfg, k) && m.Region? :: m.first < |toks| && m.last < |toks|
    decreases if k < |toks| then |toks| - k else 0
  {
    if k < |toks| {
      var attr := ReadAttr(toks, pairs, k);
      if attr.None? {
        MarksInside(kw, toks, pairs, cfg, k + 1);
      } else {
        MarkInsideOne(kw, toks, pairs, k, attr.value);
        MarksInside(kw, toks, pairs, cfg, attr.value.close + 1);
      }
    }
  }

  lemma MarkInsideOne(kw: Keywords, toks: seq<Token>, pairs: map<nat, nat>, k: nat, a: AttrAt)
    requires IsBracketMap(toks, pairs) && k < a.open < a.close < |toks|
    ensures forall m | m in MarksOf(kw, toks, pairs, k, a) && m.Region? :: m.first < |toks| && m.last < |toks|
  {
    if a.inner {
      StackInside(toks, k);
      var o := Enclosing(toks, k);
      if o.Some? && o.value in pairs {
        BracketMapInvolution(toks, pairs, o.value);
      }
    } else {
      var j := PastAttrs(toks, pairs, a.close + 1);
      if j < |toks| {
        EndInside(kw, toks, pairs, j);
      }
    }
  }

  lemma StackInside(toks: seq<Token>, k: nat)
    requires k <= |toks|
    ensures forall i | 0 <= i < |BraceStack(toks, k)| :: BraceStack(toks, k)[i] < k
  {
  }

  lemma EndInside(kw: Keywords, toks: seq<Token>, pairs: map<nat, nat>, j: nat)
    requires IsBracketMap(toks, pairs)
    ensures EndOf(kw, toks, pairs, j) < |toks|
  {
    var k := SkipQualifiers(kw, toks, pairs, j);
    if k < |toks| {
      WalkInside(toks, pairs, HeadMode(kw, toks, j, k), j, false);
    }
  }

  lemma {:induction false} WalkInside(toks: seq<Token>, pairs: map<nat, nat>, mode: Mode, k: nat, sawArrow: bool)
    requires IsBracketMap(toks, pairs)
    ensures Walk(toks, pairs, mode, k, sawArrow) < |toks|
    decreases if k < |toks| then |toks| - k else 0
  {
    if k < |toks| {
      if k in pairs && !IsClose(toks[k]) {
        PartnerOfOpenText(toks, pairs, k);
        WalkInside(toks, pairs, mode, pairs[k] + 1, sawArrow);
      }
      WalkInside(toks, pairs, mode, k + 1, sawArrow);
      WalkInside(toks, pairs, mode, k + 1, true);
    }
  }

  /** A mutant, by the stretch of the file it replaces. */
  datatype Mutant = Mutant(from: nat, to: nat)

  /** Whether a mutant is left out: the file is false, or a false span holds it. */
  predicate LeftOut(wholeFile: bool, spans: seq<Span>, start: Pos, end: Pos) {
    wholeFile || exists s | s in spans :: Encloses(s, start, end)
  }

  /** Some mark's span holds the mutant. */
  ghost predicate Excluded(text: string, toks: seq<Lexeme>, marks: seq<Mark>, mutant: Mutant)
    requires MarksInFile(toks, marks) && mutant.from <= mutant.to <= |text|
  {
    exists m | m in marks ::
      m.WholeFile? || Encloses(SpanOf(toks, m), PosAt(text, mutant.from), PosAt(text, mutant.to))
  }

  lemma LeftOutIsExcluded(text: string, toks: seq<Lexeme>, marks: seq<Mark>, mutant: Mutant, wholeFile: bool, spans: seq<Span>)
    requires SpansOf(toks, marks, wholeFile, spans) && mutant.from <= mutant.to <= |text|
    ensures LeftOut(wholeFile, spans, PosAt(text, mutant.from), PosAt(text, mutant.to))
        <==> Excluded(text, toks, marks, mutant)
  {
    var start, end := PosAt(text, mutant.from), PosAt(text, mutant.to);
    if Excluded(text, toks, marks, mutant) {
      var m :| m in marks && (m.WholeFile? || Encloses(SpanOf(toks, m), start, end));
      if m.Region? {
        assert SpanOf(toks, m) in spans;
      }
    }
    if exists s | s in spans :: Encloses(s, start, end) {
      var s :| s in spans && Encloses(s, start, end);
      var m :| m in marks && m.Region? && s == SpanOf(toks, m);
    }
  }

  method Verdicts(text: string, ghost toks: seq<Lexeme>, ghost marks: seq<Mark>, wholeFile: bool, spans: seq<Span>, mutants: seq<Mutant>)
    returns (names: set<nat>)
    requires SpansOf(toks, marks, wholeFile, spans)
    requires forall m | m in mutants :: m.from <= m.to <= |text|
    ensures forall k | 0 <= k < |mutants| :: (k in names <==> Excluded(text, toks, marks, mutants[k]))
  {
    names := {};
    for k := 0 to |mutants|
      invariant forall i | i in names :: 0 <= i < k
      invariant forall i | 0 <= i < k :: i in names <==> Excluded(text, toks, marks, mutants[i])
    {
      var start, end := PosAt(text, mutants[k].from), PosAt(text, mutants[k].to);
      if LeftOut(wholeFile, spans, start, end) {
        names := names + {k};
      }
      LeftOutIsExcluded(text, toks, marks, mutants[k], wholeFile, spans);
    }
  }

  // ---- positions and offsets ---------------------------------------------------

  lemma {:induction false} PrefixPlaces(text: string, start: nat, end: nat, m: nat)
    requires start <= end <= |text| && m <= end - start
    ensures Newlines(text, start + m) == Newlines(text, start) + Newlines(text[start..end], m)
    ensures LineStart(text, start + m)
         == if Newlines(text[start..end], m) == 0 then LineStart(text, start) else start + LineStart(text[start..end], m)
  {
    if m > 0 {
      PrefixPlaces(text, start, end, m - 1);
    } else {
      assert start + m == start;
    }
  }

  /** Where a token's text is its stretch of the file, its end is just past it. */
  lemma PosEndExact(text: string, s: Stretch)
    requires s.start <= s.end <= |text| && TextOf(text, s) == text[s.start..s.end]
    ensures PosEnd(LexemeOf(text, s)) == PosAt(text, s.end)
  {
    PrefixPlaces(text, s.start, s.end, s.end - s.start);
  }

  // ---- the verdict is exact -----------------------------------------------------

  /** Every marked region ends at the sign that closes its item. */
  lemma {:induction false} ItemMarksEnd(item: Item, off: nat, cfg: TargetCfg, toks: seq<Token>)
    requires At(toks, off, PrintItem(item))
    ensures forall m | m in ItemMarks(item, off, cfg) :: m.Region? && m.last < |toks| && toks[m.last].kind == Punct
    decreases item, 0
  {
    AttrMarksExact(item.attrs, off, LastOf(item, off), cfg);
    ItemLastToken(item, off, toks);
    if item.Block? {
      InnerMarksExact(item.inner, Region(OpenOf(item, off), LastOf(item, off)), cfg);
      BlockBodyAt(toks, off, item);
      ElemsMarksEnd(item.body, BodyOf(item, off), cfg, toks);
    }
  }

  lemma ItemLastToken(item: Item, off: nat, toks: seq<Token>)
    requires At(toks, off, PrintItem(item))
    ensures LastOf(item, off) < |toks| && toks[LastOf(item, off)].kind == Punct
  {
    var printed := PrintItem(item);
    AtIndex(toks, off, printed, |printed| - 1);
    if item.Block? {
      var elems := PrintElems(item.body) + [Sign("}")];
      assert elems[|elems| - 1] == Sign("}");
    }
  }

  lemma {:induction false} ElemMarksEnd(e: Elem, off: nat, cfg: TargetCfg, toks: seq<Token>)
    requires At(toks, off, PrintElem(e))
    ensures forall m | m in ElemMarks(e, off, cfg) :: m.Region? && m.last < |toks| && toks[m.last].kind == Punct
    decreases e, 1
  {
    if e.Nested? {
      ItemMarksEnd(e.item, off, cfg, toks);
    }
  }

  lemma {:induction false} ElemsMarksEnd(elems: seq<Elem>, off: nat, cfg: TargetCfg, toks: seq<Token>)
    requires At(toks, off, PrintElems(elems))
    ensures forall m | m in ElemsMarks(elems, off, cfg) :: m.Region? && m.last < |toks| && toks[m.last].kind == Punct
    decreases elems, 2
  {
    if elems == [] {
    } else {
      AtSplit(toks, off, PrintElem(elems[0]), PrintElems(elems[1..]));
      ElemMarksEnd(elems[0], off, cfg, toks);
      ElemsMarksEnd(elems[1..], off + |PrintElem(elems[0])|, cfg, toks);
    }
  }

  lemma FileMarksEnd(file: File, cfg: TargetCfg, toks: seq<Token>)
    requires toks == PrintFile(file)
    ensures forall m | m in FileMarks(file, cfg) :: m.Region? ==> m.last < |toks| && toks[m.last].kind == Punct
  {
    AtWhole(toks);
    AtSplit(toks, 0, PrintAttrs(file.inner, true), PrintElems(file.body));
    InnerMarksExact(file.inner, WholeFile, cfg);
    ElemsMarksEnd(file.body, |PrintAttrs(file.inner, true)|, cfg, toks);
  }

  /** A region's span, in offsets: it holds the mutant exactly when the region
      starts no later and ends no earlier. */
  lemma EnclosesByOffset(text: string, ss: seq<Stretch>, m: Mark, mutant: Mutant)
    requires Inside(text, ss) && m.Region? && MarkInside(Placed(text, ss), m)
    requires ss[m.last].kind == Punct
    requires mutant.from <= mutant.to <= |text|
    ensures Encloses(SpanOf(Placed(text, ss), m), PosAt(text, mutant.from), PosAt(text, mutant.to))
            <==> ss[m.first].start <= mutant.from && mutant.to <= ss[m.last].end
  {
    PosEndExact(text, ss[m.last]);
    PosMonotone(text, ss[m.first].start, mutant.from);
    PosMonotone(text, mutant.to, ss[m.last].end);
  }

  /** An offset within the site's tokens; at the brace itself of a block, which
      may hold sites of its own. */
  predicate StartsIn(ss: seq<Stretch>, s: Site, from: nat) {
    s.first <= s.last < |ss| && ss[s.first].start <= from < ss[s.last].end
    && (s.block ==> from == ss[s.first].start)
  }

  /** The mutant lies within the site's tokens. */
  predicate InSite(ss: seq<Stretch>, s: Site, mutant: Mutant) {
    StartsIn(ss, s, mutant.from) && mutant.from < mutant.to <= ss[s.last].end
  }

  /** The last token that starts at or before an offset. */
  lemma TokenBefore(ss: seq<Stretch>, first: nat, last: nat, p: nat) returns (a: nat)
    requires InOrder(ss) && first <= last < |ss| && ss[first].start <= p < ss[last].end
    ensures first <= a <= last && ss[a].start <= p
    ensures forall k | a < k < |ss| :: p < ss[k].start
    ensures p == ss[first].start ==> a == first
  {
    a := last;
    while ss[a].start > p
      invariant first <= a <= last
      invariant forall k | a < k < |ss| :: p < ss[k].start
      decreases a
    {
      a := a - 1;
    }
  }

  /** A region that keeps clear of a token does not hold a mutant that starts
      there or just after. */
  lemma MissedMark(ss: seq<Stretch>, m: Mark, a: nat, from: nat, to: nat)
    requires InOrder(ss) && a < |ss| && m.Region? && m.first < |ss| && m.last < |ss|
    requires ss[a].start <= from < to && forall k | a < k < |ss| :: from < ss[k].start
    requires m.last < a || a < m.first
    ensures !(ss[m.first].start <= from && to <= ss[m.last].end)
  {
  }

  /** No region holds an offset of live code. */
  lemma LiveIsMissed(ss: seq<Stretch>, marks: seq<Mark>, s: Site, from: nat, to: nat, cfg: TargetCfg)
    requires InOrder(ss) && forall m | m in marks && m.Region? :: m.first < |ss| && m.last < |ss|
    requires SiteExact(MarkSet(marks), s, cfg) && !Dead(s.gates, cfg)
    requires StartsIn(ss, s, from) && from < to
    ensures forall m | m in marks :: m.Region? && !(ss[m.first].start <= from && to <= ss[m.last].end)
  {
    var a := TokenBefore(ss, s.first, s.last, from);
    forall m | m in marks ensures m.Region? && !(ss[m.first].start <= from && to <= ss[m.last].end) {
      assert m in MarkSet(marks);
      MissedMark(ss, m, a, from, to);
    }
  }

  /** A mutant that starts in live code is not left out, wherever it ends. */
  lemma LiveVerdict(text: string, ss: seq<Stretch>, marks: seq<Mark>, s: Site, mutant: Mutant, cfg: TargetCfg)
    requires Inside(text, ss) && InOrder(ss) && MarksInFile(Placed(text, ss), marks)
    requires forall m | m in marks && m.Region? :: ss[m.last].kind == Punct
    requires SiteExact(MarkSet(marks), s, cfg) && !Dead(s.gates, cfg)
    requires StartsIn(ss, s, mutant.from) && mutant.from < mutant.to <= |text|
    ensures !Excluded(text, Placed(text, ss), marks, mutant)
  {
    LiveIsMissed(ss, marks, s, mutant.from, mutant.to, cfg);
    forall m | m in marks
      ensures m.Region? && !Encloses(SpanOf(Placed(text, ss), m), PosAt(text, mutant.from), PosAt(text, mutant.to))
    {
      EnclosesByOffset(text, ss, m, mutant);
    }
  }

  /** Marks that are exact on a site leave out exactly the mutants of a dead one. */
  lemma SiteVerdict(text: string, ss: seq<Stretch>, marks: seq<Mark>, s: Site, mutant: Mutant, cfg: TargetCfg)
    requires Inside(text, ss) && InOrder(ss) && MarksInFile(Placed(text, ss), marks)
    requires forall m | m in marks && m.Region? :: ss[m.last].kind == Punct
    requires SiteExact(MarkSet(marks), s, cfg)
    requires mutant.from <= mutant.to <= |text| && InSite(ss, s, mutant)
    ensures Excluded(text, Placed(text, ss), marks, mutant) <==> Dead(s.gates, cfg)
  {
    if Dead(s.gates, cfg) {
      var m :| m in MarkSet(marks) && (m.WholeFile? || (m.first <= s.first && s.last <= m.last));
      if m.Region? {
        CoveringMark(ss, m, s);
        EnclosesByOffset(text, ss, m, mutant);
      }
    } else {
      LiveVerdict(text, ss, marks, s, mutant, cfg);
    }
  }

  lemma CoveringMark(ss: seq<Stretch>, m: Mark, s: Site)
    requires InOrder(ss) && m.Region? && m.first < |ss| && m.last < |ss| && s.first <= s.last < |ss|
    requires m.first <= s.first && s.last <= m.last
    ensures ss[m.first].start <= ss[s.first].start && ss[s.last].end <= ss[m.last].end
  {
  }

  /** No built mutant is ever dropped, and every mutant of code that no build
      of the target compiles is: in a file whose tokens are a tree's, a mutant
      within one stretch of code, or one that replaces a whole body, is left
      out exactly when one of the predicates over that code (its own, an
      enclosing item's, the file's) is definitely false. */
  lemma MutantVerdictExact(kw: Keywords, text: string, ss: seq<Stretch>, cfg: TargetCfg,
                           file: File, pairs: map<nat, nat>, s: Site, mutant: Mutant)
    requires IsLexOf(ss, text) && Inside(text, ss)
    requires FileOk(kw, file) && Toks(Placed(text, ss)) == PrintFile(file)
    requires IsBracketMap(PrintFile(file), pairs)
    requires s in FileSites(file)
    requires mutant.from <= mutant.to <= |text| && InSite(ss, s, mutant)
    ensures MarksInFile(Placed(text, ss), AllMarks(kw, PrintFile(file), cfg, pairs))
    ensures Excluded(text, Placed(text, ss), AllMarks(kw, PrintFile(file), cfg, pairs), mutant) <==> Dead(s.gates, cfg)
    ensures Dead(s.gates, cfg) ==> forall b | BuildOf(b, cfg) :: !Compiled(s.gates, b)
  {
    LexInOrder(ss, text);
    var toks := PrintFile(file);
    var marks := MarksOfFile(kw, cfg, file, pairs, toks, s);
    VerdictFrom(text, ss, toks, marks, s, mutant, cfg);
  }

  /** In builds: such a mutant is left out exactly when no build of the target
      compiles the code it stands in, where no undecided atom stands twice over
      that code. */
  lemma LeftOutIffNeverBuilt(kw: Keywords, text: string, ss: seq<Stretch>, cfg: TargetCfg,
                             file: File, pairs: map<nat, nat>, s: Site, mutant: Mutant)
    requires IsLexOf(ss, text) && Inside(text, ss)
    requires FileOk(kw, file) && Toks(Placed(text, ss)) == PrintFile(file)
    requires IsBracketMap(PrintFile(file), pairs)
    requires s in FileSites(file) && CfgExact.Distinct(CfgExact.FreeIn(s.gates, cfg))
    requires mutant.from <= mutant.to <= |text| && InSite(ss, s, mutant)
    ensures MarksInFile(Placed(text, ss), AllMarks(kw, PrintFile(file), cfg, pairs))
    ensures Excluded(text, Placed(text, ss), AllMarks(kw, PrintFile(file), cfg, pairs), mutant) <==>
            forall b | BuildOf(b, cfg) :: !Compiled(s.gates, b)
  {
    MutantVerdictExact(kw, text, ss, cfg, file, pairs, s, mutant);
    CfgExact.DeadIffNeverCompiled(s.gates, cfg);
  }

  /** No mutant that starts in live code is ever dropped, wherever it ends. */
  lemma LiveStartIsKept(kw: Keywords, text: string, ss: seq<Stretch>, cfg: TargetCfg,
                        file: File, pairs: map<nat, nat>, s: Site, mutant: Mutant)
    requires IsLexOf(ss, text) && Inside(text, ss)
    requires FileOk(kw, file) && Toks(Placed(text, ss)) == PrintFile(file)
    requires IsBracketMap(PrintFile(file), pairs)
    requires s in FileSites(file) && !Dead(s.gates, cfg)
    requires StartsIn(ss, s, mutant.from) && mutant.from < mutant.to <= |text|
    ensures MarksInFile(Placed(text, ss), AllMarks(kw, PrintFile(file), cfg, pairs))
    ensures !Excluded(text, Placed(text, ss), AllMarks(kw, PrintFile(file), cfg, pairs), mutant)
  {
    LexInOrder(ss, text);
    var marks := MarksOfFile(kw, cfg, file, pairs, PrintFile(file), s);
    KindsKept(text, ss);
    LiveVerdict(text, ss, marks, s, mutant, cfg);
  }

  /** A mutant of this file stands in one stretch of its code. */
  ghost predicate Placeable(kw: Keywords, text: string, ss: seq<Stretch>, file: File, s: Site, mutant: Mutant) {
    && Inside(text, ss) && Toks(Placed(text, ss)) == PrintFile(file) && FileOk(kw, file)
    && s in FileSites(file) && InSite(ss, s, mutant)
  }

  lemma LexExists(text: string) returns (ss: seq<Stretch>)
    ensures IsLexOf(ss, text)
  {
    ss := StretchesFrom(text, 0);
  }

  /** The verdicts on one file's mutants: for every tree the file may be the
      print of, and every stretch of its code, the mutants standing there are
      named exactly when the code is dead for the target. */
  method NotBuilt(kw: Keywords, text: string, cfg: TargetCfg, mutants: seq<Mutant>)
    returns (names: set<nat>)
    requires forall m | m in mutants :: m.from <= m.to <= |text|
    ensures forall ss, k, file, s | IsLexOf(ss, text) && 0 <= k < |mutants| && Placeable(kw, text, ss, file, s, mutants[k]) ::
              k in names <==> Dead(s.gates, cfg)
  {
    var wholeFile, spans, pairs := CfgFalseSpans(kw, text, cfg);
    ghost var found := LexExists(text);
    ghost var marks := AllMarks(kw, Toks(Placed(text, found)), cfg, pairs);
    names := Verdicts(text, Placed(text, found), marks, wholeFile, spans, mutants);
    forall ss, k, file, s | IsLexOf(ss, text) && 0 <= k < |mutants| && Placeable(kw, text, ss, file, s, mutants[k])
      ensures k in names <==> Dead(s.gates, cfg)
    {
      LexUnique(text, ss, found);
      MutantVerdictExact(kw, text, ss, cfg, file, pairs, s, mutants[k]);
    }
  }

  /** What the scan of a printed file gives, put together. */
  lemma MarksOfFile(kw: Keywords, cfg: TargetCfg, file: File, pairs: map<nat, nat>, toks: seq<Token>, s: Site)
    returns (marks: seq<Mark>)
    requires FileOk(kw, file) && toks == PrintFile(file) && IsBracketMap(toks, pairs) && s in FileSites(file)
    ensures marks == AllMarks(kw, toks, cfg, pairs)
    ensures forall m | m in marks && m.Region? :: m.first < |toks| && m.last < |toks| && toks[m.last].kind == Punct
    ensures SiteExact(MarkSet(marks), s, cfg)
    ensures Dead(s.gates, cfg) ==> forall b | BuildOf(b, cfg) :: !Compiled(s.gates, b)
  {
    marks := AllMarks(kw, toks, cfg, pairs);
    MarksInside(kw, toks, pairs, cfg, 0);
    ExclusionIsExact(kw, cfg, file, pairs, s);
    MarksEnd(kw, cfg, file, pairs);
  }

  lemma VerdictFrom(text: string, ss: seq<Stretch>, toks: seq<Token>, marks: seq<Mark>, s: Site, mutant: Mutant, cfg: TargetCfg)
    requires Inside(text, ss) && InOrder(ss) && toks == Toks(Placed(text, ss))
    requires forall m | m in marks && m.Region? :: m.first < |toks| && m.last < |toks| && toks[m.last].kind == Punct
    requires SiteExact(MarkSet(marks), s, cfg)
    requires mutant.from <= mutant.to <= |text| && InSite(ss, s, mutant)
    ensures MarksInFile(Placed(text, ss), marks)
    ensures Excluded(text, Placed(text, ss), marks, mutant) <==> Dead(s.gates, cfg)
  {
    KindsKept(text, ss);
    SiteVerdict(text, ss, marks, s, mutant, cfg);
  }

  lemma KindsKept(text: string, ss: seq<Stretch>)
    requires Inside(text, ss)
    ensures forall k | 0 <= k < |ss| :: Toks(Placed(text, ss))[k].kind == ss[k].kind
  {
  }

  lemma MarksEnd(kw: Keywords, cfg: TargetCfg, file: File, pairs: map<nat, nat>)
    requires FileOk(kw, file) && IsBracketMap(PrintFile(file), pairs)
    ensures forall m | m in AllMarks(kw, PrintFile(file), cfg, pairs) ::
              m.Region? ==> m.last < |PrintFile(file)| && PrintFile(file)[m.last].kind == Punct
  {
    ScanFile(kw, cfg, file, pairs);
    FileMarksEnd(file, cfg, PrintFile(file));
  }
}
