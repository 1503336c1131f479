/**
 The per-line counts of the CRAP report (scripts/crap-report.py, `paint`): each
 line takes its count from the smallest code region that covers it.

 A coverage filename is given as the repository path it resolved to, if any.
 */
module Paint {
  import opened Wrappers

  datatype Region = Region(ls: int, cs: int, le: int, ce: int, count: nat, fileId: int, kind: int)

  datatype Covered = Covered(rel: Option<string>, regions: seq<Region>)

  /** A region's size: lines first, then columns. */
  datatype Span = Span(lines: int, columns: int)

  function SpanOf(r: Region): Span {
    Span(r.le - r.ls, r.ce - r.cs)
  }

  predicate Smaller(a: Span, b: Span) {
    a.lines < b.lines || (a.lines == b.lines && a.columns < b.columns)
  }

  datatype Coat = Coat(span: Span, count: nat)

  /** `a` is painted over `b`. */
  predicate Beats(a: Coat, b: Coat) {
    Smaller(a.span, b.span) || (a.span == b.span && a.count > b.count)
  }

  /** One region's paint on one line of one file. */
  datatype Stroke = Stroke(rel: string, line: int, coat: Coat)

  /** Code regions of the function's own file paint; the rest do not. */
  predicate IsCode(r: Region) {
    r.fileId == 0 && r.kind == 0
  }

  function RegionStrokes(rel: string, r: Region, before: int): set<Stroke> {
    set line | r.ls <= line < before :: Stroke(rel, line, Coat(SpanOf(r), r.count))
  }

  function FnStrokes(f: Covered, n: nat): set<Stroke>
    requires n <= |f.regions|
  {
    if n == 0 || f.rel.None? then {}
    else
      var r := f.regions[n - 1];
      FnStrokes(f, n - 1) + if IsCode(r) then RegionStrokes(f.rel.value, r, r.le + 1) else {}
  }

  function ExportStrokes(fns: seq<Covered>, n: nat): set<Stroke>
    requires n <= |fns|
  {
    if n == 0 then {} else ExportStrokes(fns, n - 1) + FnStrokes(fns[n - 1], |fns[n - 1].regions|)
  }

  function Strokes(exports: seq<seq<Covered>>, n: nat): set<Stroke>
    requires n <= |exports|
  {
    if n == 0 then {} else Strokes(exports, n - 1) + ExportStrokes(exports[n - 1], |exports[n - 1]|)
  }

  type Lines = map<string, map<int, Coat>>

  predicate Has(lines: Lines, rel: string, line: int) {
    rel in lines && line in lines[rel]
  }

  /** `lines` holds, on each line any of the strokes is on, one of those
      strokes that none beats, and nothing else. */
  ghost predicate Holds(lines: Lines, strokes: set<Stroke>) {
    && (forall rel | rel in lines :: lines[rel] != map[])
    && (forall rel, line | Has(lines, rel, line) :: Stroke(rel, line, lines[rel][line]) in strokes)
    && (forall s | s in strokes :: Has(lines, s.rel, s.line) && !Beats(s.coat, lines[s.rel][s.line]))
  }

  /** The inner loop's body. */
  function Painted(lines: Lines, s: Stroke): Lines {
    if Has(lines, s.rel, s.line) && !Beats(s.coat, lines[s.rel][s.line]) then lines
    else lines[s.rel := (if s.rel in lines then lines[s.rel] else map[])[s.line := s.coat]]
  }

  lemma PaintedHolds(lines: Lines, strokes: set<Stroke>, s: Stroke)
    requires Holds(lines, strokes)
    ensures Holds(Painted(lines, s), strokes + {s})
  {
    var after := Painted(lines, s);
    forall rel, line | rel != s.rel || line != s.line
      ensures Has(after, rel, line) == Has(lines, rel, line)
      ensures Has(lines, rel, line) ==> after[rel][line] == lines[rel][line]
    {
    }
    forall t | t in strokes + {s} ensures Has(after, t.rel, t.line) && !Beats(t.coat, after[t.rel][t.line]) {
      if t in strokes {
        assert Has(lines, t.rel, t.line) && !Beats(t.coat, lines[t.rel][t.line]);
      }
    }
    forall rel | rel in after ensures after[rel] != map[] {
      if rel == s.rel {
        assert Has(after, s.rel, s.line);
      } else {
        assert lines[rel] != map[];
      }
    }
  }

  lemma RegionOneMore(rel: string, r: Region, ln: int)
    requires r.ls <= ln
    ensures RegionStrokes(rel, r, ln + 1) == RegionStrokes(rel, r, ln) + {Stroke(rel, ln, Coat(SpanOf(r), r.count))}
  {
    var more := RegionStrokes(rel, r, ln + 1);
    forall line | r.ls <= line < ln + 1 ensures Stroke(rel, line, Coat(SpanOf(r), r.count)) in more {
    }
    forall t | t in more ensures t in RegionStrokes(rel, r, ln) || t.line == ln {
      assert t == Stroke(rel, t.line, Coat(SpanOf(r), r.count));
    }
  }

  method PaintRegion(was: Lines, rel: string, r: Region, ghost done: set<Stroke>) returns (lines: Lines)
    requires Holds(was, done)
    ensures Holds(lines, done + RegionStrokes(rel, r, r.le + 1))
  {
    lines := was;
    var span := Span(r.le - r.ls, r.ce - r.cs);
    var ln := r.ls;
    assert RegionStrokes(rel, r, ln) == {};
    assert done + {} == done;
    while ln < r.le + 1
      invariant r.ls <= ln && (ln <= r.le + 1 || ln == r.ls)
      invariant Holds(lines, done + RegionStrokes(rel, r, ln))
    {
      ghost var s := Stroke(rel, ln, Coat(span, r.count));
      PaintedHolds(lines, done + RegionStrokes(rel, r, ln), s);
      RegionOneMore(rel, r, ln);
      assert done + RegionStrokes(rel, r, ln + 1) == done + RegionStrokes(rel, r, ln) + {s};
      var byLine := if rel in lines then lines[rel] else map[];
      if ln !in byLine || Beats(Coat(span, r.count), byLine[ln]) {
        lines := lines[rel := byLine[ln := Coat(span, r.count)]];
      }
      ln := ln + 1;
    }
    assert RegionStrokes(rel, r, ln) == RegionStrokes(rel, r, r.le + 1);
  }

  method PaintFn(was: Lines, f: Covered, ghost done: set<Stroke>) returns (lines: Lines)
    requires Holds(was, done)
    ensures Holds(lines, done + FnStrokes(f, |f.regions|))
  {
    lines := was;
    if f.rel.None? {
      assert done + {} == done;
      return;
    }
    ghost var all := done;
    for i := 0 to |f.regions|
      invariant all == done + FnStrokes(f, i) && Holds(lines, all)
    {
      var r := f.regions[i];
      if r.fileId != 0 || r.kind != 0 {
        continue;
      }
      lines := PaintRegion(lines, f.rel.value, r, all);
      all := all + RegionStrokes(f.rel.value, r, r.le + 1);
    }
  }

  method PaintExport(was: Lines, fns: seq<Covered>, ghost done: set<Stroke>) returns (lines: Lines)
    requires Holds(was, done)
    ensures Holds(lines, done + ExportStrokes(fns, |fns|))
  {
    lines := was;
    ghost var all := done;
    for i := 0 to |fns|
      invariant all == done + ExportStrokes(fns, i) && Holds(lines, all)
    {
      lines := PaintFn(lines, fns[i], all);
      all := all + FnStrokes(fns[i], |fns[i].regions|);
    }
  }

  /** `paint`, before the spans are dropped. */
  method PaintAll(exports: seq<seq<Covered>>) returns (lines: Lines)
    ensures Holds(lines, Strokes(exports, |exports|))
  {
    lines := map[];
    for e := 0 to |exports|
      invariant Holds(lines, Strokes(exports, e))
    {
      lines := PaintExport(lines, exports[e], Strokes(exports, e));
    }
  }

  function Counts(lines: Lines): map<string, map<int, nat>> {
    map rel | rel in lines :: map line | line in lines[rel] :: lines[rel][line].count
  }

  method PaintCounts(exports: seq<seq<Covered>>) returns (counts: map<string, map<int, nat>>)
    ensures exists lines :: Holds(lines, Strokes(exports, |exports|)) && counts == Counts(lines)
  {
    var lines := PaintAll(exports);
    counts := Counts(lines);
  }

  // ---- what the strokes are -------------------------------------------------------------

  /** Some export's function on `rel` has a code region that paints the stroke. */
  ghost predicate PaintedSomewhere(exports: seq<seq<Covered>>, s: Stroke) {
    exists e, i, k :: 0 <= e < |exports| && 0 <= i < |exports[e]| && 0 <= k < |exports[e][i].regions| &&
                      PaintsIt(exports[e][i].rel, exports[e][i].regions[k], s)
  }

  predicate PaintsIt(rel: Option<string>, r: Region, s: Stroke) {
    && rel == Some(s.rel) && r.fileId == 0 && r.kind == 0 && r.ls <= s.line <= r.le
    && s.coat == Coat(Span(r.le - r.ls, r.ce - r.cs), r.count)
  }

  lemma RegionPaints(rel: string, r: Region, s: Stroke)
    ensures IsCode(r) && s in RegionStrokes(rel, r, r.le + 1) <==> PaintsIt(Some(rel), r, s)
  {
    if PaintsIt(Some(rel), r, s) {
      assert s == Stroke(rel, s.line, Coat(SpanOf(r), r.count));
    }
  }

  lemma {:induction false} FnStrokesAre(f: Covered, n: nat, s: Stroke)
    requires n <= |f.regions|
    ensures s in FnStrokes(f, n) <==> exists k :: 0 <= k < n && PaintsIt(f.rel, f.regions[k], s)
  {
    if n > 0 {
      FnStrokesAre(f, n - 1, s);
      if f.rel.Some? {
        RegionPaints(f.rel.value, f.regions[n - 1], s);
      }
    }
  }

  lemma {:induction false} ExportStrokesAre(fns: seq<Covered>, n: nat, s: Stroke)
    requires n <= |fns|
    ensures s in ExportStrokes(fns, n) <==>
            exists i, k :: 0 <= i < n && 0 <= k < |fns[i].regions| && PaintsIt(fns[i].rel, fns[i].regions[k], s)
  {
    if n > 0 {
      ExportStrokesAre(fns, n - 1, s);
      FnStrokesAre(fns[n - 1], |fns[n - 1].regions|, s);
    }
  }

  lemma {:induction false} StrokesAre(exports: seq<seq<Covered>>, n: nat, s: Stroke)
    requires n <= |exports|
    ensures s in Strokes(exports, n) <==> PaintedSomewhere(exports[..n], s)
  {
    if n > 0 {
      StrokesAre(exports, n - 1, s);
      ExportStrokesAre(exports[n - 1], |exports[n - 1]|, s);
      assert exports[..n] == exports[..n - 1] + [exports[n - 1]];
    }
  }

  // ---- what a line gets -------------------------------------------------------------------

  /** Two runs over the same regions, in whatever order and however often each
      occurs, paint every line alike. */
  lemma {:induction false} OrderDoesNotMatter(a: seq<seq<Covered>>, b: seq<seq<Covered>>, p: Lines, q: Lines)
    requires Holds(p, Strokes(a, |a|)) && Holds(q, Strokes(b, |b|))
    requires forall s :: PaintedSomewhere(a, s) <==> PaintedSomewhere(b, s)
    ensures p == q
  {
    forall s ensures s in Strokes(a, |a|) <==> s in Strokes(b, |b|) {
      StrokesAre(a, |a|, s);
      StrokesAre(b, |b|, s);
      assert a[..|a|] == a && b[..|b|] == b;
    }
    assert Strokes(a, |a|) == Strokes(b, |b|);
    OnePainting(p, q, Strokes(a, |a|));
  }

  lemma OnePainting(p: Lines, q: Lines, strokes: set<Stroke>)
    requires Holds(p, strokes) && Holds(q, strokes)
    ensures p == q
  {
    SameLines(p, q, strokes);
    SameLines(q, p, strokes);
    forall rel | rel in p ensures p[rel] == q[rel] {
      forall line | line in p[rel] ensures line in q[rel] && q[rel][line] == p[rel][line] {
        assert Has(p, rel, line);
      }
      forall line | line in q[rel] ensures line in p[rel] {
        assert Has(q, rel, line);
      }
    }
  }

  lemma SomeLine(byLine: map<int, Coat>) returns (line: int)
    requires byLine != map[]
    ensures line in byLine
  {
    assert (forall l :: l !in byLine) ==> byLine == map[];
    line :| line in byLine;
  }

  lemma SameLines(p: Lines, q: Lines, strokes: set<Stroke>)
    requires Holds(p, strokes) && Holds(q, strokes)
    ensures p.Keys <= q.Keys
    ensures forall rel, line | Has(p, rel, line) :: Has(q, rel, line) && q[rel][line] == p[rel][line]
  {
    forall rel, line | Has(p, rel, line) ensures Has(q, rel, line) && q[rel][line] == p[rel][line] {
      var s := Stroke(rel, line, p[rel][line]);
      assert s in strokes;
      assert Has(q, s.rel, s.line);
      var t := Stroke(rel, line, q[rel][line]);
      assert t in strokes;
      assert !Beats(s.coat, t.coat) && !Beats(t.coat, s.coat);
    }
    forall rel | rel in p ensures rel in q {
      var line := SomeLine(p[rel]);
      assert Has(p, rel, line);
    }
  }

  /** `r` lies within `outer`. */
  predicate Within(r: Region, outer: Region) {
    && (outer.ls < r.ls || (outer.ls == r.ls && outer.cs <= r.cs))
    && (r.le < outer.le || (r.le == outer.le && r.ce <= outer.ce))
  }

  /** Where one of two nested regions paints over the other, it lies within it;
      and equal spans are equal extents. */
  lemma NestedSpans(r: Region, o: Region)
    requires Within(r, o) || Within(o, r)
    requires !Smaller(SpanOf(o), SpanOf(r))
    ensures Within(r, o)
  {
  }

  /** The region whose paint a line shows. */
  lemma Winner(exports: seq<seq<Covered>>, lines: Lines, rel: string, line: int) returns (r: Region)
    requires Holds(lines, Strokes(exports, |exports|)) && Has(lines, rel, line)
    ensures On(exports, rel, line, r) && lines[rel][line] == Coat(SpanOf(r), r.count)
  {
    var s := Stroke(rel, line, lines[rel][line]);
    StrokesAre(exports, |exports|, s);
    assert exports[..|exports|] == exports;
    var e, i, k :| 0 <= e < |exports| && 0 <= i < |exports[e]| && 0 <= k < |exports[e][i].regions| &&
                   PaintsIt(exports[e][i].rel, exports[e][i].regions[k], s);
    r := exports[e][i].regions[k];
    assert On(exports, rel, line, r);
  }

  /** When the code regions covering a line are nested, its count is that of a
      region lying within all of them, the largest among those of its extent. */
  lemma {:induction false} InnermostWins(exports: seq<seq<Covered>>, lines: Lines, rel: string, line: int)
    requires Holds(lines, Strokes(exports, |exports|)) && Has(lines, rel, line)
    requires forall r, o | On(exports, rel, line, r) && On(exports, rel, line, o) :: Within(r, o) || Within(o, r)
    ensures exists r :: On(exports, rel, line, r) && r.count == lines[rel][line].count &&
              forall o | On(exports, rel, line, o) :: Within(r, o) && (Within(o, r) ==> o.count <= r.count)
  {
    var r := Winner(exports, lines, rel, line);
    forall o | On(exports, rel, line, o) ensures Within(r, o) && (Within(o, r) ==> o.count <= r.count) {
      NotBeaten(exports, lines, rel, line, o);
      NestedSpans(r, o);
    }
  }

  /** The count is that of a covering region of which none other has fewer lines,
      or as many and fewer columns, or the same and a larger count. */
  lemma SmallestWins(exports: seq<seq<Covered>>, lines: Lines, rel: string, line: int)
    requires Holds(lines, Strokes(exports, |exports|)) && Has(lines, rel, line)
    ensures exists r :: On(exports, rel, line, r) && r.count == lines[rel][line].count &&
              forall o | On(exports, rel, line, o) :: NoLarger(r, o)
  {
    var r := Winner(exports, lines, rel, line);
    forall o | On(exports, rel, line, o) ensures NoLarger(r, o) {
      NotBeaten(exports, lines, rel, line, o);
      UnbeatenIsNoLarger(r, o);
    }
  }

  /** Fewer lines, or as many and fewer columns, or the same and no smaller count. */
  predicate NoLarger(r: Region, o: Region) {
    && r.le - r.ls <= o.le - o.ls
    && (r.le - r.ls == o.le - o.ls ==> r.ce - r.cs <= o.ce - o.cs)
    && (r.le - r.ls == o.le - o.ls && r.ce - r.cs == o.ce - o.cs ==> r.count >= o.count)
  }

  lemma UnbeatenIsNoLarger(r: Region, o: Region)
    requires !Beats(Coat(SpanOf(o), o.count), Coat(SpanOf(r), r.count))
    ensures NoLarger(r, o)
  {
  }

  /** A code region of `rel` covers the line. */
  ghost predicate On(exports: seq<seq<Covered>>, rel: string, line: int, r: Region) {
    PaintedSomewhereBy(exports, r, Stroke(rel, line, Coat(SpanOf(r), r.count)))
  }

  ghost predicate PaintedSomewhereBy(exports: seq<seq<Covered>>, r: Region, s: Stroke) {
    exists e, i, k :: 0 <= e < |exports| && 0 <= i < |exports[e]| && 0 <= k < |exports[e][i].regions| &&
                      exports[e][i].regions[k] == r && PaintsIt(exports[e][i].rel, exports[e][i].regions[k], s)
  }

  lemma NotBeaten(exports: seq<seq<Covered>>, lines: Lines, rel: string, line: int, o: Region)
    requires Holds(lines, Strokes(exports, |exports|)) && Has(lines, rel, line) && On(exports, rel, line, o)
    ensures !Beats(Coat(SpanOf(o), o.count), lines[rel][line])
  {
    var s := Stroke(rel, line, Coat(SpanOf(o), o.count));
    assert exports[..|exports|] == exports;
    StrokesAre(exports, |exports|, s);
    assert s in Strokes(exports, |exports|);
  }
}
