/**
 The test-module ranges of a file by line-summed brace depth
 (scripts/ci-mutants-summary.py, `_test_module_ranges`).

 A line is given by what it is and how many braces it opens and closes.
 */
module TestRanges {

  /** What a line's text makes it: blank or a comment, the cfg(test) attribute,
      another attribute, or anything else. */
  datatype Shape = Silent | TestAttr | OtherAttr | Text

  datatype Line = Line(shape: Shape, opens: nat, closes: nat)

  /** First and last line, counted from 1. */
  datatype Range = Range(first: nat, last: nat)

  /** An open module: the depth before its brace, and its line. */
  datatype Open = Open(base: int, start: nat)

  datatype Scan = Scan(depth: int, stack: seq<Open>, ranges: seq<Range>, pending: bool)

  const START := Scan(0, [], [], false)

  /** Close every module whose base depth is reached. */
  function Popped(depth: int, stack: seq<Open>, ranges: seq<Range>, lineno: nat): (seq<Open>, seq<Range>)
    decreases |stack|
  {
    if stack != [] && depth <= stack[|stack| - 1].base then
      Popped(depth, stack[..|stack| - 1], ranges + [Range(stack[|stack| - 1].start, lineno)], lineno)
    else (stack, ranges)
  }

  function Step(s: Scan, line: Line, lineno: nat): Scan {
    if line.shape == Silent then s
    else if line.shape == TestAttr then s.(pending := true)
    else if s.pending && line.shape == OtherAttr then s
    else
      var depth := s.depth + line.opens - line.closes;
      if s.pending then
        if line.opens > line.closes then Scan(depth, s.stack + [Open(s.depth, lineno)], s.ranges, false)
        else Scan(depth, s.stack, s.ranges + [Range(lineno, lineno)], false)
      else
        var (stack, ranges) := Popped(depth, s.stack, s.ranges, lineno);
        Scan(depth, stack, ranges, false)
  }

  function Scanned(lines: seq<Line>): Scan
    decreases |lines|
  {
    if lines == [] then START else Step(Scanned(lines[..|lines| - 1]), lines[|lines| - 1], |lines|)
  }

  method TestModuleRanges(lines: seq<Line>) returns (ranges: seq<Range>)
    ensures ranges == Scanned(lines).ranges
  {
    ranges := [];
    var stack: seq<Open> := [];
    var depth := 0;
    var pending := false;
    for i := 0 to |lines|
      invariant Scan(depth, stack, ranges, pending) == Scanned(lines[..i])
    {
      assert lines[..i + 1][..i] == lines[..i];
      var lineno := i + 1;
      var line := lines[i];
      if line.shape == Silent {
        continue;
      }
      if line.shape == TestAttr {
        pending := true;
        continue;
      }
      if pending && line.shape == OtherAttr {
        continue;
      }
      if pending {
        pending := false;
        if line.opens > line.closes {
          stack := stack + [Open(depth, lineno)];
          depth := depth + line.opens - line.closes;
          continue;
        }
        ranges := ranges + [Range(lineno, lineno)];
        depth := depth + line.opens - line.closes;
        continue;
      }
      depth := depth + line.opens - line.closes;
      stack, ranges := Pop(depth, stack, ranges, lineno);
    }
    assert lines[..|lines|] == lines;
  }

  method Pop(depth: int, open: seq<Open>, before: seq<Range>, lineno: nat) returns (stack: seq<Open>, ranges: seq<Range>)
    ensures (stack, ranges) == Popped(depth, open, before, lineno)
  {
    stack, ranges := open, before;
    while stack != [] && depth <= stack[|stack| - 1].base
      invariant Popped(depth, stack, ranges, lineno) == Popped(depth, open, before, lineno)
      decreases |stack|
    {
      var top := stack[|stack| - 1];
      stack := stack[..|stack| - 1];
      ranges := ranges + [Range(top.start, lineno)];
    }
  }

  // ---- ranges nest -------------------------------------------------------------------------

  /** One lies inside the other, or they share no line. */
  predicate NestedOrApart(a: Range, b: Range) {
    || a.last < b.first || b.last < a.first
    || (a.first <= b.first && b.last <= a.last)
    || (b.first <= a.first && a.last <= b.last)
  }

  /** Ranges closed by line `n`: each nested in or apart from the others, and
      wholly before or wholly after the start of a module still open. */
  ghost predicate Laminar(stack: seq<Open>, ranges: seq<Range>, n: nat) {
    && (forall i | 0 <= i < |stack| :: stack[i].start <= n)
    && (forall i, j | 0 <= i < j < |stack| :: stack[i].start < stack[j].start)
    && (forall k | 0 <= k < |ranges| :: ranges[k].first <= ranges[k].last <= n)
    && (forall j, k | 0 <= j < k < |ranges| :: NestedOrApart(ranges[j], ranges[k]))
    && (forall i, k | 0 <= i < |stack| && 0 <= k < |ranges| :: ranges[k].last < stack[i].start || stack[i].start < ranges[k].first)
  }

  /** A module that closes on the line being read. */
  lemma OneMoreRange(stack: seq<Open>, top: Open, ranges: seq<Range>, n: nat)
    requires Laminar(stack + [top], ranges, n)
    ensures Laminar(stack, ranges + [Range(top.start, n)], n)
  {
    var all := stack + [top];
    assert all[|stack|] == top;
    assert forall i | 0 <= i < |stack| :: all[i] == stack[i];
    var more := ranges + [Range(top.start, n)];
    forall j, k | 0 <= j < k < |more| ensures NestedOrApart(more[j], more[k]) {
      if k == |ranges| {
        assert ranges[j].last < top.start || top.start < ranges[j].first;
      }
    }
  }

  lemma {:induction false} PoppedLaminar(depth: int, stack: seq<Open>, ranges: seq<Range>, n: nat)
    requires Laminar(stack, ranges, n)
    ensures var (s, r) := Popped(depth, stack, ranges, n); Laminar(s, r, n)
    decreases |stack|
  {
    if stack != [] && depth <= stack[|stack| - 1].base {
      var rest, top := stack[..|stack| - 1], stack[|stack| - 1];
      assert rest + [top] == stack;
      OneMoreRange(rest, top, ranges, n);
      PoppedLaminar(depth, rest, ranges + [Range(top.start, n)], n);
    }
  }

  lemma LaminarLater(stack: seq<Open>, ranges: seq<Range>, n: nat, base: int)
    requires Laminar(stack, ranges, n)
    ensures Laminar(stack, ranges, n + 1)
    ensures Laminar(stack + [Open(base, n + 1)], ranges, n + 1)
    ensures Laminar(stack, ranges + [Range(n + 1, n + 1)], n + 1)
  {
    var all := stack + [Open(base, n + 1)];
    assert all[|stack|].start == n + 1;
    var more := ranges + [Range(n + 1, n + 1)];
    assert more[|ranges|] == Range(n + 1, n + 1);
  }

  lemma {:induction false} ScannedLaminar(lines: seq<Line>)
    ensures Laminar(Scanned(lines).stack, Scanned(lines).ranges, |lines|)
    decreases |lines|
  {
    if lines != [] {
      var before, line := lines[..|lines| - 1], lines[|lines| - 1];
      ScannedLaminar(before);
      var s := Scanned(before);
      LaminarLater(s.stack, s.ranges, |before|, s.depth);
      PoppedLaminar(s.depth + line.opens - line.closes, s.stack, s.ranges, |lines|);
    }
  }

  /** Whatever the lines, the ranges are pairwise nested or apart, each within
      the file. */
  lemma {:induction false} RangesNest(lines: seq<Line>)
    ensures var ranges := Scanned(lines).ranges;
            && (forall k | 0 <= k < |ranges| :: ranges[k].first <= ranges[k].last <= |lines|)
            && (forall j, k | 0 <= j < k < |ranges| :: NestedOrApart(ranges[j], ranges[k]))
  {
    ScannedLaminar(lines);
  }

  // ---- on well-shaped files the ranges are where depth returns ------------------------------

  /** Brace depth before line `n` (from 0). */
  function Depth(lines: seq<Line>, n: nat): int
    requires n <= |lines|
  {
    if n == 0 then 0 else Depth(lines, n - 1) + lines[n - 1].opens - lines[n - 1].closes
  }

  /** Above line `n`, past attributes and silent lines, stands a cfg(test). */
  predicate Awaiting(lines: seq<Line>, n: nat)
    requires n <= |lines|
  {
    n > 0 && (lines[n - 1].shape == TestAttr ||
              ((lines[n - 1].shape == Silent || lines[n - 1].shape == OtherAttr) && Awaiting(lines, n - 1)))
  }

  /** The line a cfg(test) is on: a test module's header. */
  predicate Header(lines: seq<Line>, l: nat) {
    l < |lines| && lines[l].shape == Text && Awaiting(lines, l)
  }

  /** A cfg(test) item that opens a block on its line... */
  predicate Opens(lines: seq<Line>, l: nat) {
    Header(lines, l) && lines[l].opens > lines[l].closes
  }

  /** ... and one that does not: `mod t;`, or a body closed on the same line. */
  predicate Lone(lines: seq<Line>, l: nat) {
    Header(lines, l) && lines[l].opens <= lines[l].closes
  }

  /** No comment or attribute line changes the depth, and no cfg(test) item
      lowers it. */
  ghost predicate Steady(lines: seq<Line>) {
    && (forall l | 0 <= l < |lines| && lines[l].shape != Text :: lines[l].opens == lines[l].closes)
    && (forall l: nat | Header(lines, l) :: lines[l].opens >= lines[l].closes)
  }

  ghost predicate Above(lines: seq<Line>, l: nat, e: nat)
    requires e <= |lines| && l <= |lines|
  {
    forall k | l < k < e :: Depth(lines, k) > Depth(lines, l)
  }

  /** Line `e` (from 1) is the first after the header at which the depth is back
      to what it was before it. */
  ghost predicate Returns(lines: seq<Line>, l: nat, e: nat) {
    && Opens(lines, l) && l < e <= |lines|
    && Above(lines, l, e) && Depth(lines, e) <= Depth(lines, l)
  }

  /** Entries deeper and deeper. */
  predicate Deepening(stack: seq<Open>) {
    forall i, j | 0 <= i < j < |stack| :: stack[i].base < stack[j].base
  }

  lemma {:induction false} PoppedExact(depth: int, stack: seq<Open>, ranges: seq<Range>, lineno: nat)
    requires Deepening(stack)
    ensures var (s, r) := Popped(depth, stack, ranges, lineno);
            && Deepening(s)
            && (forall o :: o in s <==> o in stack && o.base < depth)
            && (forall x :: x in r <==> x in ranges || exists o :: o in stack && o.base >= depth && x == Range(o.start, lineno))
    decreases |stack|
  {
    if stack != [] && depth <= stack[|stack| - 1].base {
      var rest, top := stack[..|stack| - 1], stack[|stack| - 1];
      assert stack == rest + [top];
      PoppedExact(depth, rest, ranges + [Range(top.start, lineno)], lineno);
    }
  }

  /** What the scan holds after `n` lines of a well-shaped file. */
  ghost predicate Tells(lines: seq<Line>, s: Scan, n: nat)
    requires n <= |lines|
  {
    && s.depth == Depth(lines, n) && s.pending == Awaiting(lines, n)
    && Deepening(s.stack)
    && (forall o :: o in s.stack <==> IsOpen(lines, o, n))
    && (forall r :: r in s.ranges <==> IsClosed(lines, r, n))
  }

  ghost predicate IsOpen(lines: seq<Line>, o: Open, n: nat)
    requires n <= |lines|
  {
    0 < o.start <= n && Opens(lines, o.start - 1) && o.base == Depth(lines, o.start - 1) && Above(lines, o.start - 1, n) &&
    Depth(lines, n) > o.base
  }

  ghost predicate IsClosed(lines: seq<Line>, r: Range, n: nat) {
    0 < r.first && r.last <= n && Covers(lines, r)
  }

  /** A range runs from an item that opens a block to where it returns, or is the
      one line of an item that opens none. */
  ghost predicate Covers(lines: seq<Line>, r: Range) {
    0 < r.first && (Returns(lines, r.first - 1, r.last) || (Lone(lines, r.first - 1) && r.last == r.first))
  }

  /** What one more line opens... */
  lemma OpenStep(lines: seq<Line>, n: nat, o: Open)
    requires n < |lines|
    ensures IsOpen(lines, o, n + 1) <==>
            (IsOpen(lines, o, n) && o.base < Depth(lines, n + 1)) ||
            (o == Open(Depth(lines, n), n + 1) && Opens(lines, n))
  {
  }

  lemma ClosedNow(lines: seq<Line>, n: nat, r: Range)
    requires n < |lines| && 0 < r.first <= n && r.last == n + 1
    ensures Returns(lines, r.first - 1, n + 1) <==>
            exists o :: IsOpen(lines, o, n) && o.base >= Depth(lines, n + 1) && r == Range(o.start, n + 1)
  {
    if Returns(lines, r.first - 1, n + 1) {
      assert IsOpen(lines, Open(Depth(lines, r.first - 1), r.first), n);
    }
  }

  /** ... and closes. */
  lemma ClosedStep(lines: seq<Line>, n: nat, r: Range)
    requires n < |lines| && Steady(lines)
    ensures IsClosed(lines, r, n + 1) <==>
            || IsClosed(lines, r, n) || (Lone(lines, n) && r == Range(n + 1, n + 1))
            || exists o :: IsOpen(lines, o, n) && o.base >= Depth(lines, n + 1) && r == Range(o.start, n + 1)
  {
    if r.last == n + 1 && 0 < r.first <= n {
      ClosedNow(lines, n, r);
    }
  }

  lemma NoneToClose(lines: seq<Line>, n: nat, r: Range)
    requires n < |lines| && Steady(lines) && Depth(lines, n + 1) >= Depth(lines, n)
    ensures IsClosed(lines, r, n + 1) <==> IsClosed(lines, r, n) || (Lone(lines, n) && r == Range(n + 1, n + 1))
  {
    ClosedStep(lines, n, r);
  }

  lemma BalancedStep(lines: seq<Line>, s: Scan, n: nat)
    requires n < |lines| && Steady(lines) && Tells(lines, s, n) && lines[n].shape != Text
    ensures forall o :: IsOpen(lines, o, n + 1) <==> IsOpen(lines, o, n)
    ensures forall r :: IsClosed(lines, r, n + 1) <==> IsClosed(lines, r, n)
  {
    forall o ensures IsOpen(lines, o, n + 1) <==> IsOpen(lines, o, n) {
      OpenStep(lines, n, o);
    }
    forall r ensures IsClosed(lines, r, n + 1) <==> IsClosed(lines, r, n) {
      NoneToClose(lines, n, r);
    }
  }

  lemma QuietTells(lines: seq<Line>, s: Scan, n: nat)
    requires n < |lines| && Steady(lines) && Tells(lines, s, n) && lines[n].shape != Text
    ensures Tells(lines, Step(s, lines[n], n + 1), n + 1)
  {
    BalancedStep(lines, s, n);
    PoppedExact(s.depth, s.stack, s.ranges, n + 1);
    assert forall o | o in s.stack :: o.base < s.depth;
  }

  lemma OpensTells(lines: seq<Line>, s: Scan, n: nat)
    requires n < |lines| && Steady(lines) && Tells(lines, s, n) && Opens(lines, n)
    ensures Tells(lines, Step(s, lines[n], n + 1), n + 1)
  {
    var top := Open(s.depth, n + 1);
    forall o ensures o in s.stack + [top] <==> IsOpen(lines, o, n + 1) {
      OpenStep(lines, n, o);
    }
    forall r ensures IsClosed(lines, r, n + 1) <==> IsClosed(lines, r, n) {
      NoneToClose(lines, n, r);
    }
    assert forall i | 0 <= i < |s.stack| :: s.stack[i] in s.stack;
  }

  lemma LoneTells(lines: seq<Line>, s: Scan, n: nat)
    requires n < |lines| && Steady(lines) && Tells(lines, s, n) && Lone(lines, n)
    ensures Tells(lines, Step(s, lines[n], n + 1), n + 1)
  {
    forall o ensures IsOpen(lines, o, n + 1) <==> IsOpen(lines, o, n) {
      OpenStep(lines, n, o);
    }
    var ranges := s.ranges + [Range(n + 1, n + 1)];
    forall r ensures r in ranges <==> IsClosed(lines, r, n + 1) {
      NoneToClose(lines, n, r);
    }
  }

  lemma TextOpens(lines: seq<Line>, s: Scan, n: nat, stack: seq<Open>)
    requires n < |lines| && Tells(lines, s, n) && lines[n].shape == Text && !Header(lines, n)
    requires forall o :: o in stack <==> o in s.stack && o.base < Depth(lines, n + 1)
    ensures forall o :: o in stack <==> IsOpen(lines, o, n + 1)
  {
    forall o ensures o in stack <==> IsOpen(lines, o, n + 1) {
      OpenStep(lines, n, o);
    }
  }

  lemma TextCloses(lines: seq<Line>, s: Scan, n: nat, ranges: seq<Range>)
    requires n < |lines| && Steady(lines) && Tells(lines, s, n) && lines[n].shape == Text && !Header(lines, n)
    requires forall r :: r in ranges <==>
               r in s.ranges || exists o :: o in s.stack && o.base >= Depth(lines, n + 1) && r == Range(o.start, n + 1)
    ensures forall r :: r in ranges <==> IsClosed(lines, r, n + 1)
  {
    forall r ensures r in ranges <==> IsClosed(lines, r, n + 1) {
      ClosedStep(lines, n, r);
    }
  }

  lemma TextTells(lines: seq<Line>, s: Scan, n: nat)
    requires n < |lines| && Steady(lines) && Tells(lines, s, n)
    requires lines[n].shape == Text && !Header(lines, n)
    ensures Tells(lines, Step(s, lines[n], n + 1), n + 1)
  {
    var (stack, ranges) := Popped(Depth(lines, n + 1), s.stack, s.ranges, n + 1);
    PoppedExact(Depth(lines, n + 1), s.stack, s.ranges, n + 1);
    TextOpens(lines, s, n, stack);
    TextCloses(lines, s, n, ranges);
  }

  lemma {:induction false} ScanTells(lines: seq<Line>, n: nat)
    requires Steady(lines) && n <= |lines|
    ensures Tells(lines, Scanned(lines[..n]), n)
    decreases n
  {
    if n > 0 {
      ScanTells(lines, n - 1);
      assert lines[..n][..n - 1] == lines[..n - 1];
      var s := Scanned(lines[..n - 1]);
      if lines[n - 1].shape != Text {
        QuietTells(lines, s, n - 1);
      } else if Opens(lines, n - 1) {
        OpensTells(lines, s, n - 1);
      } else if Lone(lines, n - 1) {
        LoneTells(lines, s, n - 1);
      } else {
        TextTells(lines, s, n - 1);
      }
    }
  }

  /** In a steady file the ranges are exactly, for each cfg(test) item that opens
      a block on its line, from it to the first line at which the depth is back
      to what it was, and for each other, its line. */
  lemma {:induction false} RangesAreReturns(lines: seq<Line>, r: Range)
    requires Steady(lines)
    ensures r in Scanned(lines).ranges <==> Covers(lines, r)
  {
    ScanTells(lines, |lines|);
    assert lines[..|lines|] == lines;
  }

  // ---- on any lines ---------------------------------------------------------------------

  /** The lines whose braces the walk counts. */
  predicate Counted(lines: seq<Line>, k: nat) {
    k < |lines| && (lines[k].shape == Text || (lines[k].shape == OtherAttr && !Awaiting(lines, k)))
  }

  /** The depth by those lines alone. */
  function Level(lines: seq<Line>, n: nat): int
    requires n <= |lines|
  {
    if n == 0 then 0 else Level(lines, n - 1) + if Counted(lines, n - 1) then lines[n - 1].opens - lines[n - 1].closes else 0
  }

  /** Lines at which modules may close: counted, and no cfg(test) item's own. */
  predicate MayClose(lines: seq<Line>, k: nat) {
    Counted(lines, k) && !Header(lines, k)
  }

  /** The depth before the item on this line, counted from 1. */
  function Base(lines: seq<Line>, start: nat): int {
    if 0 < start <= |lines| then Level(lines, start - 1) else 0
  }

  /** The open items, by their lines, that close at depth `level`: those it is back
      to, along with every item opened after them. */
  function Closing(lines: seq<Line>, open: set<nat>, level: int): set<nat> {
    set o | o in open && forall m | m in open && o <= m :: level <= Base(lines, m)
  }

  /** The items open after `n` lines, by their lines counted from 1. */
  function OpenItems(lines: seq<Line>, n: nat): set<nat>
    requires n <= |lines|
  {
    if n == 0 then {}
    else if Opens(lines, n - 1) then OpenItems(lines, n - 1) + {n}
    else if MayClose(lines, n - 1) then OpenItems(lines, n - 1) - Closing(lines, OpenItems(lines, n - 1), Level(lines, n))
    else OpenItems(lines, n - 1)
  }

  /** The item closes on this line, both counted from 1. */
  predicate ClosesOn(lines: seq<Line>, start: nat, last: nat) {
    && 0 < last <= |lines| && MayClose(lines, last - 1)
    && start in Closing(lines, OpenItems(lines, last - 1), Level(lines, last))
  }

  predicate Rising(stack: seq<Open>) {
    forall i, j | 0 <= i < j < |stack| :: stack[i].start < stack[j].start
  }

  /** The stack is of these items, in order. */
  ghost predicate Holds(lines: seq<Line>, stack: seq<Open>, open: set<nat>) {
    && Rising(stack)
    && (forall i | 0 <= i < |stack| :: stack[i].start in open && stack[i].base == Base(lines, stack[i].start))
    && (forall o | o in open :: exists i :: 0 <= i < |stack| && stack[i].start == o)
  }

  /** What popping leaves and adds: it takes the entries above the last one that
      is below the depth. */
  lemma {:induction false} PoppedSplit(depth: int, stack: seq<Open>, ranges: seq<Range>, lineno: nat) returns (c: nat)
    ensures c <= |stack| && Popped(depth, stack, ranges, lineno).0 == stack[..c]
    ensures (forall i | c <= i < |stack| :: depth <= stack[i].base) && (c > 0 ==> depth > stack[c - 1].base)
    ensures forall r :: r in Popped(depth, stack, ranges, lineno).1 <==>
              r in ranges || exists i :: c <= i < |stack| && r == Range(stack[i].start, lineno)
    decreases |stack|
  {
    if stack != [] && depth <= stack[|stack| - 1].base {
      var last := |stack| - 1;
      c := PoppedSplit(depth, stack[..last], ranges + [Range(stack[last].start, lineno)], lineno);
      assert stack[..last][..c] == stack[..c];
    } else {
      c := |stack|;
      assert stack[..c] == stack;
    }
  }

  /** The entry at `i` goes exactly when its item closes. */
  lemma EntryCloses(lines: seq<Line>, stack: seq<Open>, open: set<nat>, level: int, c: nat, i: nat)
    requires Holds(lines, stack, open) && c <= |stack| && i < |stack|
    requires (forall j | c <= j < |stack| :: level <= stack[j].base) && (c > 0 ==> level > stack[c - 1].base)
    ensures stack[i].start in Closing(lines, open, level) <==> c <= i
  {
    if c <= i {
      forall m | m in open && stack[i].start <= m ensures level <= Base(lines, m) {
        var j :| 0 <= j < |stack| && stack[j].start == m;
        assert i <= j;
      }
    } else {
      assert stack[c - 1].start in open;
    }
  }

  lemma HoldsFewer(lines: seq<Line>, stack: seq<Open>, open: set<nat>, level: int, c: nat)
    requires Holds(lines, stack, open) && c <= |stack|
    requires forall i | 0 <= i < |stack| :: stack[i].start in Closing(lines, open, level) <==> c <= i
    ensures Holds(lines, stack[..c], open - Closing(lines, open, level))
  {
    forall o | o in open - Closing(lines, open, level) ensures exists i :: 0 <= i < |stack[..c]| && stack[..c][i].start == o {
      var i :| 0 <= i < |stack| && stack[i].start == o;
      assert i < c && stack[..c][i].start == o;
    }
  }

  lemma HoldsMore(lines: seq<Line>, stack: seq<Open>, open: set<nat>, start: nat)
    requires Holds(lines, stack, open) && forall o | o in open :: o < start
    ensures Holds(lines, stack + [Open(Base(lines, start), start)], open + {start})
  {
    var more := stack + [Open(Base(lines, start), start)];
    forall o | o in open + {start} ensures exists i :: 0 <= i < |more| && more[i].start == o {
      if o == start {
        assert more[|stack|].start == o;
      } else {
        var i :| 0 <= i < |stack| && stack[i].start == o;
        assert more[i].start == o;
      }
    }
  }

  lemma {:induction false} OpenBelow(lines: seq<Line>, n: nat)
    requires n <= |lines|
    ensures forall o | o in OpenItems(lines, n) :: 0 < o <= n
  {
    if n > 0 {
      OpenBelow(lines, n - 1);
    }
  }

  /** The range is of an item that closed in the first `n` lines, or opened nothing. */
  ghost predicate Taken(lines: seq<Line>, r: Range, n: nat) {
    0 < r.first <= r.last <= n && (ClosesOn(lines, r.first, r.last) || (r.first == r.last && Lone(lines, r.first - 1)))
  }

  /** What the scan holds after `n` lines, whatever they are. */
  ghost predicate Shows(lines: seq<Line>, s: Scan, n: nat)
    requires n <= |lines|
  {
    && s.depth == Level(lines, n) && s.pending == Awaiting(lines, n) && Holds(lines, s.stack, OpenItems(lines, n))
    && (forall r :: r in s.ranges <==> Taken(lines, r, n))
  }

  lemma TakenNext(lines: seq<Line>, r: Range, n: nat)
    requires n < |lines|
    ensures Taken(lines, r, n + 1) <==>
            || Taken(lines, r, n) || (r == Range(n + 1, n + 1) && Lone(lines, n))
            || (0 < r.first && r.last == n + 1 && ClosesOn(lines, r.first, n + 1))
  {
    OpenBelow(lines, n);
  }

  lemma CloseShows(lines: seq<Line>, s: Scan, n: nat)
    requires n < |lines| && Shows(lines, s, n) && MayClose(lines, n)
    ensures Shows(lines, Step(s, lines[n], n + 1), n + 1)
  {
    var depth, open := Level(lines, n + 1), OpenItems(lines, n);
    var c := PoppedSplit(depth, s.stack, s.ranges, n + 1);
    forall i | 0 <= i < |s.stack| ensures s.stack[i].start in Closing(lines, open, depth) <==> c <= i {
      EntryCloses(lines, s.stack, open, depth, c, i);
    }
    HoldsFewer(lines, s.stack, open, depth, c);
    var ranges := Popped(depth, s.stack, s.ranges, n + 1).1;
    CloseTakes(lines, s, n, c, ranges);
    StepCloses(lines, s, n, s.stack[..c], ranges);
  }

  lemma StepCloses(lines: seq<Line>, s: Scan, n: nat, stack: seq<Open>, ranges: seq<Range>)
    requires n < |lines| && MayClose(lines, n) && s.pending == Awaiting(lines, n) && s.depth == Level(lines, n)
    requires Popped(Level(lines, n + 1), s.stack, s.ranges, n + 1) == (stack, ranges)
    ensures Step(s, lines[n], n + 1) == Scan(Level(lines, n + 1), stack, ranges, false) && !Awaiting(lines, n + 1)
    ensures OpenItems(lines, n + 1) == OpenItems(lines, n) - Closing(lines, OpenItems(lines, n), Level(lines, n + 1))
  {
  }

  lemma CloseTakes(lines: seq<Line>, s: Scan, n: nat, c: nat, ranges: seq<Range>)
    requires n < |lines| && Shows(lines, s, n) && MayClose(lines, n) && c <= |s.stack|
    requires forall i | 0 <= i < |s.stack| :: s.stack[i].start in Closing(lines, OpenItems(lines, n), Level(lines, n + 1)) <==> c <= i
    requires forall r :: r in ranges <==> r in s.ranges || exists i :: c <= i < |s.stack| && r == Range(s.stack[i].start, n + 1)
    ensures forall r :: r in ranges <==> Taken(lines, r, n + 1)
  {
    OpenBelow(lines, n);
    forall r ensures r in ranges <==> Taken(lines, r, n + 1) {
      TakenNext(lines, r, n);
      ClosedRanges(lines, s.stack, OpenItems(lines, n), Level(lines, n + 1), c, r, n + 1);
    }
  }

  lemma ClosedRanges(lines: seq<Line>, stack: seq<Open>, open: set<nat>, level: int, c: nat, r: Range, lineno: nat)
    requires Holds(lines, stack, open) && c <= |stack| && forall o | o in open :: 0 < o
    requires forall i | 0 <= i < |stack| :: stack[i].start in Closing(lines, open, level) <==> c <= i
    ensures (exists i :: c <= i < |stack| && r == Range(stack[i].start, lineno)) <==>
            0 < r.first && r.last == lineno && r.first in Closing(lines, open, level)
  {
    if r.last == lineno && r.first in Closing(lines, open, level) {
      var i :| 0 <= i < |stack| && stack[i].start == r.first;
      assert r == Range(stack[i].start, lineno);
    }
  }

  lemma HeaderShows(lines: seq<Line>, s: Scan, n: nat)
    requires n < |lines| && Shows(lines, s, n) && Header(lines, n)
    ensures Shows(lines, Step(s, lines[n], n + 1), n + 1)
  {
    if Opens(lines, n) {
      OpenBelow(lines, n);
      HoldsMore(lines, s.stack, OpenItems(lines, n), n + 1);
    }
    HeaderTakes(lines, s, n, Step(s, lines[n], n + 1).ranges);
  }

  lemma HeaderTakes(lines: seq<Line>, s: Scan, n: nat, ranges: seq<Range>)
    requires n < |lines| && Shows(lines, s, n) && Header(lines, n) && ranges == Step(s, lines[n], n + 1).ranges
    ensures forall r :: r in ranges <==> Taken(lines, r, n + 1)
  {
    forall r ensures r in ranges <==> Taken(lines, r, n + 1) {
      TakenNext(lines, r, n);
    }
  }

  lemma SkipShows(lines: seq<Line>, s: Scan, n: nat)
    requires n < |lines| && Shows(lines, s, n) && !Counted(lines, n)
    ensures Shows(lines, Step(s, lines[n], n + 1), n + 1)
  {
    forall r ensures r in s.ranges <==> Taken(lines, r, n + 1) {
      TakenNext(lines, r, n);
    }
  }

  lemma {:induction false} ScanShows(lines: seq<Line>, n: nat)
    requires n <= |lines|
    ensures Shows(lines, Scanned(lines[..n]), n)
    decreases n
  {
    if n > 0 {
      ScanShows(lines, n - 1);
      assert lines[..n][..n - 1] == lines[..n - 1];
      var s := Scanned(lines[..n - 1]);
      if !Counted(lines, n - 1) {
        SkipShows(lines, s, n - 1);
      } else if Header(lines, n - 1) {
        HeaderShows(lines, s, n - 1);
      } else {
        CloseShows(lines, s, n - 1);
      }
    }
  }

  /** Whatever the lines: the ranges are exactly, for each cfg(test) item that
      opens a block on its line, from it to the line it closes on, and for each
      other, its line. */
  lemma {:induction false} RangesAre(lines: seq<Line>, r: Range)
    ensures r in Scanned(lines).ranges <==>
            && 0 < r.first <= r.last <= |lines|
            && (ClosesOn(lines, r.first, r.last) || (r.first == r.last && Lone(lines, r.first - 1)))
  {
    ScanShows(lines, |lines|);
    assert lines[..|lines|] == lines;
  }
}
