/**
 Braces per line, by a character scan that skips strings, char literals and
 comments (`_brace_deltas_per_line` in scripts/ci-mutants-summary.py).
 */
module BraceDeltas {
  import opened RustText

  datatype ScanState = Code | DString | RawString(hashes: nat) | LineComment | BlockComment

  /** One step of the scan: the next index and state. */
  function StepFrom(text: string, i: nat, state: ScanState): (r: (nat, ScanState))
    requires i < |text|
    ensures r.0 > i
  {
    var c := text[i];
    if c == '\n' then (i + 1, if state == LineComment then Code else state)
    else match state
      case Code =>
        if Pair(text, i, '/', '/') then (i + 2, LineComment)
        else if Pair(text, i, '/', '*') then (i + 2, BlockComment)
        else if c == '\'' then
          (if CharLiteralEnd(text, i).Some? then CharLiteralEnd(text, i).value else i + 1, Code)
        else if c == '"' then (i + 1, DString)
        else if RawOpens(text, i) then
          var quote := PastHashes(text, i + 1);
          (quote + 1, RawString(quote - (i + 1)))
        else (i + 1, Code)
      case DString =>
        if c == '\\' then (i + 2, DString)
        else (i + 1, if c == '"' then Code else DString)
      case RawString(hashes) =>
        if c == '"' && HashesAt(text, i + 1, hashes) then (i + 1 + hashes, Code) else (i + 1, state)
      case BlockComment =>
        if Pair(text, i, '*', '/') then (i + 2, Code) else (i + 1, BlockComment)
      case LineComment => (i + 1, LineComment)
  }

  predicate IsBrace(c: char) {
    c == '{' || c == '}'
  }

  /** The braces read as code from `i` on, by offset. */
  function Braces(text: string, i: nat, state: ScanState): seq<nat>
    decreases if i < |text| then |text| - i else 0
  {
    if i >= |text| then []
    else
      var next := StepFrom(text, i, state);
      (if state == Code && IsBrace(text[i]) then [i] else []) + Braces(text, next.0, next.1)
  }

  /** How many of the offsets `ps` hold `c` on (0-based) line `l`. */
  function CountOn(text: string, ps: seq<nat>, c: char, l: nat): nat {
    if ps == [] then 0
    else
      var p := ps[|ps| - 1];
      CountOn(text, ps[..|ps| - 1], c, l)
      + if p < |text| && text[p] == c && Newlines(text, p) == l then 1 else 0
  }

  lemma CountOnAppend(text: string, ps: seq<nat>, p: nat, c: char, l: nat)
    ensures CountOn(text, ps + [p], c, l)
         == CountOn(text, ps, c, l) + if p < |text| && text[p] == c && Newlines(text, p) == l then 1 else 0
  {
    assert (ps + [p])[..|ps|] == ps;
  }

  // ---- how many lines ---------------------------------------------------------

  /** The characters `str.splitlines` breaks a line at. */
  predicate IsLineBreak(c: char) {
    c == '\n' || c == '\r' || c as int == 0x0b || c as int == 0x0c || 0x1c <= c as int <= 0x1e
    || c as int == 0x85 || c as int == 0x2028 || c as int == 0x2029
  }

  /** Lines ended before `p`; a return and a newline end one line together. */
  function LinesEnded(text: string, p: nat): nat
    requires p <= |text|
  {
    if p == 0 then 0
    else LinesEnded(text, p - 1)
         + if IsLineBreak(text[p - 1]) && !(text[p - 1] == '\r' && Is(text, p, '\n')) then 1 else 0
  }

  /** `len(text.splitlines())` */
  function LineCount(text: string): nat {
    LinesEnded(text, |text|) + if |text| > 0 && !IsLineBreak(text[|text| - 1]) then 1 else 0
  }

  /** Of two characters the second is on a line of its own exactly after one of
      ten: the line feeds and the separators `str.splitlines` knows. */
  lemma BreakParts(c: char)
    ensures LineCount([c, 'x']) ==
            if c as int in {0x0a, 0x0b, 0x0c, 0x0d, 0x1c, 0x1d, 0x1e, 0x85, 0x2028, 0x2029} then 2 else 1
  {
    var s := [c, 'x'];
    assert LinesEnded(s, 0) == 0;
    assert LinesEnded(s, 1) == if IsLineBreak(c) then 1 else 0;
    assert LinesEnded(s, 2) == LinesEnded(s, 1);
  }

  lemma LinesEndedMonotone(text: string, p: nat, q: nat)
    requires p <= q <= |text|
    ensures Newlines(text, p) <= LinesEnded(text, p) <= LinesEnded(text, q)
    decreases q
  {
    if p < q {
      LinesEndedMonotone(text, p, q - 1);
    } else if p > 0 {
      LinesEndedMonotone(text, p - 1, p - 1);
    }
  }

  /** Every character is on one of the lines. */
  lemma OnSomeLine(text: string, p: nat)
    requires p < |text|
    ensures Newlines(text, p) < LineCount(text)
  {
    LinesEndedMonotone(text, p, |text| - 1);
  }

  // ---- the scan -----------------------------------------------------------------

  /** The marks of a raw string at its close: how many of `hashes` follow `from`. */
  method MatchHashes(text: string, from: nat, hashes: nat) returns (closes: bool)
    requires from <= |text|
    ensures closes == HashesAt(text, from, hashes)
  {
    var j, matched := from, 0;
    while j < |text| && matched < hashes && text[j] == '#'
      invariant matched <= hashes && j == from + matched <= |text|
      invariant forall q | from <= q < j :: text[q] == '#'
    {
      matched := matched + 1;
      j := j + 1;
    }
    return matched == hashes;
  }

  /** One step: index, state, and whether a line ended inside the step. */
  method Step(text: string, i: nat, state: ScanState) returns (next: nat, state': ScanState, line: nat)
    requires i < |text|
    ensures (next, state') == StepFrom(text, i, state)
    ensures line == Newlines(text, if next <= |text| then next else |text|) - Newlines(text, i)
  {
    var n := |text|;
    var c := text[i];
    line := 0;
    if c == '\n' {
      return i + 1, if state == LineComment then Code else state, 1;
    }
    next, state' := i + 1, state;
    assert Newlines(text, i + 1) == Newlines(text, i);
    match state {
      case Code =>
        if c == '/' && i + 1 < n && text[i + 1] == '/' {
          next, state' := i + 2, LineComment;
        } else if c == '/' && i + 1 < n && text[i + 1] == '*' {
          next, state' := i + 2, BlockComment;
        } else if c == '\'' {
          if CharLiteralEnd(text, i).Some? {
            CharLiteralOneLine(text, i);
            next := CharLiteralEnd(text, i).value;
            SameLine(text, i, next);
          }
        } else if c == '"' {
          state' := DString;
        } else if c == 'r' && i + 1 < n && (text[i + 1] == '"' || text[i + 1] == '#') {
          var j, hashes := i + 1, 0;
          while j < n && text[j] == '#'
            invariant i + 1 <= j && hashes == j - (i + 1)
            invariant j <= n && forall q | i < q < j :: text[q] == '#'
            invariant PastHashes(text, j) == PastHashes(text, i + 1)
          {
            hashes := hashes + 1;
            j := j + 1;
          }
          if j < n && text[j] == '"' {
            next, state' := j + 1, RawString(hashes);
            SameLine(text, i, next);
          }
        }
      case DString =>
        if c == '\\' {
          if i + 1 < n && text[i + 1] == '\n' {
            line := 1;
          }
          next := i + 2;
        } else if c == '"' {
          state' := Code;
        }
      case RawString(hashes) =>
        if c == '"' {
          var closes := MatchHashes(text, i + 1, hashes);
          if closes {
            next, state' := i + 1 + hashes, Code;
            SameLine(text, i, next);
          }
        }
      case BlockComment =>
        if c == '*' && i + 1 < n && text[i + 1] == '/' {
          next, state' := i + 2, Code;
        }
      case LineComment =>
    }
  }

  lemma SameLine(text: string, i: nat, j: nat)
    requires i <= j <= |text| && forall q | i <= q < j :: text[q] != '\n'
    ensures Newlines(text, j) == Newlines(text, i)
  {
    if i < j {
      SameLine(text, i, j - 1);
    }
  }

  predicate Begins(at: nat) {
    at == 0
  }

  // The braces before `i` are `done`. The trigger keeps the scan folded.
  ghost predicate ScannedTo(text: string, done: seq<nat>, i: nat, state: ScanState) {
    forall at: nat {:trigger Begins(at)} :: Begins(at) ==> Braces(text, at, Code) == done + Braces(text, i, state)
  }

  lemma ScannedNext(text: string, done: seq<nat>, i: nat, state: ScanState)
    requires i < |text| && ScannedTo(text, done, i, state)
    ensures var next := StepFrom(text, i, state);
            ScannedTo(text, if state == Code && IsBrace(text[i]) then done + [i] else done, next.0, next.1)
  {
    assert Begins(0);
    var rest := Braces(text, StepFrom(text, i, state).0, StepFrom(text, i, state).1);
    if state == Code && IsBrace(text[i]) {
      assert done + ([i] + rest) == done + [i] + rest;
    } else {
      assert [] + rest == rest;
    }
  }

  lemma ScannedAll(text: string, done: seq<nat>, i: nat, state: ScanState)
    requires i >= |text| && ScannedTo(text, done, i, state)
    ensures done == Braces(text, 0, Code)
  {
    assert Begins(0);
    assert done + [] == done;
  }

  ghost predicate Tallies(text: string, ps: seq<nat>, deltas: seq<(nat, nat)>) {
    forall l | 0 <= l < |deltas| :: deltas[l] == (CountOn(text, ps, '{', l), CountOn(text, ps, '}', l))
  }

  lemma TallyNext(text: string, ps: seq<nat>, p: nat, deltas: seq<(nat, nat)>)
    requires p < |text| && IsBrace(text[p]) && Newlines(text, p) < |deltas| && Tallies(text, ps, deltas)
    ensures var l := Newlines(text, p); var was := deltas[l];
            Tallies(text, ps + [p], deltas[l := if text[p] == '{' then (was.0 + 1, was.1) else (was.0, was.1 + 1)])
  {
    forall l | 0 <= l < |deltas|
      ensures CountOn(text, ps + [p], '{', l) == CountOn(text, ps, '{', l) + if l == Newlines(text, p) && text[p] == '{' then 1 else 0
      ensures CountOn(text, ps + [p], '}', l) == CountOn(text, ps, '}', l) + if l == Newlines(text, p) && text[p] == '}' then 1 else 0
    {
      CountOnAppend(text, ps, p, '{', l);
      CountOnAppend(text, ps, p, '}', l);
    }
  }

  /** The scan: what each line opens and closes is exactly the braces on it
      that the scan reads as code. */
  method BraceDeltasPerLine(text: string) returns (deltas: seq<(nat, nat)>)
    ensures |deltas| == LineCount(text)
    ensures forall l | 0 <= l < |deltas| ::
              deltas[l] == (CountOn(text, Braces(text, 0, Code), '{', l), CountOn(text, Braces(text, 0, Code), '}', l))
  {
    var n := |text|;
    deltas := seq(LineCount(text), _ => (0, 0));
    ghost var done: seq<nat> := [];
    var lineno, i := 0, 0;
    var state := Code;
    while i < n
      invariant |deltas| == LineCount(text)
      invariant lineno == Newlines(text, if i <= n then i else n)
      invariant ScannedTo(text, done, i, state)
      invariant Tallies(text, done, deltas)
      decreases n - i
    {
      ScannedNext(text, done, i, state);
      if state == Code && IsBrace(text[i]) {
        OnSomeLine(text, i);
        var was := deltas[lineno];
        TallyNext(text, done, i, deltas);
        deltas := deltas[lineno := if text[i] == '{' then (was.0 + 1, was.1) else (was.0, was.1 + 1)];
        done := done + [i];
      }
      var next, state', line := Step(text, i, state);
      lineno := lineno + line;
      i, state := next, state';
    }
    ScannedAll(text, done, i, state);
  }
}
