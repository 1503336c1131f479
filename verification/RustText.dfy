/**
 Rust source as characters: literals, comments, words, and where a character
 sits in its file. Shared by the two scanners of scripts/ci-mutants-summary.py.
 */
module RustText {
  import opened Wrappers

  predicate Is(text: string, k: nat, c: char) {
    k < |text| && text[k] == c
  }

  predicate IsDigit(c: char) {
    '0' <= c <= '9'
  }

  predicate IsHex(c: char) {
    IsDigit(c) || 'a' <= c <= 'f' || 'A' <= c <= 'F'
  }

  predicate IsWordStart(c: char) {
    'a' <= c <= 'z' || 'A' <= c <= 'Z' || c == '_' || c as int > 127
  }

  predicate IsWordChar(c: char) {
    IsWordStart(c) || IsDigit(c)
  }

  predicate IsBlank(c: char) {
    c == ' ' || c == '\t' || c == '\r' || c == '\n'
  }

  /** How many hex digits stand at `k`, up to `most`. */
  function HexRun(text: string, k: nat, most: nat): (run: nat)
    ensures run <= most && k + run <= if k <= |text| then |text| else k
    ensures forall q | k <= q < k + run :: IsHex(text[q])
    decreases most
  {
    if most > 0 && k < |text| && IsHex(text[k]) then 1 + HexRun(text, k + 1, most - 1) else 0
  }

  /** Past a char literal at `i`: an escape, or one character but a backslash,
      a quote or a newline, between quotes. */
  function CharLiteralEnd(text: string, i: nat): (end: Option<nat>)
    ensures end.Some? ==> i + 2 < end.value <= |text| && text[i] == '\''
  {
    if !Is(text, i, '\'') then None
    else if Is(text, i + 1, '\\') then
      var run := HexRun(text, i + 4, 6);
      if Is(text, i + 2, 'x') && i + 4 < |text| && IsHex(text[i + 3]) && IsHex(text[i + 4]) && Is(text, i + 5, '\'')
      then Some(i + 6)
      else if Is(text, i + 2, 'u') && Is(text, i + 3, '{') && run > 0 && Is(text, i + 4 + run, '}') && Is(text, i + 5 + run, '\'')
      then Some(i + 6 + run)
      else if i + 2 < |text| && text[i + 2] != '\n' && Is(text, i + 3, '\'') then Some(i + 4)
      else None
    else if i + 1 < |text| && text[i + 1] != '\'' && text[i + 1] != '\n' && Is(text, i + 2, '\'') then Some(i + 3)
    else None
  }

  /** No char literal holds a line break. */
  lemma CharLiteralOneLine(text: string, i: nat)
    requires CharLiteralEnd(text, i).Some?
    ensures forall q | i <= q < CharLiteralEnd(text, i).value :: text[q] != '\n'
  {
  }

  /** Past the close of a string whose body starts at `j`. */
  function QuotedEnd(text: string, j: nat): (end: nat)
    ensures end <= |text| && (j < |text| ==> end > j)
    decreases if j < |text| then |text| - j else 0
  {
    if j >= |text| then |text|
    else if text[j] == '\\' then QuotedEnd(text, j + 2)
    else if text[j] == '"' then j + 1
    else QuotedEnd(text, j + 1)
  }

  /** The first character at or after `k` that is no `#`. */
  function PastHashes(text: string, k: nat): (end: nat)
    ensures end >= k
    ensures end <= |text| || end == k
    ensures forall q | k <= q < end :: Is(text, q, '#')
    ensures !Is(text, end, '#')
    decreases if k < |text| then |text| - k else 0
  {
    if Is(text, k, '#') then PastHashes(text, k + 1) else k
  }

  /** A raw string opens at `k`: `r`, any number of `#`, a quote. */
  predicate RawOpens(text: string, k: nat) {
    Is(text, k, 'r') && Is(text, PastHashes(text, k + 1), '"')
  }

  predicate HashesAt(text: string, k: nat, hashes: nat) {
    k + hashes <= |text| && forall q | k <= q < k + hashes :: text[q] == '#'
  }

  /** Past the close of a raw string with `hashes` marks, its body read from `k`. */
  function RawEnd(text: string, k: nat, hashes: nat): (end: nat)
    ensures end <= |text| && (k < |text| ==> end > k)
    decreases if k < |text| then |text| - k else 0
  {
    if k >= |text| then |text|
    else if text[k] == '"' && HashesAt(text, k + 1, hashes) then k + 1 + hashes
    else RawEnd(text, k + 1, hashes)
  }

  /** The end of the line `i` is on. */
  function LineEnd(text: string, i: nat): (end: nat)
    ensures end <= |text| && (i <= |text| ==> end >= i)
    ensures i < |text| && text[i] != '\n' ==> end > i
    decreases if i < |text| then |text| - i else 0
  {
    if i >= |text| then |text| else if text[i] == '\n' then i else LineEnd(text, i + 1)
  }

  predicate Pair(text: string, k: nat, a: char, b: char) {
    Is(text, k, a) && Is(text, k + 1, b)
  }

  /** Past a block comment, `depth` comments deep at `j`: comments nest. */
  function NestedCommentEnd(text: string, j: nat, depth: nat): (end: nat)
    ensures end >= j && (j <= |text| ==> end <= |text|)
    decreases if j < |text| then |text| - j else 0
  {
    if j >= |text| || depth == 0 then j
    else if Pair(text, j, '/', '*') then NestedCommentEnd(text, j + 2, depth + 1)
    else if Pair(text, j, '*', '/') then NestedCommentEnd(text, j + 2, depth - 1)
    else NestedCommentEnd(text, j + 1, depth)
  }

  function WordEnd(text: string, j: nat): (end: nat)
    ensures end >= j && (j <= |text| ==> end <= |text|)
    ensures forall q | j <= q < end :: q < |text| && IsWordChar(text[q])
    decreases if j < |text| then |text| - j else 0
  {
    if j < |text| && IsWordChar(text[j]) then WordEnd(text, j + 1) else j
  }

  function NumberEnd(text: string, j: nat): (end: nat)
    ensures end >= j && (j <= |text| ==> end <= |text|)
    ensures forall q | j <= q < end :: q < |text| && (IsWordChar(text[q]) || text[q] == '.')
    decreases if j < |text| then |text| - j else 0
  {
    if j < |text| && (IsWordChar(text[j]) || (text[j] == '.' && j + 1 < |text| && IsDigit(text[j + 1])))
    then NumberEnd(text, j + 1) else j
  }

  // ---- lines and columns ---------------------------------------------------

  /** Line breaks before `p`. */
  function Newlines(text: string, p: nat): nat
    requires p <= |text|
  {
    if p == 0 then 0 else Newlines(text, p - 1) + if text[p - 1] == '\n' then 1 else 0
  }

  /** Where the line of `p` starts. */
  function LineStart(text: string, p: nat): (start: nat)
    requires p <= |text|
    ensures start <= p
  {
    if p == 0 || text[p - 1] == '\n' then p else LineStart(text, p - 1)
  }

  /** 1-indexed line and column. */
  datatype Pos = Pos(line: nat, col: nat)

  function PosAt(text: string, p: nat): Pos
    requires p <= |text|
  {
    Pos(Newlines(text, p) + 1, p - LineStart(text, p) + 1)
  }

  predicate Before(a: Pos, b: Pos) {
    a.line < b.line || (a.line == b.line && a.col < b.col)
  }

  predicate AtOrBefore(a: Pos, b: Pos) {
    a == b || Before(a, b)
  }

  lemma NewlinesMonotone(text: string, p: nat, q: nat)
    requires p <= q <= |text|
    ensures Newlines(text, p) <= Newlines(text, q)
    ensures Newlines(text, p) == Newlines(text, q) ==> LineStart(text, p) == LineStart(text, q)
  {
    if p < q {
      NewlinesMonotone(text, p, q - 1);
    }
  }

  /** Positions order characters as offsets do. */
  lemma PosMonotone(text: string, p: nat, q: nat)
    requires p <= |text| && q <= |text|
    ensures p < q <==> Before(PosAt(text, p), PosAt(text, q))
    ensures p <= q <==> AtOrBefore(PosAt(text, p), PosAt(text, q))
  {
    if p <= q {
      NewlinesMonotone(text, p, q);
    } else {
      NewlinesMonotone(text, q, p);
    }
  }

  /** The line of a character is one more than the line breaks before it, and its
      column counts from the last of them. */
  lemma {:induction false} PosIs(text: string, p: nat)
    requires p <= |text|
    ensures PosAt(text, p).line == 1 + multiset(text[..p])['\n']
    ensures var start := p + 1 - PosAt(text, p).col;
            && PosAt(text, p).col <= p + 1 && 0 <= start <= p && '\n' !in text[start..p]
            && (start == 0 || text[start - 1] == '\n')
  {
    if p > 0 {
      PosIs(text, p - 1);
      assert text[..p] == text[..p - 1] + [text[p - 1]];
      if text[p - 1] != '\n' {
        var start := LineStart(text, p);
        assert text[start..p] == text[start..p - 1] + [text[p - 1]];
      }
    }
  }
}
