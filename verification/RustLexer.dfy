/**
 Lexing Rust source into tokens with their places
 (`_rust_tokens` in scripts/ci-mutants-summary.py).
 */
module RustLexer {
  import opened Wrappers
  import opened RustTokens
  import opened RustText

  /** What stands at a place in the source. */
  datatype Shape = Space | LineNote | BlockNote | Quoted | RawQuoted | CharLit | WordTok | NumberTok | SignTok

  datatype Piece = Piece(shape: Shape, end: nat)

  /** Where the `r` of a raw string would be, given the first character. */
  function RawAt(text: string, i: nat): nat
    requires i < |text|
  {
    if (text[i] == 'b' || text[i] == 'c') && Is(text, i + 1, 'r') then i + 1 else i
  }

  /** Past a raw string whose `r` is at `k`. */
  function RawStringEnd(text: string, k: nat): (end: nat)
    requires RawOpens(text, k)
    ensures k < end <= |text|
  {
    var quote := PastHashes(text, k + 1);
    RawEnd(text, quote + 1, quote - (k + 1))
  }

  /** The piece at `i`: one comment, one run of nothing, or one token. */
  function PieceAt(text: string, i: nat): (p: Piece)
    requires i < |text|
    ensures i < p.end <= |text|
  {
    var c := text[i];
    if IsBlank(c) then Piece(Space, i + 1)
    else if Pair(text, i, '/', '/') then Piece(LineNote, LineEnd(text, i))
    else if Pair(text, i, '/', '*') then Piece(BlockNote, NestedCommentEnd(text, i + 2, 1))
    else if (c == 'b' || c == 'c' || c == 'r') && RawOpens(text, RawAt(text, i))
    then Piece(RawQuoted, RawStringEnd(text, RawAt(text, i)))
    else if (c == 'b' || c == 'c') && Is(text, i + 1, '"') then Piece(Quoted, QuotedEnd(text, i + 2))
    else if c == 'b' && CharLiteralEnd(text, i + 1).Some? then Piece(CharLit, CharLiteralEnd(text, i + 1).value)
    else if c == '"' then Piece(Quoted, QuotedEnd(text, i + 1))
    else if c == '\'' then
      if CharLiteralEnd(text, i).Some? then Piece(CharLit, CharLiteralEnd(text, i).value) else Piece(SignTok, i + 1)
    else if IsWordStart(c) then
      Piece(WordTok, WordEnd(text, if c == 'r' && Is(text, i + 1, '#') then i + 2 else i + 1))
    else if IsDigit(c) then Piece(NumberTok, NumberEnd(text, i + 1))
    else Piece(SignTok, i + 1)
  }

  function KindOf(shape: Shape): Option<Kind> {
    match shape
    case Space => None
    case LineNote => None
    case BlockNote => None
    case WordTok => Some(Ident)
    case SignTok => Some(Punct)
    case _ => Some(Lit)
  }

  /** A token as a stretch of the source. */
  datatype Stretch = Stretch(kind: Kind, start: nat, end: nat)

  function StretchesFrom(text: string, i: nat): (s: seq<Stretch>)
    ensures forall k | 0 <= k < |s| :: i <= s[k].start < s[k].end <= |text|
    ensures forall k, l | 0 <= k < l < |s| :: s[k].end <= s[l].start
    decreases if i < |text| then |text| - i else 0
  {
    if i >= |text| then []
    else
      var p := PieceAt(text, i);
      var kind := KindOf(p.shape);
      (if kind.Some? then [Stretch(kind.value, i, p.end)] else []) + StretchesFrom(text, p.end)
  }

  /** A token's text is its stretch of the source, without the mark of a raw
      identifier. */
  function TextOf(text: string, s: Stretch): string
    requires s.start <= s.end <= |text|
  {
    var whole := text[s.start..s.end];
    if s.kind == Ident && |whole| >= 2 && whole[..2] == "r#" then whole[2..] else whole
  }

  function LexemeOf(text: string, s: Stretch): Lexeme
    requires s.start <= s.end <= |text|
  {
    Lexeme(Token(s.kind, TextOf(text, s)), PosAt(text, s.start).line, PosAt(text, s.start).col)
  }

  predicate Inside(text: string, ss: seq<Stretch>) {
    forall k | 0 <= k < |ss| :: ss[k].start <= ss[k].end <= |text|
  }

  function Placed(text: string, ss: seq<Stretch>): (r: seq<Lexeme>)
    requires Inside(text, ss)
    ensures |r| == |ss|
  {
    seq(|ss|, k requires 0 <= k < |ss| => LexemeOf(text, ss[k]))
  }

  /** The tokens of a source, each with the place it starts at. */
  function LexemesOf(text: string): (r: seq<Lexeme>)
    ensures |r| == |StretchesFrom(text, 0)|
  {
    Placed(text, StretchesFrom(text, 0))
  }

  lemma PlacedNext(text: string, ss: seq<Stretch>, s: Stretch)
    requires Inside(text, ss) && s.start <= s.end <= |text|
    ensures Inside(text, ss + [s]) && Placed(text, ss + [s]) == Placed(text, ss) + [LexemeOf(text, s)]
  {
  }

  predicate FromStart(text: string, i: nat) {
    i == 0 && i <= |text|
  }

  /** `ss` are the tokens of `text`. The trigger keeps the lexer folded in
      proofs that only need their order. */
  ghost predicate IsLexOf(ss: seq<Stretch>, text: string) {
    forall i: nat {:trigger FromStart(text, i)} :: FromStart(text, i) ==> ss == StretchesFrom(text, i)
  }

  lemma LexUnfolded(ss: seq<Stretch>, text: string)
    requires IsLexOf(ss, text)
    ensures ss == StretchesFrom(text, 0)
  {
    assert FromStart(text, 0);
  }

  /** Tokens in the order of the file, none empty. */
  predicate InOrder(ss: seq<Stretch>) {
    && (forall k | 0 <= k < |ss| :: ss[k].start < ss[k].end)
    && (forall k, l | 0 <= k < l < |ss| :: ss[k].end <= ss[l].start)
  }

  lemma LexInOrder(ss: seq<Stretch>, text: string)
    requires IsLexOf(ss, text)
    ensures InOrder(ss) && Inside(text, ss)
  {
    LexUnfolded(ss, text);
  }

  // ---- the lexer's loops -----------------------------------------------------

  /** Moves on to `to`, keeping the line and the column. */
  method Advance(text: string, from: nat, to: nat, startLine: nat, startCol: nat) returns (line: nat, col: nat)
    requires from <= to <= |text|
    requires Pos(startLine, startCol) == PosAt(text, from)
    ensures Pos(line, col) == PosAt(text, to)
  {
    line, col := startLine, startCol;
    for i := from to to
      invariant Pos(line, col) == PosAt(text, i)
    {
      if text[i] == '\n' {
        line := line + 1;
        col := 1;
      } else {
        col := col + 1;
      }
    }
  }

  method ScanQuoted(text: string, start: nat) returns (end: nat)
    ensures end == QuotedEnd(text, start)
  {
    var j := start;
    while j < |text|
      invariant QuotedEnd(text, j) == QuotedEnd(text, start)
      decreases |text| - j
    {
      if text[j] == '\\' {
        j := j + 2;
        continue;
      }
      if text[j] == '"' {
        return j + 1;
      }
      j := j + 1;
    }
    return |text|;
  }

  method ScanRaw(text: string, j: nat) returns (end: Option<nat>)
    requires j < |text|
    ensures text[j] == 'r' ==> end == if RawOpens(text, j) then Some(RawStringEnd(text, j)) else None
  {
    var k := j + 1;
    var hashes := 0;
    while k < |text| && text[k] == '#'
      invariant hashes == k - (j + 1)
      invariant PastHashes(text, k) == PastHashes(text, j + 1)
    {
      hashes := hashes + 1;
      k := k + 1;
    }
    if k >= |text| || text[k] != '"' {
      return None;
    }
    var close := k + 1;
    while close < |text| && !(text[close] == '"' && HashesAt(text, close + 1, hashes))
      invariant RawEnd(text, close, hashes) == RawEnd(text, k + 1, hashes)
      decreases |text| - close
    {
      close := close + 1;
    }
    return Some(if close >= |text| then |text| else close + 1 + hashes);
  }

  method SkipBlockComment(text: string, i: nat) returns (j: nat)
    requires i + 2 <= |text|
    ensures j == NestedCommentEnd(text, i + 2, 1)
  {
    var depth := 1;
    j := i + 2;
    while j < |text| && depth > 0
      invariant NestedCommentEnd(text, j, depth) == NestedCommentEnd(text, i + 2, 1)
      decreases |text| - j
    {
      if Pair(text, j, '/', '*') {
        depth := depth + 1;
        j := j + 2;
      } else if Pair(text, j, '*', '/') {
        depth := depth - 1;
        j := j + 2;
      } else {
        j := j + 1;
      }
    }
  }

  method SkipLine(text: string, i: nat) returns (end: nat)
    requires i < |text|
    ensures end == LineEnd(text, i)
  {
    end := i;
    while end < |text| && text[end] != '\n'
      invariant i <= end <= |text| && LineEnd(text, end) == LineEnd(text, i)
    {
      end := end + 1;
    }
  }

  method ScanWord(text: string, from: nat) returns (j: nat)
    ensures j == WordEnd(text, from)
  {
    j := from;
    while j < |text| && IsWordChar(text[j])
      invariant j >= from && WordEnd(text, j) == WordEnd(text, from)
    {
      j := j + 1;
    }
  }

  method ScanNumber(text: string, from: nat) returns (j: nat)
    ensures j == NumberEnd(text, from)
  {
    j := from;
    while j < |text| && (IsWordChar(text[j]) || (text[j] == '.' && j + 1 < |text| && IsDigit(text[j + 1])))
      invariant j >= from && NumberEnd(text, j) == NumberEnd(text, from)
    {
      j := j + 1;
    }
  }

  /** The piece at `i`, found by the scans above. */
  method ReadPiece(text: string, i: nat) returns (p: Piece)
    requires i < |text|
    ensures p == PieceAt(text, i)
  {
    var n := |text|;
    var c := text[i];
    if IsBlank(c) {
      return Piece(Space, i + 1);
    }
    if Pair(text, i, '/', '/') {
      var end := SkipLine(text, i);
      return Piece(LineNote, end);
    }
    if Pair(text, i, '/', '*') {
      var end := SkipBlockComment(text, i);
      return Piece(BlockNote, end);
    }
    if c == 'b' || c == 'c' || c == 'r' {
      var j := if (c == 'b' || c == 'c') && i + 1 < n && text[i + 1] == 'r' then i + 1 else i;
      if text[j] == 'r' {
        var end := ScanRaw(text, j);
        if end.Some? {
          return Piece(RawQuoted, end.value);
        }
      }
      if (c == 'b' || c == 'c') && i + 1 < n && text[i + 1] == '"' {
        var end := ScanQuoted(text, i + 2);
        return Piece(Quoted, end);
      }
      if c == 'b' && i + 1 < n && text[i + 1] == '\'' && CharLiteralEnd(text, i + 1).Some? {
        return Piece(CharLit, CharLiteralEnd(text, i + 1).value);
      }
    }
    if c == '"' {
      var end := ScanQuoted(text, i + 1);
      return Piece(Quoted, end);
    }
    if c == '\'' {
      if CharLiteralEnd(text, i).Some? {
        return Piece(CharLit, CharLiteralEnd(text, i).value);
      }
      return Piece(SignTok, i + 1);
    }
    if IsWordStart(c) {
      var end := ScanWord(text, if c == 'r' && i + 1 < n && text[i + 1] == '#' then i + 2 else i + 1);
      return Piece(WordTok, end);
    }
    if IsDigit(c) {
      var end := ScanNumber(text, i + 1);
      return Piece(NumberTok, end);
    }
    return Piece(SignTok, i + 1);
  }

  /** The stretches before `i` are `done`. */
  ghost predicate LexedTo(text: string, done: seq<Stretch>, i: nat) {
    StretchesFrom(text, 0) == done + StretchesFrom(text, i) && Inside(text, done)
  }

  function StretchOf(p: Piece, i: nat): seq<Stretch> {
    if KindOf(p.shape).Some? then [Stretch(KindOf(p.shape).value, i, p.end)] else []
  }

  lemma LexedOne(text: string, done: seq<Stretch>, i: nat)
    requires i < |text| && LexedTo(text, done, i)
    ensures LexedTo(text, done + StretchOf(PieceAt(text, i), i), PieceAt(text, i).end)
  {
    var p := PieceAt(text, i);
    var rest := StretchesFrom(text, p.end);
    assert StretchesFrom(text, i) == StretchOf(p, i) + rest;
    assert done + (StretchOf(p, i) + rest) == done + StretchOf(p, i) + rest;
  }

  lemma LexedAll(text: string, done: seq<Stretch>)
    requires LexedTo(text, done, |text|)
    ensures done == StretchesFrom(text, 0)
  {
    assert done + [] == done;
  }

  // What the loop keeps, folded: the lexer's definition stays out of it.
  ghost predicate Lexing(text: string, done: seq<Stretch>, i: nat, toks: seq<Lexeme>) {
    forall at: nat {:trigger FromStart(text, at)} ::
      FromStart(text, at) ==> LexedTo(text, done, i) && toks == Placed(text, done)
  }

  lemma LexingStep(text: string, done: seq<Stretch>, i: nat, toks: seq<Lexeme>, p: Piece)
    requires i < |text| && Lexing(text, done, i, toks) && p == PieceAt(text, i)
    ensures Lexing(text, done + StretchOf(p, i), p.end, toks + Placed(text, StretchOf(p, i)))
  {
    assert FromStart(text, 0);
    LexedOne(text, done, i);
    if KindOf(p.shape).Some? {
      PlacedNext(text, done, Stretch(KindOf(p.shape).value, i, p.end));
    } else {
      assert done + [] == done && toks + [] == toks;
    }
  }

  lemma Lexed(text: string, done: seq<Stretch>, toks: seq<Lexeme>)
    requires Lexing(text, done, |text|, toks)
    ensures toks == LexemesOf(text)
  {
    assert FromStart(text, 0);
    LexedAll(text, done);
  }

  /** The whole lexer: pieces in turn, the line and column carried along. */
  method Lex(text: string) returns (toks: seq<Lexeme>)
    ensures toks == LexemesOf(text)
  {
    toks := [];
    ghost var done: seq<Stretch> := [];
    var i, line, col := 0, 1, 1;
    while i < |text|
      invariant i <= |text|
      invariant Pos(line, col) == PosAt(text, i)
      invariant Lexing(text, done, i, toks)
      decreases |text| - i
    {
      var p := ReadPiece(text, i);
      LexingStep(text, done, i, toks, p);
      done := done + StretchOf(p, i);
      if KindOf(p.shape).Some? {
        toks := toks + [Lexeme(Token(KindOf(p.shape).value, TextOf(text, Stretch(KindOf(p.shape).value, i, p.end))), line, col)];
      } else {
        assert toks + [] == toks;
      }
      line, col := Advance(text, i, p.end, line, col);
      i := p.end;
    }
    Lexed(text, done, toks);
  }
}
