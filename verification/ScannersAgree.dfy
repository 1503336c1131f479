/**
 The two readings of Rust source in scripts/ci-mutants-summary.py agree: the
 line-by-line brace scan and the lexer see the same braces as code, on every
 text without the two shapes the brace scan is known to misread.
 */
module ScannersAgree {
  import opened Wrappers
  import opened RustTokens
  import opened RustText
  import opened RustLexer
  import opened BraceDeltas

  /** The braces among the lexer's tokens, by offset. */
  function TokenBraces(text: string, ss: seq<Stretch>): seq<nat> {
    if ss == [] then []
    else
      (if ss[0].kind == Punct && ss[0].start < |text| && IsBrace(text[ss[0].start]) then [ss[0].start] else [])
      + TokenBraces(text, ss[1..])
  }

  // Block comments nest; the brace scan's do not. From `j`, the comment closes
  // before another one opens (or never closes).
  predicate FlatComment(text: string, j: nat)
    decreases if j < |text| then |text| - j else 0
  {
    j >= |text| || Pair(text, j, '*', '/') || (!Pair(text, j, '/', '*') && FlatComment(text, j + 1))
  }

  /** The brace scan takes any `r` before a quote for a raw string, even as the
      end of a longer word. */
  predicate NotGlued(text: string, i: nat, end: nat) {
    forall p | i <= p < end && Is(text, p, 'r') :: !RawOpens(text, p)
  }

  predicate Harmless(text: string, i: nat)
    requires i < |text|
  {
    var p := PieceAt(text, i);
    && (p.shape == BlockNote ==> FlatComment(text, i + 2))
    && (p.shape == WordTok || p.shape == NumberTok ==> NotGlued(text, i, p.end))
  }

  /** No block comment holds another, and no word or number runs into a raw
      string's opening, from `i` on. */
  predicate Unambiguous(text: string, i: nat)
    decreases if i < |text| then |text| - i else 0
  {
    i < |text| ==> Harmless(text, i) && Unambiguous(text, PieceAt(text, i).end)
  }

  // ---- inside a literal or a comment the brace scan reads no code -------------

  lemma {:induction false} QuotedSkipped(text: string, j: nat)
    ensures Braces(text, j, DString) == Braces(text, QuotedEnd(text, j), Code)
    decreases if j < |text| then |text| - j else 0
  {
    if j < |text| {
      if text[j] == '\\' {
        QuotedSkipped(text, j + 2);
      } else if text[j] != '"' {
        QuotedSkipped(text, j + 1);
      }
    }
  }

  lemma RawStep(text: string, k: nat, hashes: nat, closes: bool)
    requires k < |text| && closes == (text[k] == '"' && HashesAt(text, k + 1, hashes))
    ensures Braces(text, k, RawString(hashes)) ==
            if closes then Braces(text, k + 1 + hashes, Code) else Braces(text, k + 1, RawString(hashes))
  {
    RawNext(text, k, hashes, closes);
    OneScan(text, k, RawString(hashes), if closes then k + 1 + hashes else k + 1, if closes then Code else RawString(hashes));
  }

  lemma RawNext(text: string, k: nat, hashes: nat, closes: bool)
    requires k < |text| && closes == (text[k] == '"' && HashesAt(text, k + 1, hashes))
    ensures StepFrom(text, k, RawString(hashes)) == if closes then (k + 1 + hashes, Code) else (k + 1, RawString(hashes))
  {
  }

  lemma OneScan(text: string, k: nat, state: ScanState, next: nat, then_: ScanState)
    requires k < |text| && state != Code && StepFrom(text, k, state) == (next, then_)
    ensures Braces(text, k, state) == Braces(text, next, then_)
  {
  }

  lemma {:induction false} RawSkipped(text: string, k: nat, hashes: nat)
    ensures Braces(text, k, RawString(hashes)) == Braces(text, RawEnd(text, k, hashes), Code)
    decreases if k < |text| then |text| - k else 0
  {
    if k < |text| {
      var closes := text[k] == '"' && HashesAt(text, k + 1, hashes);
      RawStep(text, k, hashes, closes);
      if !closes {
        RawSkipped(text, k + 1, hashes);
      }
    }
  }

  lemma {:induction false} LineNoteSkipped(text: string, i: nat)
    ensures Braces(text, i, LineComment) == Braces(text, LineEnd(text, i), Code)
    decreases if i < |text| then |text| - i else 0
  {
    if i < |text| && text[i] != '\n' {
      LineNoteSkipped(text, i + 1);
    }
  }

  lemma {:induction false} BlockNoteSkipped(text: string, j: nat)
    requires FlatComment(text, j)
    ensures Braces(text, j, BlockComment) == Braces(text, NestedCommentEnd(text, j, 1), Code)
    decreases if j < |text| then |text| - j else 0
  {
    if j < |text| {
      if Pair(text, j, '*', '/') {
        assert NestedCommentEnd(text, j, 1) == NestedCommentEnd(text, j + 2, 0) == j + 2;
      } else {
        BlockNoteSkipped(text, j + 1);
      }
    }
  }

  /** A character the brace scan steps over as one. */
  predicate Dull(text: string, p: nat)
    requires p < |text|
  {
    var c := text[p];
    c != '/' && c != '\'' && c != '"' && !IsBrace(c) && !(c == 'r' && RawOpens(text, p))
  }

  lemma DullStep(text: string, p: nat)
    requires p < |text| && Dull(text, p)
    ensures Braces(text, p, Code) == Braces(text, p + 1, Code)
  {
  }

  lemma {:induction false} DullSkipped(text: string, i: nat, end: nat)
    requires i <= end <= |text| && forall p | i <= p < end :: Dull(text, p)
    ensures Braces(text, i, Code) == Braces(text, end, Code)
    decreases end - i
  {
    if i < end {
      DullStep(text, i);
      DullSkipped(text, i + 1, end);
    }
  }

  lemma RawLiteralSkipped(text: string, k: nat)
    requires RawOpens(text, k)
    ensures Braces(text, k, Code) == Braces(text, RawStringEnd(text, k), Code)
  {
    var quote := PastHashes(text, k + 1);
    RawSkipped(text, quote + 1, quote - (k + 1));
  }

  lemma CharLiteralSkipped(text: string, i: nat)
    requires CharLiteralEnd(text, i).Some?
    ensures Braces(text, i, Code) == Braces(text, CharLiteralEnd(text, i).value, Code)
  {
  }

  // ---- one piece ----------------------------------------------------------------

  lemma WordSkipped(text: string, i: nat)
    requires i < |text| && PieceAt(text, i).shape == WordTok && NotGlued(text, i, PieceAt(text, i).end)
    ensures Braces(text, i, Code) == Braces(text, PieceAt(text, i).end, Code)
  {
    var end := PieceAt(text, i).end;
    forall p | i <= p < end ensures Dull(text, p) {
      assert p == i || (p == i + 1 && text[p] == '#') || IsWordChar(text[p]);
      assert Is(text, p, 'r') ==> !RawOpens(text, p);
    }
    DullSkipped(text, i, end);
  }

  lemma NumberSkipped(text: string, i: nat)
    requires i < |text| && PieceAt(text, i).shape == NumberTok && NotGlued(text, i, PieceAt(text, i).end)
    ensures Braces(text, i, Code) == Braces(text, PieceAt(text, i).end, Code)
  {
    var end := PieceAt(text, i).end;
    forall p | i <= p < end ensures Dull(text, p) {
      assert p == i || IsWordChar(text[p]) || text[p] == '.';
      assert Is(text, p, 'r') ==> !RawOpens(text, p);
    }
    DullSkipped(text, i, end);
  }

  lemma LiteralSkipped(text: string, i: nat)
    requires i < |text|
    requires var s := PieceAt(text, i).shape; s == Quoted || s == RawQuoted || s == CharLit
    ensures Braces(text, i, Code) == Braces(text, PieceAt(text, i).end, Code)
  {
    var c, p := text[i], PieceAt(text, i);
    if p.shape == RawQuoted {
      if RawAt(text, i) == i + 1 {
        DullStep(text, i);
      }
      RawLiteralSkipped(text, RawAt(text, i));
    } else if p.shape == Quoted {
      if c != '"' {
        DullStep(text, i);
        QuotedSkipped(text, i + 2);
      } else {
        QuotedSkipped(text, i + 1);
      }
    } else {
      if c == 'b' {
        DullStep(text, i);
        CharLiteralSkipped(text, i + 1);
      } else {
        CharLiteralSkipped(text, i);
      }
    }
  }

  lemma NoteSkipped(text: string, i: nat)
    requires i < |text| && Harmless(text, i)
    requires var s := PieceAt(text, i).shape; s == LineNote || s == BlockNote
    ensures Braces(text, i, Code) == Braces(text, PieceAt(text, i).end, Code)
  {
    if PieceAt(text, i).shape == LineNote {
      assert LineEnd(text, i) == LineEnd(text, i + 1) == LineEnd(text, i + 2);
      LineNoteSkipped(text, i + 2);
    } else {
      BlockNoteSkipped(text, i + 2);
    }
  }

  /** A sign or a blank is one step of both scans. */
  lemma SignStep(text: string, i: nat)
    requires i < |text|
    requires var s := PieceAt(text, i).shape; s == SignTok || s == Space
    ensures PieceAt(text, i).end == i + 1
    ensures Braces(text, i, Code) == (if IsBrace(text[i]) then [i] else []) + Braces(text, i + 1, Code)
    ensures PieceAt(text, i).shape == Space ==> !IsBrace(text[i])
  {
  }

  lemma PieceAgrees(text: string, i: nat)
    requires i < |text| && Harmless(text, i)
    ensures Braces(text, i, Code)
         == (if PieceAt(text, i).shape == SignTok && IsBrace(text[i]) then [i] else []) + Braces(text, PieceAt(text, i).end, Code)
  {
    match PieceAt(text, i).shape {
      case Space => SignStep(text, i);
      case SignTok => SignStep(text, i);
      case LineNote => NoteSkipped(text, i);
      case BlockNote => NoteSkipped(text, i);
      case Quoted => LiteralSkipped(text, i);
      case RawQuoted => LiteralSkipped(text, i);
      case CharLit => LiteralSkipped(text, i);
      case WordTok => WordSkipped(text, i);
      case NumberTok => NumberSkipped(text, i);
    }
  }

  lemma TokenBracesCons(text: string, s: Stretch, rest: seq<Stretch>)
    ensures TokenBraces(text, [s] + rest)
         == (if s.kind == Punct && s.start < |text| && IsBrace(text[s.start]) then [s.start] else []) + TokenBraces(text, rest)
  {
    assert ([s] + rest)[1..] == rest;
  }

  lemma PieceTokens(text: string, i: nat, p: Piece, rest: seq<Stretch>, all: seq<Stretch>)
    requires i < |text|
    requires all == (if KindOf(p.shape).Some? then [Stretch(KindOf(p.shape).value, i, p.end)] else []) + rest
    ensures TokenBraces(text, all) == (if p.shape == SignTok && IsBrace(text[i]) then [i] else []) + TokenBraces(text, rest)
  {
    if KindOf(p.shape).Some? {
      TokenBracesCons(text, Stretch(KindOf(p.shape).value, i, p.end), rest);
    }
  }

  lemma TokenBracesStep(text: string, i: nat)
    requires i < |text|
    ensures TokenBraces(text, StretchesFrom(text, i))
         == (if PieceAt(text, i).shape == SignTok && IsBrace(text[i]) then [i] else [])
            + TokenBraces(text, StretchesFrom(text, PieceAt(text, i).end))
  {
    var p := PieceAt(text, i);
    PieceTokens(text, i, p, StretchesFrom(text, p.end), StretchesFrom(text, i));
  }

  /** The two scans read the same braces as code, in the same order. */
  lemma {:induction false} SameBraces(text: string, i: nat)
    requires Unambiguous(text, i)
    ensures Braces(text, i, Code) == TokenBraces(text, StretchesFrom(text, i))
    decreases if i < |text| then |text| - i else 0
  {
    if i < |text| {
      PieceAgrees(text, i);
      TokenBracesStep(text, i);
      SameBraces(text, PieceAt(text, i).end);
    }
  }

  // ---- per line -------------------------------------------------------------------

  /** How many tokens of a lexed file are the sign `sign` on (1-indexed) `line`. */
  function SignsOn(toks: seq<Lexeme>, sign: string, line: nat): nat {
    if toks == [] then 0
    else
      var t := toks[|toks| - 1];
      SignsOn(toks[..|toks| - 1], sign, line)
      + if t.tok.kind == Punct && t.tok.text == sign && t.line == line then 1 else 0
  }

  /** A sign token is one character: its text is the character it starts at. */
  lemma SignText(text: string, i: nat)
    ensures forall k | 0 <= k < |StretchesFrom(text, i)| && StretchesFrom(text, i)[k].kind == Punct ::
              StretchesFrom(text, i)[k].end == StretchesFrom(text, i)[k].start + 1
    decreases if i < |text| then |text| - i else 0
  {
    if i < |text| {
      SignText(text, PieceAt(text, i).end);
    }
  }

  lemma {:induction false} TokenBracesAppend(text: string, ss: seq<Stretch>, s: Stretch)
    ensures TokenBraces(text, ss + [s]) == TokenBraces(text, ss) + TokenBraces(text, [s])
  {
    if ss == [] {
      assert [] + [s] == [s];
    } else {
      assert ss + [s] == [ss[0]] + (ss[1..] + [s]);
      assert ss == [ss[0]] + ss[1..];
      TokenBracesCons(text, ss[0], ss[1..] + [s]);
      TokenBracesCons(text, ss[0], ss[1..]);
      TokenBracesAppend(text, ss[1..], s);
    }
  }

  lemma TokenBracesOne(text: string, s: Stretch)
    ensures TokenBraces(text, [s]) == if s.kind == Punct && s.start < |text| && IsBrace(text[s.start]) then [s.start] else []
  {
    assert [s] + [] == [s];
    TokenBracesCons(text, s, []);
  }

  lemma SignsOnAppend(toks: seq<Lexeme>, t: Lexeme, sign: string, line: nat)
    ensures SignsOn(toks + [t], sign, line)
         == SignsOn(toks, sign, line) + if t.tok.kind == Punct && t.tok.text == sign && t.line == line then 1 else 0
  {
    assert (toks + [t])[..|toks|] == toks;
  }

  /** Counting braces on a line among the tokens, or among the offsets they
      start at, is the same count. */
  lemma {:induction false} SameCounts(text: string, ss: seq<Stretch>, c: char, l: nat)
    requires Inside(text, ss) && IsBrace(c)
    requires forall k | 0 <= k < |ss| && ss[k].kind == Punct :: ss[k].end == ss[k].start + 1
    ensures SignsOn(Placed(text, ss), [c], l + 1) == CountOn(text, TokenBraces(text, ss), c, l)
  {
    if ss == [] {
    } else {
      var front, s := ss[..|ss| - 1], ss[|ss| - 1];
      assert ss == front + [s];
      SameCounts(text, front, c, l);
      PlacedNext(text, front, s);
      SignsOnAppend(Placed(text, front), LexemeOf(text, s), [c], l + 1);
      LastToken(text, s, c, l);
      LastOffset(text, front, s, c, l);
    }
  }

  lemma LastOffset(text: string, front: seq<Stretch>, s: Stretch, c: char, l: nat)
    requires IsBrace(c)
    ensures CountOn(text, TokenBraces(text, front + [s]), c, l)
         == CountOn(text, TokenBraces(text, front), c, l)
            + if s.kind == Punct && Is(text, s.start, c) && Newlines(text, s.start) == l then 1 else 0
  {
    TokenBracesAppend(text, front, s);
    TokenBracesOne(text, s);
    CountOnAppend(text, TokenBraces(text, front), s.start, c, l);
    assert TokenBraces(text, front) + [] == TokenBraces(text, front);
  }

  lemma LastToken(text: string, s: Stretch, c: char, l: nat)
    requires s.start <= s.end <= |text| && IsBrace(c)
    requires s.kind == Punct ==> s.end == s.start + 1
    ensures var t := LexemeOf(text, s);
            (t.tok.kind == Punct && t.tok.text == [c] && t.line == l + 1)
            <==> (s.kind == Punct && Is(text, s.start, c) && Newlines(text, s.start) == l)
  {
    if s.kind == Punct {
      assert text[s.start..s.end] == [text[s.start]];
    }
  }

  /** On a text with no nested block comment and no word glued to a raw string,
      the two scans give the same count of opening and closing braces on every
      line. The converse is not claimed: on a text of either shape the counts
      can still coincide, by accident. */
  lemma ScannersAgree(text: string, l: nat)
    requires Unambiguous(text, 0)
    ensures CountOn(text, Braces(text, 0, Code), '{', l) == SignsOn(LexemesOf(text), "{", l + 1)
    ensures CountOn(text, Braces(text, 0, Code), '}', l) == SignsOn(LexemesOf(text), "}", l + 1)
  {
    SameBraces(text, 0);
    SignText(text, 0);
    SameCounts(text, StretchesFrom(text, 0), '{', l);
    SameCounts(text, StretchesFrom(text, 0), '}', l);
  }

  // ---- where the two conditions come from ------------------------------------------

  /** A comment inside a comment, then a brace: the brace scan resumes at the
      first close and counts a brace the lexer never sees. */
  lemma NestedCommentMisread(text: string)
    requires |text| == 9 && Pair(text, 0, '/', '*') && Pair(text, 2, '/', '*') && Pair(text, 4, '*', '/')
    requires text[6] == '{' && Pair(text, 7, '*', '/')
    ensures !Unambiguous(text, 0)
    ensures Braces(text, 0, Code) == [6] && StretchesFrom(text, 0) == []
  {
    assert NestedCommentEnd(text, 2, 1) == NestedCommentEnd(text, 4, 2) == NestedCommentEnd(text, 6, 1)
        == NestedCommentEnd(text, 7, 1) == NestedCommentEnd(text, 9, 0) == 9;
    assert PieceAt(text, 0) == Piece(BlockNote, 9);
    assert Braces(text, 2, BlockComment) == Braces(text, 3, BlockComment) == Braces(text, 4, BlockComment)
        == Braces(text, 6, Code);
    assert Braces(text, 7, Code) == Braces(text, 8, Code) == Braces(text, 9, Code) == [];
  }

  /** The seven characters `xr"\"{"`. */
  predicate GluedCase(text: string) {
    |text| == 7 && text[0] == 'x' && text[1] == 'r' && text[2] == '"' && text[3] == '\\' && text[4] == '"'
    && text[5] == '{' && text[6] == '"'
  }

  lemma GluedPrefixLexed(text: string)
    requires GluedCase(text)
    ensures !Unambiguous(text, 0)
    ensures TokenBraces(text, StretchesFrom(text, 0)) == []
  {
    assert WordEnd(text, 1) == WordEnd(text, 2) == 2;
    assert PieceAt(text, 0) == Piece(WordTok, 2);
    assert RawOpens(text, 1);
    assert QuotedEnd(text, 3) == QuotedEnd(text, 5) == QuotedEnd(text, 6) == 7;
    assert PieceAt(text, 2) == Piece(Quoted, 7);
    TokenBracesStep(text, 0);
    TokenBracesStep(text, 2);
  }

  lemma GluedPrefixScanned(text: string)
    requires GluedCase(text)
    ensures Braces(text, 0, Code) == [5]
  {
    assert RawOpens(text, 1) && PastHashes(text, 2) == 2;
    assert Braces(text, 0, Code) == Braces(text, 1, Code) == Braces(text, 3, RawString(0)) == Braces(text, 4, RawString(0))
        == Braces(text, 5, Code);
    assert Braces(text, 6, Code) == Braces(text, 7, DString) == [];
  }

  /** A word ending in `r` before a quote: the brace scan reads a raw string,
      where a backslash escapes nothing, and ends it early. */
  lemma GluedPrefixMisread(text: string)
    requires GluedCase(text)
    ensures !Unambiguous(text, 0)
    ensures Braces(text, 0, Code) == [5] && TokenBraces(text, StretchesFrom(text, 0)) == []
  {
    GluedPrefixLexed(text);
    GluedPrefixScanned(text);
  }
}
