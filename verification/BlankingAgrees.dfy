/**
 The blanking scan of src/cli_json.rs against the lexer of
 scripts/ci-mutants-summary.py: on every text without the shapes the blanking
 scan misreads, what it blanks is the lexer's comments and strings.
 */
module BlankingAgrees {
  import opened RustText
  import opened RustLexer
  import opened ScannersAgree
  import CodeOnly

  /** Where the comment or string the lexer reads at `i` begins, past a `b` or
      `c` prefix; the end of the piece when it is neither. */
  function BlankFrom(text: string, i: nat): nat
    requires i < |text|
  {
    var p := PieceAt(text, i);
    match p.shape
    case LineNote => i
    case BlockNote => i
    case Quoted => if text[i] == '"' then i else i + 1
    case RawQuoted => RawAt(text, i)
    case _ => p.end
  }

  /** The lexer, reading from `i`, has `p` in a comment or string. */
  predicate InNote(text: string, i: nat, p: nat)
    decreases if i < |text| then |text| - i else 0
  {
    i < |text| &&
    if p < PieceAt(text, i).end then BlankFrom(text, i) <= p else InNote(text, PieceAt(text, i).end, p)
  }

  /** The blanking scan reads the piece as the lexer does: its block comment
      holds no other, its char literal no double quote, and its word or number
      does not run into a raw string. */
  predicate Plain(text: string, i: nat)
    requires i < |text|
  {
    var p := PieceAt(text, i);
    Harmless(text, i) && (p.shape == CharLit ==> forall q | i <= q < p.end :: text[q] != '"')
  }

  predicate AllPlain(text: string, i: nat)
    decreases if i < |text| then |text| - i else 0
  {
    i < |text| ==> Plain(text, i) && AllPlain(text, PieceAt(text, i).end)
  }

  // ---- the two readings of one literal ---------------------------------------------

  lemma {:induction false} LinesEndAlike(text: string, i: nat)
    requires i <= |text|
    ensures CodeOnly.LineEnd(text, i) == LineEnd(text, i)
    decreases |text| - i
  {
    if i < |text| && text[i] != '\n' {
      LinesEndAlike(text, i + 1);
    }
  }

  lemma {:induction false} StringsEndAlike(text: string, j: nat)
    ensures CodeOnly.StringEnd(text, j, 0) == QuotedEnd(text, j)
    decreases if j < |text| then |text| - j else 0
  {
    if j < |text| && text[j] == '\\' {
      StringsEndAlike(text, j + 2);
    } else if j < |text| && text[j] != '"' {
      StringsEndAlike(text, j + 1);
    }
  }

  lemma {:induction false} RawStringsEndAlike(text: string, k: nat, hashes: nat)
    ensures CodeOnly.StringEnd(text, k, hashes + 1) == RawEnd(text, k, hashes)
    decreases if k < |text| then |text| - k else 0
  {
    if k < |text| {
      assert CodeOnly.HashRun(text, k + 1, hashes) == HashesAt(text, k + 1, hashes);
      RawStringsEndAlike(text, k + 1, hashes);
    }
  }

  lemma {:induction false} HashesAlike(text: string, k: nat)
    requires k <= |text|
    ensures k + CodeOnly.Hashes(text, k) == PastHashes(text, k)
    decreases |text| - k
  {
    if k < |text| && text[k] == '#' {
      HashesAlike(text, k + 1);
    }
  }

  lemma {:induction false} CommentsEndAlike(text: string, j: nat)
    requires FlatComment(text, j) && j <= |text|
    ensures CodeOnly.CommentEnd(text, j) == NestedCommentEnd(text, j, 1)
    decreases |text| - j
  {
    if j < |text| && !Pair(text, j, '*', '/') {
      CommentsEndAlike(text, j + 1);
    }
  }

  // ---- one piece -----------------------------------------------------------------

  /** No literal starts in the stretch. */
  predicate Quiet(text: string, i: nat, end: nat) {
    end <= |text| && forall q | i <= q < end :: CodeOnly.LiteralEnd(text, q) == q
  }

  lemma {:induction false} QuietRead(text: string, i: nat, end: nat, p: nat)
    requires i <= end && Quiet(text, i, end) && i <= p
    ensures CodeOnly.InLiteral(text, i, p) == if p < end then false else CodeOnly.InLiteral(text, end, p)
    decreases end - i
  {
    if i < end && i < p {
      QuietRead(text, i + 1, end, p);
    }
  }

  lemma LiteralRead(text: string, i: nat, end: nat, p: nat)
    requires i < end <= |text| && CodeOnly.LiteralEnd(text, i) == end && i <= p
    ensures CodeOnly.InLiteral(text, i, p) == if p < end then true else CodeOnly.InLiteral(text, end, p)
  {
  }

  /** A character that starts no literal. */
  lemma QuietChar(text: string, q: nat)
    requires q < |text| && text[q] != '"' && !Pair(text, q, '/', '/') && !Pair(text, q, '/', '*') && !RawOpens(text, q)
    ensures CodeOnly.LiteralEnd(text, q) == q
  {
    if text[q] == 'r' {
      HashesAlike(text, q + 1);
    }
  }

  lemma RawLiteral(text: string, k: nat)
    requires RawOpens(text, k)
    ensures CodeOnly.LiteralEnd(text, k) == RawStringEnd(text, k)
  {
    HashesAlike(text, k + 1);
    var quote := PastHashes(text, k + 1);
    RawStringsEndAlike(text, quote + 1, quote - (k + 1));
  }

  lemma WordQuiet(text: string, i: nat)
    requires i < |text| && Harmless(text, i)
    requires var s := PieceAt(text, i).shape; s == WordTok || s == NumberTok
    ensures Quiet(text, i, PieceAt(text, i).end)
  {
    var end := PieceAt(text, i).end;
    forall q | i <= q < end ensures CodeOnly.LiteralEnd(text, q) == q {
      assert q == i || text[q] == '#' || text[q] == '.' || IsWordChar(text[q]);
      assert Is(text, q, 'r') ==> !RawOpens(text, q);
      QuietChar(text, q);
    }
  }

  lemma CharLitQuiet(text: string, i: nat)
    requires i < |text| && Plain(text, i) && PieceAt(text, i).shape == CharLit
    ensures Quiet(text, i, PieceAt(text, i).end)
  {
    var end := PieceAt(text, i).end;
    forall q | i <= q < end ensures CodeOnly.LiteralEnd(text, q) == q {
      CharLitChar(text, i, q);
      QuietChar(text, q);
    }
  }

  lemma CharLitChar(text: string, i: nat, q: nat)
    requires i < |text| && Plain(text, i) && PieceAt(text, i).shape == CharLit && i <= q < PieceAt(text, i).end
    ensures text[q] != '"' && !Pair(text, q, '/', '/') && !Pair(text, q, '/', '*') && !RawOpens(text, q)
  {
  }

  lemma SignQuiet(text: string, i: nat)
    requires i < |text|
    requires var s := PieceAt(text, i).shape; s == SignTok || s == Space
    ensures Quiet(text, i, PieceAt(text, i).end)
  {
  }

  /** How the blanking scan reads one piece of the lexer's. */
  predicate ReadsAlike(text: string, i: nat, p: nat)
    requires i < |text|
  {
    CodeOnly.InLiteral(text, i, p) ==
    if p < PieceAt(text, i).end then BlankFrom(text, i) <= p else CodeOnly.InLiteral(text, PieceAt(text, i).end, p)
  }

  lemma QuietAlike(text: string, i: nat, p: nat)
    requires i < |text| && i <= p && Quiet(text, i, PieceAt(text, i).end) && BlankFrom(text, i) == PieceAt(text, i).end
    ensures ReadsAlike(text, i, p)
  {
    QuietRead(text, i, PieceAt(text, i).end, p);
  }

  /** A literal that starts at `k`, past its prefix. */
  lemma PrefixedAlike(text: string, i: nat, k: nat, p: nat)
    requires i < |text| && i <= k < PieceAt(text, i).end && BlankFrom(text, i) == k && Quiet(text, i, k) && i <= p
    requires CodeOnly.LiteralEnd(text, k) == PieceAt(text, i).end
    ensures ReadsAlike(text, i, p)
  {
    QuietRead(text, i, k, p);
    if k <= p {
      LiteralRead(text, k, PieceAt(text, i).end, p);
    }
  }

  lemma NoteAlike(text: string, i: nat, p: nat)
    requires i < |text| && Plain(text, i) && i <= p
    requires var s := PieceAt(text, i).shape; s == LineNote || s == BlockNote
    ensures ReadsAlike(text, i, p)
  {
    if PieceAt(text, i).shape == LineNote {
      LinesEndAlike(text, i);
    } else {
      CommentsEndAlike(text, i + 2);
    }
    PrefixedAlike(text, i, i, p);
  }

  lemma QuotedAlike(text: string, i: nat, p: nat)
    requires i < |text| && PieceAt(text, i).shape == Quoted && i <= p
    ensures ReadsAlike(text, i, p)
  {
    var k := BlankFrom(text, i);
    StringsEndAlike(text, k + 1);
    if k == i + 1 {
      QuietChar(text, i);
    }
    PrefixedAlike(text, i, k, p);
  }

  lemma RawAlike(text: string, i: nat, p: nat)
    requires i < |text| && PieceAt(text, i).shape == RawQuoted && i <= p
    ensures ReadsAlike(text, i, p)
  {
    var k := RawAt(text, i);
    RawLiteral(text, k);
    if k == i + 1 {
      QuietChar(text, i);
    }
    PrefixedAlike(text, i, k, p);
  }

  lemma PieceAlike(text: string, i: nat, p: nat)
    requires i < |text| && Plain(text, i) && i <= p
    ensures ReadsAlike(text, i, p)
  {
    match PieceAt(text, i).shape {
      case LineNote => NoteAlike(text, i, p);
      case BlockNote => NoteAlike(text, i, p);
      case Quoted => QuotedAlike(text, i, p);
      case RawQuoted => RawAlike(text, i, p);
      case CharLit =>
        CharLitQuiet(text, i);
        QuietAlike(text, i, p);
      case WordTok =>
        WordQuiet(text, i);
        QuietAlike(text, i, p);
      case NumberTok =>
        WordQuiet(text, i);
        QuietAlike(text, i, p);
      case SignTok =>
        SignQuiet(text, i);
        QuietAlike(text, i, p);
      case Space =>
        SignQuiet(text, i);
        QuietAlike(text, i, p);
    }
  }

  // ---- the whole text --------------------------------------------------------------

  lemma {:induction false} AlikeFrom(text: string, i: nat, p: nat)
    requires AllPlain(text, i) && i <= p < |text|
    ensures CodeOnly.InLiteral(text, i, p) <==> InNote(text, i, p)
    decreases |text| - i
  {
    PieceAlike(text, i, p);
    if p >= PieceAt(text, i).end {
      AlikeFrom(text, PieceAt(text, i).end, p);
    }
  }

  /** On a text whose block comments hold no other, whose char literals hold no
      double quote, and none of whose words runs into a raw string, the blanks
      are exactly the lexer's comments and strings, a `b` or `c` prefix aside,
      and every other character stays. */
  lemma {:induction false} BlanksAreLiterals(text: string)
    requires AllPlain(text, 0)
    ensures |CodeOnly.CodeOf(text)| == |text|
    ensures forall p | 0 <= p < |text| :: CodeOnly.CodeOf(text)[p] == if InNote(text, 0, p) then CodeOnly.Blank(text[p]) else text[p]
  {
    forall p | 0 <= p < |text| ensures CodeOnly.InLiteral(text, 0, p) <==> InNote(text, 0, p) {
      AlikeFrom(text, 0, p);
    }
  }

  /** `'"' a`: the quote of the char literal opens a string, and the code after
      it is blanked. */
  lemma QuoteCharMisread()
    ensures var text := "'\"' a";
            CodeOnly.InLiteral(text, 0, 4) && !InNote(text, 0, 4) && CodeOnly.CodeOf(text)[4] == ' '
  {
    var text := "'\"' a";
    assert PieceAt(text, 0) == Piece(CharLit, 3);
    assert PieceAt(text, 3) == Piece(Space, 4);
    assert PieceAt(text, 4) == Piece(WordTok, 5);
    assert InNote(text, 4, 4) == false;
    assert InNote(text, 3, 4) == InNote(text, 4, 4);
    assert CodeOnly.LiteralEnd(text, 0) == 0;
    QuotedTail(text);
    assert CodeOnly.InLiteral(text, 1, 4);
  }

  lemma QuotedTail(text: string)
    requires text == "'\"' a"
    ensures CodeOnly.LiteralEnd(text, 1) == 5
  {
    assert CodeOnly.StringEnd(text, 5, 0) == 5;
    assert CodeOnly.StringEnd(text, 4, 0) == CodeOnly.StringEnd(text, 5, 0);
    assert CodeOnly.StringEnd(text, 3, 0) == CodeOnly.StringEnd(text, 4, 0);
    assert CodeOnly.StringEnd(text, 2, 0) == CodeOnly.StringEnd(text, 3, 0);
  }
}
