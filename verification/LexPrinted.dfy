/**
 Rust written out lexes back: every word, raw identifier, number, sign, string,
 raw string, byte string and char literal, with blanks, line comments and nested
 block comments between them. So every tree of such tokens is the tree of some text.
 */
module LexPrinted {
  import opened Wrappers
  import opened RustTokens
  import opened RustText
  import opened RustLiterals
  import opened RustLexer

  // ---- how a token is spelled ------------------------------------------------------

  datatype Prefix = NoPrefix | B | C

  datatype Spelling =
    | WordS(word: string)
    | RawWordS(word: string)
    | SignS(c: char)
    | StringS(prefix: Prefix, parts: seq<StrPart>)
    | RawS(prefix: Prefix, hashes: nat, raw: string)
    | CharS(byte: bool, body: CharBody)
    | NumberS(number: string)

  predicate IsGap(c: char) {
    c == ' ' || c == '\t' || c == '\r' || c == '\n'
  }

  /** A sign the lexer reads on its own: no quote, and nothing a word, a number
      or a blank may hold. */
  predicate SignOk(c: char) {
    !IsGap(c) && !IsWordLetter(c) && c != '"' && c != '\''
  }

  predicate SpellingOk(sp: Spelling) {
    match sp
    case WordS(word) => WordOk(word)
    case RawWordS(word) => WordOk(word)
    case SignS(c) => SignOk(c)
    case StringS(_, parts) => StrOk(parts)
    case RawS(_, hashes, raw) => RawOk(hashes, raw)
    case CharS(_, body) => CharOk(body)
    case NumberS(number) => NumberOk(number)
  }

  function PrefixText(prefix: Prefix): string {
    match prefix
    case NoPrefix => ""
    case B => "b"
    case C => "c"
  }

  function Spelled(sp: Spelling): string {
    match sp
    case WordS(word) => word
    case RawWordS(word) => ['r', '#'] + word
    case SignS(c) => [c]
    case StringS(prefix, parts) => PrefixText(prefix) + ['"'] + (StrText(parts) + ['"'])
    case RawS(prefix, hashes, raw) => PrefixText(prefix) + ['r'] + (Marks(hashes) + ['"'] + (raw + ['"'] + Marks(hashes)))
    case CharS(byte, body) => (if byte then "b" else "") + CharText(body)
    case NumberS(number) => number
  }

  /** A raw identifier is the word without its mark; any literal is its own text. */
  function TokenOf(sp: Spelling): Token {
    match sp
    case WordS(word) => Token(Ident, word)
    case RawWordS(word) => Token(Ident, word)
    case SignS(c) => Token(Punct, [c])
    case _ => Token(Lit, Spelled(sp))
  }

  function ShapeOf(sp: Spelling): Shape {
    match sp
    case WordS(_) => WordTok
    case RawWordS(_) => WordTok
    case SignS(_) => SignTok
    case StringS(_, _) => Quoted
    case RawS(_, _, _) => RawQuoted
    case CharS(_, _) => CharLit
    case NumberS(_) => NumberTok
  }

  // ---- one token -----------------------------------------------------------------

  /** The token stands at `i`, with a blank after it. */
  predicate WrittenAt(text: string, i: nat, s: string) {
    StandsAt(text, i, s) && i + |s| < |text| && IsGap(text[i + |s|])
  }

  lemma GapIs(c: char)
    ensures IsGap(c) <==> IsBlank(c)
    ensures IsGap(c) ==> !IsWordLetter(c) && c != '.' && c != '#' && c != '"' && c != '\''
  {
  }

  /** A word is not the prefix of a literal: a letter, a digit or a blank
      follows each of its characters. */
  lemma WordPiece(text: string, i: nat, s: string)
    requires WrittenAt(text, i, s) && WordOk(s)
    ensures PieceAt(text, i) == Piece(WordTok, i + |s|)
  {
    CharsAt(text, i, s);
    LettersFollow(text, i, s);
    GapIs(text[i + |s|]);
    assert text[i + 0] == s[0];
    LetterIs(text[i]);
    WordEnds(text, i, s, 1);
    NoLiteral(text, i, i + |s|);
  }

  lemma LettersFollow(text: string, i: nat, s: string)
    requires StandsAt(text, i, s) && forall k | 0 <= k < |s| :: IsWordLetter(s[k])
    ensures forall q | i <= q < i + |s| :: IsWordLetter(text[q])
  {
    CharsAt(text, i, s);
    forall q | i <= q < i + |s| ensures IsWordLetter(text[q]) {
      assert text[i + (q - i)] == s[q - i];
    }
  }

  lemma NoLiteral(text: string, i: nat, end: nat)
    requires i < end < |text| && IsGap(text[end]) && forall q | i <= q < end :: IsWordLetter(text[q])
    ensures !RawOpens(text, RawAt(text, i)) && !Is(text, i + 1, '"') && !Is(text, i + 1, '\'') && !Is(text, i + 1, '#')
    ensures !IsBlank(text[i]) && text[i] != '/' && text[i] != '"' && text[i] != '\''
  {
    GapIs(text[end]);
    assert IsWordLetter(text[i + 1]) || i + 1 == end;
    var k := RawAt(text, i);
    if Is(text, k, 'r') {
      assert k < end && (IsWordLetter(text[k + 1]) || k + 1 == end);
      assert PastHashes(text, k + 1) == k + 1;
    }
  }

  lemma RawWordPiece(text: string, i: nat, s: string)
    requires WrittenAt(text, i, ['r', '#'] + s) && WordOk(s)
    ensures PieceAt(text, i) == Piece(WordTok, i + 2 + |s|)
  {
    StandsFirst(text, i, ['r', '#'], s);
    CharsAt(text, i, ['r', '#']);
    CharsAt(text, i + 2, s);
    GapIs(text[i + 2 + |s|]);
    assert text[i + 0] == 'r' && text[i + 1] == '#' && text[i + 2 + 0] == s[0];
    assert PastHashes(text, i + 2) == i + 2 && PastHashes(text, i + 1) == i + 2;
    WordEnds(text, i + 2, s, 0);
  }

  lemma SignPiece(text: string, i: nat, c: char)
    requires WrittenAt(text, i, [c]) && SignOk(c)
    ensures PieceAt(text, i) == Piece(SignTok, i + 1)
  {
    CharsAt(text, i, [c]);
    assert text[i + 0] == c;
    GapIs(c);
    WordLetterIs(c);
  }

  /** A prefix of a literal, and the literal's first character, at `k`. */
  lemma PrefixAt(text: string, i: nat, pre: string, c: char, rest: string, k: nat)
    requires StandsAt(text, i, pre + [c] + rest) && k == i + |pre| && (pre == "" || pre == "b" || pre == "c")
    ensures Is(text, k, c) && StandsAt(text, k + 1, rest)
    ensures k == i || (k == i + 1 && (text[i] == 'b' || text[i] == 'c'))
    ensures pre == "b" ==> text[i] == 'b'
  {
    StandsFirst(text, i, pre + [c], rest);
    StandsFirst(text, i, pre, [c]);
    CharsAt(text, i, pre);
    CharsAt(text, k, [c]);
    assert text[k + 0] == c && (|pre| > 0 ==> text[i + 0] == pre[0]);
  }

  lemma StringPieceIs(text: string, i: nat, k: nat)
    requires Is(text, k, '"') && (k == i || (k == i + 1 && (text[i] == 'b' || text[i] == 'c')))
    ensures PieceAt(text, i) == Piece(Quoted, QuotedEnd(text, k + 1))
  {
  }

  lemma StringPiece(text: string, i: nat, prefix: Prefix, parts: seq<StrPart>)
    requires StandsAt(text, i, Spelled(StringS(prefix, parts))) && StrOk(parts)
    ensures PieceAt(text, i) == Piece(Quoted, i + |Spelled(StringS(prefix, parts))|)
  {
    var pre, rest := PrefixText(prefix), StrText(parts) + ['"'];
    var k := i + |pre|;
    PrefixAt(text, i, pre, '"', rest, k);
    QuotedEnds(text, k + 1, parts);
    StringPieceIs(text, i, k);
  }

  lemma RawPieceIs(text: string, i: nat, k: nat)
    requires RawOpens(text, k) && (k == i || (k == i + 1 && (text[i] == 'b' || text[i] == 'c')))
    ensures PieceAt(text, i) == Piece(RawQuoted, RawStringEnd(text, k))
  {
    assert RawAt(text, i) == k;
  }

  lemma RawStringIs(text: string, k: nat, hashes: nat, raw: string)
    requires Is(text, k, 'r') && StandsAt(text, k + 1, Marks(hashes) + ['"'] + (raw + ['"'] + Marks(hashes))) && RawOk(hashes, raw)
    ensures RawOpens(text, k) && RawStringEnd(text, k) == k + 3 + |raw| + 2 * hashes
  {
    StandsFirst(text, k + 1, Marks(hashes) + ['"'], raw + ['"'] + Marks(hashes));
    HashesEnd(text, k + 1, hashes);
    RawEnds(text, k + 2 + hashes, hashes, raw, 0);
  }

  lemma RawPiece(text: string, i: nat, prefix: Prefix, hashes: nat, raw: string)
    requires StandsAt(text, i, Spelled(RawS(prefix, hashes, raw))) && RawOk(hashes, raw)
    ensures PieceAt(text, i) == Piece(RawQuoted, i + |Spelled(RawS(prefix, hashes, raw))|)
  {
    var pre := PrefixText(prefix);
    var k := i + |pre|;
    PrefixAt(text, i, pre, 'r', Marks(hashes) + ['"'] + (raw + ['"'] + Marks(hashes)), k);
    RawStringIs(text, k, hashes, raw);
    RawPieceIs(text, i, k);
  }

  lemma CharPieceIs(text: string, i: nat, k: nat)
    requires CharLiteralEnd(text, k).Some? && (k == i || (k == i + 1 && text[i] == 'b'))
    ensures PieceAt(text, i) == Piece(CharLit, CharLiteralEnd(text, k).value)
  {
  }

  /** A char literal is one piece of exactly its text, whatever follows it. */
  lemma CharPiece(text: string, i: nat, byte: bool, body: CharBody)
    requires StandsAt(text, i, Spelled(CharS(byte, body))) && CharOk(body)
    ensures PieceAt(text, i) == Piece(CharLit, i + |Spelled(CharS(byte, body))|)
  {
    var pre := if byte then "b" else "";
    var k := i + |pre|;
    StandsFirst(text, i, pre, CharText(body));
    CharsAt(text, i, pre);
    assert |pre| > 0 ==> text[i + 0] == pre[0];
    CharEnds(text, k, body);
    CharPieceIs(text, i, k);
  }

  /** A quote that opens no char literal is a sign: a lifetime's, say. */
  lemma LoneQuote(text: string, i: nat)
    requires Is(text, i, '\'') && forall body | CharOk(body) :: !StandsAt(text, i, CharText(body))
    ensures PieceAt(text, i) == Piece(SignTok, i + 1)
  {
    if CharLiteralEnd(text, i).Some? {
      var body := CharFound(text, i);
    }
  }

  lemma NumberPiece(text: string, i: nat, s: string)
    requires WrittenAt(text, i, s) && NumberOk(s)
    ensures PieceAt(text, i) == Piece(NumberTok, i + |s|)
  {
    CharsAt(text, i, s);
    assert text[i + 0] == s[0];
    DigitIs(s[0]);
    GapIs(text[i + |s|]);
    NumberEnds(text, i, s, 1);
  }

  lemma TokenPiece(text: string, i: nat, sp: Spelling)
    requires WrittenAt(text, i, Spelled(sp)) && SpellingOk(sp)
    ensures PieceAt(text, i) == Piece(ShapeOf(sp), i + |Spelled(sp)|)
  {
    match sp
    case WordS(word) => WordPiece(text, i, word);
    case RawWordS(word) => RawWordPiece(text, i, word);
    case SignS(c) => SignPiece(text, i, c);
    case StringS(prefix, parts) => StringPiece(text, i, prefix, parts);
    case RawS(prefix, hashes, raw) => RawPiece(text, i, prefix, hashes, raw);
    case CharS(byte, body) => CharPiece(text, i, byte, body);
    case NumberS(number) => NumberPiece(text, i, number);
  }

  lemma PlainText(text: string, i: nat, kind: Kind, s: string)
    requires StandsAt(text, i, s) && (kind == Ident ==> |s| < 2 || s[1] != '#')
    ensures TextOf(text, Stretch(kind, i, i + |s|)) == s
  {
    if |s| >= 2 && s[..2] == "r#" {
      assert s[..2][1] == s[1];
    }
  }

  lemma RawWordText(text: string, i: nat, word: string)
    requires StandsAt(text, i, ['r', '#'] + word)
    ensures TextOf(text, Stretch(Ident, i, i + 2 + |word|)) == word
  {
    var s := ['r', '#'] + word;
    assert s[..2] == "r#" && s[2..] == word;
  }

  lemma KindIs(sp: Spelling)
    ensures KindOf(ShapeOf(sp)) == Some(TokenOf(sp).kind)
  {
  }

  lemma WordHasNoMark(word: string)
    requires WordOk(word) && |word| >= 2
    ensures word[1] != '#'
  {
    assert IsWordLetter(word[1]);
  }

  lemma TokenText(text: string, i: nat, sp: Spelling, s: string)
    requires StandsAt(text, i, s) && s == Spelled(sp) && SpellingOk(sp)
    ensures TextOf(text, Stretch(TokenOf(sp).kind, i, i + |s|)) == TokenOf(sp).text
  {
    if sp.RawWordS? {
      RawWordText(text, i, sp.word);
    } else {
      if sp.WordS? && |s| >= 2 {
        WordHasNoMark(s);
      }
      PlainText(text, i, TokenOf(sp).kind, s);
    }
  }

  // ---- what stands between tokens -----------------------------------------------------

  /** A blank, a line comment with its line break, or a block comment. */
  datatype Gap = White(c: char) | ToLineEnd(s: string) | Commented(parts: NoteParts)

  predicate GapOk(g: Gap) {
    match g
    case White(c) => IsGap(c)
    case ToLineEnd(s) => '\n' !in s
    case Commented(parts) => NoteOk(parts)
  }

  function GapText(g: Gap): string {
    match g
    case White(c) => [c]
    case ToLineEnd(s) => ['/', '/'] + s + ['\n']
    case Commented(parts) => ['/', '*'] + NoteText(parts) + ['*', '/']
  }

  function GapsText(gaps: seq<Gap>): string {
    if gaps == [] then "" else GapText(gaps[0]) + GapsText(gaps[1..])
  }

  predicate Both(text: string, i: nat, j: nat) {
    i <= |text| || j <= |text| || |text| >= 0
  }

  /** Nothing is read from `i` to `j`. The trigger keeps the lexer folded in
      proofs that only put such stretches together. */
  ghost predicate Skips(text: string, i: nat, j: nat) {
    forall a: nat, b: nat {:trigger Both(text, a, b)} ::
      Both(text, a, b) && a == i && b == j ==> StretchesFrom(text, a) == StretchesFrom(text, b)
  }

  lemma SkipsElim(text: string, i: nat, j: nat)
    requires Skips(text, i, j)
    ensures StretchesFrom(text, i) == StretchesFrom(text, j)
  {
    assert Both(text, i, j);
  }

  lemma SkipsJoin(text: string, i: nat, j: nat, k: nat)
    requires Skips(text, i, j) && Skips(text, j, k)
    ensures Skips(text, i, k)
  {
    SkipsElim(text, i, j);
    SkipsElim(text, j, k);
  }

  lemma Nothing(text: string, i: nat, shape: Shape, end: nat)
    requires i < end <= |text| && PieceAt(text, i) == Piece(shape, end) && KindOf(shape).None?
    ensures Skips(text, i, end)
  {
    assert StretchesFrom(text, i) == StretchesFrom(text, end);
  }

  lemma BlankPiece(text: string, i: nat)
    requires i < |text| && IsGap(text[i])
    ensures PieceAt(text, i) == Piece(Space, i + 1)
  {
    GapIs(text[i]);
  }

  lemma LineNoteSkipped(text: string, i: nat, s: string, end: nat)
    requires '\n' !in s && StandsAt(text, i, GapText(ToLineEnd(s))) && end == i + 2 + |s|
    ensures Skips(text, i, end + 1)
  {
    var note := ['/', '/'] + s;
    assert GapText(ToLineEnd(s)) == note + ['\n'];
    assert '\n' !in note;
    StandsFirst(text, i, note, ['\n']);
    StandsFirst(text, i, ['/', '/'], s);
    PairAt(text, i, '/', '/');
    LineEnds(text, i, note, 0);
    Nothing(text, i, LineNote, end);
    CharsAt(text, end, ['\n']);
    assert text[end + 0] == '\n';
    BlankPiece(text, end);
    Nothing(text, end, Space, end + 1);
    SkipsJoin(text, i, end, end + 1);
  }

  lemma GapSkipped(text: string, i: nat, g: Gap, next: nat)
    requires GapOk(g) && StandsAt(text, i, GapText(g)) && next == i + |GapText(g)|
    ensures Skips(text, i, next)
  {
    match g
    case White(c) =>
      CharsAt(text, i, [c]);
      assert text[i + 0] == c;
      BlankPiece(text, i);
      Nothing(text, i, Space, next);
    case ToLineEnd(s) => LineNoteSkipped(text, i, s, next - 1);
    case Commented(parts) =>
      NoteEnds(text, i, parts);
      Nothing(text, i, BlockNote, next);
  }

  lemma {:induction false} GapsSkipped(text: string, i: nat, gaps: seq<Gap>, next: nat)
    requires (forall k | 0 <= k < |gaps| :: GapOk(gaps[k])) && StandsAt(text, i, GapsText(gaps)) && next == i + |GapsText(gaps)|
    ensures Skips(text, i, next)
    decreases |gaps|
  {
    if gaps != [] {
      var mid := i + |GapText(gaps[0])|;
      StandsFirst(text, i, GapText(gaps[0]), GapsText(gaps[1..]));
      GapSkipped(text, i, gaps[0], mid);
      GapsSkipped(text, mid, gaps[1..], next);
      SkipsJoin(text, i, mid, next);
    }
  }

  // ---- a whole file ---------------------------------------------------------------------

  /** A token, the blank after it, and whatever else stands before the next. */
  datatype Item = Item(token: Spelling, blank: char, gaps: seq<Gap>)

  predicate ItemOk(item: Item) {
    SpellingOk(item.token) && IsGap(item.blank) && forall k | 0 <= k < |item.gaps| :: GapOk(item.gaps[k])
  }

  predicate AllOk(items: seq<Item>) {
    forall k | 0 <= k < |items| :: ItemOk(items[k])
  }

  function Written(items: seq<Item>): string {
    if items == [] then ""
    else Spelled(items[0].token) + ([items[0].blank] + GapsText(items[0].gaps)) + Written(items[1..])
  }

  function Tokens(items: seq<Item>): (toks: seq<Token>)
    ensures |toks| == |items| && forall k | 0 <= k < |items| :: toks[k] == TokenOf(items[k].token)
  {
    seq(|items|, k requires 0 <= k < |items| => TokenOf(items[k].token))
  }

  /** The stretches are these tokens. */
  ghost predicate AreTokens(text: string, ss: seq<Stretch>, toks: seq<Token>) {
    && Inside(text, ss) && |ss| == |toks|
    && forall k | 0 <= k < |ss| :: ss[k].kind == toks[k].kind && TextOf(text, ss[k]) == toks[k].text
  }

  ghost predicate Reads(text: string, i: nat, toks: seq<Token>) {
    AreTokens(text, StretchesFrom(text, i), toks)
  }

  lemma FirstStretch(text: string, i: nat, shape: Shape, end: nat)
    requires i < end <= |text| && PieceAt(text, i) == Piece(shape, end) && KindOf(shape).Some?
    ensures StretchesFrom(text, i) == [Stretch(KindOf(shape).value, i, end)] + StretchesFrom(text, end)
  {
  }

  lemma TokenRead(text: string, i: nat, sp: Spelling, end: nat)
    requires WrittenAt(text, i, Spelled(sp)) && SpellingOk(sp) && end == i + |Spelled(sp)|
    ensures StretchesFrom(text, i) == [Stretch(TokenOf(sp).kind, i, end)] + StretchesFrom(text, end)
  {
    TokenPiece(text, i, sp);
    KindIs(sp);
    FirstStretch(text, i, ShapeOf(sp), end);
  }

  lemma GapRead(text: string, end: nat, blank: char, gaps: seq<Gap>, next: nat)
    requires IsGap(blank) && forall k | 0 <= k < |gaps| :: GapOk(gaps[k])
    requires StandsAt(text, end, [blank] + GapsText(gaps)) && next == end + 1 + |GapsText(gaps)|
    ensures end < |text| && text[end] == blank && Skips(text, end, next)
  {
    StandsFirst(text, end, [blank], GapsText(gaps));
    CharsAt(text, end, [blank]);
    assert text[end + 0] == blank;
    BlankPiece(text, end);
    Nothing(text, end, Space, end + 1);
    GapsSkipped(text, end + 1, gaps, next);
    SkipsJoin(text, end, end + 1, next);
  }

  lemma ReadsOne(text: string, i: nat, item: Item, end: nat, next: nat, rest: seq<Token>)
    requires ItemOk(item) && end == i + |Spelled(item.token)| && next == end + 1 + |GapsText(item.gaps)|
    requires StandsAt(text, i, Spelled(item.token) + ([item.blank] + GapsText(item.gaps)))
    requires Reads(text, next, rest)
    ensures Reads(text, i, [TokenOf(item.token)] + rest)
  {
    var sp := item.token;
    StandsFirst(text, i, Spelled(sp), [item.blank] + GapsText(item.gaps));
    GapRead(text, end, item.blank, item.gaps, next);
    TokenRead(text, i, sp, end);
    TokenText(text, i, sp, Spelled(sp));
    SkipsElim(text, end, next);
    ReadsCons(text, TokenOf(sp), Stretch(TokenOf(sp).kind, i, end), StretchesFrom(text, i), StretchesFrom(text, next), rest);
  }

  lemma ReadsCons(text: string, t: Token, s: Stretch, ss: seq<Stretch>, more: seq<Stretch>, rest: seq<Token>)
    requires s.start <= s.end <= |text| && s.kind == t.kind && TextOf(text, s) == t.text
    requires ss == [s] + more && AreTokens(text, more, rest)
    ensures AreTokens(text, ss, [t] + rest)
  {
  }

  lemma {:induction false} ReadsBack(text: string, i: nat, items: seq<Item>)
    requires AllOk(items) && i + |Written(items)| == |text| && StandsAt(text, i, Written(items))
    ensures Reads(text, i, Tokens(items))
    decreases |items|
  {
    if items == [] {
      ReadsNothing(text, i);
    } else {
      var one := Spelled(items[0].token) + ([items[0].blank] + GapsText(items[0].gaps));
      var next := i + |one|;
      StandsFirst(text, i, one, Written(items[1..]));
      ReadsBack(text, next, items[1..]);
      ReadsOne(text, i, items[0], i + |Spelled(items[0].token)|, next, Tokens(items[1..]));
      assert Tokens(items) == [TokenOf(items[0].token)] + Tokens(items[1..]);
    }
  }

  lemma ReadsNothing(text: string, i: nat)
    requires i == |text|
    ensures Reads(text, i, [])
  {
  }

  /** Writing a file out and lexing the text gives its tokens back, kinds and
      texts, and nothing for what stands between them. */
  lemma LexInvertsWritten(before: seq<Gap>, items: seq<Item>) returns (ss: seq<Stretch>)
    requires (forall k | 0 <= k < |before| :: GapOk(before[k])) && AllOk(items)
    ensures var text := GapsText(before) + Written(items);
            IsLexOf(ss, text) && Inside(text, ss) && Toks(Placed(text, ss)) == Tokens(items)
  {
    var lead := GapsText(before);
    var text := lead + Written(items);
    ss := StretchesFrom(text, 0);
    assert text[0..0 + |text|] == text;
    StandsFirst(text, 0, lead, Written(items));
    GapsSkipped(text, 0, before, |lead|);
    ReadsBack(text, |lead|, items);
    SkipsElim(text, 0, |lead|);
    assert IsLexOf(ss, text);
    LexInOrder(ss, text);
  }

  // ---- tokens written plainly -------------------------------------------------------------

  /** A word, a sign, or a string literal without escapes. */
  predicate Writable(t: Token) {
    match t.kind
    case Ident => WordOk(t.text)
    case Punct => |t.text| == 1 && SignOk(t.text[0])
    case Lit =>
      && |t.text| >= 2 && t.text[0] == '"' && t.text[|t.text| - 1] == '"'
      && forall k | 1 <= k < |t.text| - 1 :: t.text[k] != '"' && t.text[k] != '\\'
  }

  predicate AllWritable(toks: seq<Token>) {
    forall k | 0 <= k < |toks| :: Writable(toks[k])
  }

  function Chars(s: string): seq<StrPart> {
    seq(|s|, k requires 0 <= k < |s| => Char(s[k]))
  }

  function Plainly(t: Token): Spelling {
    if t.kind == Punct && |t.text| == 1 then SignS(t.text[0])
    else if t.kind == Lit && |t.text| >= 2 then StringS(NoPrefix, Chars(t.text[1..|t.text| - 1]))
    else WordS(t.text)
  }

  /** The tokens, with a space after each. */
  function Spaced(toks: seq<Token>): seq<Item> {
    seq(|toks|, k requires 0 <= k < |toks| => Item(Plainly(toks[k]), ' ', []))
  }

  lemma {:induction false} CharsText(s: string)
    ensures StrText(Chars(s)) == s
  {
    if s != "" {
      CharsText(s[1..]);
      assert Chars(s)[1..] == Chars(s[1..]);
      assert s == [s[0]] + s[1..];
    }
  }

  lemma PlainlyIs(t: Token)
    requires Writable(t)
    ensures TokenOf(Plainly(t)) == t && SpellingOk(Plainly(t))
  {
    if t.kind == Lit {
      var inside := t.text[1..|t.text| - 1];
      CharsText(inside);
      assert t.text == "" + ['"'] + (inside + ['"']);
    } else if t.kind == Punct {
      assert t.text == [t.text[0]];
    }
  }

  lemma SpacedIs(toks: seq<Token>)
    requires AllWritable(toks)
    ensures AllOk(Spaced(toks)) && Tokens(Spaced(toks)) == toks
  {
    forall k | 0 <= k < |toks| ensures TokenOf(Plainly(toks[k])) == toks[k] && SpellingOk(Plainly(toks[k])) {
      PlainlyIs(toks[k]);
    }
  }
}
