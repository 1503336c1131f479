/**
 The spelling of Rust's words, numbers, literals and comments, and that the
 character scans of scripts/ci-mutants-summary.py (`_CHAR_LITERAL`, `scan_quoted`,
 `scan_raw` and the loops of `_rust_tokens`) stop exactly where each ends.
 */
module RustLiterals {
  import opened Wrappers
  import opened RustText

  const DIGITS: set<char> := {'0', '1', '2', '3', '4', '5', '6', '7', '8', '9'}
  const HEX_LETTERS: set<char> := {'a', 'b', 'c', 'd', 'e', 'f', 'A', 'B', 'C', 'D', 'E', 'F'}
  const LOWER: set<char> := {
    'a', 'b', 'c', 'd', 'e', 'f', 'g', 'h', 'i', 'j', 'k', 'l', 'm', 'n', 'o', 'p', 'q', 'r', 's', 't', 'u', 'v', 'w', 'x', 'y', 'z'
  }
  const UPPER: set<char> := {
    'A', 'B', 'C', 'D', 'E', 'F', 'G', 'H', 'I', 'J', 'K', 'L', 'M', 'N', 'O', 'P', 'Q', 'R', 'S', 'T', 'U', 'V', 'W', 'X', 'Y', 'Z'
  }

  /** A character an identifier may start with. */
  predicate IsLetter(c: char) {
    c in LOWER || c in UPPER || c == '_' || c as int > 127
  }

  lemma DigitIs(c: char)
    ensures IsDigit(c) <==> c in DIGITS
  {
  }

  lemma HexIs(c: char)
    ensures IsHex(c) <==> c in DIGITS || c in HEX_LETTERS
  {
  }

  lemma LowerIs(c: char)
    ensures 'a' <= c <= 'z' <==> c in LOWER
  {
  }

  lemma UpperIs(c: char)
    ensures 'A' <= c <= 'Z' <==> c in UPPER
  {
  }

  lemma LetterIs(c: char)
    ensures IsWordStart(c) <==> IsLetter(c)
  {
    LowerIs(c);
    UpperIs(c);
  }

  /** `s` stands in the text at `i`. */
  predicate StandsAt(text: string, i: nat, s: string) {
    i + |s| <= |text| && text[i..i + |s|] == s
  }

  lemma CharsAt(text: string, i: nat, s: string)
    requires StandsAt(text, i, s)
    ensures forall k | 0 <= k < |s| :: text[i + k] == s[k]
  {
    forall k | 0 <= k < |s| ensures text[i + k] == s[k] {
      assert text[i..i + |s|][k] == s[k];
    }
  }

  lemma StandsIntro(text: string, i: nat, s: string)
    requires i + |s| <= |text| && forall k | 0 <= k < |s| :: text[i + k] == s[k]
    ensures StandsAt(text, i, s)
  {
    assert text[i..i + |s|] == s;
  }

  // ---- char literals -----------------------------------------------------------

  /** What stands between the quotes of a char literal. */
  datatype CharBody = One(c: char) | Escaped(c: char) | Hex(high: char, low: char) | Unicode(digits: string)

  predicate IsHexDigit(c: char) {
    c in DIGITS || c in HEX_LETTERS
  }

  predicate CharOk(body: CharBody) {
    match body
    case One(c) => c != '\\' && c != '\'' && c != '\n'
    case Escaped(c) => c != '\n'
    case Hex(high, low) => IsHexDigit(high) && IsHexDigit(low)
    case Unicode(digits) => 1 <= |digits| <= 6 && forall k | 0 <= k < |digits| :: IsHexDigit(digits[k])
  }

  function CharText(body: CharBody): string {
    match body
    case One(c) => ['\'', c, '\'']
    case Escaped(c) => ['\'', '\\', c, '\'']
    case Hex(high, low) => ['\'', '\\', 'x', high, low, '\'']
    case Unicode(digits) => ['\'', '\\', 'u', '{'] + digits + ['}', '\'']
  }

  lemma {:induction false} HexRunIs(text: string, k: nat, n: nat, most: nat)
    requires n <= most && k + n < |text| && !IsHex(text[k + n])
    requires forall q | k <= q < k + n :: IsHex(text[q])
    ensures HexRun(text, k, most) == n
    decreases n
  {
    if n > 0 {
      HexRunIs(text, k + 1, n - 1, most - 1);
    }
  }

  lemma UnicodeEnds(text: string, i: nat, digits: string)
    requires CharOk(Unicode(digits)) && StandsAt(text, i, CharText(Unicode(digits)))
    ensures CharLiteralEnd(text, i) == Some(i + 6 + |digits|)
  {
    var s := CharText(Unicode(digits));
    CharsAt(text, i, s);
    assert text[i] == s[0] && text[i + 1] == s[1] && text[i + 2] == s[2] && text[i + 3] == s[3];
    forall q | i + 4 <= q < i + 4 + |digits| ensures IsHex(text[q]) {
      assert text[i + (q - i)] == s[q - i] == digits[q - i - 4];
      HexIs(text[q]);
    }
    assert text[i + (4 + |digits|)] == s[4 + |digits|] == '}' && text[i + (5 + |digits|)] == s[5 + |digits|] == '\'';
    HexRunIs(text, i + 4, |digits|, 6);
  }

  /** A char literal ends where its text does, whatever stands around it. */
  lemma CharEnds(text: string, i: nat, body: CharBody)
    requires CharOk(body) && StandsAt(text, i, CharText(body))
    ensures CharLiteralEnd(text, i) == Some(i + |CharText(body)|)
  {
    if body.Unicode? {
      UnicodeEnds(text, i, body.digits);
    } else {
      var s := CharText(body);
      CharsAt(text, i, s);
      assert text[i + 0] == s[0] && text[i + 1] == s[1] && text[i + 2] == s[2];
      assert |s| > 3 ==> text[i + 3] == s[3];
      if body.Hex? {
        HexIs(body.high);
        HexIs(body.low);
        assert text[i + 4] == s[4] && text[i + 5] == s[5];
      }
    }
  }

  /** And where the scan finds one, one stands. */
  lemma CharFound(text: string, i: nat) returns (body: CharBody)
    requires CharLiteralEnd(text, i).Some?
    ensures CharOk(body) && StandsAt(text, i, CharText(body)) && CharLiteralEnd(text, i).value == i + |CharText(body)|
  {
    var end := CharLiteralEnd(text, i).value;
    var run := HexRun(text, i + 4, 6);
    if text[i + 1] != '\\' {
      body := One(text[i + 1]);
    } else if end == i + 6 && text[i + 2] == 'x' {
      body := Hex(text[i + 3], text[i + 4]);
      HexIs(text[i + 3]);
      HexIs(text[i + 4]);
    } else if end == i + 4 {
      body := Escaped(text[i + 2]);
    } else {
      body := UnicodeFound(text, i);
    }
    StandsIntro(text, i, CharText(body));
  }

  lemma UnicodeFound(text: string, i: nat) returns (body: CharBody)
    requires Is(text, i, '\'') && Is(text, i + 1, '\\') && Is(text, i + 2, 'u') && Is(text, i + 3, '{')
    requires var run := HexRun(text, i + 4, 6); run > 0 && Is(text, i + 4 + run, '}') && Is(text, i + 5 + run, '\'')
    ensures CharOk(body) && |CharText(body)| == 6 + HexRun(text, i + 4, 6)
    ensures forall k | 0 <= k < |CharText(body)| :: text[i + k] == CharText(body)[k]
  {
    var run := HexRun(text, i + 4, 6);
    var digits := text[i + 4..i + 4 + run];
    forall k | 0 <= k < run ensures IsHexDigit(digits[k]) {
      HexIs(text[i + 4 + k]);
    }
    body := Unicode(digits);
    UnicodeText(text, i, digits);
  }

  lemma UnicodeText(text: string, i: nat, digits: string)
    requires Is(text, i, '\'') && Is(text, i + 1, '\\') && Is(text, i + 2, 'u') && Is(text, i + 3, '{')
    requires Is(text, i + 4 + |digits|, '}') && Is(text, i + 5 + |digits|, '\'')
    requires text[i + 4..i + 4 + |digits|] == digits
    ensures forall k | 0 <= k < 6 + |digits| :: text[i + k] == CharText(Unicode(digits))[k]
  {
    var s := CharText(Unicode(digits));
    forall k | 0 <= k < 6 + |digits| ensures text[i + k] == s[k] {
      if 4 <= k < 4 + |digits| {
        assert s[k] == digits[k - 4];
        assert text[i + 4..i + 4 + |digits|][k - 4] == text[i + k];
      }
    }
  }

  /** The char literal stands in the text from `i` to `end`. */
  predicate SpelledAt(text: string, i: nat, end: nat, body: CharBody) {
    CharOk(body) && StandsAt(text, i, CharText(body)) && end == i + |CharText(body)|
  }

  /** The scan finds a char literal exactly where one is spelled, and no other
      end than its own. */
  lemma CharLiteralIff(text: string, i: nat, end: nat)
    ensures CharLiteralEnd(text, i) == Some(end) <==> exists body :: SpelledAt(text, i, end, body)
  {
    if CharLiteralEnd(text, i) == Some(end) {
      var body := CharFound(text, i);
      assert SpelledAt(text, i, end, body);
    } else if body :| SpelledAt(text, i, end, body) {
      CharEnds(text, i, body);
    }
  }

  lemma StandsFirst(text: string, i: nat, a: string, b: string)
    requires StandsAt(text, i, a + b)
    ensures StandsAt(text, i, a) && StandsAt(text, i + |a|, b)
  {
    assert text[i..i + |a|] == (a + b)[..|a|] == a;
    assert text[i + |a|..i + |a| + |b|] == (a + b)[|a|..] == b;
  }

  // ---- strings ---------------------------------------------------------------------

  /** A character of a string literal, or an escape and what it hides. */
  datatype StrPart = Char(c: char) | Esc(c: char)

  predicate StrOk(parts: seq<StrPart>) {
    forall k | 0 <= k < |parts| && parts[k].Char? :: parts[k].c != '"' && parts[k].c != '\\'
  }

  function PartText(part: StrPart): string {
    match part
    case Char(c) => [c]
    case Esc(c) => ['\\', c]
  }

  function StrText(parts: seq<StrPart>): string {
    if parts == [] then "" else PartText(parts[0]) + StrText(parts[1..])
  }

  lemma PartPast(text: string, j: nat, part: StrPart, next: nat)
    requires StandsAt(text, j, PartText(part)) && next == j + |PartText(part)|
    requires part.Char? ==> part.c != '"' && part.c != '\\'
    ensures QuotedEnd(text, j) == QuotedEnd(text, next)
  {
    CharsAt(text, j, PartText(part));
    assert text[j + 0] == PartText(part)[0];
  }

  lemma QuoteEnds(text: string, j: nat)
    requires StandsAt(text, j, ['"'])
    ensures QuotedEnd(text, j) == j + 1
  {
    CharsAt(text, j, ['"']);
    assert text[j + 0] == '"';
  }

  lemma {:induction false} QuotedEnds(text: string, j: nat, parts: seq<StrPart>)
    requires StrOk(parts) && StandsAt(text, j, StrText(parts) + ['"'])
    ensures QuotedEnd(text, j) == j + |StrText(parts)| + 1
    decreases |parts|
  {
    if parts == [] {
      assert StrText(parts) + ['"'] == ['"'];
      QuoteEnds(text, j);
    } else {
      var first, rest := PartText(parts[0]), StrText(parts[1..]) + ['"'];
      var next := j + |first|;
      assert StrText(parts) + ['"'] == first + rest;
      StandsFirst(text, j, first, rest);
      PartPast(text, j, parts[0], next);
      QuotedEnds(text, next, parts[1..]);
    }
  }

  function Marks(hashes: nat): string {
    seq(hashes, _ => '#')
  }

  /** A raw string's body holds nothing that would close it, not even together
      with its own close. */
  predicate RawOk(hashes: nat, body: string) {
    forall p | 0 <= p < |body| :: !StandsAt(body + ['"'] + Marks(hashes), p, ['"'] + Marks(hashes))
  }

  lemma MarksAt(text: string, k: nat, hashes: nat)
    ensures HashesAt(text, k, hashes) <==> StandsAt(text, k, Marks(hashes))
  {
    if HashesAt(text, k, hashes) {
      StandsIntro(text, k, Marks(hashes));
    }
    if StandsAt(text, k, Marks(hashes)) {
      CharsAt(text, k, Marks(hashes));
      forall q | k <= q < k + hashes ensures text[q] == '#' {
        assert text[k + (q - k)] == Marks(hashes)[q - k];
      }
    }
  }

  lemma ClosesAt(text: string, k: nat, hashes: nat)
    requires k < |text|
    ensures text[k] == '"' && HashesAt(text, k + 1, hashes) <==> StandsAt(text, k, ['"'] + Marks(hashes))
  {
    MarksAt(text, k + 1, hashes);
    if StandsAt(text, k, ['"'] + Marks(hashes)) {
      StandsFirst(text, k, ['"'], Marks(hashes));
      CharsAt(text, k, ['"']);
      assert text[k + 0] == '"';
    }
    if text[k] == '"' && StandsAt(text, k + 1, Marks(hashes)) {
      assert text[k..k + 1 + hashes] == [text[k]] + text[k + 1..k + 1 + hashes];
    }
  }

  lemma ClosesInside(text: string, k: nat, whole: string, p: nat, close: string)
    requires StandsAt(text, k, whole) && p + |close| <= |whole|
    ensures StandsAt(text, k + p, close) <==> StandsAt(whole, p, close)
  {
    var here := text[k + p..k + p + |close|];
    CharsAt(text, k, whole);
    forall q | 0 <= q < |close| ensures here[q] == whole[p + q] {
      assert text[k + (p + q)] == whole[p + q];
    }
    assert here == whole[p..p + |close|];
  }

  lemma {:induction false} RawEnds(text: string, k: nat, hashes: nat, body: string, p: nat)
    requires RawOk(hashes, body) && StandsAt(text, k, body + ['"'] + Marks(hashes)) && p <= |body|
    ensures RawEnd(text, k + p, hashes) == k + |body| + 1 + hashes
    decreases |body| - p
  {
    var whole, close := body + ['"'] + Marks(hashes), ['"'] + Marks(hashes);
    ClosesAt(text, k + p, hashes);
    ClosesInside(text, k, whole, p, close);
    if p < |body| {
      RawEnds(text, k, hashes, body, p + 1);
    } else {
      assert whole[p..p + |close|] == close;
    }
  }

  lemma {:induction false} HashesEnd(text: string, k: nat, hashes: nat)
    requires StandsAt(text, k, Marks(hashes) + ['"'])
    ensures PastHashes(text, k) == k + hashes && Is(text, k + hashes, '"')
    decreases hashes
  {
    CharsAt(text, k, Marks(hashes) + ['"']);
    if hashes > 0 {
      assert text[k + 0] == '#';
      assert Marks(hashes) + ['"'] == ['#'] + (Marks(hashes - 1) + ['"']);
      StandsFirst(text, k, ['#'], Marks(hashes - 1) + ['"']);
      HashesEnd(text, k + 1, hashes - 1);
    } else {
      assert text[k + 0] == '"';
    }
  }

  // ---- words and numbers ------------------------------------------------------------

  predicate IsWordLetter(c: char) {
    IsLetter(c) || c in DIGITS
  }

  lemma WordLetterIs(c: char)
    ensures IsWordChar(c) <==> IsWordLetter(c)
  {
    LetterIs(c);
    DigitIs(c);
  }

  predicate WordOk(s: string) {
    s != "" && IsLetter(s[0]) && forall k | 0 <= k < |s| :: IsWordLetter(s[k])
  }

  lemma WordOkBy(s: string)
    requires s != "" && IsWordStart(s[0]) && forall k | 0 <= k < |s| :: IsWordChar(s[k])
    ensures WordOk(s)
  {
    LetterIs(s[0]);
    forall k | 0 <= k < |s| ensures IsWordLetter(s[k]) {
      WordLetterIs(s[k]);
    }
  }

  /** Digits, letters and `.`s before a digit. */
  predicate NumberOk(s: string) {
    && s != "" && s[0] in DIGITS
    && forall k | 0 < k < |s| :: IsWordLetter(s[k]) || (s[k] == '.' && k + 1 < |s| && s[k + 1] in DIGITS)
  }

  /** No word or number goes on at `k`. */
  predicate StopsAt(text: string, k: nat) {
    k >= |text| || (!IsWordLetter(text[k]) && text[k] != '.')
  }

  lemma {:induction false} WordEnds(text: string, i: nat, s: string, p: nat)
    requires (forall k | 0 <= k < |s| :: IsWordLetter(s[k])) && StandsAt(text, i, s) && p <= |s| && StopsAt(text, i + |s|)
    ensures WordEnd(text, i + p) == i + |s|
    decreases |s| - p
  {
    CharsAt(text, i, s);
    if i + p < |text| {
      WordLetterIs(text[i + p]);
    }
    if p < |s| {
      WordEnds(text, i, s, p + 1);
    }
  }

  lemma {:induction false} NumberEnds(text: string, i: nat, s: string, p: nat)
    requires NumberOk(s) && StandsAt(text, i, s) && 0 < p <= |s| && StopsAt(text, i + |s|)
    ensures NumberEnd(text, i + p) == i + |s|
    decreases |s| - p
  {
    CharsAt(text, i, s);
    if i + p < |text| {
      WordLetterIs(text[i + p]);
    }
    if p < |s| {
      if s[p] == '.' {
        assert text[i + (p + 1)] == s[p + 1];
        DigitIs(s[p + 1]);
      }
      NumberEnds(text, i, s, p + 1);
    }
  }

  // ---- comments ---------------------------------------------------------------------

  /** Text in a block comment, or a comment in it. */
  datatype NotePart = Said(s: string) | Inner(parts: NoteParts)

  datatype NoteParts = NoNote | Note(first: NotePart, rest: NoteParts)

  /** Text that opens and closes nothing, whatever follows it. */
  predicate SaidOk(s: string) {
    && s != "" && s[|s| - 1] != '*' && s[|s| - 1] != '/'
    && forall k | 0 <= k < |s| - 1 :: !(s[k] == '/' && s[k + 1] == '*') && !(s[k] == '*' && s[k + 1] == '/')
  }

  predicate PartOk(part: NotePart) {
    match part
    case Said(s) => SaidOk(s)
    case Inner(parts) => NoteOk(parts)
  }

  predicate NoteOk(parts: NoteParts) {
    match parts
    case NoNote => true
    case Note(first, rest) => PartOk(first) && NoteOk(rest)
  }

  function NotePartText(part: NotePart): string {
    match part
    case Said(s) => s
    case Inner(parts) => ['/', '*'] + NoteText(parts) + ['*', '/']
  }

  function NoteText(parts: NoteParts): string {
    match parts
    case NoNote => ""
    case Note(first, rest) => NotePartText(first) + NoteText(rest)
  }

  lemma {:induction false} SaidSkipped(text: string, j: nat, s: string, p: nat, depth: nat)
    requires SaidOk(s) && StandsAt(text, j, s) && p <= |s| && depth > 0
    ensures NestedCommentEnd(text, j + p, depth) == NestedCommentEnd(text, j + |s|, depth)
    decreases |s| - p
  {
    if p < |s| {
      CharsAt(text, j, s);
      assert text[j + p] == s[p] && (p + 1 < |s| ==> text[j + (p + 1)] == s[p + 1]);
      SaidSkipped(text, j, s, p + 1, depth);
    }
  }

  lemma PairAt(text: string, j: nat, a: char, b: char)
    requires StandsAt(text, j, [a, b])
    ensures Pair(text, j, a, b)
  {
    CharsAt(text, j, [a, b]);
    assert text[j + 0] == a && text[j + 1] == b;
  }

  lemma {:induction false} PartSkipped(text: string, j: nat, part: NotePart, depth: nat, end: nat)
    requires PartOk(part) && StandsAt(text, j, NotePartText(part)) && depth > 0 && end == j + |NotePartText(part)|
    ensures NestedCommentEnd(text, j, depth) == NestedCommentEnd(text, end, depth)
    decreases part
  {
    match part
    case Said(s) => SaidSkipped(text, j, s, 0, depth);
    case Inner(parts) =>
      var close := j + 2 + |NoteText(parts)|;
      InnerAt(text, j, parts, close);
      Deeper(text, j, depth);
      NoteSkipped(text, j + 2, parts, depth + 1, close);
      Shallower(text, close, depth + 1);
  }

  lemma InnerAt(text: string, j: nat, parts: NoteParts, close: nat)
    requires StandsAt(text, j, ['/', '*'] + NoteText(parts) + ['*', '/']) && close == j + 2 + |NoteText(parts)|
    ensures Pair(text, j, '/', '*') && StandsAt(text, j + 2, NoteText(parts)) && Pair(text, close, '*', '/')
  {
    var inner := NoteText(parts);
    StandsFirst(text, j, ['/', '*'] + inner, ['*', '/']);
    StandsFirst(text, j, ['/', '*'], inner);
    PairAt(text, j, '/', '*');
    PairAt(text, close, '*', '/');
  }

  lemma Deeper(text: string, j: nat, depth: nat)
    requires Pair(text, j, '/', '*') && depth > 0
    ensures NestedCommentEnd(text, j, depth) == NestedCommentEnd(text, j + 2, depth + 1)
  {
  }

  lemma Shallower(text: string, j: nat, depth: nat)
    requires Pair(text, j, '*', '/') && depth > 0
    ensures NestedCommentEnd(text, j, depth) == NestedCommentEnd(text, j + 2, depth - 1)
  {
  }

  lemma {:induction false} NoteSkipped(text: string, j: nat, parts: NoteParts, depth: nat, end: nat)
    requires NoteOk(parts) && StandsAt(text, j, NoteText(parts)) && depth > 0 && end == j + |NoteText(parts)|
    ensures NestedCommentEnd(text, j, depth) == NestedCommentEnd(text, end, depth)
    decreases parts
  {
    if parts.Note? {
      var next := j + |NotePartText(parts.first)|;
      StandsFirst(text, j, NotePartText(parts.first), NoteText(parts.rest));
      PartSkipped(text, j, parts.first, depth, next);
      NoteSkipped(text, next, parts.rest, depth, end);
    }
  }

  /** A block comment ends at its own close, whatever comments it holds. */
  lemma NoteEnds(text: string, i: nat, parts: NoteParts)
    requires NoteOk(parts) && StandsAt(text, i, ['/', '*'] + NoteText(parts) + ['*', '/'])
    ensures Pair(text, i, '/', '*') && NestedCommentEnd(text, i + 2, 1) == i + 4 + |NoteText(parts)|
  {
    var close := i + 2 + |NoteText(parts)|;
    InnerAt(text, i, parts, close);
    NoteSkipped(text, i + 2, parts, 1, close);
    Shallower(text, close, 1);
  }

  lemma {:induction false} LineEnds(text: string, i: nat, s: string, p: nat)
    requires StandsAt(text, i, s + ['\n']) && '\n' !in s && p <= |s|
    ensures LineEnd(text, i + p) == i + |s|
    decreases |s| - p
  {
    CharsAt(text, i, s + ['\n']);
    assert text[i + p] == (s + ['\n'])[p];
    if p < |s| {
      assert s[p] in s;
      LineEnds(text, i, s, p + 1);
    }
  }
}
