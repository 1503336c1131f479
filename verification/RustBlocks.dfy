/**
 Character-level block matching (scripts/rust_source.py, `skip_token` and
 `block_end`), and its agreement with the line-by-line brace scan of
 scripts/ci-mutants-summary.py.
 */
module RustBlocks {
  import opened Wrappers
  import opened RustText
  import opened RustLiterals
  import opened BraceDeltas
  import opened ScannersAgree

  /** The end of a block comment whose body starts at `k`; comments do not nest
      here. */
  function FlatEnd(text: string, k: nat): (end: nat)
    ensures end <= |text| && (k <= |text| ==> k <= end)
    decreases if k < |text| then |text| - k else 0
  {
    if k >= |text| then |text|
    else if Pair(text, k, '*', '/') then k + 2
    else FlatEnd(text, k + 1)
  }

  /** Past the close of a string whose body starts at `j`; past the end of the
      text when it never closes. */
  function StringPast(text: string, j: nat): (end: nat)
    ensures end > j
    decreases if j < |text| then |text| - j else 0
  {
    if j >= |text| || text[j] == '"' then j + 1
    else if text[j] == '\\' then StringPast(text, j + 2)
    else StringPast(text, j + 1)
  }

  /** The first quote at or after `k`, at most `most` characters on. */
  function QuoteWithin(text: string, k: nat, most: nat): (at: Option<nat>)
    ensures at.Some? ==> k <= at.value < |text|
    decreases most
  {
    if Is(text, k, '\'') then Some(k)
    else if k < |text| && most > 0 then QuoteWithin(text, k + 1, most - 1)
    else None
  }

  /** Past a char literal at `i`, as this file reads one: an escape and up to
      eight characters more, or one character but a backslash or a quote. */
  function CharLitEnd(text: string, i: nat): (end: Option<nat>)
    ensures end.Some? ==> i < end.value <= |text| && text[i] == '\''
  {
    if !Is(text, i, '\'') then None
    else if Is(text, i + 1, '\\') then
      if i + 2 < |text| && text[i + 2] != '\n' then
        var at := QuoteWithin(text, i + 3, 8);
        if at.Some? then Some(at.value + 1) else None
      else None
    else if i + 1 < |text| && text[i + 1] != '\'' && Is(text, i + 2, '\'') then Some(i + 3)
    else None
  }

  /** Where a raw string's `r` is, if one starts at `i`: there or past a `b`. */
  function RawMark(text: string, i: nat): nat {
    if Is(text, i, 'b') then i + 1 else i
  }

  function SkipToken(text: string, i: nat): (end: nat)
    requires i < |text|
    ensures end >= i
  {
    if Pair(text, i, '/', '/') then LineEnd(text, i)
    else if Pair(text, i, '/', '*') then FlatEnd(text, i + 2)
    else if RawOpens(text, RawMark(text, i)) then
      var quote := PastHashes(text, RawMark(text, i) + 1);
      RawEnd(text, quote + 1, quote - (RawMark(text, i) + 1))
    else if text[i] == '"' then StringPast(text, i + 1)
    else match CharLitEnd(text, i) case Some(end) => end case None => i
  }

  method PastString(text: string, from: nat) returns (end: nat)
    ensures end == StringPast(text, from)
  {
    var j := from;
    while j < |text| && text[j] != '"'
      invariant StringPast(text, j) == StringPast(text, from)
      decreases |text| - j
    {
      j := j + if text[j] == '\\' then 2 else 1;
    }
    return j + 1;
  }

  function Delta(c: char): int {
    if c == '{' then 1 else if c == '}' then -1 else 0
  }

  /** Where the walk stops that has `depth` blocks open at `i`. */
  function BlockEndFrom(text: string, i: nat, depth: nat): (end: nat)
    ensures end >= i
    decreases if i < |text| then |text| - i else 0
  {
    if i >= |text| || depth == 0 then i
    else
      var j := SkipToken(text, i);
      if j != i then BlockEndFrom(text, j, depth) else BlockEndFrom(text, i + 1, depth + Delta(text[i]))
  }

  method Skip(text: string, i: nat) returns (end: nat)
    requires i < |text|
    ensures end == SkipToken(text, i)
  {
    if Pair(text, i, '/', '/') {
      return LineEnd(text, i);
    }
    if Pair(text, i, '/', '*') {
      return FlatEnd(text, i + 2);
    }
    if RawOpens(text, RawMark(text, i)) {
      var quote := PastHashes(text, RawMark(text, i) + 1);
      return RawEnd(text, quote + 1, quote - (RawMark(text, i) + 1));
    }
    if text[i] == '"' {
      end := PastString(text, i + 1);
      return;
    }
    var literal := CharLitEnd(text, i);
    return if literal.Some? then literal.value else i;
  }

  /** `block_end` */
  method BlockEnd(text: string, from: nat) returns (end: nat)
    ensures end == BlockEndFrom(text, from, 1)
  {
    var i, depth := from, 1;
    while i < |text| && depth != 0
      invariant depth >= 0 && BlockEndFrom(text, i, depth) == BlockEndFrom(text, from, 1)
      decreases |text| - i
    {
      var j := Skip(text, i);
      if j != i {
        i := j;
        continue;
      }
      depth := depth + Delta(text[i]);
      i := i + 1;
    }
    return i;
  }

  // ---- the two scans read the same braces ------------------------------------------------

  /** The two files read every quote alike: as a char literal of the same
      extent, or as none. */
  ghost predicate SameQuotes(text: string) {
    forall i | 0 <= i < |text| && text[i] == '\'' :: CharLitEnd(text, i) == CharLiteralEnd(text, i)
  }

  /** What this file takes for a char literal: one character, or an escape and
      up to eight characters more, none of them a quote. */
  datatype LooseBody = LooseOne(c: char) | LooseEscape(c: char, more: string)

  predicate LooseOk(body: LooseBody) {
    match body
    case LooseOne(c) => c != '\\' && c != '\''
    case LooseEscape(c, more) => c != '\n' && |more| <= 8 && '\'' !in more
  }

  function LooseText(body: LooseBody): string {
    match body
    case LooseOne(c) => ['\'', c, '\'']
    case LooseEscape(c, more) => ['\'', '\\', c] + (more + ['\''])
  }

  lemma {:induction false} QuoteAfter(text: string, k: nat, more: string, p: nat, most: nat)
    requires '\'' !in more && StandsAt(text, k, more + ['\'']) && p <= |more| && |more| - p <= most
    ensures QuoteWithin(text, k + p, most) == Some(k + |more|)
    decreases |more| - p
  {
    CharsAt(text, k, more + ['\'']);
    assert text[k + p] == (more + ['\''])[p];
    if p < |more| {
      assert more[p] in more;
      QuoteAfter(text, k, more, p + 1, most - 1);
    }
  }

  lemma {:induction false} QuoteFound(text: string, k: nat, most: nat)
    requires QuoteWithin(text, k, most).Some?
    ensures var at := QuoteWithin(text, k, most).value;
            at - k <= most && text[at] == '\'' && '\'' !in text[k..at]
    decreases most
  {
    if !Is(text, k, '\'') {
      QuoteFound(text, k + 1, most - 1);
      var at := QuoteWithin(text, k, most).value;
      assert text[k..at] == [text[k]] + text[k + 1..at];
    }
  }

  lemma LooseEnds(text: string, i: nat, end: nat, body: LooseBody)
    requires LooseAt(text, i, end, body)
    ensures CharLitEnd(text, i) == Some(end)
  {
    CharsAt(text, i, LooseText(body));
    assert text[i + 0] == '\'' && text[i + 1] == LooseText(body)[1] && text[i + 2] == LooseText(body)[2];
    if body.LooseEscape? {
      StandsFirst(text, i, ['\'', '\\', body.c], body.more + ['\'']);
      QuoteAfter(text, i + 3, body.more, 0, 8);
    }
  }

  lemma LooseFound(text: string, i: nat) returns (body: LooseBody)
    requires CharLitEnd(text, i).Some?
    ensures LooseOk(body) && StandsAt(text, i, LooseText(body)) && CharLitEnd(text, i).value == i + |LooseText(body)|
  {
    if text[i + 1] == '\\' {
      QuoteFound(text, i + 3, 8);
      var at := QuoteWithin(text, i + 3, 8).value;
      body := LooseEscape(text[i + 2], text[i + 3..at]);
      assert text[i..at + 1] == ['\'', '\\', text[i + 2]] + (text[i + 3..at] + ['\'']);
    } else {
      body := LooseOne(text[i + 1]);
      ThreeStand(text, i);
    }
  }

  lemma ThreeStand(text: string, i: nat)
    requires i + 3 <= |text|
    ensures StandsAt(text, i, [text[i], text[i + 1], text[i + 2]])
  {
    assert text[i..i + 3] == [text[i], text[i + 1], text[i + 2]];
  }

  predicate LooseAt(text: string, i: nat, end: nat, body: LooseBody) {
    LooseOk(body) && StandsAt(text, i, LooseText(body)) && end == i + |LooseText(body)|
  }

  /** A char literal is read exactly where one of those shapes stands. */
  lemma LooseIff(text: string, i: nat, end: nat)
    ensures CharLitEnd(text, i) == Some(end) <==>
            exists body :: LooseAt(text, i, end, body)
  {
    if CharLitEnd(text, i) == Some(end) {
      LooseSome(text, i, end);
    } else if body :| LooseAt(text, i, end, body) {
      LooseEnds(text, i, end, body);
    }
  }

  lemma LooseSome(text: string, i: nat, end: nat)
    requires CharLitEnd(text, i) == Some(end)
    ensures exists body :: LooseAt(text, i, end, body)
  {
    var body := LooseFound(text, i);
    assert LooseAt(text, i, end, body);
  }

  /** Rust's own char literals are of those shapes. */
  function Loosened(body: CharBody): LooseBody {
    match body
    case One(c) => LooseOne(c)
    case Escaped(c) => LooseEscape(c, "")
    case Hex(high, low) => LooseEscape('x', [high, low])
    case Unicode(digits) => LooseEscape('u', ['{'] + digits + ['}'])
  }

  lemma LoosenedOk(body: CharBody)
    requires CharOk(body)
    ensures LooseOk(Loosened(body)) && LooseText(Loosened(body)) == CharText(body)
  {
    if body.Unicode? {
      var more := ['{'] + body.digits + ['}'];
      assert '\'' !in body.digits;
      assert LooseText(Loosened(body)) == ['\'', '\\', 'u'] + (more + ['\'']) == CharText(body);
    }
  }

  /** A char literal as Rust spells one stands at `i`. */
  ghost predicate CharStands(text: string, i: nat) {
    exists end, body :: SpelledAt(text, i, end, body)
  }

  /** So the two files read every quote alike exactly when each starts a literal
      as Rust spells one, or nothing this file takes for one. */
  lemma SameQuotesIff(text: string)
    ensures SameQuotes(text) <==>
            forall i | 0 <= i < |text| && text[i] == '\'' :: CharStands(text, i) || CharLitEnd(text, i).None?
  {
    forall i | 0 <= i < |text| && text[i] == '\''
      ensures CharLitEnd(text, i) == CharLiteralEnd(text, i) <==> CharStands(text, i) || CharLitEnd(text, i).None?
    {
      SameQuote(text, i);
    }
  }

  lemma StandsIff(text: string, i: nat)
    ensures CharStands(text, i) <==> CharLiteralEnd(text, i).Some?
  {
    if CharLiteralEnd(text, i).Some? {
      CharLiteralIff(text, i, CharLiteralEnd(text, i).value);
    } else if end, body :| SpelledAt(text, i, end, body) {
      CharLiteralIff(text, i, end);
    }
  }

  lemma BothRead(text: string, i: nat)
    requires CharLiteralEnd(text, i).Some?
    ensures CharLitEnd(text, i) == CharLiteralEnd(text, i)
  {
    var body := CharFound(text, i);
    LoosenedOk(body);
    LooseEnds(text, i, i + |CharText(body)|, Loosened(body));
  }

  lemma SameQuote(text: string, i: nat)
    ensures CharLitEnd(text, i) == CharLiteralEnd(text, i) <==> CharStands(text, i) || CharLitEnd(text, i).None?
  {
    StandsIff(text, i);
    if CharLiteralEnd(text, i).Some? {
      BothRead(text, i);
    }
  }

  lemma {:induction false} FlatSkipped(text: string, k: nat)
    ensures Braces(text, k, BlockComment) == Braces(text, FlatEnd(text, k), Code)
    decreases if k < |text| then |text| - k else 0
  {
    if k < |text| && !Pair(text, k, '*', '/') {
      FlatSkipped(text, k + 1);
    }
  }

  lemma {:induction false} StringSkipped(text: string, j: nat)
    ensures Braces(text, j, DString) == Braces(text, StringPast(text, j), Code)
    decreases if j < |text| then |text| - j else 0
  {
    if j < |text| {
      if text[j] == '\\' {
        StringSkipped(text, j + 2);
      } else if text[j] != '"' {
        StringSkipped(text, j + 1);
      }
    }
  }

  lemma LineCommentSkipped(text: string, i: nat)
    requires i < |text| && Pair(text, i, '/', '/')
    ensures Braces(text, i, Code) == Braces(text, LineEnd(text, i), Code)
  {
    LineNoteSkipped(text, i + 2);
    assert LineEnd(text, i) == LineEnd(text, i + 1) == LineEnd(text, i + 2);
  }

  lemma RawTokenSkipped(text: string, k: nat)
    requires RawOpens(text, k)
    ensures var quote := PastHashes(text, k + 1);
            Braces(text, k, Code) == Braces(text, RawEnd(text, quote + 1, quote - (k + 1)), Code)
  {
    var quote := PastHashes(text, k + 1);
    RawSkipped(text, quote + 1, quote - (k + 1));
  }

  lemma MarkedRawSkipped(text: string, i: nat)
    requires i < |text| && RawOpens(text, RawMark(text, i))
    ensures Braces(text, i, Code) == Braces(text, RawMark(text, i), Code)
  {
    if RawMark(text, i) == i + 1 {
      DullStep(text, i);
    }
  }

  /** A `b` is part of the raw string it marks. */
  lemma ByteRawIsOne(text: string, i: nat)
    requires Is(text, i, 'b') && RawOpens(text, i + 1)
    ensures SkipToken(text, i) == SkipToken(text, i + 1) > i + 1
  {
  }

  lemma RawCase(text: string, i: nat)
    requires i < |text| && !Pair(text, i, '/', '/') && !Pair(text, i, '/', '*') && RawOpens(text, RawMark(text, i))
    ensures Braces(text, i, Code) == Braces(text, SkipToken(text, i), Code)
  {
    MarkedRawSkipped(text, i);
    RawTokenSkipped(text, RawMark(text, i));
  }

  /** No brace is read as code in what a token skips. */
  lemma TokenSkipped(text: string, i: nat)
    requires i < |text| && SameQuotes(text) && SkipToken(text, i) != i
    ensures Braces(text, i, Code) == Braces(text, SkipToken(text, i), Code)
  {
    if Pair(text, i, '/', '/') {
      LineCommentSkipped(text, i);
    } else if Pair(text, i, '/', '*') {
      FlatSkipped(text, i + 2);
    } else if RawOpens(text, RawMark(text, i)) {
      RawCase(text, i);
    } else if text[i] == '"' {
      StringSkipped(text, i + 1);
    } else {
      CharLiteralSkipped(text, i);
    }
  }

  lemma OneStep(text: string, i: nat)
    requires i < |text| && SameQuotes(text) && SkipToken(text, i) == i
    ensures Braces(text, i, Code) == (if IsBrace(text[i]) then [i] else []) + Braces(text, i + 1, Code)
  {
  }

  function DeltaAt(text: string, p: nat): int {
    if p < |text| then Delta(text[p]) else 0
  }

  /** The first of the braces at which `depth` open blocks are closed. */
  function Match(text: string, bs: seq<nat>, depth: nat): Option<nat>
    decreases |bs|
  {
    if bs == [] || depth == 0 then None
    else
      var next := depth + DeltaAt(text, bs[0]);
      if next == 0 then Some(bs[0]) else Match(text, bs[1..], next)
  }

  lemma MatchCons(text: string, b: nat, rest: seq<nat>, depth: nat)
    requires depth > 0
    ensures Match(text, [b] + rest, depth) ==
            if depth + DeltaAt(text, b) == 0 then Some(b) else Match(text, rest, depth + DeltaAt(text, b))
  {
    assert ([b] + rest)[1..] == rest;
  }

  ghost predicate EndsAt(text: string, end: nat, match_: Option<nat>) {
    match match_
    case Some(p) => end == p + 1
    case None => end >= |text|
  }

  lemma BlockStep(text: string, i: nat, depth: nat, bs: seq<nat>, rest: seq<nat>)
    requires i < |text| && depth > 0 && SkipToken(text, i) == i
    requires bs == (if IsBrace(text[i]) then [i] else []) + rest
    requires depth + Delta(text[i]) > 0 ==>
               EndsAt(text, BlockEndFrom(text, i + 1, depth + Delta(text[i])), Match(text, rest, depth + Delta(text[i])))
    ensures EndsAt(text, BlockEndFrom(text, i, depth), Match(text, bs, depth))
  {
    if IsBrace(text[i]) {
      MatchCons(text, i, rest, depth);
    } else {
      assert bs == rest;
    }
  }

  /** On a text whose quotes both files read alike, a block ends just past the
      brace that closes it among the braces the line scan reads as code; and
      at or past the end of the text when none does. */
  lemma {:induction false} BlockEndIsMatch(text: string, i: nat, depth: nat)
    requires SameQuotes(text) && depth > 0
    ensures EndsAt(text, BlockEndFrom(text, i, depth), Match(text, Braces(text, i, Code), depth))
    decreases if i < |text| then |text| - i else 0
  {
    if i < |text| {
      var j := SkipToken(text, i);
      if j != i {
        TokenSkipped(text, i);
        BlockEndIsMatch(text, j, depth);
      } else {
        OneStep(text, i);
        if depth + Delta(text[i]) > 0 {
          BlockEndIsMatch(text, i + 1, depth + Delta(text[i]));
        }
        BlockStep(text, i, depth, Braces(text, i, Code), Braces(text, i + 1, Code));
      }
    }
  }
}
