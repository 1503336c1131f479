/**
 The blanking scans behind the JSON-writer guard (src/cli_json.rs): comments
 and strings become spaces, then `#[cfg(test)]` items do, and every other
 character stays where it is.

 Text is its characters; a slice the source takes by bytes is taken here by
 characters.
 */
module CodeOnly {

  function Blank(c: char): char {
    if c == '\n' then '\n' else ' '
  }

  predicate At(s: string, k: nat, c: char) {
    k < |s| && s[k] == c
  }

  // ---- comments and strings ------------------------------------------------------------

  function LineEnd(s: string, i: nat): (end: nat)
    requires i <= |s|
    ensures i <= end <= |s|
    decreases |s| - i
  {
    if i == |s| || s[i] == '\n' then i else LineEnd(s, i + 1)
  }

  function CommentEnd(s: string, k: nat): (end: nat)
    ensures end <= |s| && (k <= |s| ==> k <= end)
    decreases |s| - k
  {
    if k >= |s| then |s|
    else if s[k] == '*' && At(s, k + 1, '/') then k + 2
    else CommentEnd(s, k + 1)
  }

  /** How many `#` stand from `k` on. */
  function Hashes(s: string, k: nat): (n: nat)
    requires k <= |s|
    ensures k + n <= |s|
    decreases |s| - k
  {
    if At(s, k, '#') then 1 + Hashes(s, k + 1) else 0
  }

  predicate HashRun(s: string, k: nat, n: nat) {
    k + n <= |s| && forall j | k <= j < k + n :: s[j] == '#'
  }

  /** The end of a string body: an escape hides what follows it, unless the
      string is raw, and a raw string closes with its `#`s. */
  function StringEnd(s: string, k: nat, rawMarks: nat): (end: nat)
    ensures end <= |s| && (k <= |s| ==> k <= end)
    decreases |s| - k
  {
    var hashes := if rawMarks == 0 then 0 else rawMarks - 1;
    if k >= |s| then |s|
    else if rawMarks == 0 && s[k] == '\\' then StringEnd(s, k + 2, rawMarks)
    else if s[k] == '"' && HashRun(s, k + 1, hashes) then k + 1 + hashes
    else StringEnd(s, k + 1, rawMarks)
  }

  method FindStringEnd(s: string, from: nat, rawMarks: nat) returns (end: nat)
    ensures end == StringEnd(s, from, rawMarks)
  {
    var hashes := if rawMarks == 0 then 0 else rawMarks - 1;
    var k := from;
    while k < |s|
      invariant StringEnd(s, from, rawMarks) == StringEnd(s, k, rawMarks)
      decreases |s| - k
    {
      if rawMarks == 0 && s[k] == '\\' {
        k := k + 2;
        continue;
      }
      if s[k] == '"' {
        var closes := HasHashes(s, k + 1, hashes);
        if closes {
          return k + 1 + hashes;
        }
      }
      k := k + 1;
    }
    return |s|;
  }

  method HasHashes(s: string, k: nat, n: nat) returns (all: bool)
    requires k <= |s|
    ensures all == HashRun(s, k, n)
  {
    if |s| - k < n {
      return false;
    }
    for j := k to k + n
      invariant forall i | k <= i < j :: s[i] == '#'
    {
      if s[j] != '#' {
        return false;
      }
    }
    return true;
  }

  /** Where the comment or string starting at `i` ends; `i` when none does. */
  function LiteralEnd(s: string, i: nat): (end: nat)
    requires i < |s|
    ensures i <= end <= |s|
  {
    if s[i] == '/' && At(s, i + 1, '/') then LineEnd(s, i)
    else if s[i] == '/' && At(s, i + 1, '*') then CommentEnd(s, i + 2)
    else if s[i] == '"' then StringEnd(s, i + 1, 0)
    else if s[i] == 'r' && (At(s, i + 1, '"') || At(s, i + 1, '#')) then
      var hashes := Hashes(s, i + 1);
      if At(s, i + 1 + hashes, '"') then StringEnd(s, i + 2 + hashes, hashes + 1) else i
    else i
  }

  /** A scan from `i` meets `p` inside a comment or string. */
  predicate InLiteral(s: string, i: nat, p: nat)
    requires i <= |s|
    decreases |s| - i
  {
    if i > p || i == |s| then false
    else
      var end := LiteralEnd(s, i);
      if end == i then InLiteral(s, i + 1, p)
      else p < end || InLiteral(s, end, p)
  }

  /** The text with comments and strings blanked. */
  function CodeOf(s: string): (out: string) {
    seq(|s|, p requires 0 <= p < |s| => if InLiteral(s, 0, p) then Blank(s[p]) else s[p])
  }

  method BlankOut(s: string) returns (out: string)
    ensures out == seq(|s|, p requires 0 <= p < |s| => Blank(s[p]))
  {
    out := [];
    for k := 0 to |s|
      invariant out == seq(k, p requires 0 <= p < k => Blank(s[p]))
    {
      out := out + [if s[k] == '\n' then '\n' else ' '];
    }
  }

  /** `out` is right for the first `i` characters. */
  ghost predicate CodeSoFar(s: string, out: string, i: nat)
    requires i <= |s|
  {
    && out == CodeOf(s)[..i]
    && forall p | i <= p < |s| :: InLiteral(s, 0, p) == InLiteral(s, i, p)
  }

  lemma OneKept(s: string, out: string, i: nat)
    requires i < |s| && CodeSoFar(s, out, i) && LiteralEnd(s, i) == i
    ensures CodeSoFar(s, out + [s[i]], i + 1)
  {
    assert !InLiteral(s, i, i);
    assert CodeOf(s)[..i + 1] == CodeOf(s)[..i] + [CodeOf(s)[i]];
  }

  lemma LiteralBlanked(s: string, out: string, i: nat, end: nat)
    requires i < |s| && CodeSoFar(s, out, i) && end == LiteralEnd(s, i) > i
    ensures CodeSoFar(s, out + seq(end - i, p requires 0 <= p < end - i => Blank(s[i..end][p])), end)
  {
    var more := seq(end - i, p requires 0 <= p < end - i => Blank(s[i..end][p]));
    forall p | i <= p < end ensures CodeOf(s)[p] == more[p - i] {
      assert InLiteral(s, i, p);
    }
    assert CodeOf(s)[..end] == CodeOf(s)[..i] + more;
  }

  /** `code_only` */
  method BlankLiterals(s: string) returns (out: string)
    ensures out == CodeOf(s)
  {
    out := [];
    var i := 0;
    while i < |s|
      invariant i <= |s| && CodeSoFar(s, out, i)
      decreases |s| - i
    {
      var end := LiteralEnd(s, i);
      if end == i {
        OneKept(s, out, i);
        out := out + [s[i]];
        i := i + 1;
      } else {
        var blank := BlankOut(s[i..end]);
        LiteralBlanked(s, out, i, end);
        out := out + blank;
        i := end;
      }
    }
  }

  // ---- what blanking keeps ------------------------------------------------------------------

  /** A character that starts a comment or string is inside one. */
  lemma {:induction false} StartIsInside(s: string, i: nat, p: nat)
    requires i <= p < |s| && LiteralEnd(s, p) > p
    ensures InLiteral(s, i, p)
    decreases |s| - i
  {
    if i < p {
      var end := LiteralEnd(s, i);
      if end == i {
        StartIsInside(s, i + 1, p);
      } else if end <= p {
        StartIsInside(s, end, p);
      }
    }
  }

  lemma StartsLiteral(s: string, p: nat)
    requires p < |s|
    ensures s[p] == '"' ==> LiteralEnd(s, p) > p
    ensures s[p] == '/' && (At(s, p + 1, '/') || At(s, p + 1, '*')) ==> LiteralEnd(s, p) > p
  {
    if s[p] == '/' && At(s, p + 1, '/') {
      assert LineEnd(s, p) == LineEnd(s, p + 1);
    }
  }

  lemma NoQuoteLeft(s: string, p: nat)
    requires p < |s|
    ensures CodeOf(s)[p] != '"'
  {
    if s[p] == '"' {
      StartsLiteral(s, p);
      StartIsInside(s, 0, p);
    }
  }

  /** No comment or string starts anywhere in blanked text. */
  lemma {:induction false} NothingLeftToBlank(s: string, p: nat)
    requires p < |s|
    ensures LiteralEnd(CodeOf(s), p) == p
  {
    var out := CodeOf(s);
    NoQuoteLeft(s, p);
    if out[p] == '/' {
      StartsLiteral(s, p);
      if LiteralEnd(s, p) > p {
        StartIsInside(s, 0, p);
      }
      assert !At(out, p + 1, '/') && !At(out, p + 1, '*');
    } else if out[p] == 'r' {
      var k := p + 1 + Hashes(out, p + 1);
      if k < |s| {
        NoQuoteLeft(s, k);
      }
    }
  }

  lemma {:induction false} NoLiteralThere(s: string, i: nat, p: nat)
    requires i <= |s| && forall k | 0 <= k < |s| :: LiteralEnd(s, k) == k
    ensures !InLiteral(s, i, p)
    decreases |s| - i
  {
    if i < |s| && i <= p {
      NoLiteralThere(s, i + 1, p);
    }
  }

  /** Blanking keeps the length, every newline, and every character outside
      comments and strings; and blanking again changes nothing. */
  lemma {:induction false} BlankingIsExact(s: string)
    ensures |CodeOf(s)| == |s|
    ensures forall p | 0 <= p < |s| :: s[p] == '\n' <==> CodeOf(s)[p] == '\n'
    ensures forall p | 0 <= p < |s| && !InLiteral(s, 0, p) :: CodeOf(s)[p] == s[p]
    ensures forall p | 0 <= p < |s| && InLiteral(s, 0, p) :: CodeOf(s)[p] == Blank(s[p])
    ensures CodeOf(CodeOf(s)) == CodeOf(s)
  {
    var out := CodeOf(s);
    forall k | 0 <= k < |out| ensures LiteralEnd(out, k) == k {
      NothingLeftToBlank(s, k);
    }
    forall p | 0 <= p < |out| ensures CodeOf(out)[p] == out[p] {
      NoLiteralThere(out, 0, p);
    }
  }

  // ---- strings end where they were printed to ------------------------------------------------

  /** A string's body with its quotes and backslashes escaped. */
  function Escaped(body: string): string {
    if body == [] then []
    else (if body[0] == '"' || body[0] == '\\' then ['\\', body[0]] else [body[0]]) + Escaped(body[1..])
  }

  lemma {:induction false} EscapedBodyEnds(s: string, k: nat, body: string, rest: string)
    requires k <= |s| && s[k..] == Escaped(body) + ['"'] + rest
    ensures StringEnd(s, k, 0) == k + |Escaped(body)| + 1
    decreases |body|
  {
    var tail := s[k..];
    if body == [] {
      assert s[k] == tail[0] == '"';
    } else {
      var step := if body[0] == '"' || body[0] == '\\' then ['\\', body[0]] else [body[0]];
      assert tail == step + (Escaped(body[1..]) + ['"'] + rest);
      assert s[k] == tail[0] == step[0];
      assert s[k + |step|..] == tail[|step|..] == Escaped(body[1..]) + ['"'] + rest;
      EscapedBodyEnds(s, k + |step|, body[1..], rest);
    }
  }

  /** A printed string literal is blanked from quote to quote, whatever its
      body, and not beyond. */
  lemma {:induction false} PrintedStringEnds(s: string, i: nat, body: string, rest: string)
    requires i < |s| && s[i..] == ['"'] + (Escaped(body) + ['"'] + rest)
    ensures LiteralEnd(s, i) == i + 1 + |Escaped(body)| + 1
  {
    var tail := s[i..];
    assert s[i] == tail[0];
    assert s[i + 1..] == tail[1..];
    EscapedBodyEnds(s, i + 1, body, rest);
  }

  /** A raw string ends at the first quote its `#`s follow. */
  lemma {:induction false} RawStringEnds(s: string, k: nat, hashes: nat, j: nat)
    requires k <= j < |s| && s[j] == '"' && HashRun(s, j + 1, hashes)
    requires forall i | k <= i < j :: !(s[i] == '"' && HashRun(s, i + 1, hashes))
    ensures StringEnd(s, k, hashes + 1) == j + 1 + hashes
    decreases j - k
  {
    if k < j {
      RawStringEnds(s, k + 1, hashes, j);
    }
  }
}
