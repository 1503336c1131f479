/**
 The depth-aware splitter of the contract additive guard
 (scripts/contract-additive-guard.py, `split_top`): it splits at a separator
 outside every bracket and quote, counting all kinds of bracket together.
 */
module SplitTop {
  import opened Wrappers

  predicate IsQuote(c: char) {
    c == '"' || c == '\''
  }

  predicate IsOpen(c: char) {
    c == '{' || c == '(' || c == '[' || c == '<'
  }

  predicate IsClose(c: char) {
    c == '}' || c == ')' || c == ']' || c == '>'
  }

  predicate IsPlain(c: char) {
    !IsQuote(c) && !IsOpen(c) && !IsClose(c)
  }

  /** Where the scan is: how deep, and in which quote. Depth goes below zero on
      a closer with no opener. */
  datatype State = State(depth: int, quote: Option<char>)

  const TOP := State(0, None)

  predicate SplitsAt(st: State, c: char, sep: char) {
    st == TOP && IsPlain(c) && c == sep
  }

  function Next(st: State, c: char): State {
    if st.quote.Some? then State(st.depth, if c == st.quote.value then None else st.quote)
    else if IsQuote(c) then State(st.depth, Some(c))
    else if IsOpen(c) then State(st.depth + 1, None)
    else if IsClose(c) then State(st.depth - 1, None)
    else st
  }

  /** A piece and where its first character is. */
  datatype Piece = Piece(text: string, at: int)

  /** The pieces from `start` on, the scan being at `i`. */
  function SplitFrom(text: string, sep: char, offset: int, st: State, start: nat, i: nat): (pieces: seq<Piece>)
    requires start <= i <= |text|
    decreases |text| - i
  {
    if i == |text| then [Piece(text[start..], offset + start)]
    else if SplitsAt(st, text[i], sep) then
      [Piece(text[start..i], offset + start)] + SplitFrom(text, sep, offset, st, i + 1, i + 1)
    else SplitFrom(text, sep, offset, Next(st, text[i]), start, i + 1)
  }

  method Split(text: string, sep: char, offset: int) returns (parts: seq<Piece>)
    ensures parts == SplitFrom(text, sep, offset, TOP, 0, 0)
  {
    parts := [];
    var depth := 0;
    var quote: Option<char> := None;
    var start := 0;
    for i := 0 to |text|
      invariant start <= i
      invariant parts + SplitFrom(text, sep, offset, State(depth, quote), start, i) == SplitFrom(text, sep, offset, TOP, 0, 0)
    {
      var c := text[i];
      if quote.Some? {
        quote := if c == quote.value then None else quote;
      } else if IsQuote(c) {
        quote := Some(c);
      } else if IsOpen(c) {
        depth := depth + 1;
      } else if IsClose(c) {
        depth := depth - 1;
      } else if c == sep && depth == 0 {
        parts := parts + [Piece(text[start..i], offset + start)];
        start := i + 1;
      }
    }
    parts := parts + [Piece(text[start..], offset + start)];
  }

  // ---- the pieces rejoin to the text ---------------------------------------------------------

  function Joined(pieces: seq<Piece>, sep: char): string
    requires pieces != []
    decreases |pieces|
  {
    if |pieces| == 1 then pieces[0].text else pieces[0].text + [sep] + Joined(pieces[1..], sep)
  }

  /** The piece stands in the text where it says. */
  predicate Stands(p: Piece, text: string, offset: int) {
    var k := p.at - offset;
    0 <= k && k + |p.text| <= |text| && text[k..k + |p.text|] == p.text
  }

  lemma {:induction false} FromRejoins(text: string, sep: char, offset: int, st: State, start: nat, i: nat)
    requires start <= i <= |text|
    ensures SplitFrom(text, sep, offset, st, start, i) != []
    ensures Joined(SplitFrom(text, sep, offset, st, start, i), sep) == text[start..]
    ensures forall p | p in SplitFrom(text, sep, offset, st, start, i) :: Stands(p, text, offset)
    decreases |text| - i
  {
    if i < |text| {
      if SplitsAt(st, text[i], sep) {
        FromRejoins(text, sep, offset, st, i + 1, i + 1);
        var rest := SplitFrom(text, sep, offset, st, i + 1, i + 1);
        assert ([Piece(text[start..i], offset + start)] + rest)[1..] == rest;
        assert text[start..] == text[start..i] + [sep] + text[i + 1..];
      } else {
        FromRejoins(text, sep, offset, Next(st, text[i]), start, i + 1);
      }
    }
  }

  /** The pieces, with the separator between them, are the text, each at the
      offset recorded for it. */
  lemma {:induction false} PiecesRejoin(text: string, sep: char, offset: int)
    ensures SplitFrom(text, sep, offset, TOP, 0, 0) != []
    ensures Joined(SplitFrom(text, sep, offset, TOP, 0, 0), sep) == text
    ensures forall p | p in SplitFrom(text, sep, offset, TOP, 0, 0) :: Stands(p, text, offset)
  {
    FromRejoins(text, sep, offset, TOP, 0, 0);
    assert text[0..] == text;
  }

  // ---- a printed list comes back --------------------------------------------------------------

  /** Where a stretch leaves the scan; nothing if it would split inside. */
  function Over(st: State, s: string, sep: char): Option<State>
    decreases |s|
  {
    if s == [] then Some(st)
    else
      var before := Over(st, s[..|s| - 1], sep);
      if before.None? || SplitsAt(before.value, s[|s| - 1], sep) then None
      else Some(Next(before.value, s[|s| - 1]))
  }

  lemma {:induction false} OverConcat(st: State, a: string, b: string, sep: char)
    requires Over(st, a, sep).Some?
    ensures Over(st, a + b, sep) == Over(Over(st, a, sep).value, b, sep)
    decreases |b|
  {
    if b == [] {
      assert a + b == a;
    } else {
      OverConcat(st, a, b[..|b| - 1], sep);
      assert (a + b)[..|a + b| - 1] == a + b[..|b| - 1];
    }
  }

  /** A member: it splits nowhere inside and leaves the scan at the top. */
  predicate Balanced(m: string, sep: char) {
    Over(TOP, m, sep) == Some(TOP)
  }

  lemma {:induction false} ScanOver(text: string, sep: char, offset: int, st: State, start: nat, i: nat, j: nat)
    requires start <= i <= j <= |text| && Over(st, text[i..j], sep).Some?
    ensures SplitFrom(text, sep, offset, st, start, i) ==
            SplitFrom(text, sep, offset, Over(st, text[i..j], sep).value, start, j)
    decreases j - i
  {
    if i < j {
      assert text[i..j][..j - 1 - i] == text[i..j - 1];
      ScanOver(text, sep, offset, st, start, i, j - 1);
    }
  }

  function Print(members: seq<string>, sep: char): string
    requires members != []
    decreases |members|
  {
    if |members| == 1 then members[0] else members[0] + [sep] + Print(members[1..], sep)
  }

  /** The members as pieces, the first starting at `at`. */
  function PiecesOf(members: seq<string>, at: int): seq<Piece>
    decreases |members|
  {
    if members == [] then [] else [Piece(members[0], at)] + PiecesOf(members[1..], at + |members[0]| + 1)
  }

  // ---- exactly when a printed list comes back ------------------------------------------------

  lemma OverOne(st: State, c: char, sep: char)
    ensures Over(st, [c], sep) == if SplitsAt(st, c, sep) then None else Some(Next(st, c))
  {
    assert [c][..0] == [];
    assert Over(st, [], sep) == Some(st);
  }

  /** A scan that splits inside a stretch splits inside every longer one. */
  lemma {:induction false} OverStuck(st: State, a: string, b: string, sep: char)
    requires Over(st, a, sep).None?
    ensures Over(st, a + b, sep).None?
    decreases |b|
  {
    if b == [] {
      assert a + b == a;
    } else {
      OverStuck(st, a, b[..|b| - 1], sep);
      assert (a + b)[..|a + b| - 1] == a + b[..|b| - 1];
    }
  }

  /** The first split at or after `i`, or the end of the text. */
  lemma {:induction false} FirstEnd(text: string, sep: char, st: State, i: nat) returns (e: nat)
    requires i <= |text|
    ensures i <= e <= |text| && Over(st, text[i..e], sep).Some?
    ensures e < |text| ==> SplitsAt(Over(st, text[i..e], sep).value, text[e], sep)
    decreases |text| - i
  {
    if i == |text| || SplitsAt(st, text[i], sep) {
      e := i;
      assert text[i..e] == [];
    } else {
      e := FirstEnd(text, sep, Next(st, text[i]), i + 1);
      OverOne(st, text[i], sep);
      OverConcat(st, [text[i]], text[i + 1..e], sep);
      assert text[i..e] == [text[i]] + text[i + 1..e];
    }
  }

  /** The split begins with the piece up to the first end, and goes on past it. */
  lemma FirstPiece(text: string, sep: char, offset: int, start: nat) returns (e: nat)
    requires start <= |text|
    ensures start <= e <= |text| && Over(TOP, text[start..e], sep).Some?
    ensures e < |text| ==> Over(TOP, text[start..e], sep) == Some(TOP) && IsPlain(sep) && text[e] == sep
    ensures SplitFrom(text, sep, offset, TOP, start, start) ==
            [Piece(text[start..e], offset + start)] +
            if e == |text| then [] else SplitFrom(text, sep, offset, TOP, e + 1, e + 1)
  {
    e := FirstEnd(text, sep, TOP, start);
    ScanOver(text, sep, offset, TOP, start, start, e);
    if e == |text| {
      assert text[start..] == text[start..e];
    }
  }

  /** Where a stretch ends is settled: it splits nowhere inside, and either the
      text ends there or a separator stands there at the top. */
  lemma EndIsFirst(text: string, sep: char, start: nat, e: nat, f: nat)
    requires start <= e <= |text| && start <= f <= |text|
    requires Over(TOP, text[start..e], sep).Some? && Over(TOP, text[start..f], sep).Some?
    requires e < |text| ==> SplitsAt(Over(TOP, text[start..e], sep).value, text[e], sep)
    ensures f <= e
  {
    if e < f {
      var upto := text[start..e] + [text[e]];
      assert text[start..f] == upto + text[e + 1..f];
      OverOne(Over(TOP, text[start..e], sep).value, text[e], sep);
      OverConcat(TOP, text[start..e], [text[e]], sep);
      OverStuck(TOP, upto, text[e + 1..f], sep);
    }
  }

  /** What a list needs to come back: each member but the last is balanced, so
      the separator after it stands at the top, and nothing splits inside the
      last. A separator that is a bracket or a quote never splits at all. */
  predicate Sound(members: seq<string>, sep: char)
    requires members != []
    decreases |members|
  {
    if |members| == 1 then Over(TOP, members[0], sep).Some?
    else IsPlain(sep) && Balanced(members[0], sep) && Sound(members[1..], sep)
  }

  lemma {:induction false} SoundMeans(members: seq<string>, sep: char)
    requires members != []
    ensures Sound(members, sep) <==>
            && (|members| > 1 ==> IsPlain(sep))
            && (forall i | 0 <= i < |members| - 1 :: Balanced(members[i], sep))
            && Over(TOP, members[|members| - 1], sep).Some?
    decreases |members|
  {
    if |members| > 1 {
      var rest := members[1..];
      SoundMeans(rest, sep);
      assert rest[|rest| - 1] == members[|members| - 1];
      assert forall i | 0 < i < |members| - 1 :: members[i] == rest[i - 1];
      assert forall i | 0 <= i < |rest| - 1 :: rest[i] == members[i + 1];
    }
  }

  /** A lone member comes back exactly when nothing splits inside it. */
  lemma LastComesBack(text: string, sep: char, offset: int, start: nat, m: string)
    requires start <= |text| && text[start..] == m
    ensures SplitFrom(text, sep, offset, TOP, start, start) == PiecesOf([m], offset + start) <==> Over(TOP, m, sep).Some?
  {
    var e := FirstPiece(text, sep, offset, start);
    assert text[start..|text|] == m;
    assert PiecesOf([m], offset + start) == [Piece(m, offset + start)];
    if Over(TOP, m, sep).Some? {
      EndIsFirst(text, sep, start, e, |text|);
    } else {
      assert e < |text|;
      FromRejoins(text, sep, offset, TOP, e + 1, e + 1);
    }
  }

  /** A first member with more after it is the first piece exactly when it is
      balanced. */
  lemma FirstComesBack(text: string, sep: char, offset: int, start: nat, m: string, tail: string) returns (e: nat)
    requires start <= |text| && text[start..] == m + [sep] + tail
    ensures start <= e <= |text|
    ensures SplitFrom(text, sep, offset, TOP, start, start) ==
            [Piece(text[start..e], offset + start)] +
            if e == |text| then [] else SplitFrom(text, sep, offset, TOP, e + 1, e + 1)
    ensures e == start + |m| <==> IsPlain(sep) && Balanced(m, sep)
    ensures text[start..e] == m <==> e == start + |m|
  {
    NextMember(text, start, m, sep, tail);
    e := FirstPiece(text, sep, offset, start);
    if IsPlain(sep) && Balanced(m, sep) {
      EndIsFirst(text, sep, start, start + |m|, e);
      EndIsFirst(text, sep, start, e, start + |m|);
    }
  }

  lemma NextMember(text: string, start: nat, m: string, sep: char, tail: string)
    requires start <= |text| && text[start..] == m + [sep] + tail
    ensures start + |m| < |text| && text[start..start + |m|] == m && text[start + |m|] == sep
    ensures text[start + |m| + 1..] == tail
  {
    var rest := text[start..];
    assert rest[..|m|] == m && rest[|m|] == sep && rest[|m| + 1..] == tail;
    assert text[start..start + |m|] == rest[..|m|];
    assert text[start + |m|] == rest[|m|];
    assert text[start + |m| + 1..] == rest[|m| + 1..];
  }

  /** The text from `start` on splits into these members. */
  predicate ComesBack(text: string, sep: char, offset: int, start: nat, members: seq<string>)
    requires start <= |text|
  {
    SplitFrom(text, sep, offset, TOP, start, start) == PiecesOf(members, offset + start)
  }

  lemma MemberPieces(members: seq<string>, offset: int, start: nat, next: nat)
    requires members != [] && next == start + |members[0]| + 1
    ensures PiecesOf(members, offset + start) ==
            [Piece(members[0], offset + start)] + PiecesOf(members[1..], offset + next)
  {
  }

  /** The pieces from `start` on are those of `m` and then `others` exactly when
      `m` is balanced and the pieces after it are `others`. */
  lemma FirstThenOthers(text: string, sep: char, offset: int, start: nat, m: string, tail: string, next: nat, others: seq<Piece>)
    requires start <= |text| && text[start..] == m + [sep] + tail && next == start + |m| + 1
    ensures next <= |text| && text[next..] == tail
    ensures SplitFrom(text, sep, offset, TOP, start, start) == [Piece(m, offset + start)] + others <==>
            IsPlain(sep) && Balanced(m, sep) && SplitFrom(text, sep, offset, TOP, next, next) == others
  {
    NextMember(text, start, m, sep, tail);
    var e := FirstComesBack(text, sep, offset, start, m, tail);
    var more := if e == |text| then [] else SplitFrom(text, sep, offset, TOP, e + 1, e + 1);
    SameList(Piece(text[start..e], offset + start), more, Piece(m, offset + start), others);
  }

  /** A list with more than one member comes back when its first member does
      and the rest come back after it. */
  lemma StepBack(text: string, sep: char, offset: int, start: nat, members: seq<string>, next: nat)
    requires |members| > 1 && next == start + |members[0]| + 1
    requires start <= |text| && text[start..] == members[0] + [sep] + Print(members[1..], sep)
    ensures next <= |text| && text[next..] == Print(members[1..], sep)
    ensures ComesBack(text, sep, offset, start, members) <==>
            IsPlain(sep) && Balanced(members[0], sep) && ComesBack(text, sep, offset, next, members[1..])
  {
    MemberPieces(members, offset, start, next);
    FirstThenOthers(text, sep, offset, start, members[0], Print(members[1..], sep), next, PiecesOf(members[1..], offset + next));
  }

  lemma {:induction false} ComesBackFrom(text: string, sep: char, offset: int, start: nat, members: seq<string>)
    requires members != [] && start <= |text| && text[start..] == Print(members, sep)
    ensures ComesBack(text, sep, offset, start, members) <==> Sound(members, sep)
    decreases |members|
  {
    if |members| == 1 {
      assert members == [members[0]];
      LastComesBack(text, sep, offset, start, members[0]);
    } else {
      var next := start + |members[0]| + 1;
      StepBack(text, sep, offset, start, members, next);
      ComesBackFrom(text, sep, offset, next, members[1..]);
    }
  }

  lemma SameList(p: Piece, a: seq<Piece>, q: Piece, b: seq<Piece>)
    ensures [p] + a == [q] + b <==> p == q && a == b
  {
    assert ([p] + a)[0] == p && ([q] + b)[0] == q;
    assert ([p] + a)[1..] == a && ([q] + b)[1..] == b;
  }

  /** A printed list splits back into its members, each at its offset, exactly
      when every member but the last is balanced, the separator between them
      is no bracket or quote, and nothing splits inside the last. */
  lemma {:induction false} ComesBackIff(members: seq<string>, sep: char, offset: int)
    requires members != []
    ensures SplitFrom(Print(members, sep), sep, offset, TOP, 0, 0) == PiecesOf(members, offset) <==>
            && (|members| > 1 ==> IsPlain(sep))
            && (forall i | 0 <= i < |members| - 1 :: Balanced(members[i], sep))
            && Over(TOP, members[|members| - 1], sep).Some?
  {
    var text := Print(members, sep);
    assert text[0..] == text;
    ComesBackFrom(text, sep, offset, 0, members);
    SoundMeans(members, sep);
  }

  /** So a printed list of balanced members always comes back. */
  lemma {:induction false} PrintedMembersComeBack(members: seq<string>, sep: char, offset: int)
    requires members != [] && IsPlain(sep) && (forall m | m in members :: Balanced(m, sep))
    ensures SplitFrom(Print(members, sep), sep, offset, TOP, 0, 0) == PiecesOf(members, offset)
  {
    ComesBackIff(members, sep, offset);
    assert members[|members| - 1] in members;
  }

  // ---- bracketed text is balanced ------------------------------------------------------------------

  datatype Chunk = Plain(c: char) | Quoted(mark: char, body: string) | Group(open: char, inner: Chunks, close: char)

  datatype Chunks = Nil | Cons(head: Chunk, tail: Chunks)

  predicate WellFormed(c: Chunk) {
    match c
    case Plain(c) => IsPlain(c)
    case Quoted(mark, body) => IsQuote(mark) && mark !in body
    case Group(open, inner, close) => IsOpen(open) && AllWellFormed(inner) && IsClose(close)
  }

  predicate AllWellFormed(cs: Chunks) {
    match cs
    case Nil => true
    case Cons(head, tail) => WellFormed(head) && AllWellFormed(tail)
  }

  function Text(c: Chunk): string {
    match c
    case Plain(c) => [c]
    case Quoted(mark, body) => [mark] + body + [mark]
    case Group(open, inner, close) => [open] + AllText(inner) + [close]
  }

  function AllText(cs: Chunks): string {
    match cs
    case Nil => []
    case Cons(head, tail) => Text(head) + AllText(tail)
  }

  /** No separator outside the brackets and quotes. */
  predicate SepFree(cs: Chunks, sep: char) {
    match cs
    case Nil => true
    case Cons(head, tail) => head != Plain(sep) && SepFree(tail, sep)
  }

  lemma {:induction false} OverQuoted(depth: int, mark: char, body: string, sep: char)
    requires IsQuote(mark) && mark !in body
    ensures Over(State(depth, Some(mark)), body, sep) == Some(State(depth, Some(mark)))
    decreases |body|
  {
    if body != [] {
      OverQuoted(depth, mark, body[..|body| - 1], sep);
      assert body[|body| - 1] in body;
    }
  }

  // ---- where bracketed text splits --------------------------------------------------------------

  /** Bracketed text, read at any depth, splits or leaves the depth as it was. */
  lemma {:induction false} ChunkKeepsDepth(c: Chunk, depth: int, sep: char)
    requires WellFormed(c)
    ensures var end := Over(State(depth, None), Text(c), sep); end.Some? ==> end.value == State(depth, None)
    decreases c
  {
    var st := State(depth, None);
    match c
    case Plain(ch) => OverOne(st, ch, sep);
    case Quoted(mark, body) =>
      OverOne(st, mark, sep);
      OverQuoted(depth, mark, body, sep);
      OverConcat(st, [mark], body, sep);
      OverOne(State(depth, Some(mark)), mark, sep);
      OverConcat(st, [mark] + body, [mark], sep);
    case Group(open, inner, close) =>
      OverOne(st, open, sep);
      ChunksKeepDepth(inner, depth + 1, sep);
      OverConcat(st, [open], AllText(inner), sep);
      if Over(st, [open] + AllText(inner), sep).Some? {
        OverOne(State(depth + 1, None), close, sep);
        OverConcat(st, [open] + AllText(inner), [close], sep);
      } else {
        OverStuck(st, [open] + AllText(inner), [close], sep);
      }
  }

  lemma {:induction false} ChunksKeepDepth(cs: Chunks, depth: int, sep: char)
    requires AllWellFormed(cs)
    ensures var end := Over(State(depth, None), AllText(cs), sep); end.Some? ==> end.value == State(depth, None)
    decreases cs
  {
    match cs
    case Nil =>
    case Cons(head, tail) =>
      ChunkKeepsDepth(head, depth, sep);
      ChunksKeepDepth(tail, depth, sep);
      if Over(State(depth, None), Text(head), sep).Some? {
        OverConcat(State(depth, None), Text(head), AllText(tail), sep);
      } else {
        OverStuck(State(depth, None), Text(head), AllText(tail), sep);
      }
  }

  /** No separator of the text stands at depth zero when it is read from `depth`. */
  predicate NoSplit(cs: Chunks, depth: int, sep: char)
    decreases cs
  {
    match cs
    case Nil => true
    case Cons(head, tail) => ChunkNoSplit(head, depth, sep) && NoSplit(tail, depth, sep)
  }

  predicate ChunkNoSplit(c: Chunk, depth: int, sep: char)
    decreases c
  {
    match c
    case Plain(c) => depth != 0 || c != sep
    case Quoted(_, _) => true
    case Group(_, inner, _) => NoSplit(inner, depth + 1, sep)
  }

  lemma {:induction false} ChunkSplits(c: Chunk, depth: int, sep: char)
    requires WellFormed(c)
    ensures Over(State(depth, None), Text(c), sep).Some? <==> ChunkNoSplit(c, depth, sep)
    decreases c
  {
    var st := State(depth, None);
    match c
    case Plain(ch) => OverOne(st, ch, sep);
    case Quoted(mark, body) =>
      OverOne(st, mark, sep);
      OverQuoted(depth, mark, body, sep);
      OverConcat(st, [mark], body, sep);
      OverOne(State(depth, Some(mark)), mark, sep);
      OverConcat(st, [mark] + body, [mark], sep);
    case Group(open, inner, close) =>
      OverOne(st, open, sep);
      ChunksSplit(inner, depth + 1, sep);
      OverConcat(st, [open], AllText(inner), sep);
      GroupSplits(st, open, inner, close, sep);
  }

  lemma GroupSplits(st: State, open: char, inner: Chunks, close: char, sep: char)
    requires IsOpen(open) && IsClose(close) && st.quote.None? && AllWellFormed(inner)
    ensures Over(st, [open] + AllText(inner) + [close], sep).Some? <==> Over(st, [open] + AllText(inner), sep).Some?
  {
    var front := [open] + AllText(inner);
    if Over(st, front, sep).Some? {
      OverOne(st, open, sep);
      OverConcat(st, [open], AllText(inner), sep);
      ChunksKeepDepth(inner, st.depth + 1, sep);
      OverOne(State(st.depth + 1, None), close, sep);
      OverConcat(st, front, [close], sep);
    } else {
      OverStuck(st, front, [close], sep);
    }
  }

  /** Bracketed text splits nowhere inside exactly when none of its separators
      comes to stand at depth zero. */
  lemma {:induction false} ChunksSplit(cs: Chunks, depth: int, sep: char)
    requires AllWellFormed(cs)
    ensures Over(State(depth, None), AllText(cs), sep).Some? <==> NoSplit(cs, depth, sep)
    decreases cs
  {
    if cs.Cons? {
      var st := State(depth, None);
      ChunkSplits(cs.head, depth, sep);
      ChunkKeepsDepth(cs.head, depth, sep);
      ChunksSplit(cs.tail, depth, sep);
      if Over(st, Text(cs.head), sep).Some? {
        OverConcat(st, Text(cs.head), AllText(cs.tail), sep);
      } else {
        OverStuck(st, Text(cs.head), AllText(cs.tail), sep);
      }
    }
  }

  /** Inside brackets nothing splits, so only the separators outside them count. */
  lemma {:induction false} DeepNeverSplits(cs: Chunks, depth: int, sep: char)
    requires depth > 0
    ensures NoSplit(cs, depth, sep)
    decreases cs
  {
    if cs.Cons? {
      DeepNeverSplits(cs.tail, depth, sep);
      if cs.head.Group? {
        DeepNeverSplits(cs.head.inner, depth + 1, sep);
      }
    }
  }

  lemma {:induction false} SepFreeIsNoSplit(cs: Chunks, sep: char)
    requires AllWellFormed(cs)
    ensures SepFree(cs, sep) <==> NoSplit(cs, 0, sep)
  {
    if cs.Cons? {
      SepFreeIsNoSplit(cs.tail, sep);
      if cs.head.Group? {
        DeepNeverSplits(cs.head.inner, 1, sep);
      }
    }
  }

  /** Text whose brackets and quotes close is a balanced member exactly when no
      separator stands outside them. */
  lemma {:induction false} BracketedIsBalanced(cs: Chunks, sep: char)
    requires AllWellFormed(cs)
    ensures Balanced(AllText(cs), sep) <==> SepFree(cs, sep)
  {
    ChunksSplit(cs, 0, sep);
    ChunksKeepDepth(cs, 0, sep);
    SepFreeIsNoSplit(cs, sep);
  }

  // ---- a closer with no opener ------------------------------------------------------------------

  /** A scan past bracketed text and a closer of its own is one too low, or has
      split on the way. */
  lemma PastCloser(a: Chunks, close: char, sep: char)
    requires AllWellFormed(a) && IsClose(close)
    ensures var end := Over(TOP, AllText(a) + [close], sep); end.Some? ==> end.value == State(-1, None)
    ensures Over(TOP, AllText(a), sep).Some? ==> Over(TOP, AllText(a) + [close], sep).Some?
  {
    ChunksKeepDepth(a, 0, sep);
    if Over(TOP, AllText(a), sep).Some? {
      OverOne(TOP, close, sep);
      OverConcat(TOP, AllText(a), [close], sep);
    } else {
      OverStuck(TOP, AllText(a), [close], sep);
    }
  }

  lemma {:induction false} UnmatchedIsUnbalanced(a: Chunks, close: char, b: Chunks, sep: char)
    requires AllWellFormed(a) && IsClose(close) && AllWellFormed(b)
    ensures !Balanced(AllText(a) + [close] + AllText(b), sep)
  {
    var front := AllText(a) + [close];
    PastCloser(a, close, sep);
    if Over(TOP, front, sep).Some? {
      OverConcat(TOP, front, AllText(b), sep);
      ChunksKeepDepth(b, -1, sep);
    } else {
      OverStuck(TOP, front, AllText(b), sep);
    }
  }

  /** Any member but the last that holds an unmatched closer, the `>` of an
      arrow say, breaks the list, wherever it stands in the member and whatever
      brackets and quotes are around it. */
  lemma {:induction false} UnmatchedCloserBreaksList(members: seq<string>, sep: char, offset: int,
                                                     i: nat, a: Chunks, close: char, b: Chunks)
    requires i < |members| - 1 && members[i] == AllText(a) + [close] + AllText(b)
    requires AllWellFormed(a) && IsClose(close) && AllWellFormed(b)
    ensures SplitFrom(Print(members, sep), sep, offset, TOP, 0, 0) != PiecesOf(members, offset)
  {
    UnmatchedIsUnbalanced(a, close, b, sep);
    ComesBackIff(members, sep, offset);
  }

  /** After an unmatched closer a separator splits exactly when it stands one
      bracket deep, where the depth is back to zero, and not outside brackets:
      the text is one piece exactly when it holds none outside brackets before
      the closer and none one bracket deep after it. */
  lemma {:induction false} ArrowStopsSplitting(a: Chunks, close: char, b: Chunks, sep: char, offset: int)
    requires AllWellFormed(a) && IsClose(close) && AllWellFormed(b)
    ensures var text := AllText(a) + [close] + AllText(b);
            SplitFrom(text, sep, offset, TOP, 0, 0) == [Piece(text, offset)] <==> SepFree(a, sep) && NoSplit(b, -1, sep)
  {
    var front := AllText(a) + [close];
    var text := front + AllText(b);
    SepFreeIsNoSplit(a, sep);
    ChunksSplit(a, 0, sep);
    ChunksSplit(b, -1, sep);
    PastCloser(a, close, sep);
    if SepFree(a, sep) {
      OverConcat(TOP, front, AllText(b), sep);
    } else {
      OverStuck(TOP, AllText(a), [close], sep);
      OverStuck(TOP, front, AllText(b), sep);
    }
    ComesBackIff([text], sep, offset);
    assert PiecesOf([text], offset) == [Piece(text, offset)];
  }

  // ---- the brackets and quotes by name ----------------------------------------------------------

  /** Characters that are no bracket and no quote. */
  predicate NoMarks(s: string) {
    forall k | 0 <= k < |s| :: s[k] !in {'{', '}', '(', ')', '[', ']', '<', '>', '"', '\''}
  }

  function PlainChunks(s: string): Chunks {
    if s == "" then Nil else Cons(Plain(s[0]), PlainChunks(s[1..]))
  }

  lemma {:induction false} PlainChunksAre(s: string)
    requires NoMarks(s)
    ensures AllWellFormed(PlainChunks(s)) && AllText(PlainChunks(s)) == s
  {
    if s != "" {
      PlainChunksAre(s[1..]);
      assert s == [s[0]] + s[1..];
    }
  }

  lemma {:induction false} PlainSepFree(s: string, sep: char)
    requires sep !in s
    ensures SepFree(PlainChunks(s), sep)
  {
    if s != "" {
      assert s[0] in s;
      PlainSepFree(s[1..], sep);
    }
  }

  /** Braces, parentheses, square brackets and angle brackets, and each quote,
      keep the separators in them: a list of such a member and a plain one comes
      back as those two. */
  lemma LiteralsKeepSeparators(pair: (char, char), inner: string, plain: string, sep: char, offset: int)
    requires pair in {('{', '}'), ('(', ')'), ('[', ']'), ('<', '>'), ('"', '"'), ('\'', '\'')}
    requires NoMarks(inner) && NoMarks(plain) && sep !in plain && NoMarks([sep])
    ensures var first := [pair.0] + inner + [pair.1];
            SplitFrom(first + [sep] + plain, sep, offset, TOP, 0, 0) == [Piece(first, offset), Piece(plain, offset + |first| + 1)]
  {
    var first := [pair.0] + inner + [pair.1];
    var chunk := if pair.0 == pair.1 then Quoted(pair.0, inner) else Group(pair.0, PlainChunks(inner), pair.1);
    PlainChunksAre(inner);
    PlainChunksAre(plain);
    PlainSepFree(plain, sep);
    assert NoMarks([sep]) ==> [sep][0] == sep;
    BracketedIsBalanced(Cons(chunk, Nil), sep);
    assert AllText(Cons(chunk, Nil)) == first;
    BracketedIsBalanced(PlainChunks(plain), sep);
    var members := [first, plain];
    assert members[1..] == [plain];
    assert Print(members, sep) == first + [sep] + plain;
    PrintedMembersComeBack(members, sep, offset);
    assert PiecesOf([plain], offset + |first| + 1) ==
           [Piece(plain, offset + |first| + 1)] + PiecesOf([], offset + |first| + 1 + |plain| + 1);
  }
}
