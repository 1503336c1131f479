/**
 Blanking `#[cfg(test)]` items (src/cli_json.rs, `without_test_items`): from
 each mark through the item's closing brace, or through its `;` when that comes
 first.
 */
module TestItems {
  import opened CodeOnly

  const MARK := "#[cfg(test)]"

  predicate MarkAt(code: string, mark: string, k: nat) {
    k + |mark| <= |code| && code[k..k + |mark|] == mark
  }

  /** The first mark at or after `i`, or the end. */
  function NextMark(code: string, mark: string, i: nat): (k: nat)
    requires i <= |code|
    ensures i <= k <= |code|
    ensures k < |code| ==> MarkAt(code, mark, k)
    ensures forall j | i <= j < k :: !MarkAt(code, mark, j)
    decreases |code| - i
  {
    if i == |code| || MarkAt(code, mark, i) then i else NextMark(code, mark, i + 1)
  }

  /** The first `{` or `;` at or after `i`, or the end. */
  function BodyStart(code: string, i: nat): (k: nat)
    requires i <= |code|
    ensures i <= k <= |code|
    decreases |code| - i
  {
    if i == |code| || code[i] == '{' || code[i] == ';' then i else BodyStart(code, i + 1)
  }

  /** Past the brace that closes `depth` open ones, or the end. */
  function Closing(code: string, i: nat, depth: nat): (end: nat)
    requires i <= |code| && depth > 0
    ensures i <= end <= |code|
    decreases |code| - i
  {
    if i == |code| then i
    else if code[i] == '{' then Closing(code, i + 1, depth + 1)
    else if code[i] == '}' then if depth == 1 then i + 1 else Closing(code, i + 1, depth - 1)
    else Closing(code, i + 1, depth)
  }

  /** Where the item whose text starts at `i` ends. */
  function ItemEnd(code: string, i: nat): (end: nat)
    requires i <= |code|
    ensures i <= end <= |code|
  {
    var open := BodyStart(code, i);
    if open == |code| then |code|
    else if code[open] == ';' then open + 1
    else Closing(code, open + 1, 1)
  }

  method FindItemEnd(code: string, i: nat) returns (end: nat)
    requires i <= |code|
    ensures end == ItemEnd(code, i)
  {
    var open := i;
    while open < |code| && code[open] != '{' && code[open] != ';'
      invariant i <= open <= |code| && BodyStart(code, i) == BodyStart(code, open)
    {
      open := open + 1;
    }
    if open == |code| {
      return |code|;
    }
    if code[open] == ';' {
      return open + 1;
    }
    var depth := 0;
    for k := open to |code|
      invariant k == open ==> depth == 0
      invariant k > open ==> depth > 0 && ItemEnd(code, i) == Closing(code, k, depth)
    {
      match code[k] {
        case '{' => depth := depth + 1;
        case '}' =>
          depth := depth - 1;
          if depth == 0 {
            return k + 1;
          }
        case _ =>
      }
    }
    return |code|;
  }

  /** A scan from `i` meets `p` inside a marked item. */
  predicate InItem(code: string, mark: string, i: nat, p: nat)
    requires i <= |code| && mark != []
    decreases |code| - i
  {
    var at := NextMark(code, mark, i);
    if at == |code| || p < at then false
    else
      var end := ItemEnd(code, at + |mark|);
      p < end || InItem(code, mark, end, p)
  }

  /** The code with its marked items blanked. */
  function Production(code: string, mark: string): (out: string)
    requires mark != []
  {
    seq(|code|, p requires 0 <= p < |code| => if InItem(code, mark, 0, p) then Blank(code[p]) else code[p])
  }

  ghost predicate BlankedSoFar(code: string, mark: string, out: string, i: nat)
    requires i <= |code| && mark != []
  {
    && out == Production(code, mark)[..i]
    && forall p | i <= p < |code| :: InItem(code, mark, 0, p) == InItem(code, mark, i, p)
  }

  lemma NoItemLeft(code: string, mark: string, out: string, i: nat)
    requires mark != [] && i <= |code| && BlankedSoFar(code, mark, out, i) && NextMark(code, mark, i) == |code|
    ensures out + code[i..] == Production(code, mark)
  {
    var all := Production(code, mark);
    forall p | i <= p < |code| ensures all[p] == code[p] {
      assert !InItem(code, mark, i, p);
    }
    assert all == all[..i] + code[i..];
  }

  lemma InsideOrBeyond(code: string, mark: string, i: nat, at: nat, end: nat, p: nat)
    requires mark != [] && i <= |code| && at == NextMark(code, mark, i) < |code| && end == ItemEnd(code, at + |mark|)
    ensures p < at ==> !InItem(code, mark, i, p)
    ensures at <= p < end ==> InItem(code, mark, i, p)
    ensures end <= p ==> InItem(code, mark, i, p) == InItem(code, mark, end, p)
  {
  }

  lemma ItemBlanked(code: string, mark: string, out: string, i: nat, at: nat, end: nat)
    requires mark != [] && i <= |code| && BlankedSoFar(code, mark, out, i)
    requires at == NextMark(code, mark, i) < |code| && end == ItemEnd(code, at + |mark|)
    ensures BlankedSoFar(code, mark, out + code[i..at] + seq(end - at, p requires 0 <= p < end - at => Blank(code[at..end][p])), end)
  {
    var all := Production(code, mark);
    var blank := seq(end - at, p requires 0 <= p < end - at => Blank(code[at..end][p]));
    forall p | i <= p < at ensures all[p] == code[p] {
      InsideOrBeyond(code, mark, i, at, end, p);
    }
    forall p | at <= p < end ensures all[p] == Blank(code[p]) {
      InsideOrBeyond(code, mark, i, at, end, p);
    }
    forall p | end <= p < |code| ensures InItem(code, mark, 0, p) == InItem(code, mark, end, p) {
      InsideOrBeyond(code, mark, i, at, end, p);
    }
    Assembled(all, code, out, blank, i, at, end);
  }

  lemma Assembled(all: string, code: string, out: string, blank: string, i: nat, at: nat, end: nat)
    requires |all| == |code| && i <= at <= end <= |code| && out == all[..i] && |blank| == end - at
    requires forall p | i <= p < at :: all[p] == code[p]
    requires forall p | at <= p < end :: all[p] == Blank(code[p])
    requires forall p | 0 <= p < end - at :: blank[p] == Blank(code[at..end][p])
    ensures out + code[i..at] + blank == all[..end]
  {
  }

  /** `without_test_items` */
  method WithoutTestItems(code: string) returns (out: string)
    ensures out == Production(code, MARK)
  {
    assert MARK != [];
    out := [];
    var i := 0;
    var at := NextMark(code, MARK, i);
    while at < |code|
      invariant i <= |code| && at == NextMark(code, MARK, i)
      invariant BlankedSoFar(code, MARK, out, i)
      decreases |code| - i
    {
      var end := FindItemEnd(code, at + |MARK|);
      var blank := BlankOut(code[at..end]);
      ItemBlanked(code, MARK, out, i, at, end);
      out := out + code[i..at] + blank;
      i := end;
      at := NextMark(code, MARK, i);
    }
    NoItemLeft(code, MARK, out, i);
    out := out + code[i..];
  }

  // ---- an item ends where its braces do ------------------------------------------------------

  /** Openers less closers. */
  function Net(s: string): int
    decreases |s|
  {
    if s == [] then 0
    else Net(s[..|s| - 1]) + (match s[|s| - 1] case '{' => 1 case '}' => -1 case _ => 0)
  }

  lemma NetSnoc(code: string, i: nat, k: nat)
    requires i <= k < |code|
    ensures Net(code[i..k + 1]) == Net(code[i..k]) + (match code[k] case '{' => 1 case '}' => -1 case _ => 0)
  {
    assert code[i..k + 1][..k - i] == code[i..k];
  }

  /** From a `{`, the braces up to the end close it, and nothing shorter does;
      or the text ends first. */
  lemma {:induction false} ClosingMatches(code: string, open: nat, i: nat, depth: nat)
    requires open < i <= |code| && depth > 0 && Net(code[open..i]) == depth
    requires forall k | open < k <= i :: Net(code[open..k]) > 0
    ensures var end := Closing(code, i, depth);
            && (forall k | open < k < end :: Net(code[open..k]) > 0)
            && (Net(code[open..end]) == 0 || (end == |code| && Net(code[open..end]) > 0))
    decreases |code| - i
  {
    if i < |code| {
      NetSnoc(code, open, i);
      var next := if code[i] == '{' then depth + 1 else if code[i] == '}' then depth - 1 else depth;
      if next > 0 {
        ClosingMatches(code, open, i + 1, next);
      }
    }
  }

  /** An item's end: past the `;` that comes before any brace, or past the brace
      matching its first, or the end of the text. */
  lemma {:induction false} ItemEndIsExact(code: string, i: nat)
    requires i <= |code|
    ensures var open := BodyStart(code, i); var end := ItemEnd(code, i);
            && (forall k | i <= k < open :: code[k] != '{' && code[k] != ';')
            && (open < |code| ==> code[open] == '{' || code[open] == ';')
            && (open < |code| && code[open] == ';' ==> end == open + 1)
            && (open < |code| && code[open] == '{' ==>
                  (forall k | open < k < end :: Net(code[open..k]) > 0) &&
                  (Net(code[open..end]) == 0 || (end == |code| && Net(code[open..end]) > 0)))
  {
    BodyIsFirst(code, i);
    var open := BodyStart(code, i);
    if open < |code| && code[open] == '{' {
      NetSnoc(code, open, open);
      assert code[open..open] == [];
      ClosingMatches(code, open, open + 1, 1);
    }
  }

  lemma {:induction false} BodyIsFirst(code: string, i: nat)
    requires i <= |code|
    ensures forall k | i <= k < BodyStart(code, i) :: code[k] != '{' && code[k] != ';'
    ensures BodyStart(code, i) < |code| ==> code[BodyStart(code, i)] == '{' || code[BodyStart(code, i)] == ';'
    decreases |code| - i
  {
    if i < |code| && code[i] != '{' && code[i] != ';' {
      BodyIsFirst(code, i + 1);
    }
  }

  // ---- what blanking the items keeps -----------------------------------------------------------

  predicate BlankFree(mark: string) {
    mark != [] && forall k | 0 <= k < |mark| :: mark[k] != ' ' && mark[k] != '\n'
  }

  lemma {:induction false} MarkIsInside(code: string, mark: string, i: nat, k: nat)
    requires mark != [] && i <= k && MarkAt(code, mark, k)
    ensures InItem(code, mark, i, k)
    decreases |code| - i
  {
    var at := NextMark(code, mark, i);
    assert at <= k;
    var end := ItemEnd(code, at + |mark|);
    if end <= k {
      MarkIsInside(code, mark, end, k);
    }
  }

  /** No mark is left, whole or pieced together. */
  lemma {:induction false} NoMarkLeft(code: string, mark: string, k: nat)
    requires BlankFree(mark)
    ensures !MarkAt(Production(code, mark), mark, k)
  {
    var out := Production(code, mark);
    if MarkAt(out, mark, k) {
      forall j | 0 <= j < |mark| ensures out[k + j] == mark[j] == code[k + j] {
        assert out[k..k + |mark|][j] == out[k + j];
      }
      assert code[k..k + |mark|] == mark;
      assert out[k + 0] == mark[0];
      MarkIsInside(code, mark, 0, k);
    }
  }

  /** A mark that stands in no item before it. */
  ghost predicate StartsItem(code: string, mark: string, at: nat)
    requires mark != []
    decreases at
  {
    MarkAt(code, mark, at) && forall b: nat | b < at && StartsItem(code, mark, b) :: ItemEnd(code, b + |mark|) <= at
  }

  /** Every item that starts before `i` has ended there. */
  ghost predicate Between(code: string, mark: string, i: nat)
    requires mark != []
  {
    forall b: nat | b < i && StartsItem(code, mark, b) :: ItemEnd(code, b + |mark|) <= i
  }

  ghost predicate Inside(code: string, mark: string, i: nat, p: nat)
    requires mark != []
  {
    exists at: nat :: i <= at <= p && StartsItem(code, mark, at) && p < ItemEnd(code, at + |mark|)
  }

  lemma NextStarts(code: string, mark: string, i: nat)
    requires mark != [] && i <= |code| && Between(code, mark, i)
    ensures var at := NextMark(code, mark, i);
            && (forall b: nat | i <= b < at :: !StartsItem(code, mark, b))
            && (at < |code| ==> StartsItem(code, mark, at) && Between(code, mark, ItemEnd(code, at + |mark|)))
  {
    var at := NextMark(code, mark, i);
    if at < |code| {
      assert MarkAt(code, mark, at);
      var end := ItemEnd(code, at + |mark|);
      forall b: nat | b < end && StartsItem(code, mark, b) ensures ItemEnd(code, b + |mark|) <= end {
        if b > at {
          assert StartsItem(code, mark, at);
        }
      }
    }
  }

  lemma {:induction false} InItemFrom(code: string, mark: string, i: nat, p: nat)
    requires mark != [] && i <= |code| && Between(code, mark, i) && i <= p
    ensures InItem(code, mark, i, p) <==> Inside(code, mark, i, p)
    decreases |code| - i
  {
    NextStarts(code, mark, i);
    var at := NextMark(code, mark, i);
    if at < |code| && at <= p {
      var end := ItemEnd(code, at + |mark|);
      if p < end {
        assert i <= at <= p && StartsItem(code, mark, at);
      } else {
        InItemFrom(code, mark, end, p);
        PastItem(code, mark, i, at, end, p);
      }
    }
  }

  /** Past an item, what stands in one stands in a later one. */
  lemma PastItem(code: string, mark: string, i: nat, at: nat, end: nat, p: nat)
    requires mark != [] && i <= at < end <= p && StartsItem(code, mark, at) && end == ItemEnd(code, at + |mark|)
    requires forall b: nat | i <= b < at :: !StartsItem(code, mark, b)
    ensures Inside(code, mark, i, p) <==> Inside(code, mark, end, p)
  {
    if Inside(code, mark, i, p) {
      var b: nat :| i <= b <= p && StartsItem(code, mark, b) && p < ItemEnd(code, b + |mark|);
      assert b > at;
    }
  }

  /** What is blanked is exactly what stands in an item: from a mark that is in
      no earlier item up to where that item ends. */
  lemma InItemIff(code: string, mark: string, p: nat)
    requires mark != []
    ensures InItem(code, mark, 0, p) <==> Inside(code, mark, 0, p)
  {
    InItemFrom(code, mark, 0, p);
  }

  /** The whole scan on a source text: length and newlines stay, no
      `#[cfg(test)]` is left, every character in a comment, string or test item
      is blank, and every other is where it was, below a test module as above it. */
  lemma {:induction false} ScanIsExact(text: string)
    ensures var out := Production(CodeOf(text), MARK);
            && |out| == |text|
            && (forall p | 0 <= p < |text| :: out[p] == '\n' <==> text[p] == '\n')
            && (forall k :: !MarkAt(out, "#[cfg(test)]", k))
            && (forall p | 0 <= p < |text| ::
                  out[p] == if InLiteral(text, 0, p) || InItem(CodeOf(text), "#[cfg(test)]", 0, p) then Blank(text[p]) else text[p])
  {
    var code := CodeOf(text);
    BlankingIsExact(text);
    assert BlankFree(MARK);
    forall k ensures !MarkAt(Production(code, MARK), MARK, k) {
      NoMarkLeft(code, MARK, k);
    }
  }
}
