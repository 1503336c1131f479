/**
 Where an attributed item, statement, field or arm ends
 (`_item_end` in scripts/ci-mutants-summary.py).
 */
module ItemEnd {
  import opened RustTokens

  /** The keyword tables the classification reads. */
  datatype Keywords = Keywords(semi: set<string>, brace: set<string>, qualifiers: set<string>)

  /** How an element ends: at a `;`, at its braces, or by the general rule. */
  datatype Mode = Semi | Brace | Expr

  lemma PartnerOfOpenText(toks: seq<Token>, pairs: map<nat, nat>, k: nat)
    requires IsBracketMap(toks, pairs) && k in pairs
    requires k < |toks| && !IsClose(toks[k])
    ensures k < pairs[k] < |toks|
    ensures Partner(toks, k, pairs[k])
  {
    MapHoldsPartner(toks, pairs, k);
    if Partner(toks, pairs[k], k) {
      PartnerEndsClosed(toks, pairs[k], k);
    }
  }

  /** One qualifier: the token after it, past a `pub(..)` list and an ABI string. */
  function PastQualifier(toks: seq<Token>, pairs: map<nat, nat>, k: nat): (next: nat)
    requires IsBracketMap(toks, pairs) && k < |toks|
    ensures next > k
  {
    var last :=
      if toks[k].text == "pub" && k + 1 < |toks| && toks[k + 1].text == "(" && k + 1 in pairs
      then (PartnerOfOpenText(toks, pairs, k + 1); pairs[k + 1])
      else if toks[k].text == "pub" && k + 1 < |toks| && toks[k + 1].text == "(" then k + 1
      else k;
    if last + 1 < |toks| && toks[last + 1].kind == Lit then last + 2 else last + 1
  }

  function SkipQualifiers(kw: Keywords, toks: seq<Token>, pairs: map<nat, nat>, k: nat): (next: nat)
    requires IsBracketMap(toks, pairs)
    ensures next >= k
    decreases if k < |toks| then |toks| - k else 0
  {
    if k < |toks| && toks[k].kind == Ident && toks[k].text in kw.qualifiers
    then SkipQualifiers(kw, toks, pairs, PastQualifier(toks, pairs, k))
    else k
  }

  predicate FnAfterConst(s: string) {
    s == "fn" || s == "unsafe" || s == "async" || s == "extern"
  }

  /** The mode of the element at `j`, from its first token past qualifiers, at `k`. */
  function HeadMode(kw: Keywords, toks: seq<Token>, j: nat, k: nat): Mode
    requires k < |toks|
  {
    var head :=
      if toks[k] == Token(Ident, "const") && k + 1 < |toks| && FnAfterConst(toks[k + 1].text)
      then Token(Ident, "fn")
      else toks[k];
    if head.kind == Ident && head.text in kw.semi then Semi
    else if (head.kind == Ident && head.text in kw.brace) || head.text == "{" || k > j then Brace
    else Expr
  }

  /** The walk from `k`, where the element has not ended yet. */
  function Walk(toks: seq<Token>, pairs: map<nat, nat>, mode: Mode, k: nat, sawArrow: bool): int
    requires IsBracketMap(toks, pairs)
    decreases if k < |toks| then |toks| - k else 0
  {
    if k >= |toks| then |toks| - 1
    else if toks[k].kind != Punct then Walk(toks, pairs, mode, k + 1, sawArrow)
    else if IsOpen(toks[k]) then
      if k !in pairs then |toks| - 1
      else
        PartnerOfOpenText(toks, pairs, k);
        var close := pairs[k];
        if toks[k].text == "{" && mode != Semi then
          var follows := close + 1 < |toks|;
          var next := if follows then toks[close + 1].text else "";
          if mode == Brace then
            if follows && toks[close + 1] == Token(Ident, "else")
            then Walk(toks, pairs, mode, close + 1, sawArrow)
            else close
          else if next == ";" then close + 1
          else if sawArrow then (if next == "," then close + 1 else close)
          else if next == "," then close + 1
          else if next == "." || next == "?" || (follows && toks[close + 1] == Token(Ident, "as"))
          then Walk(toks, pairs, mode, close + 1, sawArrow)
          else close
        else Walk(toks, pairs, mode, close + 1, sawArrow)
    else if IsClose(toks[k]) then k - 1
    else if toks[k].text == ";" then k
    else if toks[k].text == "," && mode == Expr then k
    else Walk(toks, pairs, mode, k + 1,
              sawArrow || (toks[k].text == "=" && k + 1 < |toks| && toks[k + 1].text == ">"))
  }

  function EndOf(kw: Keywords, toks: seq<Token>, pairs: map<nat, nat>, j: nat): int
    requires IsBracketMap(toks, pairs)
  {
    var k := SkipQualifiers(kw, toks, pairs, j);
    if k >= |toks| then |toks| - 1
    else Walk(toks, pairs, HeadMode(kw, toks, j, k), j, false)
  }

  /** The index of the element's last token. */
  method FindItemEnd(kw: Keywords, toks: seq<Token>, pairs: map<nat, nat>, j: nat) returns (end: int)
    requires IsBracketMap(toks, pairs)
    ensures end == EndOf(kw, toks, pairs, j)
  {
    var n := |toks|;
    var k := j;
    while k < n && toks[k].kind == Ident && toks[k].text in kw.qualifiers
      invariant k >= j
      invariant SkipQualifiers(kw, toks, pairs, j) == SkipQualifiers(kw, toks, pairs, k)
      decreases n - k
    {
      ghost var next := PastQualifier(toks, pairs, k);
      if toks[k].text == "pub" && k + 1 < n && toks[k + 1].text == "(" {
        if k + 1 in pairs {
          PartnerOfOpenText(toks, pairs, k + 1);
        }
        k := if k + 1 in pairs then pairs[k + 1] else k + 1;
      }
      k := k + 1;
      if k < n && toks[k].kind == Lit {
        k := k + 1;
      }
      assert k == next;
    }
    if k >= n {
      return n - 1;
    }
    var head := toks[k];
    if head == Token(Ident, "const") && k + 1 < n && FnAfterConst(toks[k + 1].text) {
      head := Token(Ident, "fn");
    }
    var mode: Mode;
    if head.kind == Ident && head.text in kw.semi {
      mode := Semi;
    } else if (head.kind == Ident && head.text in kw.brace) || head.text == "{" || k > j {
      mode := Brace;
    } else {
      mode := Expr;
    }
    end := WalkToEnd(toks, pairs, mode, j);
  }

  method WalkToEnd(toks: seq<Token>, pairs: map<nat, nat>, mode: Mode, j: nat) returns (end: int)
    requires IsBracketMap(toks, pairs)
    ensures end == Walk(toks, pairs, mode, j, false)
  {
    var n := |toks|;
    var k := j;
    var sawArrow := false;
    while k < n
      invariant Walk(toks, pairs, mode, j, false) == Walk(toks, pairs, mode, k, sawArrow)
      decreases n - k
    {
      var t := toks[k];
      if t.kind == Punct {
        if IsOpen(t) {
          if k !in pairs {
            return n - 1;
          }
          PartnerOfOpenText(toks, pairs, k);
          var close := pairs[k];
          if t.text == "{" && mode != Semi {
            var follows := close + 1 < n;
            var next := if follows then toks[close + 1].text else "";
            if mode == Brace {
              if follows && toks[close + 1] == Token(Ident, "else") {
                k := close + 1;
                continue;
              }
              return close;
            }
            if next == ";" {
              return close + 1;
            }
            if sawArrow {
              return if next == "," then close + 1 else close;
            }
            if next == "," {
              return close + 1;
            }
            if next == "." || next == "?" || (follows && toks[close + 1] == Token(Ident, "as")) {
              k := close + 1;
              continue;
            }
            return close;
          }
          k := close + 1;
          continue;
        }
        if IsClose(t) {
          return k - 1;
        }
        if t.text == ";" {
          return k;
        }
        if t.text == "," && mode == Expr {
          return k;
        }
        if t.text == "=" && k + 1 < n && toks[k + 1].text == ">" {
          sawArrow := true;
        }
      }
      k := k + 1;
    }
    return n - 1;
  }

  // ---- on balanced tokens ------------------------------------------------

  lemma PairBalanced(toks: seq<Token>, pairs: map<nat, nat>, j: nat, k: nat)
    requires IsBracketMap(toks, pairs) && Balanced(toks, 0, |toks|)
    requires j <= k < |toks| && Balanced(toks, j, k) && IsOpen(toks[k])
    ensures k in pairs && k < pairs[k] < |toks| && Balanced(toks, j, pairs[k] + 1)
  {
    OpenerMatched(toks, pairs, k);
    BalancedPair(toks, k, pairs[k]);
    BalancedJoin(toks, j, k, pairs[k] + 1);
  }

  /** Past a pair the walk goes on, ends at its closer, or takes the `;` or `,`
      after it. */
  lemma WalkPastPair(toks: seq<Token>, pairs: map<nat, nat>, mode: Mode, k: nat, sawArrow: bool) returns (goesOn: bool)
    requires IsBracketMap(toks, pairs) && k < |toks| && toks[k].kind == Punct && IsOpen(toks[k]) && k in pairs
    ensures k < pairs[k] < |toks|
    ensures var end, close := Walk(toks, pairs, mode, k, sawArrow), pairs[k];
            if goesOn then end == Walk(toks, pairs, mode, close + 1, sawArrow)
            else end == close || (end == close + 1 < |toks| && !IsOpen(toks[end]) && !IsClose(toks[end]))
  {
    PartnerOfOpenText(toks, pairs, k);
    goesOn := Walk(toks, pairs, mode, k, sawArrow) == Walk(toks, pairs, mode, pairs[k] + 1, sawArrow);
  }

  lemma BalancedOneMore(toks: seq<Token>, j: nat, k: nat)
    requires j <= k < |toks| && Balanced(toks, j, k) && !IsOpen(toks[k]) && !IsClose(toks[k])
    ensures Balanced(toks, j, k + 1)
  {
    BalancedToken(toks, k);
    BalancedJoin(toks, j, k, k + 1);
  }

  lemma {:induction false} WalkBalanced(toks: seq<Token>, pairs: map<nat, nat>, mode: Mode, j: nat, k: nat, sawArrow: bool)
    requires IsBracketMap(toks, pairs) && Balanced(toks, 0, |toks|)
    requires j <= k && Balanced(toks, j, k)
    ensures j - 1 <= Walk(toks, pairs, mode, k, sawArrow) < |toks|
    ensures Balanced(toks, j, Walk(toks, pairs, mode, k, sawArrow) + 1)
    decreases |toks| - k
  {
    if k < |toks| {
      if toks[k].kind == Punct && IsOpen(toks[k]) {
        PairBalanced(toks, pairs, j, k);
        var goesOn := WalkPastPair(toks, pairs, mode, k, sawArrow);
        if goesOn {
          WalkBalanced(toks, pairs, mode, j, pairs[k] + 1, sawArrow);
        } else if Walk(toks, pairs, mode, k, sawArrow) != pairs[k] {
          BalancedOneMore(toks, j, pairs[k] + 1);
        }
      } else if !(toks[k].kind == Punct && IsClose(toks[k])) {
        BalancedOneMore(toks, j, k);
        WalkBalanced(toks, pairs, mode, j, k + 1, sawArrow);
        WalkBalanced(toks, pairs, mode, j, k + 1, true);
      }
    }
  }

  lemma {:induction false} QualifiersBalanced(kw: Keywords, toks: seq<Token>, pairs: map<nat, nat>, j: nat, k: nat)
    requires IsBracketMap(toks, pairs) && Balanced(toks, 0, |toks|)
    requires Balanced(toks, j, k)
    ensures SkipQualifiers(kw, toks, pairs, k) <= |toks|
    ensures Balanced(toks, j, SkipQualifiers(kw, toks, pairs, k))
    decreases |toks| - k
  {
    if k < |toks| && toks[k].kind == Ident && toks[k].text in kw.qualifiers {
      PastQualifierBalanced(toks, pairs, k);
      BalancedJoin(toks, j, k, PastQualifier(toks, pairs, k));
      QualifiersBalanced(kw, toks, pairs, j, PastQualifier(toks, pairs, k));
    }
  }

  /** A qualifier's `(`, with its list when it has a partner. */
  lemma ListBalanced(toks: seq<Token>, pairs: map<nat, nat>, k: nat, last: nat)
    requires IsBracketMap(toks, pairs) && Balanced(toks, 0, |toks|)
    requires k < |toks| && toks[k].text == "("
    requires last == if k in pairs then pairs[k] else k
    ensures last < |toks| && Balanced(toks, k, last + 1)
  {
    if k in pairs {
      PartnerOfOpenText(toks, pairs, k);
      BalancedPair(toks, k, last);
    } else {
      if IsOpen(toks[k]) {
        OpenerMatched(toks, pairs, k);
      }
      BalancedToken(toks, k);
    }
  }

  lemma PastQualifierBalanced(toks: seq<Token>, pairs: map<nat, nat>, k: nat)
    requires IsBracketMap(toks, pairs) && Balanced(toks, 0, |toks|)
    requires k < |toks| && toks[k].kind == Ident
    ensures Balanced(toks, k, PastQualifier(toks, pairs, k))
  {
    BalancedToken(toks, k);
    var last := k;
    if toks[k].text == "pub" && k + 1 < |toks| && toks[k + 1].text == "(" {
      last := if k + 1 in pairs then pairs[k + 1] else k + 1;
      ListBalanced(toks, pairs, k + 1, last);
      BalancedJoin(toks, k, k + 1, last + 1);
    }
    if last + 1 < |toks| && toks[last + 1].kind == Lit {
      BalancedOneMore(toks, k, last + 1);
    }
  }

  /** On balanced tokens, whatever starts at `j`, the element found is itself
      balanced, so it never runs past the bracket it stands in. */
  lemma EndStaysInside(kw: Keywords, toks: seq<Token>, pairs: map<nat, nat>, j: nat)
    requires IsBracketMap(toks, pairs) && Balanced(toks, 0, |toks|)
    requires j < |toks|
    ensures j - 1 <= EndOf(kw, toks, pairs, j) < |toks|
    ensures Balanced(toks, j, EndOf(kw, toks, pairs, j) + 1)
    ensures forall o: nat, c: nat | Partner(toks, o, c) && o < j <= c :: EndOf(kw, toks, pairs, j) < c
  {
    var k := SkipQualifiers(kw, toks, pairs, j);
    QualifiersBalanced(kw, toks, pairs, j, j);
    if k < |toks| {
      WalkBalanced(toks, pairs, HeadMode(kw, toks, j, k), j, j, false);
    }
    var end := EndOf(kw, toks, pairs, j);
    forall o: nat, c: nat | Partner(toks, o, c) && o < j <= c ensures end < c {
      BalancedStaysInside(toks, o, c, j, end + 1);
    }
  }

  // ---- exactly where a keyword item ends ---------------------------------

  /** `toks[a..b]` is balanced and holds, outside every bracket, no `;` and,
      when braces end the item, no `{`. */
  ghost predicate OpenStretch(toks: seq<Token>, a: nat, b: nat, mode: Mode) {
    forall end: nat {:trigger EndsStretch(b, end)} :: EndsStretch(b, end) ==> NothingOutside(toks, a, end, mode)
  }

  // The trigger keeps what follows folded where only the joins of stretches matter.
  predicate EndsStretch(b: nat, end: nat) {
    b == end
  }

  lemma Stretched(toks: seq<Token>, a: nat, b: nat, mode: Mode)
    requires NothingOutside(toks, a, b, mode)
    ensures OpenStretch(toks, a, b, mode)
  {
  }

  lemma Unstretched(toks: seq<Token>, a: nat, b: nat, mode: Mode)
    requires OpenStretch(toks, a, b, mode)
    ensures NothingOutside(toks, a, b, mode)
  {
    assert EndsStretch(b, b);
  }

  ghost predicate NothingOutside(toks: seq<Token>, a: nat, b: nat, mode: Mode) {
    && Balanced(toks, a, b)
    && forall m | a <= m < b && Net(toks, a, m) == 0 ::
         !IsPunct(toks[m], ";") && (mode == Brace ==> !IsPunct(toks[m], "{"))
  }

  /** An arrow matters to expressions only. */
  lemma {:induction false} ArrowIrrelevant(toks: seq<Token>, pairs: map<nat, nat>, mode: Mode, k: nat)
    requires IsBracketMap(toks, pairs) && mode != Expr
    ensures Walk(toks, pairs, mode, k, true) == Walk(toks, pairs, mode, k, false)
    decreases if k < |toks| then |toks| - k else 0
  {
    if k < |toks| {
      if k in pairs && IsOpen(toks[k]) {
        PartnerOfOpenText(toks, pairs, k);
        ArrowIrrelevant(toks, pairs, mode, pairs[k] + 1);
      }
      ArrowIrrelevant(toks, pairs, mode, k + 1);
    }
  }

  lemma WalkOverPair(toks: seq<Token>, pairs: map<nat, nat>, mode: Mode, k: nat, c: nat)
    requires IsBracketMap(toks, pairs) && mode != Expr
    requires Partner(toks, k, c) && (mode == Brace ==> !IsPunct(toks[k], "{"))
    ensures Walk(toks, pairs, mode, k, false) == Walk(toks, pairs, mode, c + 1, false)
  {
    PartnerInMap(toks, pairs, k, c);
  }

  lemma WalkOverToken(toks: seq<Token>, pairs: map<nat, nat>, mode: Mode, k: nat)
    requires IsBracketMap(toks, pairs) && mode != Expr
    requires k < |toks| && !IsOpen(toks[k]) && !IsClose(toks[k]) && !IsPunct(toks[k], ";")
    ensures Walk(toks, pairs, mode, k, false) == Walk(toks, pairs, mode, k + 1, false)
  {
    ArrowIrrelevant(toks, pairs, mode, k + 1);
  }

  /** Inside a balanced stretch, the next token outside every bracket. */
  lemma NextOutside(toks: seq<Token>, a: nat, k: nat, b: nat) returns (next: nat)
    requires Balanced(toks, a, b) && a <= k < b && Net(toks, a, k) == 0
    ensures k < next <= b && Net(toks, a, next) == 0
    ensures if IsOpen(toks[k]) then Partner(toks, k, next - 1) else next == k + 1 && !IsClose(toks[k])
  {
    next := k + 1;
    assert Net(toks, a, k + 1) == Net(toks, a, k) + Delta(toks[k]);
    if IsOpen(toks[k]) {
      NetSplit(toks, a, k, b);
      var c := PartnerExists(toks, k, b);
      NetSplit(toks, a, k, c + 1);
      next := c + 1;
    }
  }

  /** The next stop of a walk through an open stretch, and what it stops at. */
  lemma NextStop(toks: seq<Token>, mode: Mode, a: nat, k: nat, b: nat) returns (next: nat)
    requires b <= |toks| && OpenStretch(toks, a, b, mode) && a <= k < b && Net(toks, a, k) == 0
    ensures k < next <= b && Net(toks, a, next) == 0
    ensures if IsOpen(toks[k]) then Partner(toks, k, next - 1) else next == k + 1 && !IsClose(toks[k])
    ensures !IsPunct(toks[k], ";") && (mode == Brace ==> !IsPunct(toks[k], "{"))
  {
    Unstretched(toks, a, b, mode);
    next := NextOutside(toks, a, k, b);
  }

  /** One step of the walk through an open stretch. */
  lemma WalkOn(toks: seq<Token>, pairs: map<nat, nat>, mode: Mode, k: nat, next: nat)
    requires IsBracketMap(toks, pairs) && mode != Expr && k < next <= |toks|
    requires if IsOpen(toks[k]) then Partner(toks, k, next - 1) else next == k + 1 && !IsClose(toks[k])
    requires !IsPunct(toks[k], ";") && (mode == Brace ==> !IsPunct(toks[k], "{"))
    ensures Walk(toks, pairs, mode, k, false) == Walk(toks, pairs, mode, next, false)
  {
    if IsOpen(toks[k]) {
      WalkOverPair(toks, pairs, mode, k, next - 1);
    } else {
      WalkOverToken(toks, pairs, mode, k);
    }
  }

  /** The walk crosses an open stretch whole. */
  lemma {:induction false} WalkThrough(toks: seq<Token>, pairs: map<nat, nat>, mode: Mode, a: nat, k: nat, b: nat)
    requires IsBracketMap(toks, pairs) && mode != Expr
    requires b <= |toks| && OpenStretch(toks, a, b, mode) && a <= k <= b && Net(toks, a, k) == 0
    ensures Walk(toks, pairs, mode, k, false) == Walk(toks, pairs, mode, b, false)
    decreases b - k
  {
    if k < b {
      var next := NextStop(toks, mode, a, k, b);
      WalkOn(toks, pairs, mode, k, next);
      WalkThrough(toks, pairs, mode, a, next, b);
    }
  }

  /** A brace-bodied item ends exactly at the brace that closes its body,
      unless an `else` carries it on. */
  lemma BraceItemEnd(toks: seq<Token>, pairs: map<nat, nat>, j: nat, b: nat, c: nat)
    requires IsBracketMap(toks, pairs)
    requires OpenStretch(toks, j, b, Brace)
    requires b < |toks| && IsPunct(toks[b], "{") && Partner(toks, b, c)
    requires c + 1 < |toks| ==> toks[c + 1] != Token(Ident, "else")
    ensures Walk(toks, pairs, Brace, j, false) == c
  {
    Unstretched(toks, j, b, Brace);
    WalkThrough(toks, pairs, Brace, j, j, b);
    PartnerInMap(toks, pairs, b, c);
  }

  /** A `;` item ends exactly at its first `;` outside every bracket, whatever
      braces come before it when the keyword says so. */
  lemma SemiItemEnd(toks: seq<Token>, pairs: map<nat, nat>, mode: Mode, j: nat, b: nat)
    requires IsBracketMap(toks, pairs) && mode != Expr
    requires OpenStretch(toks, j, b, mode)
    requires b < |toks| && IsPunct(toks[b], ";")
    ensures Walk(toks, pairs, mode, j, false) == b
  {
    Unstretched(toks, j, b, mode);
    WalkThrough(toks, pairs, mode, j, j, b);
  }

  // ---- an `if` chain ---------------------------------------------------------------------

  /** One block of an `if` chain: its braces. */
  datatype Link = Link(open: nat, close: nat)

  /** From `j`, each block's brace is the first outside every bracket since the
      block before; every block but the last has an `else` after it. */
  ghost predicate Chained(toks: seq<Token>, j: nat, links: seq<Link>)
    requires links != []
    decreases |links|
  {
    var b, c := links[0].open, links[0].close;
    && OpenStretch(toks, j, b, Brace) && b < |toks| && IsPunct(toks[b], "{") && Partner(toks, b, c)
    && if |links| == 1 then c + 1 < |toks| ==> toks[c + 1] != Token(Ident, "else")
       else c + 1 < |toks| && toks[c + 1] == Token(Ident, "else") && Chained(toks, c + 1, links[1..])
  }

  /** An `if` chain ends exactly at the brace that closes its last block. */
  lemma {:induction false} ChainEnd(toks: seq<Token>, pairs: map<nat, nat>, j: nat, links: seq<Link>)
    requires IsBracketMap(toks, pairs) && links != [] && Chained(toks, j, links)
    ensures Walk(toks, pairs, Brace, j, false) == links[|links| - 1].close
    decreases |links|
  {
    var b, c := links[0].open, links[0].close;
    if |links| == 1 {
      BraceItemEnd(toks, pairs, j, b, c);
    } else {
      Unstretched(toks, j, b, Brace);
      WalkThrough(toks, pairs, Brace, j, j, b);
      PartnerInMap(toks, pairs, b, c);
      ChainEnd(toks, pairs, c + 1, links[1..]);
    }
  }

  // ---- expressions, fields and arms -----------------------------------------------------------

  /** Outside every bracket no `;`, `,` or brace. */
  ghost predicate Calm(toks: seq<Token>, a: nat, b: nat) {
    && Balanced(toks, a, b)
    && forall m | a <= m < b && Net(toks, a, m) == 0 :: !IsPunct(toks[m], ";") && !IsPunct(toks[m], ",") && !IsPunct(toks[m], "{")
  }

  predicate ArrowAt(toks: seq<Token>, m: nat) {
    m + 1 < |toks| && IsPunct(toks[m], "=") && toks[m + 1].text == ">"
  }

  /** An arm's arrow stands outside every bracket between `k` and `b`. */
  ghost predicate ArrowIn(toks: seq<Token>, a: nat, k: nat, b: nat)
    requires b <= |toks|
  {
    exists m: nat | a <= m < b :: k <= m && Net(toks, a, m) == 0 && ArrowAt(toks, m)
  }

  lemma ExprOver(toks: seq<Token>, pairs: map<nat, nat>, k: nat, next: nat, saw: bool)
    requires IsBracketMap(toks, pairs) && k < next <= |toks|
    requires if IsOpen(toks[k]) then Partner(toks, k, next - 1) else next == k + 1 && !IsClose(toks[k])
    requires !IsPunct(toks[k], ";") && !IsPunct(toks[k], ",") && !IsPunct(toks[k], "{")
    ensures Walk(toks, pairs, Expr, k, saw) == Walk(toks, pairs, Expr, next, saw || ArrowAt(toks, k))
  {
    if IsOpen(toks[k]) {
      PartnerInMap(toks, pairs, k, next - 1);
    }
  }

  lemma ArrowStep(toks: seq<Token>, a: nat, k: nat, next: nat, b: nat)
    requires a <= k < next <= b <= |toks| && Net(toks, a, k) == 0
    requires forall m | k < m < next :: Net(toks, a, m) != 0
    ensures ArrowIn(toks, a, k, b) <==> ArrowAt(toks, k) || ArrowIn(toks, a, next, b)
  {
  }

  lemma NoneBetween(toks: seq<Token>, a: nat, k: nat, next: nat)
    requires a <= k < next <= |toks| && Net(toks, a, k) == 0
    requires if IsOpen(toks[k]) then Partner(toks, k, next - 1) else next == k + 1
    ensures forall m | k < m < next :: Net(toks, a, m) != 0
  {
    forall m | k < m < next ensures Net(toks, a, m) != 0 {
      NetSplit(toks, a, k, m);
    }
  }

  /** The walk crosses a calm stretch whole, noting an arrow in it. */
  lemma {:induction false} ExprThrough(toks: seq<Token>, pairs: map<nat, nat>, a: nat, k: nat, b: nat, saw: bool)
    requires IsBracketMap(toks, pairs) && b <= |toks| && Calm(toks, a, b) && a <= k <= b && Net(toks, a, k) == 0
    ensures Walk(toks, pairs, Expr, k, saw) == Walk(toks, pairs, Expr, b, saw || ArrowIn(toks, a, k, b))
    decreases b - k
  {
    if k < b {
      var next := NextOutside(toks, a, k, b);
      ExprOver(toks, pairs, k, next, saw);
      NoneBetween(toks, a, k, next);
      ArrowStep(toks, a, k, next, b);
      ExprThrough(toks, pairs, a, next, b, saw || ArrowAt(toks, k));
    }
  }

  /** An expression, field or arm with no brace of its own outside brackets ends
      at its `;` or `,`, before the bracket that closes what is around it, or with
      the file. */
  lemma ExprItemEnd(toks: seq<Token>, pairs: map<nat, nat>, j: nat, b: nat)
    requires IsBracketMap(toks, pairs) && j <= b <= |toks| && Calm(toks, j, b)
    ensures b == |toks| ==> Walk(toks, pairs, Expr, j, false) == b - 1
    ensures b < |toks| && (IsPunct(toks[b], ";") || IsPunct(toks[b], ",")) ==> Walk(toks, pairs, Expr, j, false) == b
    ensures b < |toks| && IsClose(toks[b]) ==> Walk(toks, pairs, Expr, j, false) == b - 1
  {
    ExprThrough(toks, pairs, j, j, b, false);
  }

  /** Whether the token after a brace carries an expression on. */
  predicate CarriesOn(t: Token) {
    t.text == "." || t.text == "?" || t == Token(Ident, "as")
  }

  /** At its first brace outside brackets it takes the `;` or `,` after the block,
      goes on past it before a `.`, a `?` or an `as` unless it is an arm, and ends
      with the block otherwise. */
  lemma ExprBlockEnd(toks: seq<Token>, pairs: map<nat, nat>, j: nat, b: nat, c: nat)
    requires IsBracketMap(toks, pairs) && j <= b < |toks| && Calm(toks, j, b)
    requires IsPunct(toks[b], "{") && Partner(toks, b, c)
    ensures var end := Walk(toks, pairs, Expr, j, false); var arm := ArrowIn(toks, j, j, b);
            if c + 1 < |toks| && (toks[c + 1].text == ";" || toks[c + 1].text == ",") then end == c + 1
            else if c + 1 < |toks| && !arm && CarriesOn(toks[c + 1]) then end == Walk(toks, pairs, Expr, c + 1, false)
            else end == c
  {
    ExprThrough(toks, pairs, j, j, b, false);
    PartnerInMap(toks, pairs, b, c);
  }

  // ---- which mode an element is read in --------------------------------------------------------

  /** With no qualifier in front, a `;` keyword, a brace keyword or an opening
      brace, and anything else: the first reads to a `;`, the second to its
      braces, the third as an expression. */
  lemma ModesAre(kw: Keywords, toks: seq<Token>, pairs: map<nat, nat>, j: nat)
    requires IsBracketMap(toks, pairs) && j < |toks| && !(toks[j].kind == Ident && toks[j].text in kw.qualifiers)
    requires !(toks[j] == Token(Ident, "const") && j + 1 < |toks| && FnAfterConst(toks[j + 1].text))
    ensures var word := toks[j].kind == Ident; var t := toks[j].text; var end := EndOf(kw, toks, pairs, j);
            if word && t in kw.semi then end == Walk(toks, pairs, Semi, j, false)
            else if (word && t in kw.brace) || t == "{" then end == Walk(toks, pairs, Brace, j, false)
            else end == Walk(toks, pairs, Expr, j, false)
  {
  }

  /** Qualifiers and then no keyword, as in `unsafe { .. }`: read to its braces;
      qualifiers to the end of the file: to the end. */
  lemma QualifiedModes(kw: Keywords, toks: seq<Token>, pairs: map<nat, nat>, j: nat, k: nat)
    requires IsBracketMap(toks, pairs) && SkipQualifiers(kw, toks, pairs, j) == k > j
    ensures k >= |toks| ==> EndOf(kw, toks, pairs, j) == |toks| - 1
    ensures k < |toks| && toks[k].kind != Ident ==> EndOf(kw, toks, pairs, j) == Walk(toks, pairs, Brace, j, false)
  {
  }

  /** At an opener that nothing closes an element ends with the file, whichever
      rule it is read by. */
  lemma UnclosedEnd(toks: seq<Token>, pairs: map<nat, nat>, mode: Mode, j: nat, b: nat)
    requires IsBracketMap(toks, pairs) && j <= b < |toks| && IsOpen(toks[b]) && b !in pairs
    requires if mode == Expr then Calm(toks, j, b) else OpenStretch(toks, j, b, mode)
    ensures Walk(toks, pairs, mode, j, false) == |toks| - 1
  {
    if mode == Expr {
      ExprThrough(toks, pairs, j, j, b, false);
    } else {
      WalkThrough(toks, pairs, mode, j, j, b);
    }
  }
}
