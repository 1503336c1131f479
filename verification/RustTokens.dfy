/**
 Tokens of Rust source and the bracket map over them
 (`_match_brackets` in scripts/ci-mutants-summary.py).

 The three bracket shapes are one kind of nesting here, as in the source: a
 closer takes whatever opener is on top of the stack.
 */
module RustTokens {
  datatype Kind = Ident | Lit | Punct

  /** One token, without its place in the file. */
  datatype Token = Token(kind: Kind, text: string)

  /** A token and where it starts: 1-indexed line and column. */
  datatype Lexeme = Lexeme(tok: Token, line: nat, col: nat)

  function Toks(lexemes: seq<Lexeme>): (toks: seq<Token>)
    ensures |toks| == |lexemes|
    ensures forall k | 0 <= k < |toks| :: toks[k] == lexemes[k].tok
  {
    seq(|lexemes|, k requires 0 <= k < |lexemes| => lexemes[k].tok)
  }

  predicate IsOpen(t: Token) {
    t.kind == Punct && (t.text == "(" || t.text == "[" || t.text == "{")
  }

  predicate IsClose(t: Token) {
    t.kind == Punct && (t.text == ")" || t.text == "]" || t.text == "}")
  }

  predicate IsPunct(t: Token, s: string) {
    t.kind == Punct && t.text == s
  }

  function Delta(t: Token): int {
    if IsOpen(t) then 1 else if IsClose(t) then -1 else 0
  }

  /** Openers minus closers in `toks[a..b]`. */
  function Net(toks: seq<Token>, a: nat, b: nat): int
    requires b <= |toks|
    decreases b
  {
    if a >= b then 0 else Net(toks, a, b - 1) + Delta(toks[b - 1])
  }

  /** `c` is where the nesting that `o` opens first returns to nothing: the
      meaning of "the partner of `o`", with no reference to any scan. */
  ghost predicate Partner(toks: seq<Token>, o: nat, c: nat) {
    && o < c < |toks|
    && IsOpen(toks[o])
    && Net(toks, o, c + 1) == 0
    && forall m | o < m <= c :: Net(toks, o, m) > 0
  }

  predicate Linked(pairs: map<nat, nat>, a: nat, b: nat) {
    a in pairs && pairs[a] == b
  }

  /** `pairs` holds exactly the partner relation, read both ways. */
  ghost predicate IsBracketMap(toks: seq<Token>, pairs: map<nat, nat>) {
    forall a: nat, b: nat {:trigger Linked(pairs, a, b)} ::
      Linked(pairs, a, b) <==> (Partner(toks, a, b) || Partner(toks, b, a))
  }

  lemma PartnerInMap(toks: seq<Token>, pairs: map<nat, nat>, o: nat, c: nat)
    requires IsBracketMap(toks, pairs) && Partner(toks, o, c)
    ensures o in pairs && pairs[o] == c && c in pairs && pairs[c] == o
  {
    assert Linked(pairs, o, c) && Linked(pairs, c, o);
  }

  lemma MapHoldsPartner(toks: seq<Token>, pairs: map<nat, nat>, a: nat)
    requires IsBracketMap(toks, pairs) && a in pairs
    ensures Partner(toks, a, pairs[a]) || Partner(toks, pairs[a], a)
  {
    assert Linked(pairs, a, pairs[a]);
  }

  lemma NetSplit(toks: seq<Token>, a: nat, b: nat, c: nat)
    requires a <= b <= c <= |toks|
    ensures Net(toks, a, c) == Net(toks, a, b) + Net(toks, b, c)
  {
    if b < c {
      NetSplit(toks, a, b, c - 1);
    }
  }

  /** Nesting moves by at most one a token, so a level it leaves for zero is
      left at a first token: an opener whose nesting ever returns has a partner. */
  lemma PartnerExists(toks: seq<Token>, o: nat, m: nat) returns (c: nat)
    requires o < m <= |toks| && IsOpen(toks[o])
    requires Net(toks, o, m) <= 0
    ensures Partner(toks, o, c) && c < m
    decreases m
  {
    assert Net(toks, o, o + 1) == Net(toks, o, o) + 1;
    if forall k | o < k < m :: Net(toks, o, k) > 0 {
      c := m - 1;
    } else {
      var k :| o < k < m && Net(toks, o, k) <= 0;
      c := PartnerExists(toks, o, k);
    }
  }

  /** One opener has one partner, and one closer is the partner of one opener. */
  lemma PartnerUnique(toks: seq<Token>, o: nat, c: nat, o': nat, c': nat)
    requires Partner(toks, o, c) && Partner(toks, o', c')
    ensures o == o' <==> c == c'
    ensures o != c'
  {
    PartnerEndsClosed(toks, o, c);
    PartnerEndsClosed(toks, o', c');
    if o == o' {
      PartnerLeast(toks, o, c, c' + 1);
      PartnerLeast(toks, o, c', c + 1);
    } else if c == c' && o < o' {
      InnerNonPositive(toks, o, c, o');
    } else if c == c' && o' < o {
      InnerNonPositive(toks, o', c, o);
    }
  }

  lemma PartnerLeast(toks: seq<Token>, o: nat, c: nat, m: nat)
    requires Partner(toks, o, c) && o < m <= |toks| && Net(toks, o, m) <= 0
    ensures c < m
  {
  }

  lemma PartnerEndsClosed(toks: seq<Token>, o: nat, c: nat)
    requires Partner(toks, o, c)
    ensures IsClose(toks[c])
  {
    assert Net(toks, o, c) > 0;
  }

  /** From any point strictly inside a matched pair to its close, nesting falls. */
  lemma InnerNonPositive(toks: seq<Token>, o: nat, c: nat, m: nat)
    requires Partner(toks, o, c) && o < m <= c
    ensures Net(toks, m, c + 1) < 0
  {
    NetSplit(toks, o, m, c + 1);
  }

  /** Before token `k`: the stack holds the openers whose nesting has not yet
      returned, outermost first. */
  ghost predicate StackAt(toks: seq<Token>, stack: seq<nat>, k: nat)
    requires k <= |toks|
  {
    && (forall i | 0 <= i < |stack| :: stack[i] < k && IsOpen(toks[stack[i]]) && Net(toks, stack[i], k) == |stack| - i)
    && (forall i, m | 0 <= i < |stack| && stack[i] < m <= k :: Net(toks, stack[i], m) > 0)
  }

  /** Before token `k`: every opener is on the stack or paired, and what is
      paired is a partner. */
  ghost predicate PairsAt(toks: seq<Token>, pairs: map<nat, nat>, stack: seq<nat>, k: nat)
    requires k <= |toks|
  {
    && (forall o | 0 <= o < k && IsOpen(toks[o]) && o !in stack :: o in pairs)
    && (forall a | a in pairs :: a < k && pairs[a] in pairs && pairs[pairs[a]] == a)
    && (forall a | a in pairs :: Partner(toks, a, pairs[a]) || Partner(toks, pairs[a], a))
  }

  lemma StackPush(toks: seq<Token>, stack: seq<nat>, k: nat)
    requires k < |toks| && IsOpen(toks[k]) && StackAt(toks, stack, k)
    ensures StackAt(toks, stack + [k], k + 1)
  {
    assert Net(toks, k, k + 1) == Net(toks, k, k) + 1;
    assert forall i | 0 <= i < |stack| :: Net(toks, stack[i], k + 1) == Net(toks, stack[i], k) + 1;
  }

  lemma StackPop(toks: seq<Token>, stack: seq<nat>, k: nat)
    requires k < |toks| && IsClose(toks[k]) && |stack| > 0 && StackAt(toks, stack, k)
    ensures StackAt(toks, stack[..|stack| - 1], k + 1)
    ensures Partner(toks, stack[|stack| - 1], k)
    ensures stack[|stack| - 1] !in stack[..|stack| - 1]
  {
    assert forall i | 0 <= i < |stack| :: Net(toks, stack[i], k + 1) == Net(toks, stack[i], k) - 1;
  }

  lemma StackKeep(toks: seq<Token>, stack: seq<nat>, k: nat)
    requires k < |toks| && !IsOpen(toks[k]) && (!IsClose(toks[k]) || stack == []) && StackAt(toks, stack, k)
    ensures StackAt(toks, stack, k + 1)
  {
    assert forall i | 0 <= i < |stack| :: Net(toks, stack[i], k + 1) == Net(toks, stack[i], k);
  }

  lemma PairsPop(toks: seq<Token>, pairs: map<nat, nat>, stack: seq<nat>, k: nat, o: nat)
    requires k < |toks| && IsClose(toks[k]) && PairsAt(toks, pairs, stack, k)
    requires |stack| > 0 && o == stack[|stack| - 1] && Partner(toks, o, k)
    ensures PairsAt(toks, pairs[o := k][k := o], stack[..|stack| - 1], k + 1)
  {
    assert o in pairs ==> pairs[o] < k;
    if o in pairs && Partner(toks, o, pairs[o]) {
      PartnerUnique(toks, o, k, o, pairs[o]);
    } else if o in pairs {
      PartnerEndsClosed(toks, pairs[o], o);
    }
    assert o !in pairs && k !in pairs;
    forall o' | 0 <= o' < k + 1 && IsOpen(toks[o']) && o' !in stack[..|stack| - 1]
      ensures o' in pairs[o := k][k := o]
    {
      assert o' in stack ==> o' == o;
    }
  }

  /** The stack-and-dictionary walk. */
  method MatchBrackets(toks: seq<Token>) returns (pairs: map<nat, nat>)
    ensures IsBracketMap(toks, pairs)
  {
    pairs := map[];
    var stack: seq<nat> := [];
    var k := 0;
    while k < |toks|
      invariant 0 <= k <= |toks|
      invariant StackAt(toks, stack, k)
      invariant PairsAt(toks, pairs, stack, k)
    {
      if IsOpen(toks[k]) {
        StackPush(toks, stack, k);
        stack := stack + [k];
      } else if IsClose(toks[k]) && |stack| > 0 {
        StackPop(toks, stack, k);
        PairsPop(toks, pairs, stack, k, stack[|stack| - 1]);
        var o := stack[|stack| - 1];
        stack := stack[..|stack| - 1];
        pairs := pairs[o := k][k := o];
      } else {
        StackKeep(toks, stack, k);
      }
      k := k + 1;
    }
    WalkIsMap(toks, pairs, stack);
  }

  lemma WalkIsMap(toks: seq<Token>, pairs: map<nat, nat>, stack: seq<nat>)
    requires StackAt(toks, stack, |toks|) && PairsAt(toks, pairs, stack, |toks|)
    ensures IsBracketMap(toks, pairs)
  {
    forall a: nat, b: nat
      ensures Linked(pairs, a, b) <==> (Partner(toks, a, b) || Partner(toks, b, a))
    {
      if Partner(toks, a, b) {
        PartnerFound(toks, pairs, stack, a, b);
      }
      if Partner(toks, b, a) {
        PartnerFound(toks, pairs, stack, b, a);
      }
    }
  }

  /** At the end of the walk a partnered opener is in the map, at its partner:
      it cannot still be on the stack, because there nesting never returned. */
  lemma PartnerFound(toks: seq<Token>, pairs: map<nat, nat>, stack: seq<nat>, o: nat, c: nat)
    requires Partner(toks, o, c)
    requires StackAt(toks, stack, |toks|) && PairsAt(toks, pairs, stack, |toks|)
    ensures o in pairs && pairs[o] == c && c in pairs && pairs[c] == o
  {
    assert Net(toks, o, c + 1) == 0;
    assert o !in stack;
    if Partner(toks, pairs[o], o) {
      PartnerEndsClosed(toks, pairs[o], o);
    } else {
      PartnerUnique(toks, o, c, o, pairs[o]);
    }
  }

  // ---- what the map promises, for any token list -------------------------

  /** The map is an involution without fixed points: read twice it gives the
      token back, and a bracket is never its own partner. */
  lemma BracketMapInvolution(toks: seq<Token>, pairs: map<nat, nat>, a: nat)
    requires IsBracketMap(toks, pairs) && a in pairs
    ensures a < |toks| && pairs[a] < |toks| && pairs[a] != a
    ensures pairs[a] in pairs && pairs[pairs[a]] == a
    ensures if a < pairs[a] then IsOpen(toks[a]) && IsClose(toks[pairs[a]]) else IsClose(toks[a]) && IsOpen(toks[pairs[a]])
  {
    var b := pairs[a];
    MapHoldsPartner(toks, pairs, a);
    if Partner(toks, a, b) {
      PartnerEndsClosed(toks, a, b);
      PartnerInMap(toks, pairs, a, b);
    } else {
      PartnerEndsClosed(toks, b, a);
      PartnerInMap(toks, pairs, b, a);
    }
  }

  /** Pairs never cross: a bracket inside a matched pair is itself matched,
      and its partner is inside the same pair. */
  lemma BracketMapNested(toks: seq<Token>, pairs: map<nat, nat>, o: nat, k: nat)
    requires IsBracketMap(toks, pairs)
    requires o in pairs && o < k < pairs[o] && k < |toks|
    requires IsOpen(toks[k]) || IsClose(toks[k])
    ensures k in pairs && o < pairs[k] < pairs[o]
  {
    var c := pairs[o];
    MapHoldsPartner(toks, pairs, o);
    if IsOpen(toks[k]) {
      NetSplit(toks, o, k, c);
      NetSplit(toks, o, k, c + 1);
      InnerNonPositive(toks, o, c, k);
      PartnerEndsClosed(toks, o, c);
      var d := PartnerExists(toks, k, c + 1);
      if d == c { PartnerUnique(toks, o, c, k, d); }
      PartnerInMap(toks, pairs, k, d);
    } else {
      var p := OpenerExists(toks, o, k);
      PartnerInMap(toks, pairs, p, k);
    }
  }

  /** The last point before `k` with the nesting `k` closes is its opener. */
  lemma OpenerExists(toks: seq<Token>, o: nat, k: nat) returns (p: nat)
    requires o < k < |toks| && IsOpen(toks[o]) && IsClose(toks[k])
    requires forall m | o < m <= k + 1 :: Net(toks, o, m) > 0
    ensures o < p < k && Partner(toks, p, k)
  {
    var level := Net(toks, o, k + 1);
    p := k;
    assert Net(toks, o, o + 1) == Net(toks, o, o) + 1;
    while Net(toks, o, p) > level
      invariant o < p <= k
      invariant forall m | p < m <= k :: Net(toks, o, m) > level
      invariant Net(toks, o, p) >= level
      invariant p < k ==> IsOpen(toks[p]) || Net(toks, o, p) > level
      decreases p
    {
      assert Net(toks, o, p) == Net(toks, o, p - 1) + Delta(toks[p - 1]);
      p := p - 1;
    }
    assert Net(toks, o, p + 1) == Net(toks, o, p) + Delta(toks[p]);
    forall m | p < m <= k + 1 ensures Net(toks, p, m) == Net(toks, o, m) - level {
      NetSplit(toks, o, p, m);
    }
  }

  // ---- a token list found inside another ---------------------------------

  predicate Here(part: seq<Token>, i: nat) {
    i < |part|
  }

  /** `part` stands at index `k` of `toks`. */
  ghost predicate At(toks: seq<Token>, k: nat, part: seq<Token>) {
    && k + |part| <= |toks|
    && forall i: nat {:trigger Here(part, i)} :: Here(part, i) ==> toks[k + i] == part[i]
  }

  lemma AtIndex(toks: seq<Token>, k: nat, part: seq<Token>, i: nat)
    requires At(toks, k, part) && i < |part|
    ensures toks[k + i] == part[i]
  {
    assert Here(part, i);
  }

  lemma AtSplit(toks: seq<Token>, k: nat, a: seq<Token>, b: seq<Token>)
    requires At(toks, k, a + b)
    ensures At(toks, k, a) && At(toks, k + |a|, b)
  {
    forall i: nat | Here(a, i) ensures toks[k + i] == a[i] {
      assert Here(a + b, i);
    }
    forall i: nat | Here(b, i) ensures toks[k + |a| + i] == b[i] {
      assert Here(a + b, |a| + i);
    }
  }

  lemma AtWhole(toks: seq<Token>)
    ensures At(toks, 0, toks)
  {
  }

  lemma AtTail(toks: seq<Token>, k: nat, part: seq<Token>)
    requires At(toks, k, part) && |part| > 0
    ensures toks[k] == part[0] && At(toks, k + 1, part[1..])
  {
    AtIndex(toks, k, part, 0);
    forall i: nat | Here(part[1..], i) ensures toks[k + 1 + i] == part[1..][i] {
      assert Here(part, 1 + i);
    }
  }

  lemma AtSplit3(toks: seq<Token>, k: nat, a: seq<Token>, b: seq<Token>, c: seq<Token>)
    requires At(toks, k, a + b + c)
    ensures At(toks, k, a) && At(toks, k + |a|, b) && At(toks, k + |a| + |b|, c)
  {
    AtSplit(toks, k, a + b, c);
    AtSplit(toks, k, a, b);
  }

  lemma NetAt(toks: seq<Token>, k: nat, part: seq<Token>, a: nat, b: nat)
    requires At(toks, k, part) && a <= b <= |part|
    ensures Net(toks, k + a, k + b) == Net(part, a, b)
  {
    if a < b {
      NetAt(toks, k, part, a, b - 1);
      AtIndex(toks, k, part, b - 1);
    }
  }

  // ---- balanced stretches ------------------------------------------------

  /** `toks[a..b]` closes everything it opens and nothing else. */
  ghost predicate Balanced(toks: seq<Token>, a: nat, b: nat) {
    && a <= b <= |toks|
    && Net(toks, a, b) == 0
    && forall m | a <= m <= b :: Net(toks, a, m) >= 0
  }

  lemma BalancedJoin(toks: seq<Token>, a: nat, b: nat, c: nat)
    requires Balanced(toks, a, b) && Balanced(toks, b, c)
    ensures Balanced(toks, a, c)
  {
    forall m | a <= m <= c ensures Net(toks, a, m) >= 0 && (m == c ==> Net(toks, a, m) == 0) {
      if m >= b {
        NetSplit(toks, a, b, m);
      }
    }
  }

  lemma BalancedToken(toks: seq<Token>, a: nat)
    requires a < |toks| && !IsOpen(toks[a]) && !IsClose(toks[a])
    ensures Balanced(toks, a, a + 1)
  {
    assert Net(toks, a, a + 1) == Net(toks, a, a) + Delta(toks[a]);
  }

  lemma BalancedPair(toks: seq<Token>, o: nat, c: nat)
    requires Partner(toks, o, c)
    ensures Balanced(toks, o, c + 1)
  {
  }

  /** A balanced stretch between an opener and a closer makes them partners. */
  lemma PartnerOf(toks: seq<Token>, o: nat, c: nat)
    requires o < c < |toks| && IsOpen(toks[o]) && IsClose(toks[c])
    requires Balanced(toks, o + 1, c)
    ensures Partner(toks, o, c)
  {
    assert Net(toks, o, o + 1) == Net(toks, o, o) + 1;
    forall m | o < m <= c ensures Net(toks, o, m) > 0 {
      NetSplit(toks, o, o + 1, m);
    }
    NetSplit(toks, o, o + 1, c);
  }

  /** In a balanced list every opener has its partner. */
  lemma OpenerMatched(toks: seq<Token>, pairs: map<nat, nat>, o: nat)
    requires IsBracketMap(toks, pairs) && Balanced(toks, 0, |toks|)
    requires o < |toks| && IsOpen(toks[o])
    ensures o in pairs && Partner(toks, o, pairs[o])
  {
    NetSplit(toks, 0, o, |toks|);
    var c := PartnerExists(toks, o, |toks|);
    PartnerInMap(toks, pairs, o, c);
  }

  /** A balanced stretch that starts inside a matched pair ends inside it. */
  lemma BalancedStaysInside(toks: seq<Token>, o: nat, c: nat, a: nat, b: nat)
    requires Partner(toks, o, c) && o < a <= c
    requires Balanced(toks, a, b)
    ensures b <= c
  {
    if c < b {
      InnerNonPositive(toks, o, c, a);
    }
  }
}
