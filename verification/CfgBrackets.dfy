/**
 Printed items are well bracketed, and what that gives at a place in a file:
 balance, partners, and the braces still open.
 */
module CfgBrackets {
  import opened RustTokens
  import opened CfgPredicate
  import opened ItemEnd
  import opened CfgSpans
  import opened CfgItems

  // ---- printed pieces are well bracketed ----------------------------------

  lemma {:induction false} WellBracketedConcat(a: seq<Token>, open: seq<string>, b: seq<Token>, rest: seq<string>)
    requires WellBracketed(a, open) && WellBracketed(b, rest)
    ensures WellBracketed(a + b, open + rest)
    decreases |a|
  {
    if a == [] {
      assert a + b == b && open + rest == rest;
    } else {
      assert (a + b)[1..] == a[1..] + b;
      if IsOpen(a[0]) {
        assert [a[0].text] + (open + rest) == [a[0].text] + open + rest;
        WellBracketedConcat(a[1..], [a[0].text] + open, b, rest);
      } else if IsClose(a[0]) {
        assert (open + rest)[1..] == open[1..] + rest;
        WellBracketedConcat(a[1..], open[1..], b, rest);
      } else {
        WellBracketedConcat(a[1..], open, b, rest);
      }
    }
  }

  lemma ClosedIntro(p: seq<Token>)
    requires WellBracketed(p, [])
    ensures Closed(p)
  {
  }

  lemma ClosedElim(p: seq<Token>)
    requires Closed(p)
    ensures WellBracketed(p, [])
  {
    assert Unfolded(p, []);
  }

  lemma ClosedWrap(open: string, p: seq<Token>, close: string)
    requires Closed(p) && Closes(open, close)
    ensures Closed([Sign(open)] + p + [Sign(close)])
  {
    ClosedElim(p);
    var closing := [Sign(close)];
    assert closing[1..] == [];
    assert WellBracketed(closing, [open]);
    assert [] + [open] == [open];
    WellBracketedConcat(p, [], closing, [open]);
    var all := [Sign(open)] + p + closing;
    assert all[1..] == p + closing;
    assert [open] + [] == [open];
    ClosedIntro(all);
  }

  lemma ClosedWord(t: Token)
    requires !IsOpen(t) && !IsClose(t)
    ensures Closed([t])
  {
    assert [t][1..] == [];
    ClosedIntro([t]);
  }

  lemma ClosedPair(a: seq<Token>, b: seq<Token>)
    requires Closed(a) && Closed(b)
    ensures Closed(a + b)
  {
    var none: seq<string> := [];
    assert none + none == none;
    ClosedElim(a);
    ClosedElim(b);
    WellBracketedConcat(a, [], b, []);
    ClosedIntro(a + b);
  }

  lemma CallBracketed(name: string, args: seq<Token>)
    requires Closed(args)
    ensures Closed([Word(name), Sign("(")] + args + [Sign(")")])
  {
    ClosedWrap("(", args, ")");
    ClosedWord(Word(name));
    ClosedPair([Word(name)], [Sign("(")] + args + [Sign(")")]);
    assert [Word(name)] + ([Sign("(")] + args + [Sign(")")]) == [Word(name), Sign("(")] + args + [Sign(")")];
  }

  lemma {:induction false} PredBracketed(p: Pred)
    ensures Closed(Print(p))
    decreases p, 0
  {
    match p {
      case All(ps) =>
        PredsBracketed(ps);
        CallBracketed("all", PrintList(ps));
      case Any(ps) =>
        PredsBracketed(ps);
        CallBracketed("any", PrintList(ps));
      case Not(q) =>
        PredBracketed(q);
        CallBracketed("not", Print(q));
      case Name(name) =>
        ClosedWord(Word(name));
      case KeyVal(key, value) =>
        var lit := Token(Lit, "\"" + value + "\"");
        ClosedWord(Word(key));
        ClosedWord(Sign("="));
        ClosedWord(lit);
        ClosedPair([Sign("=")], [lit]);
        ClosedPair([Word(key)], [Sign("=")] + [lit]);
        assert Print(p) == [Word(key)] + ([Sign("=")] + [lit]);
    }
  }

  lemma {:induction false} PredsBracketed(ps: seq<Pred>)
    ensures Closed(PrintList(ps))
    decreases ps, 1
  {
    if |ps| == 0 {
    } else if |ps| == 1 {
      PredBracketed(ps[0]);
    } else {
      PredBracketed(ps[0]);
      PredsBracketed(ps[1..]);
      ClosedWord(Sign(","));
      ClosedPair(Print(ps[0]), [Sign(",")]);
      ClosedPair(Print(ps[0]) + [Sign(",")], PrintList(ps[1..]));
    }
  }

  lemma QualBracketed(kw: Keywords, q: Qual)
    requires QualOk(kw, q)
    ensures Closed(PrintQual(q))
  {
    match q {
      case Plain(word) => ClosedWord(Word(word));
      case Restricted(inner) => CallBracketed("pub", inner);
      case Abi(word, lit) =>
        ClosedWord(Word(word));
        ClosedWord(Token(Lit, lit));
        ClosedPair([Word(word)], [Token(Lit, lit)]);
        assert PrintQual(q) == [Word(word)] + [Token(Lit, lit)];
    }
  }

  lemma {:induction false} QualsBracketed(kw: Keywords, quals: seq<Qual>)
    requires QualsOk(kw, quals)
    ensures Closed(PrintQuals(quals))
  {
    if quals != [] {
      QualBracketed(kw, quals[0]);
      QualsBracketed(kw, quals[1..]);
      ClosedPair(PrintQual(quals[0]), PrintQuals(quals[1..]));
    }
  }

  lemma AttrBodyBracketed(a: Attr)
    requires AttrOk(a)
    ensures Closed(AttrBody(a))
  {
    if a.CfgAttr? {
      PredBracketed(a.p);
      CallBracketed("cfg", Print(a.p));
    }
  }

  lemma AttrBracketed(a: Attr, inner: bool)
    requires AttrOk(a)
    ensures Closed(PrintAttr(a, inner))
  {
    var list := [Sign("[")] + AttrBody(a) + [Sign("]")];
    AttrBodyBracketed(a);
    ClosedWrap("[", AttrBody(a), "]");
    ClosedWord(Sign("#"));
    ClosedWord(Sign("!"));
    if inner {
      ClosedPair([Sign("!")], list);
      ClosedPair([Sign("#")], [Sign("!")] + list);
      assert PrintAttr(a, inner) == [Sign("#")] + ([Sign("!")] + list);
    } else {
      ClosedPair([Sign("#")], list);
      assert PrintAttr(a, inner) == [Sign("#")] + list;
    }
  }

  lemma {:induction false} AttrsBracketed(attrs: seq<Attr>, inner: bool)
    requires AttrsOk(attrs)
    ensures Closed(PrintAttrs(attrs, inner))
  {
    if attrs != [] {
      AttrBracketed(attrs[0], inner);
      AttrsBracketed(attrs[1..], inner);
      ClosedPair(PrintAttr(attrs[0], inner), PrintAttrs(attrs[1..], inner));
    }
  }

  lemma HeadBracketed(kw: Keywords, item: Item)
    requires HeadOk(kw, item)
    ensures Closed(PrintHead(item))
  {
    var _ := HeadFacts(kw, item);
    QualsBracketed(kw, item.quals);
    ClosedWord(Word(item.keyword));
    ClosedPair(PrintQuals(item.quals), [Word(item.keyword)]);
    ClosedPair(PrintQuals(item.quals) + [Word(item.keyword)], item.rest);
  }

  lemma {:induction false} ElemBracketed(kw: Keywords, e: Elem)
    requires ElemOk(kw, e)
    ensures Closed(PrintElem(e))
    decreases e, 1
  {
    if e.Nested? {
      ItemBracketed(kw, e.item);
    }
  }

  lemma {:induction false} ItemBracketed(kw: Keywords, item: Item)
    requires ItemOk(kw, item)
    ensures Closed(PrintItem(item))
    decreases item, 0
  {
    AttrsBracketed(item.attrs, false);
    HeadBracketed(kw, item);
    var tail := [Sign(";")];
    if item.Leaf? {
      ClosedWord(Sign(";"));
    } else {
      BodyBracketed(kw, item);
      tail := [Sign("{")] + (PrintAttrs(item.inner, true) + (PrintElems(item.body) + [Sign("}")]));
      assert tail == [Sign("{")] + (PrintAttrs(item.inner, true) + PrintElems(item.body)) + [Sign("}")];
      ClosedWrap("{", PrintAttrs(item.inner, true) + PrintElems(item.body), "}");
    }
    ClosedPair(PrintHead(item), tail);
    ClosedPair(PrintAttrs(item.attrs, false), PrintHead(item) + tail);
  }

  lemma {:induction false} BodyBracketed(kw: Keywords, item: Item)
    requires ItemOk(kw, item) && item.Block?
    ensures Closed(PrintAttrs(item.inner, true) + PrintElems(item.body))
    decreases item.body, 3
  {
    AttrsBracketed(item.inner, true);
    ElemsBracketed(kw, item.body);
    ClosedPair(PrintAttrs(item.inner, true), PrintElems(item.body));
  }

  lemma {:induction false} ElemsBracketed(kw: Keywords, elems: seq<Elem>)
    requires ElemsOk(kw, elems)
    ensures Closed(PrintElems(elems))
    decreases elems, 2
  {
    if elems != [] {
      ElemBracketed(kw, elems[0]);
      ElemsBracketed(kw, elems[1..]);
      ClosedPair(PrintElem(elems[0]), PrintElems(elems[1..]));
    }
  }

  // ---- what well bracketed means at a place in the file --------------------

  /** Closing `|open|` brackets and no more: nesting ends that far down and
      never goes lower. */
  lemma {:induction false} WellBracketedNet(p: seq<Token>, open: seq<string>)
    requires WellBracketed(p, open)
    ensures Net(p, 0, |p|) == -|open|
    ensures forall m | 0 <= m <= |p| :: Net(p, 0, m) >= -|open|
    decreases |p|
  {
    if p != [] {
      var inner := if IsOpen(p[0]) then [p[0].text] + open else if IsClose(p[0]) then open[1..] else open;
      WellBracketedNet(p[1..], inner);
      AtWhole(p);
      AtTail(p, 0, p);
      assert Net(p, 0, 1) == Net(p, 0, 0) + Delta(p[0]);
      forall m | 0 <= m <= |p|
        ensures Net(p, 0, m) >= -|open| && (m == |p| ==> Net(p, 0, m) == -|open|)
      {
        if m > 0 {
          NetSplit(p, 0, 1, m);
          NetAt(p, 1, p[1..], 0, m - 1);
        }
      }
    }
  }

  lemma BalancedSeq(p: seq<Token>)
    requires Closed(p)
    ensures Balanced(p, 0, |p|)
  {
    ClosedElim(p);
    WellBracketedNet(p, []);
  }

  lemma BalancedMoved(toks: seq<Token>, k: nat, p: seq<Token>)
    requires At(toks, k, p) && Balanced(p, 0, |p|)
    ensures Balanced(toks, k, k + |p|)
  {
    forall m | k <= m <= k + |p| ensures Net(toks, k, m) >= 0 {
      NetAt(toks, k, p, 0, m - k);
      assert Net(p, 0, m - k) >= 0;
    }
    NetAt(toks, k, p, 0, |p|);
  }

  lemma BalancedAt(toks: seq<Token>, k: nat, p: seq<Token>)
    requires At(toks, k, p) && Closed(p)
    ensures Balanced(toks, k, k + |p|)
  {
    BalancedSeq(p);
    BalancedMoved(toks, k, p);
  }

  function CountBraces(open: seq<string>): nat {
    if open == [] then 0 else (if open[0] == "{" then 1 else 0) + CountBraces(open[1..])
  }

  /** Past a well-bracketed stretch the open braces are those before it. */
  lemma {:induction false} BraceStackAt(toks: seq<Token>, k: nat, p: seq<Token>, open: seq<string>, base: seq<nat>)
    requires At(toks, k, p) && WellBracketed(p, open)
    requires |BraceStack(toks, k)| == |base| + CountBraces(open) && base <= BraceStack(toks, k)
    ensures BraceStack(toks, k + |p|) == base
    decreases |p|
  {
    if p != [] {
      AtTail(toks, k, p);
      var inner := if IsOpen(p[0]) then [p[0].text] + open else if IsClose(p[0]) then open[1..] else open;
      if IsOpen(p[0]) {
        assert inner[1..] == open;
      }
      BraceStackAt(toks, k + 1, p[1..], inner, base);
    }
  }

  lemma EnclosingAt(toks: seq<Token>, k: nat, p: seq<Token>)
    requires At(toks, k, p) && Closed(p)
    ensures BraceStack(toks, k + |p|) == BraceStack(toks, k)
  {
    ClosedElim(p);
    BraceStackAt(toks, k, p, [], BraceStack(toks, k));
  }

  lemma OpenStretchJoin(toks: seq<Token>, a: nat, b: nat, c: nat, mode: Mode)
    requires OpenStretch(toks, a, b, mode) && OpenStretch(toks, b, c, mode)
    ensures OpenStretch(toks, a, c, mode)
  {
    Unstretched(toks, a, b, mode);
    Unstretched(toks, b, c, mode);
    BalancedJoin(toks, a, b, c);
    forall m | a <= m < c && Net(toks, a, m) == 0
      ensures !IsPunct(toks[m], ";") && (mode == Brace ==> !IsPunct(toks[m], "{"))
    {
      if m >= b {
        NetSplit(toks, a, b, m);
      }
    }
    Stretched(toks, a, c, mode);
  }

  lemma OutsideAt(toks: seq<Token>, k: nat, p: seq<Token>, mode: Mode, m: nat)
    requires At(toks, k, p) && NothingOutside(p, 0, |p|, mode) && m < |p| && k + m < |toks|
    requires Net(p, 0, m) == 0
    ensures !IsPunct(toks[k + m], ";") && (mode == Brace ==> !IsPunct(toks[k + m], "{"))
  {
    AtIndex(toks, k, p, m);
  }

  lemma StretchMoved(toks: seq<Token>, k: nat, p: seq<Token>, mode: Mode)
    requires At(toks, k, p) && NothingOutside(p, 0, |p|, mode) && Balanced(toks, k, k + |p|)
    ensures NothingOutside(toks, k, k + |p|, mode)
  {
    forall m | k <= m < k + |p| && Net(toks, k, m) == 0
      ensures !IsPunct(toks[m], ";") && (mode == Brace ==> !IsPunct(toks[m], "{"))
    {
      var i := m - k;
      assert k + i == m;
      NetAt(toks, k, p, 0, i);
      OutsideAt(toks, k, p, mode, i);
    }
  }

  lemma OpenStretchAt(toks: seq<Token>, k: nat, p: seq<Token>, mode: Mode)
    requires At(toks, k, p) && OpenStretch(p, 0, |p|, mode)
    ensures OpenStretch(toks, k, k + |p|, mode)
  {
    Unstretched(p, 0, |p|, mode);
    BalancedMoved(toks, k, p);
    StretchMoved(toks, k, p, mode);
    Stretched(toks, k, k + |p|, mode);
  }
}
