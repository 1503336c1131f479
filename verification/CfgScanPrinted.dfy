/**
 Scanning the printed tokens of a tree makes exactly the marks read off the
 tree, so the scan excludes exactly what the predicates say.
 */
module CfgScanPrinted {
  import opened Wrappers
  import opened RustTokens
  import opened CfgPredicate
  import opened ItemEnd
  import opened CfgSpans
  import opened CfgItems
  import opened CfgBrackets
  import opened CfgSites

  // ---- runs of the scan ------------------------------------------------------

  predicate Unrolled(next: nat, rest: seq<Mark>) {
    |rest| >= 0 && next >= 0
  }

  /** From `k` the scan makes `marks` and goes on at `next`. The trigger keeps
      the scan itself folded in proofs that only put runs together. */
  ghost predicate Scans(kw: Keywords, toks: seq<Token>, pairs: map<nat, nat>, cfg: TargetCfg, k: nat, marks: seq<Mark>, next: nat)
    requires IsBracketMap(toks, pairs)
  {
    forall rest: seq<Mark> {:trigger Unrolled(next, rest)} ::
      Unrolled(next, rest) && rest == Scan(kw, toks, pairs, cfg, next) ==> Scan(kw, toks, pairs, cfg, k) == marks + rest
  }

  lemma ScansIntro(kw: Keywords, toks: seq<Token>, pairs: map<nat, nat>, cfg: TargetCfg, k: nat, marks: seq<Mark>, next: nat)
    requires IsBracketMap(toks, pairs)
    requires Scan(kw, toks, pairs, cfg, k) == marks + Scan(kw, toks, pairs, cfg, next)
    ensures Scans(kw, toks, pairs, cfg, k, marks, next)
  {
  }

  lemma ScansElim(kw: Keywords, toks: seq<Token>, pairs: map<nat, nat>, cfg: TargetCfg, k: nat, marks: seq<Mark>, next: nat)
    requires IsBracketMap(toks, pairs)
    requires Scans(kw, toks, pairs, cfg, k, marks, next)
    ensures Scan(kw, toks, pairs, cfg, k) == marks + Scan(kw, toks, pairs, cfg, next)
  {
    assert Unrolled(next, Scan(kw, toks, pairs, cfg, next));
  }

  lemma ScansJoin(kw: Keywords, toks: seq<Token>, pairs: map<nat, nat>, cfg: TargetCfg,
                  k: nat, a: seq<Mark>, m: nat, b: seq<Mark>, n: nat)
    requires IsBracketMap(toks, pairs)
    requires Scans(kw, toks, pairs, cfg, k, a, m) && Scans(kw, toks, pairs, cfg, m, b, n)
    ensures Scans(kw, toks, pairs, cfg, k, a + b, n)
  {
    ScansElim(kw, toks, pairs, cfg, k, a, m);
    ScansElim(kw, toks, pairs, cfg, m, b, n);
    var rest := Scan(kw, toks, pairs, cfg, n);
    assert a + (b + rest) == a + b + rest;
    ScansIntro(kw, toks, pairs, cfg, k, a + b, n);
  }

  lemma ScansNothing(kw: Keywords, toks: seq<Token>, pairs: map<nat, nat>, cfg: TargetCfg, k: nat)
    requires IsBracketMap(toks, pairs)
    ensures Scans(kw, toks, pairs, cfg, k, [], k)
  {
    ScansIntro(kw, toks, pairs, cfg, k, [], k);
  }

  // ---- stretches without attributes ---------------------------------------

  lemma NoAttrPair(a: seq<Token>, b: seq<Token>)
    requires NoAttr(a) && NoAttr(b)
    ensures NoAttr(a + b)
  {
    forall i | 0 <= i < |a + b| && IsPunct((a + b)[i], "#")
      ensures i + 1 < |a + b| && (a + b)[i + 1].text != "[" && (a + b)[i + 1].text != "!"
    {
      if i < |a| {
        assert a[i] == (a + b)[i] && a[i + 1] == (a + b)[i + 1];
      } else {
        assert b[i - |a|] == (a + b)[i] && b[i - |a| + 1] == (a + b)[i + 1];
      }
    }
  }

  /** Where no attribute starts, the scan moves on without a mark. */
  lemma {:induction false} ScanNoAttr(kw: Keywords, toks: seq<Token>, pairs: map<nat, nat>, cfg: TargetCfg,
                                      k: nat, p: seq<Token>, i: nat)
    requires IsBracketMap(toks, pairs)
    requires At(toks, k, p) && NoAttr(p) && i <= |p|
    ensures Scan(kw, toks, pairs, cfg, k + i) == Scan(kw, toks, pairs, cfg, k + |p|)
    decreases |p| - i
  {
    if i < |p| {
      AtIndex(toks, k, p, i);
      if i + 1 < |p| {
        AtIndex(toks, k, p, i + 1);
      }
      assert ReadAttr(toks, pairs, k + i).None?;
      ScanNoAttr(kw, toks, pairs, cfg, k, p, i + 1);
    }
  }

  lemma ScanOver(kw: Keywords, toks: seq<Token>, pairs: map<nat, nat>, cfg: TargetCfg, k: nat, p: seq<Token>)
    requires IsBracketMap(toks, pairs) && At(toks, k, p) && NoAttr(p)
    ensures Scans(kw, toks, pairs, cfg, k, [], k + |p|)
  {
    ScanNoAttr(kw, toks, pairs, cfg, k, p, 0);
    ScansIntro(kw, toks, pairs, cfg, k, [], k + |p|);
  }

  lemma QualNoAttr(kw: Keywords, q: Qual)
    requires QualOk(kw, q)
    ensures NoAttr(PrintQual(q))
  {
    if q.Restricted? {
      var opening := [Word("pub"), Sign("(")];
      assert opening[0].text == "pub" && opening[1].text == "(";
      NoAttrPair(opening, q.inner);
      NoAttrPair(opening + q.inner, [Sign(")")]);
    }
  }

  lemma {:induction false} QualsNoAttr(kw: Keywords, quals: seq<Qual>)
    requires QualsOk(kw, quals)
    ensures NoAttr(PrintQuals(quals))
  {
    if quals != [] {
      var q := quals[0];
      QualNoAttr(kw, q);
      QualsNoAttr(kw, quals[1..]);
      NoAttrPair(PrintQual(q), PrintQuals(quals[1..]));
    }
  }

  lemma HeadNoAttr(kw: Keywords, item: Item)
    requires HeadOk(kw, item)
    ensures NoAttr(PrintHead(item))
  {
    var _ := HeadFacts(kw, item);
    QualsNoAttr(kw, item.quals);
    NoAttrPair(PrintQuals(item.quals), [Word(item.keyword)]);
    NoAttrPair(PrintQuals(item.quals) + [Word(item.keyword)], item.rest);
  }

  // ---- one attribute -------------------------------------------------------

  /** A printed bracketed list, and its brackets in the map. */
  lemma ListBrackets(toks: seq<Token>, pairs: map<nat, nat>, lb: nat, body: seq<Token>)
    requires IsBracketMap(toks, pairs) && Closed(body)
    requires lb + 1 + |body| < |toks| && IsOpen(toks[lb]) && IsClose(toks[lb + 1 + |body|])
    requires At(toks, lb + 1, body)
    ensures lb in pairs && pairs[lb] == lb + 1 + |body|
  {
    BalancedAt(toks, lb + 1, body);
    PartnerOf(toks, lb, lb + 1 + |body|);
    PartnerInMap(toks, pairs, lb, lb + 1 + |body|);
  }

  lemma AttrTokens(toks: seq<Token>, k: nat, body: seq<Token>, inner: bool)
    requires At(toks, k, AttrOpening(inner) + body + [Sign("]")])
    ensures var lb := k + |AttrOpening(inner)| - 1;
            && lb + 1 + |body| < |toks| && toks[lb] == Sign("[") && toks[lb + 1 + |body|] == Sign("]")
            && At(toks, lb + 1, body)
    ensures toks[k] == Sign("#") && toks[k + 1] == Sign(if inner then "!" else "[")
  {
    AtSplit3(toks, k, AttrOpening(inner), body, [Sign("]")]);
    AtIndex(toks, k, AttrOpening(inner), 0);
    AtIndex(toks, k, AttrOpening(inner), 1);
    AtIndex(toks, k, AttrOpening(inner), |AttrOpening(inner)| - 1);
    AtIndex(toks, k + |AttrOpening(inner)| + |body|, [Sign("]")], 0);
  }

  /** The brackets of a printed attribute. */
  lemma AttrBrackets(toks: seq<Token>, pairs: map<nat, nat>, k: nat, body: seq<Token>, inner: bool)
    requires IsBracketMap(toks, pairs)
    requires At(toks, k, AttrOpening(inner) + body + [Sign("]")]) && Closed(body)
    ensures var lb := k + |AttrOpening(inner)| - 1; var rb := lb + 1 + |body|;
            ReadAttr(toks, pairs, k) == Some(AttrAt(inner, lb, rb)) && lb in pairs && pairs[lb] == rb
    ensures At(toks, k + |AttrOpening(inner)|, body)
    ensures toks[k] == Sign("#") && toks[k + 1] == Sign(if inner then "!" else "[")
  {
    AttrTokens(toks, k, body, inner);
    ListBrackets(toks, pairs, k + |AttrOpening(inner)| - 1, body);
  }

  /** A printed `cfg(..)` is read as its predicate. */
  lemma ReadPrintedCfg(toks: seq<Token>, pairs: map<nat, nat>, cfg: TargetCfg, lb: nat, rb: nat, p: Pred)
    requires IsBracketMap(toks, pairs) && Printable(p)
    requires lb < rb < |toks| && rb == lb + 4 + |Print(p)|
    requires At(toks, lb + 1, [Word("cfg"), Sign("(")] + Print(p) + [Sign(")")])
    ensures IsFalseCfg(toks, pairs, cfg, lb, rb) == (Value(p, cfg) == False)
  {
    CallAt("cfg", Print(p), toks, lb + 1);
    PredBracketed(p);
    BalancedAt(toks, lb + 3, Print(p));
    PartnerOf(toks, lb + 2, rb - 1);
    PartnerInMap(toks, pairs, lb + 2, rb - 1);
    EvalInvertsPrint(p, toks, lb + 3, cfg);
  }

  /** Reading back a printed attribute: its brackets, and whether it is a
      `cfg` that is false. */
  lemma ReadPrintedAttr(toks: seq<Token>, pairs: map<nat, nat>, cfg: TargetCfg, k: nat, a: Attr, inner: bool)
    requires IsBracketMap(toks, pairs)
    requires At(toks, k, PrintAttr(a, inner)) && AttrOk(a)
    ensures var lb := k + |AttrOpening(inner)| - 1; var rb := k + |PrintAttr(a, inner)| - 1;
            && ReadAttr(toks, pairs, k) == Some(AttrAt(inner, lb, rb))
            && IsFalseCfg(toks, pairs, cfg, lb, rb) == AttrFalse(a, cfg)
            && lb in pairs && pairs[lb] == rb
    ensures toks[k] == Sign("#") && toks[k + 1] == Sign(if inner then "!" else "[")
  {
    AttrBodyBracketed(a);
    AttrBrackets(toks, pairs, k, AttrBody(a), inner);
    var lb := k + |AttrOpening(inner)| - 1;
    var rb := k + |PrintAttr(a, inner)| - 1;
    match a {
      case CfgAttr(p) => ReadPrintedCfg(toks, pairs, cfg, lb, rb, p);
      case OtherAttr(body) =>
        if |body| > 0 {
          AtIndex(toks, lb + 1, body, 0);
        }
    }
  }

  /** Past a stack of printed outer attributes. */
  lemma {:induction false} PastPrintedAttrs(toks: seq<Token>, pairs: map<nat, nat>, k: nat, attrs: seq<Attr>)
    requires IsBracketMap(toks, pairs)
    requires At(toks, k, PrintAttrs(attrs, false)) && AttrsOk(attrs)
    requires k + |PrintAttrs(attrs, false)| < |toks| && toks[k + |PrintAttrs(attrs, false)|].text != "#"
    ensures PastAttrs(toks, pairs, k) == k + |PrintAttrs(attrs, false)|
    decreases |attrs|
  {
    if attrs != [] {
      var first := PrintAttr(attrs[0], false);
      AtSplit(toks, k, first, PrintAttrs(attrs[1..], false));
      ReadPrintedAttr(toks, pairs, TargetCfg({}, map[]), k, attrs[0], false);
      PastPrintedAttrs(toks, pairs, k + |first|, attrs[1..]);
    }
  }

  lemma ScanStep(kw: Keywords, toks: seq<Token>, pairs: map<nat, nat>, cfg: TargetCfg, k: nat, a: AttrAt)
    requires IsBracketMap(toks, pairs) && k < |toks| && ReadAttr(toks, pairs, k) == Some(a)
    ensures Scans(kw, toks, pairs, cfg, k,
                  if IsFalseCfg(toks, pairs, cfg, a.open, a.close) then MarksOf(kw, toks, pairs, k, a) else [], a.close + 1)
  {
    ScansIntro(kw, toks, pairs, cfg, k,
               if IsFalseCfg(toks, pairs, cfg, a.open, a.close) then MarksOf(kw, toks, pairs, k, a) else [], a.close + 1);
  }

  lemma OuterMarks(kw: Keywords, toks: seq<Token>, pairs: map<nat, nat>, k: nat, a: AttrAt, j: nat, last: nat)
    requires IsBracketMap(toks, pairs) && k < a.open < a.close < |toks| && !a.inner
    requires PastAttrs(toks, pairs, a.close + 1) == j
    requires j < |toks| && EndOf(kw, toks, pairs, j) == last && j <= last
    ensures MarksOf(kw, toks, pairs, k, a) == [Region(k, last)]
  {
  }

  /** One outer attribute and the scan past it. */
  lemma ScanOneAttr(kw: Keywords, toks: seq<Token>, pairs: map<nat, nat>, cfg: TargetCfg,
                    k: nat, a: Attr, next: nat, j: nat, last: nat)
    requires IsBracketMap(toks, pairs) && next == k + |PrintAttr(a, false)|
    requires At(toks, k, PrintAttr(a, false)) && AttrOk(a)
    requires PastAttrs(toks, pairs, next) == j
    requires j < |toks| && EndOf(kw, toks, pairs, j) == last && j <= last
    ensures Scans(kw, toks, pairs, cfg, k, if AttrFalse(a, cfg) then [Region(k, last)] else [], next)
  {
    var rb := next - 1;
    ReadPrintedAttr(toks, pairs, cfg, k, a, false);
    OuterMarks(kw, toks, pairs, k, AttrAt(false, k + 1, rb), j, last);
    ScanStep(kw, toks, pairs, cfg, k, AttrAt(false, k + 1, rb));
  }

  lemma AttrsAt(toks: seq<Token>, k: nat, attrs: seq<Attr>, inner: bool, next: nat, end: nat)
    requires attrs != [] && At(toks, k, PrintAttrs(attrs, inner))
    requires next == k + |PrintAttr(attrs[0], inner)| && end == k + |PrintAttrs(attrs, inner)|
    ensures At(toks, k, PrintAttr(attrs[0], inner)) && At(toks, next, PrintAttrs(attrs[1..], inner))
    ensures end == next + |PrintAttrs(attrs[1..], inner)|
  {
    AtSplit(toks, k, PrintAttr(attrs[0], inner), PrintAttrs(attrs[1..], inner));
  }

  lemma AttrMarksJoin(kw: Keywords, toks: seq<Token>, pairs: map<nat, nat>, cfg: TargetCfg,
                      k: nat, attrs: seq<Attr>, next: nat, j: nat, last: nat)
    requires IsBracketMap(toks, pairs) && attrs != [] && next == k + |PrintAttr(attrs[0], false)|
    requires Scans(kw, toks, pairs, cfg, k, if AttrFalse(attrs[0], cfg) then [Region(k, last)] else [], next)
    requires Scans(kw, toks, pairs, cfg, next, AttrMarks(attrs[1..], next, last, cfg), j)
    ensures Scans(kw, toks, pairs, cfg, k, AttrMarks(attrs, k, last, cfg), j)
  {
    ScansJoin(kw, toks, pairs, cfg, k, if AttrFalse(attrs[0], cfg) then [Region(k, last)] else [], next,
              AttrMarks(attrs[1..], next, last, cfg), j);
  }

  /** The first of a stack of outer attributes, scanned, and how the rest sit. */
  lemma ScanFirstAttr(kw: Keywords, toks: seq<Token>, pairs: map<nat, nat>, cfg: TargetCfg,
                      k: nat, attrs: seq<Attr>, next: nat, j: nat, last: nat)
    requires IsBracketMap(toks, pairs) && attrs != [] && next == k + |PrintAttr(attrs[0], false)|
    requires At(toks, k, PrintAttrs(attrs, false)) && AttrsOk(attrs)
    requires j == k + |PrintAttrs(attrs, false)| && j < |toks| && toks[j].text != "#"
    requires EndOf(kw, toks, pairs, j) == last && j <= last
    ensures At(toks, next, PrintAttrs(attrs[1..], false)) && j == next + |PrintAttrs(attrs[1..], false)|
    ensures Scans(kw, toks, pairs, cfg, k, if AttrFalse(attrs[0], cfg) then [Region(k, last)] else [], next)
  {
    AttrsAt(toks, k, attrs, false, next, j);
    PastPrintedAttrs(toks, pairs, next, attrs[1..]);
    ScanOneAttr(kw, toks, pairs, cfg, k, attrs[0], next, j, last);
  }

  /** Outer attributes mark from themselves to the end of the item below. */
  lemma {:induction false} ScanAttrs(kw: Keywords, toks: seq<Token>, pairs: map<nat, nat>, cfg: TargetCfg,
                                     k: nat, attrs: seq<Attr>, j: nat, last: nat)
    requires IsBracketMap(toks, pairs)
    requires At(toks, k, PrintAttrs(attrs, false)) && AttrsOk(attrs)
    requires j == k + |PrintAttrs(attrs, false)| && j < |toks| && toks[j].text != "#"
    requires EndOf(kw, toks, pairs, j) == last && j <= last
    ensures Scans(kw, toks, pairs, cfg, k, AttrMarks(attrs, k, last, cfg), j)
    decreases |attrs|
  {
    if attrs == [] {
      ScansNothing(kw, toks, pairs, cfg, k);
    } else {
      var next := k + |PrintAttr(attrs[0], false)|;
      ScanFirstAttr(kw, toks, pairs, cfg, k, attrs, next, j, last);
      ScanAttrs(kw, toks, pairs, cfg, next, attrs[1..], j, last);
      AttrMarksJoin(kw, toks, pairs, cfg, k, attrs, next, j, last);
    }
  }

  /** What an inner attribute at brace level `o` marks. */
  function InnerMark(toks: seq<Token>, pairs: map<nat, nat>, o: Option<nat>): Mark {
    if o.None? then WholeFile
    else Region(o.value, if o.value in pairs then pairs[o.value] else if |toks| > 0 then |toks| - 1 else 0)
  }

  lemma InnerKeepsBlock(toks: seq<Token>, k: nat, a: Attr, next: nat)
    requires next == k + |PrintAttr(a, true)| && At(toks, k, PrintAttr(a, true)) && AttrOk(a)
    ensures Enclosing(toks, next) == Enclosing(toks, k)
  {
    AttrBracketed(a, true);
    EnclosingAt(toks, k, PrintAttr(a, true));
  }

  lemma ScanOneInner(kw: Keywords, toks: seq<Token>, pairs: map<nat, nat>, cfg: TargetCfg,
                     k: nat, a: Attr, next: nat, o: Option<nat>)
    requires IsBracketMap(toks, pairs) && next == k + |PrintAttr(a, true)|
    requires At(toks, k, PrintAttr(a, true)) && AttrOk(a)
    requires Enclosing(toks, k) == o
    ensures Scans(kw, toks, pairs, cfg, k, if AttrFalse(a, cfg) then [InnerMark(toks, pairs, o)] else [], next)
    ensures Enclosing(toks, next) == o
  {
    InnerKeepsBlock(toks, k, a, next);
    ReadPrintedAttr(toks, pairs, cfg, k, a, true);
    ScanStep(kw, toks, pairs, cfg, k, AttrAt(true, k + 2, next - 1));
  }

  lemma ScanFirstInner(kw: Keywords, toks: seq<Token>, pairs: map<nat, nat>, cfg: TargetCfg,
                       k: nat, attrs: seq<Attr>, next: nat, o: Option<nat>, end: nat)
    requires IsBracketMap(toks, pairs) && attrs != [] && next == k + |PrintAttr(attrs[0], true)|
    requires At(toks, k, PrintAttrs(attrs, true)) && AttrsOk(attrs)
    requires Enclosing(toks, k) == o && end == k + |PrintAttrs(attrs, true)|
    ensures At(toks, next, PrintAttrs(attrs[1..], true)) && Enclosing(toks, next) == o
    ensures end == next + |PrintAttrs(attrs[1..], true)|
    ensures Scans(kw, toks, pairs, cfg, k, if AttrFalse(attrs[0], cfg) then [InnerMark(toks, pairs, o)] else [], next)
  {
    AttrsAt(toks, k, attrs, true, next, end);
    ScanOneInner(kw, toks, pairs, cfg, k, attrs[0], next, o);
  }

  lemma InnerMarksJoin(kw: Keywords, toks: seq<Token>, pairs: map<nat, nat>, cfg: TargetCfg,
                       k: nat, attrs: seq<Attr>, next: nat, mark: Mark, end: nat)
    requires IsBracketMap(toks, pairs) && attrs != []
    requires Scans(kw, toks, pairs, cfg, k, if AttrFalse(attrs[0], cfg) then [mark] else [], next)
    requires Scans(kw, toks, pairs, cfg, next, InnerMarks(attrs[1..], mark, cfg), end)
    ensures Scans(kw, toks, pairs, cfg, k, InnerMarks(attrs, mark, cfg), end)
  {
    ScansJoin(kw, toks, pairs, cfg, k, if AttrFalse(attrs[0], cfg) then [mark] else [], next, InnerMarks(attrs[1..], mark, cfg), end);
  }

  /** Inner attributes mark the block they open, or the file. */
  lemma {:induction false} ScanInner(kw: Keywords, toks: seq<Token>, pairs: map<nat, nat>, cfg: TargetCfg,
                                     k: nat, attrs: seq<Attr>, o: Option<nat>, end: nat)
    requires IsBracketMap(toks, pairs)
    requires At(toks, k, PrintAttrs(attrs, true)) && AttrsOk(attrs)
    requires Enclosing(toks, k) == o && end == k + |PrintAttrs(attrs, true)|
    ensures Scans(kw, toks, pairs, cfg, k, InnerMarks(attrs, InnerMark(toks, pairs, o), cfg), end)
    decreases |attrs|
  {
    if attrs == [] {
      ScansNothing(kw, toks, pairs, cfg, k);
    } else {
      var next := k + |PrintAttr(attrs[0], true)|;
      ScanFirstInner(kw, toks, pairs, cfg, k, attrs, next, o, end);
      ScanInner(kw, toks, pairs, cfg, next, attrs[1..], o, end);
      InnerMarksJoin(kw, toks, pairs, cfg, k, attrs, next, InnerMark(toks, pairs, o), end);
    }
  }

  // ---- where a printed item ends --------------------------------------------

  lemma PastPrintedQual(toks: seq<Token>, pairs: map<nat, nat>, k: nat, q: Qual, kw: Keywords)
    requires IsBracketMap(toks, pairs) && QualOk(kw, q)
    requires At(toks, k, PrintQual(q))
    requires k + |PrintQual(q)| < |toks| && toks[k + |PrintQual(q)|].kind == Ident && toks[k + |PrintQual(q)|].text != "("
    ensures PastQualifier(toks, pairs, k) == k + |PrintQual(q)|
    ensures toks[k].kind == Ident && toks[k].text in kw.qualifiers
  {
    AtIndex(toks, k, PrintQual(q), 0);
    match q {
      case Plain(word) =>
      case Restricted(inner) =>
        CallAt("pub", inner, toks, k);
        BalancedAt(toks, k + 2, inner);
        PartnerOf(toks, k + 1, k + 2 + |inner|);
        PartnerInMap(toks, pairs, k + 1, k + 2 + |inner|);
      case Abi(word, lit) =>
        AtIndex(toks, k, PrintQual(q), 1);
        assert toks[k + 1].kind == Lit;
        AbiNotList(toks, pairs, k);
    }
  }

  /** A literal is not a bracket, so an ABI string is stepped over as one token. */
  lemma AbiNotList(toks: seq<Token>, pairs: map<nat, nat>, k: nat)
    requires IsBracketMap(toks, pairs)
    requires k + 2 < |toks| && toks[k + 1].kind == Lit && toks[k + 2].kind != Lit
    ensures PastQualifier(toks, pairs, k) == k + 2
  {
    if k + 1 in pairs {
      BracketMapInvolution(toks, pairs, k + 1);
    }
  }

  lemma QualsAt(toks: seq<Token>, k: nat, quals: seq<Qual>)
    requires quals != [] && At(toks, k, PrintQuals(quals))
    ensures At(toks, k, PrintQual(quals[0])) && At(toks, k + |PrintQual(quals[0])|, PrintQuals(quals[1..]))
    ensures |PrintQuals(quals)| == |PrintQual(quals[0])| + |PrintQuals(quals[1..])|
  {
    AtSplit(toks, k, PrintQual(quals[0]), PrintQuals(quals[1..]));
  }

  /** Qualifiers, then a word that is none: every stop on the way is a word. */
  lemma WordAfterQuals(kw: Keywords, toks: seq<Token>, k: nat, quals: seq<Qual>)
    requires At(toks, k, PrintQuals(quals)) && QualsOk(kw, quals)
    requires k + |PrintQuals(quals)| < |toks|
    requires quals == [] ==> toks[k].kind == Ident && toks[k].text != "("
    ensures toks[k].kind == Ident && toks[k].text != "("
  {
    if quals != [] {
      QualStartsWithWord(kw, quals[0]);
      QualsAt(toks, k, quals);
      AtIndex(toks, k, PrintQual(quals[0]), 0);
    }
  }

  lemma SkipOneQual(kw: Keywords, toks: seq<Token>, pairs: map<nat, nat>, k: nat, q: Qual, next: nat)
    requires IsBracketMap(toks, pairs) && QualOk(kw, q) && At(toks, k, PrintQual(q))
    requires next == k + |PrintQual(q)| < |toks| && toks[next].kind == Ident && toks[next].text != "("
    ensures SkipQualifiers(kw, toks, pairs, k) == SkipQualifiers(kw, toks, pairs, next)
  {
    PastPrintedQual(toks, pairs, k, q, kw);
  }

  lemma {:induction false} SkipPrintedQuals(kw: Keywords, toks: seq<Token>, pairs: map<nat, nat>, k: nat, quals: seq<Qual>, end: nat)
    requires IsBracketMap(toks, pairs)
    requires At(toks, k, PrintQuals(quals)) && QualsOk(kw, quals)
    requires end == k + |PrintQuals(quals)| < |toks| && toks[end].kind == Ident
    requires toks[end].text != "(" && toks[end].text !in kw.qualifiers
    ensures SkipQualifiers(kw, toks, pairs, k) == end
    decreases |quals|
  {
    if quals != [] {
      var k' := k + |PrintQual(quals[0])|;
      QualsAt(toks, k, quals);
      WordAfterQuals(kw, toks, k', quals[1..]);
      SkipOneQual(kw, toks, pairs, k, quals[0], k');
      SkipPrintedQuals(kw, toks, pairs, k', quals[1..], end);
    }
  }

  lemma QualStartsWithWord(kw: Keywords, q: Qual)
    requires QualOk(kw, q)
    ensures |PrintQual(q)| > 0 && PrintQual(q)[0].kind == Ident
    ensures PrintQual(q)[0].text != "(" && PrintQual(q)[0].text != "#" && PrintQual(q)[0].text != "else"
  {
  }

  lemma HeadStartsWithWord(kw: Keywords, item: Item)
    requires HeadOk(kw, item)
    ensures PrintHead(item)[0].kind == Ident
    ensures PrintHead(item)[0].text != "#" && PrintHead(item)[0].text != "else"
  {
    var _ := HeadFacts(kw, item);
    if item.quals != [] {
      QualStartsWithWord(kw, item.quals[0]);
      assert PrintHead(item)[0] == PrintQual(item.quals[0])[0];
    }
  }

  lemma TokenOpenStretch(toks: seq<Token>, k: nat, mode: Mode)
    requires k < |toks| && toks[k].kind != Punct
    ensures OpenStretch(toks, k, k + 1, mode)
  {
    BalancedToken(toks, k);
    Stretched(toks, k, k + 1, mode);
  }

  lemma {:induction false} QualsOpenStretch(kw: Keywords, toks: seq<Token>, k: nat, quals: seq<Qual>, mode: Mode)
    requires At(toks, k, PrintQuals(quals)) && QualsOk(kw, quals)
    ensures OpenStretch(toks, k, k + |PrintQuals(quals)|, mode)
    decreases |quals|
  {
    if quals != [] {
      var next := k + |PrintQual(quals[0])|;
      QualsAt(toks, k, quals);
      QualOpenStretch(kw, toks, k, quals[0], mode);
      QualsOpenStretch(kw, toks, next, quals[1..], mode);
      OpenStretchJoin(toks, k, next, next + |PrintQuals(quals[1..])|, mode);
    }
  }

  lemma QualOpenStretch(kw: Keywords, toks: seq<Token>, k: nat, q: Qual, mode: Mode)
    requires At(toks, k, PrintQual(q)) && QualOk(kw, q)
    ensures OpenStretch(toks, k, k + |PrintQual(q)|, mode)
  {
    AtIndex(toks, k, PrintQual(q), 0);
    TokenOpenStretch(toks, k, mode);
    match q {
      case Plain(word) =>
      case Restricted(inner) =>
        CallAt("pub", inner, toks, k);
        BalancedAt(toks, k + 2, inner);
        PartnerOf(toks, k + 1, k + 2 + |inner|);
        PairOpenStretch(toks, k + 1, k + 2 + |inner|, mode);
        OpenStretchJoin(toks, k, k + 1, k + 3 + |inner|, mode);
      case Abi(word, lit) =>
        AtIndex(toks, k, PrintQual(q), 1);
        TokenOpenStretch(toks, k + 1, mode);
        OpenStretchJoin(toks, k, k + 1, k + 2, mode);
    }
  }

  lemma PairOpenStretch(toks: seq<Token>, o: nat, c: nat, mode: Mode)
    requires Partner(toks, o, c) && !IsPunct(toks[o], "{")
    ensures OpenStretch(toks, o, c + 1, mode)
  {
    BalancedPair(toks, o, c);
    Stretched(toks, o, c + 1, mode);
  }

  lemma HeadModeIs(kw: Keywords, toks: seq<Token>, j: nat, k: nat, keyword: string, rest: seq<Token>)
    requires k + 1 < |toks| && toks[k] == Word(keyword)
    requires if |rest| > 0 then toks[k + 1] == rest[0] else !FnAfterConst(toks[k + 1].text)
    requires KeywordMode(kw, keyword, rest) != Expr
    ensures HeadMode(kw, toks, j, k) == KeywordMode(kw, keyword, rest)
  {
  }

  lemma WordThenOpenStretch(toks: seq<Token>, k: nat, keyword: string, rest: seq<Token>, mode: Mode)
    requires OpenStretch(rest, 0, |rest|, mode)
    requires At(toks, k, [Word(keyword)]) && At(toks, k + 1, rest)
    ensures OpenStretch(toks, k, k + 1 + |rest|, mode)
  {
    AtIndex(toks, k, [Word(keyword)], 0);
    TokenOpenStretch(toks, k, mode);
    OpenStretchAt(toks, k + 1, rest, mode);
    OpenStretchJoin(toks, k, k + 1, k + 1 + |rest|, mode);
  }

  lemma WordsAfter(toks: seq<Token>, j: nat, quals: seq<Token>, keyword: string, rest: seq<Token>, mode: Mode)
    requires At(toks, j, quals + [Word(keyword)] + rest) && OpenStretch(rest, 0, |rest|, mode)
    ensures At(toks, j, quals) && OpenStretch(toks, j + |quals|, j + |quals| + 1 + |rest|, mode)
  {
    AtSplit3(toks, j, quals, [Word(keyword)], rest);
    WordThenOpenStretch(toks, j + |quals|, keyword, rest, mode);
  }

  /** Qualifiers, a keyword and a calm rest make an open stretch. */
  lemma WordsOpenStretch(kw: Keywords, toks: seq<Token>, j: nat, quals: seq<Qual>, keyword: string, rest: seq<Token>, mode: Mode)
    requires QualsOk(kw, quals) && OpenStretch(rest, 0, |rest|, mode)
    requires At(toks, j, PrintQuals(quals) + [Word(keyword)] + rest)
    ensures OpenStretch(toks, j, j + |PrintQuals(quals)| + 1 + |rest|, mode)
  {
    var k := j + |PrintQuals(quals)|;
    WordsAfter(toks, j, PrintQuals(quals), keyword, rest, mode);
    QualsOpenStretch(kw, toks, j, quals, mode);
    OpenStretchJoin(toks, j, k, k + 1 + |rest|, mode);
  }

  /** A printed head is an open stretch. */
  lemma HeadOpenStretch(kw: Keywords, toks: seq<Token>, j: nat, item: Item)
    requires HeadOk(kw, item)
    requires At(toks, j, PrintHead(item))
    ensures OpenStretch(toks, j, j + |PrintHead(item)|, KeywordMode(kw, item.keyword, item.rest))
  {
    var mode := HeadFacts(kw, item);
    WordsOpenStretch(kw, toks, j, item.quals, item.keyword, item.rest, mode);
  }

  lemma HeadEnd(kw: Keywords, toks: seq<Token>, pairs: map<nat, nat>, j: nat, k: nat, mode: Mode)
    requires IsBracketMap(toks, pairs) && k < |toks|
    requires SkipQualifiers(kw, toks, pairs, j) == k && HeadMode(kw, toks, j, k) == mode
    ensures EndOf(kw, toks, pairs, j) == Walk(toks, pairs, mode, j, false)
  {
  }

  /** How a head's words sit in the file. */
  lemma HeadAt(toks: seq<Token>, j: nat, quals: seq<Qual>, keyword: string, rest: seq<Token>)
    requires At(toks, j, PrintQuals(quals) + [Word(keyword)] + rest)
    ensures var k := j + |PrintQuals(quals)|;
            && At(toks, j, PrintQuals(quals)) && k < |toks| && toks[k] == Word(keyword)
            && (|rest| > 0 ==> k + 1 < |toks| && toks[k + 1] == rest[0])
  {
    var k := j + |PrintQuals(quals)|;
    AtSplit3(toks, j, PrintQuals(quals), [Word(keyword)], rest);
    AtIndex(toks, k, [Word(keyword)], 0);
    if |rest| > 0 {
      AtIndex(toks, k + 1, rest, 0);
    }
  }

  /** The first words of a printed head name its mode. */
  lemma HeadWalk(kw: Keywords, toks: seq<Token>, pairs: map<nat, nat>, j: nat, item: Item)
    requires IsBracketMap(toks, pairs) && HeadOk(kw, item)
    requires At(toks, j, PrintHead(item)) && j + |PrintHead(item)| < |toks|
    requires !FnAfterConst(toks[j + |PrintHead(item)|].text)
    ensures EndOf(kw, toks, pairs, j) == Walk(toks, pairs, KeywordMode(kw, item.keyword, item.rest), j, false)
  {
    var k := j + |PrintQuals(item.quals)|;
    var mode := HeadFacts(kw, item);
    HeadAt(toks, j, item.quals, item.keyword, item.rest);
    SkipPrintedQuals(kw, toks, pairs, j, item.quals, k);
    HeadModeIs(kw, toks, j, k, item.keyword, item.rest);
    HeadEnd(kw, toks, pairs, j, k, mode);
  }

  /** A printed leaf ends at its `;`. */
  lemma LeafEnd(kw: Keywords, toks: seq<Token>, pairs: map<nat, nat>, j: nat, item: Item)
    requires IsBracketMap(toks, pairs) && HeadOk(kw, item) && item.Leaf?
    requires At(toks, j, PrintHead(item) + [Sign(";")])
    ensures EndOf(kw, toks, pairs, j) == j + |PrintHead(item)|
  {
    var b := j + |PrintHead(item)|;
    AtSplit(toks, j, PrintHead(item), [Sign(";")]);
    AtIndex(toks, b, [Sign(";")], 0);
    var mode := HeadFacts(kw, item);
    HeadOpenStretch(kw, toks, j, item);
    HeadWalk(kw, toks, pairs, j, item);
    SemiItemEnd(toks, pairs, mode, j, b);
  }

  lemma BracedAt(toks: seq<Token>, j: nat, head: seq<Token>, body: seq<Token>, b: nat, c: nat)
    requires At(toks, j, head + ([Sign("{")] + body + [Sign("}")])) && b == j + |head| && c == b + 1 + |body|
    ensures At(toks, j, head) && At(toks, b + 1, body)
    ensures c < |toks| && toks[b] == Sign("{") && toks[c] == Sign("}")
  {
    AtSplit(toks, j, head, [Sign("{")] + body + [Sign("}")]);
    AtSplit3(toks, b, [Sign("{")], body, [Sign("}")]);
    AtIndex(toks, b, [Sign("{")], 0);
    AtIndex(toks, c, [Sign("}")], 0);
  }

  /** A printed block ends at the brace that closes its body. */
  lemma BlockEnd(kw: Keywords, toks: seq<Token>, pairs: map<nat, nat>, j: nat, item: Item, body: seq<Token>, b: nat, c: nat)
    requires IsBracketMap(toks, pairs) && HeadOk(kw, item) && item.Block?
    requires Closed(body) && b == j + |PrintHead(item)| && c == b + 1 + |body|
    requires At(toks, j, PrintHead(item) + ([Sign("{")] + body + [Sign("}")]))
    requires c + 1 < |toks| ==> toks[c + 1] != Token(Ident, "else")
    ensures b in pairs && pairs[b] == c && EndOf(kw, toks, pairs, j) == c
  {
    BracedAt(toks, j, PrintHead(item), body, b, c);
    ListBrackets(toks, pairs, b, body);
    MapHoldsPartner(toks, pairs, b);
    var _ := HeadFacts(kw, item);
    HeadOpenStretch(kw, toks, j, item);
    HeadWalk(kw, toks, pairs, j, item);
    BraceItemEnd(toks, pairs, j, b, c);
  }

  // ---- the scan follows the tree ---------------------------------------------

  lemma ItemStartsCalm(kw: Keywords, item: Item)
    requires ItemOk(kw, item)
    ensures PrintItem(item)[0] != Token(Ident, "else")
  {
    if item.attrs == [] {
      HeadStartsWithWord(kw, item);
      assert PrintItem(item)[0] == PrintHead(item)[0];
    } else {
      assert PrintItem(item)[0] == PrintAttr(item.attrs[0], false)[0] == AttrOpening(false)[0];
    }
  }

  lemma ElemStartsCalm(kw: Keywords, e: Elem)
    requires ElemOk(kw, e)
    ensures |PrintElem(e)| > 0 && PrintElem(e)[0] != Token(Ident, "else")
  {
    if e.Nested? {
      ItemStartsCalm(kw, e.item);
    }
  }

  /** Nothing at `k` carries an `if` chain on. */
  predicate NoElse(toks: seq<Token>, k: nat) {
    k < |toks| ==> toks[k] != Token(Ident, "else")
  }

  /** A head and its last token, once the attributes above are scanned. */
  lemma ScanHead(kw: Keywords, toks: seq<Token>, pairs: map<nat, nat>, cfg: TargetCfg, j: nat, item: Item, last: Token)
    requires IsBracketMap(toks, pairs) && HeadOk(kw, item)
    requires At(toks, j, PrintHead(item)) && At(toks, j + |PrintHead(item)|, [last]) && !IsPunct(last, "#")
    ensures Scans(kw, toks, pairs, cfg, j, [], j + |PrintHead(item)| + 1)
  {
    HeadNoAttr(kw, item);
    ScanOver(kw, toks, pairs, cfg, j, PrintHead(item));
    ScanOver(kw, toks, pairs, cfg, j + |PrintHead(item)|, [last]);
    ScansJoin(kw, toks, pairs, cfg, j, [], j + |PrintHead(item)|, [], j + |PrintHead(item)| + 1);
  }

  /** An item's attributes, its head and its last token or its brace. */
  lemma ScanAttrsHead(kw: Keywords, toks: seq<Token>, pairs: map<nat, nat>, cfg: TargetCfg, off: nat, item: Item,
                      j: nat, open: nat, last: nat, token: Token)
    requires IsBracketMap(toks, pairs) && HeadOk(kw, item) && AttrsOk(item.attrs)
    requires j == off + |PrintAttrs(item.attrs, false)| && open == j + |PrintHead(item)|
    requires At(toks, off, PrintAttrs(item.attrs, false)) && At(toks, j, PrintHead(item))
    requires At(toks, open, [token]) && !IsPunct(token, "#")
    requires j < |toks| && toks[j].text != "#" && EndOf(kw, toks, pairs, j) == last && j <= last
    ensures Scans(kw, toks, pairs, cfg, off, AttrMarks(item.attrs, off, last, cfg), open + 1)
  {
    var marks := AttrMarks(item.attrs, off, last, cfg);
    ScanAttrs(kw, toks, pairs, cfg, off, item.attrs, j, last);
    ScanHead(kw, toks, pairs, cfg, j, item, token);
    assert marks + [] == marks;
    ScansJoin(kw, toks, pairs, cfg, off, marks, j, [], open + 1);
  }

  lemma LeafAt(kw: Keywords, toks: seq<Token>, pairs: map<nat, nat>, off: nat, item: Item, j: nat)
    requires IsBracketMap(toks, pairs) && ItemOk(kw, item) && item.Leaf?
    requires At(toks, off, PrintItem(item))
    requires j == off + |PrintAttrs(item.attrs, false)|
    ensures At(toks, off, PrintAttrs(item.attrs, false)) && At(toks, j, PrintHead(item))
    ensures At(toks, LastOf(item, off), [Sign(";")]) && j + |PrintHead(item)| == LastOf(item, off)
    ensures j < |toks| && toks[j].text != "#" && EndOf(kw, toks, pairs, j) == LastOf(item, off)
  {
    AtSplit(toks, off, PrintAttrs(item.attrs, false), PrintHead(item) + [Sign(";")]);
    AtSplit(toks, j, PrintHead(item), [Sign(";")]);
    LeafEnd(kw, toks, pairs, j, item);
    HeadStartsWithWord(kw, item);
    AtIndex(toks, j, PrintHead(item), 0);
  }

  lemma ScanLeaf(kw: Keywords, toks: seq<Token>, pairs: map<nat, nat>, cfg: TargetCfg, off: nat, item: Item)
    requires IsBracketMap(toks, pairs) && ItemOk(kw, item) && item.Leaf?
    requires At(toks, off, PrintItem(item))
    ensures Scans(kw, toks, pairs, cfg, off, ItemMarks(item, off, cfg), off + |PrintItem(item)|)
  {
    var j := off + |PrintAttrs(item.attrs, false)|;
    LeafAt(kw, toks, pairs, off, item, j);
    ScanAttrsHead(kw, toks, pairs, cfg, off, item, j, LastOf(item, off), LastOf(item, off), Sign(";"));
  }

  lemma BodyAt(toks: seq<Token>, b: nat, inner: seq<Token>, elems: seq<Token>)
    requires At(toks, b, [Sign("{")] + (inner + elems) + [Sign("}")])
    ensures At(toks, b, [Sign("{")]) && At(toks, b + 1, inner) && At(toks, b + 1 + |inner|, elems)
    ensures At(toks, b + 1 + |inner| + |elems|, [Sign("}")])
  {
    AtSplit3(toks, b, [Sign("{")], inner + elems, [Sign("}")]);
    AtSplit(toks, b + 1, inner, elems);
  }

  lemma BlockPrinted(item: Item)
    requires item.Block?
    ensures PrintItem(item) == PrintAttrs(item.attrs, false) +
            (PrintHead(item) + ([Sign("{")] + (PrintAttrs(item.inner, true) + PrintElems(item.body)) + [Sign("}")]))
  {
    var inner, elems := PrintAttrs(item.inner, true), PrintElems(item.body);
    assert [Sign("{")] + (inner + (elems + [Sign("}")])) == [Sign("{")] + (inner + elems) + [Sign("}")];
  }

  /** A block's attributes, and its head before its braces. */
  lemma BlockCodeAt(toks: seq<Token>, off: nat, item: Item, j: nat)
    requires item.Block? && At(toks, off, PrintItem(item)) && j == off + |PrintAttrs(item.attrs, false)|
    ensures At(toks, off, PrintAttrs(item.attrs, false))
    ensures At(toks, j, PrintHead(item) + ([Sign("{")] + (PrintAttrs(item.inner, true) + PrintElems(item.body)) + [Sign("}")]))
  {
    var block := [Sign("{")] + (PrintAttrs(item.inner, true) + PrintElems(item.body)) + [Sign("}")];
    BlockPrinted(item);
    AtSplit(toks, off, PrintAttrs(item.attrs, false), PrintHead(item) + block);
  }

  lemma HeadBodyAt(toks: seq<Token>, j: nat, head: seq<Token>, inner: seq<Token>, elems: seq<Token>)
    requires At(toks, j, head + ([Sign("{")] + (inner + elems) + [Sign("}")]))
    ensures At(toks, j, head) && At(toks, j + |head|, [Sign("{")]) && At(toks, j + |head| + 1, inner)
    ensures At(toks, j + |head| + 1 + |inner|, elems) && At(toks, j + |head| + 1 + |inner| + |elems|, [Sign("}")])
  {
    AtSplit(toks, j, head, [Sign("{")] + (inner + elems) + [Sign("}")]);
    BodyAt(toks, j + |head|, inner, elems);
  }

  lemma BlockHeadAt(kw: Keywords, toks: seq<Token>, off: nat, item: Item, j: nat)
    requires HeadOk(kw, item) && item.Block? && j == off + |PrintAttrs(item.attrs, false)|
    requires At(toks, off, PrintItem(item))
    ensures At(toks, off, PrintAttrs(item.attrs, false)) && At(toks, j, PrintHead(item))
    ensures At(toks, OpenOf(item, off), [Sign("{")]) && j < |toks| && toks[j].text != "#"
  {
    BlockCodeAt(toks, off, item, j);
    HeadBodyAt(toks, j, PrintHead(item), PrintAttrs(item.inner, true), PrintElems(item.body));
    HeadStartsWithWord(kw, item);
    AtIndex(toks, j, PrintHead(item), 0);
  }

  /** A block's inner attributes. */
  lemma BlockInnerAt(toks: seq<Token>, off: nat, item: Item)
    requires item.Block? && At(toks, off, PrintItem(item))
    ensures At(toks, OpenOf(item, off), [Sign("{")]) && At(toks, OpenOf(item, off) + 1, PrintAttrs(item.inner, true))
  {
    var j := off + |PrintAttrs(item.attrs, false)|;
    BlockCodeAt(toks, off, item, j);
    HeadBodyAt(toks, j, PrintHead(item), PrintAttrs(item.inner, true), PrintElems(item.body));
  }

  /** A block's body and the brace that closes it. */
  lemma BlockBodyAt(toks: seq<Token>, off: nat, item: Item)
    requires item.Block? && At(toks, off, PrintItem(item))
    ensures At(toks, BodyOf(item, off), PrintElems(item.body)) && At(toks, LastOf(item, off), [Sign("}")])
  {
    var j := off + |PrintAttrs(item.attrs, false)|;
    BlockCodeAt(toks, off, item, j);
    HeadBodyAt(toks, j, PrintHead(item), PrintAttrs(item.inner, true), PrintElems(item.body));
    BlockLayout(item, off);
  }

  /** A block's braces are partners, and the item ends at the second. */
  lemma BlockPaired(kw: Keywords, toks: seq<Token>, pairs: map<nat, nat>, off: nat, item: Item, j: nat)
    requires IsBracketMap(toks, pairs) && ItemOk(kw, item) && item.Block?
    requires At(toks, off, PrintItem(item)) && NoElse(toks, off + |PrintItem(item)|)
    requires j == off + |PrintAttrs(item.attrs, false)|
    ensures OpenOf(item, off) in pairs && pairs[OpenOf(item, off)] == LastOf(item, off)
    ensures EndOf(kw, toks, pairs, j) == LastOf(item, off)
  {
    BlockCodeAt(toks, off, item, j);
    BlockLayout(item, off);
    BodyBracketed(kw, item);
    BlockEnd(kw, toks, pairs, j, item, PrintAttrs(item.inner, true) + PrintElems(item.body), OpenOf(item, off), LastOf(item, off));
  }

  lemma ScanBlockAttrs(kw: Keywords, toks: seq<Token>, pairs: map<nat, nat>, cfg: TargetCfg, off: nat, item: Item, j: nat)
    requires IsBracketMap(toks, pairs) && ItemOk(kw, item) && item.Block?
    requires At(toks, off, PrintItem(item)) && NoElse(toks, off + |PrintItem(item)|)
    requires j == off + |PrintAttrs(item.attrs, false)|
    ensures Scans(kw, toks, pairs, cfg, off, AttrMarks(item.attrs, off, LastOf(item, off), cfg), j)
  {
    BlockHeadAt(kw, toks, off, item, j);
    BlockPaired(kw, toks, pairs, off, item, j);
    BlockLayout(item, off);
    ScanAttrs(kw, toks, pairs, cfg, off, item.attrs, j, LastOf(item, off));
  }

  lemma ScanBlockHead(kw: Keywords, toks: seq<Token>, pairs: map<nat, nat>, cfg: TargetCfg, off: nat, item: Item, j: nat)
    requires IsBracketMap(toks, pairs) && ItemOk(kw, item) && item.Block?
    requires At(toks, off, PrintItem(item)) && j == off + |PrintAttrs(item.attrs, false)|
    ensures Scans(kw, toks, pairs, cfg, j, [], OpenOf(item, off) + 1)
  {
    BlockHeadAt(kw, toks, off, item, j);
    ScanHead(kw, toks, pairs, cfg, j, item, Sign("{"));
  }

  /** Up to the brace: the item's attributes and its head. */
  lemma ScanToBrace(kw: Keywords, toks: seq<Token>, pairs: map<nat, nat>, cfg: TargetCfg, off: nat, item: Item)
    requires IsBracketMap(toks, pairs) && ItemOk(kw, item) && item.Block?
    requires At(toks, off, PrintItem(item)) && NoElse(toks, off + |PrintItem(item)|)
    ensures Scans(kw, toks, pairs, cfg, off, AttrMarks(item.attrs, off, LastOf(item, off), cfg), OpenOf(item, off) + 1)
  {
    var j := off + |PrintAttrs(item.attrs, false)|;
    var marks := AttrMarks(item.attrs, off, LastOf(item, off), cfg);
    ScanBlockAttrs(kw, toks, pairs, cfg, off, item, j);
    ScanBlockHead(kw, toks, pairs, cfg, off, item, j);
    assert marks + [] == marks;
    ScansJoin(kw, toks, pairs, cfg, off, marks, j, [], OpenOf(item, off) + 1);
  }

  /** From the brace: the inner attributes. */
  lemma ScanFromBrace(kw: Keywords, toks: seq<Token>, pairs: map<nat, nat>, cfg: TargetCfg,
                      b: nat, last: nat, attrs: seq<Attr>, end: nat)
    requires IsBracketMap(toks, pairs) && AttrsOk(attrs) && end == b + 1 + |PrintAttrs(attrs, true)|
    requires At(toks, b, [Sign("{")]) && At(toks, b + 1, PrintAttrs(attrs, true))
    requires b in pairs && pairs[b] == last
    ensures Scans(kw, toks, pairs, cfg, b + 1, InnerMarks(attrs, Region(b, last), cfg), end)
  {
    AtIndex(toks, b, [Sign("{")], 0);
    assert Enclosing(toks, b + 1) == Some(b);
    ScanInner(kw, toks, pairs, cfg, b + 1, attrs, Some(b), end);
  }

  lemma ScanToBody(kw: Keywords, toks: seq<Token>, pairs: map<nat, nat>, cfg: TargetCfg, off: nat, item: Item)
    requires IsBracketMap(toks, pairs) && item.Block? && AttrsOk(item.inner)
    requires At(toks, off, PrintItem(item))
    requires OpenOf(item, off) in pairs && pairs[OpenOf(item, off)] == LastOf(item, off)
    ensures Scans(kw, toks, pairs, cfg, OpenOf(item, off) + 1,
                  InnerMarks(item.inner, Region(OpenOf(item, off), LastOf(item, off)), cfg), BodyOf(item, off))
  {
    BlockInnerAt(toks, off, item);
    ScanFromBrace(kw, toks, pairs, cfg, OpenOf(item, off), LastOf(item, off), item.inner, BodyOf(item, off));
  }

  lemma BlockMarksJoin(kw: Keywords, toks: seq<Token>, pairs: map<nat, nat>, cfg: TargetCfg, off: nat, item: Item, end: nat)
    requires IsBracketMap(toks, pairs) && item.Block?
    requires Scans(kw, toks, pairs, cfg, off, AttrMarks(item.attrs, off, LastOf(item, off), cfg), OpenOf(item, off) + 1)
    requires Scans(kw, toks, pairs, cfg, OpenOf(item, off) + 1,
                   InnerMarks(item.inner, Region(OpenOf(item, off), LastOf(item, off)), cfg), BodyOf(item, off))
    requires Scans(kw, toks, pairs, cfg, BodyOf(item, off), ElemsMarks(item.body, BodyOf(item, off), cfg), end)
    ensures Scans(kw, toks, pairs, cfg, off, ItemMarks(item, off, cfg), end)
  {
    var last, open, bodyOff := LastOf(item, off), OpenOf(item, off), BodyOf(item, off);
    var inner := InnerMarks(item.inner, Region(open, last), cfg);
    var elems := ElemsMarks(item.body, bodyOff, cfg);
    ScansJoin(kw, toks, pairs, cfg, open + 1, inner, bodyOff, elems, end);
    ScansJoin(kw, toks, pairs, cfg, off, AttrMarks(item.attrs, off, last, cfg), open + 1, inner + elems, end);
  }

  lemma {:induction false} ScanItem(kw: Keywords, toks: seq<Token>, pairs: map<nat, nat>, cfg: TargetCfg, off: nat, item: Item)
    requires IsBracketMap(toks, pairs) && ItemOk(kw, item)
    requires At(toks, off, PrintItem(item)) && NoElse(toks, off + |PrintItem(item)|)
    ensures Scans(kw, toks, pairs, cfg, off, ItemMarks(item, off, cfg), off + |PrintItem(item)|)
    decreases item, 0
  {
    if item.Leaf? {
      ScanLeaf(kw, toks, pairs, cfg, off, item);
    } else {
      ScanToBrace(kw, toks, pairs, cfg, off, item);
      BlockPaired(kw, toks, pairs, off, item, off + |PrintAttrs(item.attrs, false)|);
      ScanToBody(kw, toks, pairs, cfg, off, item);
      ScanBody(kw, toks, pairs, cfg, off, item);
      BlockMarksJoin(kw, toks, pairs, cfg, off, item, off + |PrintItem(item)|);
    }
  }

  /** The body, and the brace that closes it. */
  lemma {:induction false} ScanBody(kw: Keywords, toks: seq<Token>, pairs: map<nat, nat>, cfg: TargetCfg, off: nat, item: Item)
    requires IsBracketMap(toks, pairs) && ItemOk(kw, item) && item.Block?
    requires At(toks, off, PrintItem(item)) && NoElse(toks, off + |PrintItem(item)|)
    ensures Scans(kw, toks, pairs, cfg, BodyOf(item, off), ElemsMarks(item.body, BodyOf(item, off), cfg), off + |PrintItem(item)|)
    decreases item.body, 3
  {
    BlockBodyAt(toks, off, item);
    BlockLayout(item, off);
    AtIndex(toks, LastOf(item, off), [Sign("}")], 0);
    ScanElems(kw, toks, pairs, cfg, BodyOf(item, off), item.body, LastOf(item, off));
    ScanOver(kw, toks, pairs, cfg, LastOf(item, off), [Sign("}")]);
    var marks := ElemsMarks(item.body, BodyOf(item, off), cfg);
    assert marks + [] == marks;
    ScansJoin(kw, toks, pairs, cfg, BodyOf(item, off), marks, LastOf(item, off), [], off + |PrintItem(item)|);
  }

  lemma {:induction false} ScanElem(kw: Keywords, toks: seq<Token>, pairs: map<nat, nat>, cfg: TargetCfg, off: nat, e: Elem, end: nat)
    requires IsBracketMap(toks, pairs) && ElemOk(kw, e) && end == off + |PrintElem(e)|
    requires At(toks, off, PrintElem(e)) && NoElse(toks, end)
    ensures Scans(kw, toks, pairs, cfg, off, ElemMarks(e, off, cfg), end)
    decreases e, 1
  {
    match e {
      case Code(code) => ScanOver(kw, toks, pairs, cfg, off, code);
      case Nested(item) => ScanItem(kw, toks, pairs, cfg, off, item);
    }
  }

  /** How a list's first element and the rest sit in the file. */
  lemma ElemsAt(toks: seq<Token>, off: nat, elems: seq<Elem>, next: nat, end: nat)
    requires elems != [] && At(toks, off, PrintElems(elems))
    requires next == off + |PrintElem(elems[0])| && end == off + |PrintElems(elems)|
    ensures At(toks, off, PrintElem(elems[0])) && At(toks, next, PrintElems(elems[1..]))
    ensures end == next + |PrintElems(elems[1..])|
  {
    AtSplit(toks, off, PrintElem(elems[0]), PrintElems(elems[1..]));
  }

  lemma ElemsMarksJoin(kw: Keywords, toks: seq<Token>, pairs: map<nat, nat>, cfg: TargetCfg,
                       off: nat, elems: seq<Elem>, next: nat, end: nat)
    requires IsBracketMap(toks, pairs) && elems != [] && next == off + |PrintElem(elems[0])|
    requires Scans(kw, toks, pairs, cfg, off, ElemMarks(elems[0], off, cfg), next)
    requires Scans(kw, toks, pairs, cfg, next, ElemsMarks(elems[1..], next, cfg), end)
    ensures Scans(kw, toks, pairs, cfg, off, ElemsMarks(elems, off, cfg), end)
  {
    ScansJoin(kw, toks, pairs, cfg, off, ElemMarks(elems[0], off, cfg), next, ElemsMarks(elems[1..], next, cfg), end);
  }

  lemma {:induction false} ScanElems(kw: Keywords, toks: seq<Token>, pairs: map<nat, nat>, cfg: TargetCfg,
                                     off: nat, elems: seq<Elem>, end: nat)
    requires IsBracketMap(toks, pairs) && ElemsOk(kw, elems) && end == off + |PrintElems(elems)|
    requires At(toks, off, PrintElems(elems)) && NoElse(toks, end)
    ensures Scans(kw, toks, pairs, cfg, off, ElemsMarks(elems, off, cfg), end)
    decreases elems, 2
  {
    if elems == [] {
      ScansNothing(kw, toks, pairs, cfg, off);
    } else {
      var next := off + |PrintElem(elems[0])|;
      ElemsAt(toks, off, elems, next, end);
      ElemsStartCalm(kw, toks, next, elems[1..], end);
      ScanElem(kw, toks, pairs, cfg, off, elems[0], next);
      ScanElems(kw, toks, pairs, cfg, next, elems[1..], end);
      ElemsMarksJoin(kw, toks, pairs, cfg, off, elems, next, end);
    }
  }

  lemma ElemsStartCalm(kw: Keywords, toks: seq<Token>, off: nat, elems: seq<Elem>, end: nat)
    requires ElemsOk(kw, elems) && At(toks, off, PrintElems(elems))
    requires end == off + |PrintElems(elems)| && NoElse(toks, end)
    ensures NoElse(toks, off)
  {
    if elems != [] {
      ElemStartsCalm(kw, elems[0]);
      AtSplit(toks, off, PrintElem(elems[0]), PrintElems(elems[1..]));
      AtIndex(toks, off, PrintElem(elems[0]), 0);
    }
  }

  /** Scanning a printed file makes exactly the marks read off its tree. */
  lemma ScanFile(kw: Keywords, cfg: TargetCfg, file: File, pairs: map<nat, nat>)
    requires FileOk(kw, file) && IsBracketMap(PrintFile(file), pairs)
    ensures AllMarks(kw, PrintFile(file), cfg, pairs) == FileMarks(file, cfg)
  {
    var toks := PrintFile(file);
    var off := |PrintAttrs(file.inner, true)|;
    AtWhole(toks);
    AtSplit(toks, 0, PrintAttrs(file.inner, true), PrintElems(file.body));
    ScanInner(kw, toks, pairs, cfg, 0, file.inner, None, off);
    ScanElems(kw, toks, pairs, cfg, off, file.body, |toks|);
    ScansJoin(kw, toks, pairs, cfg, 0, InnerMarks(file.inner, WholeFile, cfg), off, ElemsMarks(file.body, off, cfg), |toks|);
    ScansElim(kw, toks, pairs, cfg, 0, FileMarks(file, cfg), |toks|);
  }

  /** The scan is exact. On every stretch of code in a printed file it marks
      the stretch, whole, when one of the predicates over it (its own, an
      enclosing item's, the file's) is definitely false for the target, and
      does not touch it otherwise; and what it marks is compiled in no build
      of the target. */
  lemma ExclusionIsExact(kw: Keywords, cfg: TargetCfg, file: File, pairs: map<nat, nat>, s: Site)
    requires FileOk(kw, file) && IsBracketMap(PrintFile(file), pairs)
    requires s in FileSites(file)
    ensures SiteExact(MarkSet(AllMarks(kw, PrintFile(file), cfg, pairs)), s, cfg)
    ensures Dead(s.gates, cfg) ==> forall b | BuildOf(b, cfg) :: !Compiled(s.gates, b)
  {
    ScanFile(kw, cfg, file, pairs);
    FileExact(file, cfg);
    if Dead(s.gates, cfg) {
      forall b | BuildOf(b, cfg) ensures !Compiled(s.gates, b) {
        DeadIsNotCompiled(s.gates, cfg, b);
      }
    }
  }
}
