/**
 The `mod name;` declarations of a file: the inline modules around each, the
 `#[path]` above it, and whether it stands in code the target does not compile
 (the end of `cfg_false_spans` in scripts/ci-mutants-summary.py).
 */
module ModDecls {
  import opened Wrappers
  import opened RustTokens
  import opened RustText
  import opened RustLexer
  import opened CfgPredicate
  import opened ItemEnd
  import opened CfgSpans
  import opened CfgItems
  import opened CfgSites
  import opened CfgScanPrinted
  import opened PlatformMutants

  datatype ModDecl = ModDecl(name: string, chain: seq<string>, path: Option<string>, isFalse: bool)

  // ---- the two loops -------------------------------------------------------

  /** `mod name` and a sign. */
  predicate ModAt(toks: seq<Token>, k: nat, sign: string) {
    k + 2 < |toks| && toks[k] == Word("mod") && toks[k + 1].kind == Ident && toks[k + 2].text == sign
  }

  /** A `mod name { .. }`, by its braces. */
  datatype Inline = Inline(open: nat, close: nat, name: string)

  function InlineAt(toks: seq<Token>, pairs: map<nat, nat>, k: nat): Inline
    requires ModAt(toks, k, "{")
  {
    Inline(k + 2, if k + 2 in pairs then pairs[k + 2] else |toks| - 1, toks[k + 1].text)
  }

  function InlinesTo(toks: seq<Token>, pairs: map<nat, nat>, n: nat): seq<Inline> {
    if n == 0 then []
    else InlinesTo(toks, pairs, n - 1) + if ModAt(toks, n - 1, "{") then [InlineAt(toks, pairs, n - 1)] else []
  }

  predicate Around(m: Inline, k: nat) {
    m.open < k < m.close
  }

  /** The inline modules a place is in, in the order of the file. */
  function Holding(inline: seq<Inline>, k: nat): seq<Inline> {
    if inline == [] then []
    else Holding(inline[..|inline| - 1], k) + if Around(inline[|inline| - 1], k) then [inline[|inline| - 1]] else []
  }

  function Names(inline: seq<Inline>): seq<string> {
    seq(|inline|, i requires 0 <= i < |inline| => inline[i].name)
  }

  predicate IsVisibility(word: string) {
    word == "pub" || word == "crate" || word == ")" || word == "(" || word == "self" || word == "super" || word == "in"
  }

  /** Back over a visibility, from `b`. */
  function BeforeVisibility(toks: seq<Token>, b: int): (a: int)
    requires b < |toks|
    ensures a <= b && (a >= 0 ==> !IsVisibility(toks[a].text))
    decreases if b < 0 then 0 else b + 1
  {
    if b >= 0 && IsVisibility(toks[b].text) then BeforeVisibility(toks, b - 1) else b
  }

  /** `#[path = ".."]`, by its square brackets; one whose `#` is the first token
      of the file is not read. */
  predicate PathAttrAt(toks: seq<Token>, o: nat, c: nat) {
    2 <= o && o + 3 < c < |toks| && toks[o - 1].text == "#" && toks[o + 1] == Word("path")
    && toks[o + 2].text == "=" && toks[o + 3].kind == Lit
  }

  lemma OpenerBehind(toks: seq<Token>, pairs: map<nat, nat>, b: nat)
    requires IsBracketMap(toks, pairs) && b in pairs && b < |toks| && toks[b].text == "]"
    ensures pairs[b] < b
  {
    BracketMapInvolution(toks, pairs, b);
  }

  /** Back over the attributes that end at `b`: the last path found, if any. */
  function PathAbove(toks: seq<Token>, pairs: map<nat, nat>, b: int, path: Option<string>): Option<string>
    requires IsBracketMap(toks, pairs) && b < |toks|
    decreases if b < 0 then 0 else b + 1
  {
    if b >= 0 && toks[b].text == "]" && b in pairs then
      OpenerBehind(toks, pairs, b);
      var o: int := pairs[b];
      PathAbove(toks, pairs, o - 2, if PathAttrAt(toks, o, b) then Some(StripQuotes(toks[o + 3].text)) else path)
    else path
  }

  /** Whether a place is in code the target does not compile. */
  predicate StandsFalse(wholeFile: bool, spans: seq<Span>, p: Pos) {
    wholeFile || exists s | s in spans :: AtOrBefore(s.start, p) && Before(p, s.end)
  }

  function DeclAt(toks: seq<Lexeme>, pairs: map<nat, nat>, wholeFile: bool, spans: seq<Span>, k: nat): ModDecl
    requires IsBracketMap(Toks(toks), pairs) && ModAt(Toks(toks), k, ";")
  {
    var ts := Toks(toks);
    ModDecl(ts[k + 1].text, Names(Holding(InlinesTo(ts, pairs, |ts|), k)),
            PathAbove(ts, pairs, BeforeVisibility(ts, k - 1), None),
            StandsFalse(wholeFile, spans, Pos(toks[k].line, toks[k].col)))
  }

  function DeclsTo(toks: seq<Lexeme>, pairs: map<nat, nat>, wholeFile: bool, spans: seq<Span>, n: nat): seq<ModDecl>
    requires IsBracketMap(Toks(toks), pairs)
  {
    if n == 0 then []
    else
      DeclsTo(toks, pairs, wholeFile, spans, n - 1)
      + if ModAt(Toks(toks), n - 1, ";") then [DeclAt(toks, pairs, wholeFile, spans, n - 1)] else []
  }

  method InlineModules(toks: seq<Token>, pairs: map<nat, nat>) returns (inline: seq<Inline>)
    ensures inline == InlinesTo(toks, pairs, |toks|)
  {
    inline := [];
    for k := 0 to |toks|
      invariant inline == InlinesTo(toks, pairs, k)
    {
      if ModAt(toks, k, "{") {
        inline := inline + [InlineAt(toks, pairs, k)];
      }
    }
  }

  method ChainOf(inline: seq<Inline>, k: nat) returns (chain: seq<string>)
    ensures chain == Names(Holding(inline, k))
  {
    chain := [];
    for i := 0 to |inline|
      invariant chain == Names(Holding(inline[..i], k))
    {
      var m := inline[i];
      assert inline[..i + 1][..i] == inline[..i];
      if m.open < k && k < m.close {
        chain := chain + [m.name];
      }
    }
    assert inline[..|inline|] == inline;
  }

  /** The look-back over a declaration's visibility and its attributes. */
  method FindPath(toks: seq<Token>, pairs: map<nat, nat>, k: nat) returns (path: Option<string>)
    requires IsBracketMap(toks, pairs) && k < |toks|
    ensures path == PathAbove(toks, pairs, BeforeVisibility(toks, k - 1), None)
  {
    path := None;
    var b: int := k - 1;
    while b >= 0 && IsVisibility(toks[b].text)
      invariant b < |toks| && BeforeVisibility(toks, b) == BeforeVisibility(toks, k - 1)
    {
      b := b - 1;
    }
    while b >= 0 && toks[b].text == "]" && b in pairs
      invariant b < |toks|
      invariant PathAbove(toks, pairs, b, path) == PathAbove(toks, pairs, BeforeVisibility(toks, k - 1), None)
      decreases if b < 0 then 0 else b + 1
    {
      OpenerBehind(toks, pairs, b);
      var o: int := pairs[b];
      if PathAttrAt(toks, o, b) {
        path := Some(StripQuotes(toks[o + 3].text));
      }
      b := o - 2;
    }
  }

  method FindDecls(toks: seq<Lexeme>, pairs: map<nat, nat>, wholeFile: bool, spans: seq<Span>) returns (decls: seq<ModDecl>)
    requires IsBracketMap(Toks(toks), pairs)
    ensures decls == DeclsTo(toks, pairs, wholeFile, spans, |toks|)
  {
    var ts := Toks(toks);
    var inline := InlineModules(ts, pairs);
    decls := [];
    for k := 0 to |toks|
      invariant decls == DeclsTo(toks, pairs, wholeFile, spans, k)
    {
      if ModAt(ts, k, ";") {
        var isFalse := StandsFalse(wholeFile, spans, Pos(toks[k].line, toks[k].col));
        var chain := ChainOf(inline, k);
        var path := FindPath(ts, pairs, k);
        decls := decls + [ModDecl(ts[k + 1].text, chain, path, isFalse)];
      }
    }
  }

  ghost predicate Declares(toks: seq<Lexeme>, pairs: map<nat, nat>, wholeFile: bool, spans: seq<Span>, k: nat, d: ModDecl)
    requires IsBracketMap(Toks(toks), pairs)
  {
    ModAt(Toks(toks), k, ";") && d == DeclAt(toks, pairs, wholeFile, spans, k)
  }

  lemma {:induction false} DeclListed(toks: seq<Lexeme>, pairs: map<nat, nat>, wholeFile: bool, spans: seq<Span>,
                                      n: nat, k: nat, d: ModDecl)
    requires IsBracketMap(Toks(toks), pairs) && k < n && Declares(toks, pairs, wholeFile, spans, k, d)
    ensures d in DeclsTo(toks, pairs, wholeFile, spans, n)
  {
    if k == n - 1 {
      assert Declares(toks, pairs, wholeFile, spans, n - 1, d);
    } else {
      DeclListed(toks, pairs, wholeFile, spans, n - 1, k, d);
    }
    DeclsStep(toks, pairs, wholeFile, spans, n, d);
  }

  lemma {:induction false} DeclFrom(toks: seq<Lexeme>, pairs: map<nat, nat>, wholeFile: bool, spans: seq<Span>, n: nat, d: ModDecl)
    returns (k: nat)
    requires IsBracketMap(Toks(toks), pairs) && d in DeclsTo(toks, pairs, wholeFile, spans, n)
    ensures k < n && Declares(toks, pairs, wholeFile, spans, k, d)
  {
    DeclsStep(toks, pairs, wholeFile, spans, n, d);
    if Declares(toks, pairs, wholeFile, spans, n - 1, d) {
      k := n - 1;
    } else {
      k := DeclFrom(toks, pairs, wholeFile, spans, n - 1, d);
    }
  }

  lemma DeclsStep(toks: seq<Lexeme>, pairs: map<nat, nat>, wholeFile: bool, spans: seq<Span>, n: nat, d: ModDecl)
    requires IsBracketMap(Toks(toks), pairs) && n > 0
    ensures d in DeclsTo(toks, pairs, wholeFile, spans, n) <==>
            d in DeclsTo(toks, pairs, wholeFile, spans, n - 1) || Declares(toks, pairs, wholeFile, spans, n - 1, d)
  {
  }

  // ---- the chain ----------------------------------------------------------------

  predicate Nests(a: Inline, b: Inline) {
    a.open < b.open && b.close <= a.close
  }

  /** In the order of the file. */
  predicate Ascending(s: seq<Inline>) {
    forall i, j | 0 <= i < j < |s| :: s[i].open < s[j].open
  }

  lemma AscendingMore(s: seq<Inline>, m: Inline)
    requires Ascending(s) && forall x | x in s :: x.open < m.open
    ensures Ascending(s + [m])
  {
  }

  lemma {:induction false} InlinesInOrder(toks: seq<Token>, pairs: map<nat, nat>, n: nat)
    ensures forall m | m in InlinesTo(toks, pairs, n) ::
              m.open < n + 2 && exists k: nat | k < n && ModAt(toks, k, "{") :: m == InlineAt(toks, pairs, k)
    ensures Ascending(InlinesTo(toks, pairs, n))
  {
    if n > 0 {
      InlinesInOrder(toks, pairs, n - 1);
      if ModAt(toks, n - 1, "{") {
        AscendingMore(InlinesTo(toks, pairs, n - 1), InlineAt(toks, pairs, n - 1));
      }
    }
  }

  lemma {:induction false} HoldingIs(inline: seq<Inline>, k: nat)
    requires Ascending(inline)
    ensures forall m :: m in Holding(inline, k) <==> m in inline && Around(m, k)
    ensures Ascending(Holding(inline, k))
  {
    if inline != [] {
      var front, last := inline[..|inline| - 1], inline[|inline| - 1];
      HoldingIs(front, k);
      assert inline == front + [last];
      forall x | x in front ensures x.open < last.open {
        var i :| 0 <= i < |front| && front[i] == x;
        assert inline[i] == x;
      }
      if Around(last, k) {
        AscendingMore(Holding(front, k), last);
      }
    }
  }

  /** Two inline modules around one place are one in the other. */
  lemma BothAround(toks: seq<Token>, pairs: map<nat, nat>, a: nat, b: nat, k: nat)
    requires IsBracketMap(toks, pairs) && a < b && k < |toks|
    requires ModAt(toks, a, "{") && ModAt(toks, b, "{") && IsOpen(toks[b + 2])
    requires Around(InlineAt(toks, pairs, a), k) && Around(InlineAt(toks, pairs, b), k)
    ensures Nests(InlineAt(toks, pairs, a), InlineAt(toks, pairs, b))
  {
    if b + 2 in pairs {
      BracketMapInvolution(toks, pairs, b + 2);
    }
    if a + 2 in pairs {
      BracketMapNested(toks, pairs, a + 2, b + 2);
    }
  }

  lemma {:induction false} HoldingNests(toks: seq<Token>, pairs: map<nat, nat>, k: nat)
    requires IsBracketMap(toks, pairs) && k < |toks|
    requires forall i: nat | ModAt(toks, i, "{") :: IsOpen(toks[i + 2])
    ensures var s := Holding(InlinesTo(toks, pairs, |toks|), k);
            && (forall m :: m in s <==> Around(m, k) && exists i: nat | ModAt(toks, i, "{") :: m == InlineAt(toks, pairs, i))
            && (forall i, j | 0 <= i < j < |s| :: Nests(s[i], s[j]))
  {
    var inline := InlinesTo(toks, pairs, |toks|);
    var s := Holding(inline, k);
    InlinesInOrder(toks, pairs, |toks|);
    HoldingIs(inline, k);
    forall i: nat | ModAt(toks, i, "{") ensures InlineAt(toks, pairs, i) in inline {
      InlineListed(toks, pairs, |toks|, i);
    }
    forall i, j | 0 <= i < j < |s| ensures Nests(s[i], s[j]) {
      assert s[i] in inline && s[j] in inline;
      var a: nat :| ModAt(toks, a, "{") && s[i] == InlineAt(toks, pairs, a);
      var b: nat :| ModAt(toks, b, "{") && s[j] == InlineAt(toks, pairs, b);
      BothAround(toks, pairs, a, b, k);
    }
  }

  lemma BraceIsSign(text: string, i: nat)
    requires i < |text| && KindOf(PieceAt(text, i).shape).Some?
    ensures var t := TextOf(text, Stretch(KindOf(PieceAt(text, i).shape).value, i, PieceAt(text, i).end));
            t == "{" ==> PieceAt(text, i).shape == SignTok
  {
    var p := PieceAt(text, i);
    var whole := text[i..p.end];
    assert whole[0] == text[i];
    if p.shape == WordTok && |whole| >= 2 && whole[..2] == "r#" {
      assert whole[1] == "r#"[1];
      assert whole[2..] == text[i + 2..p.end];
      if p.end > i + 2 {
        assert whole[2..][0] == text[i + 2];
      }
    }
  }

  /** In a lexed file a brace is a sign. */
  lemma {:induction false} BracesAreSigns(text: string, i: nat)
    ensures forall k | 0 <= k < |StretchesFrom(text, i)| ::
              TextOf(text, StretchesFrom(text, i)[k]) == "{" ==> StretchesFrom(text, i)[k].kind == Punct
    decreases if i < |text| then |text| - i else 0
  {
    if i < |text| {
      var p := PieceAt(text, i);
      BracesAreSigns(text, p.end);
      if KindOf(p.shape).Some? {
        BraceIsSign(text, i);
      }
    }
  }

  lemma LexedBraces(text: string, ss: seq<Stretch>)
    requires IsLexOf(ss, text) && Inside(text, ss)
    ensures forall i: nat | ModAt(Toks(Placed(text, ss)), i, "{") :: IsOpen(Toks(Placed(text, ss))[i + 2])
  {
    LexUnfolded(ss, text);
    BracesAreSigns(text, 0);
  }

  /** A chain runs from the outermost inline module in: it is of exactly those
      around the place, each in the one before. */
  lemma ChainNests(text: string, ss: seq<Stretch>, pairs: map<nat, nat>, k: nat)
    requires IsLexOf(ss, text) && Inside(text, ss) && IsBracketMap(Toks(Placed(text, ss)), pairs) && k < |ss|
    ensures var toks := Toks(Placed(text, ss)); var s := Holding(InlinesTo(toks, pairs, |toks|), k);
            && (forall m :: m in s <==> Around(m, k) && exists i: nat | ModAt(toks, i, "{") :: m == InlineAt(toks, pairs, i))
            && (forall i, j | 0 <= i < j < |s| :: Nests(s[i], s[j]))
  {
    LexedBraces(text, ss);
    HoldingNests(Toks(Placed(text, ss)), pairs, k);
  }

  lemma {:induction false} InlineListed(toks: seq<Token>, pairs: map<nat, nat>, n: nat, k: nat)
    requires k < n && ModAt(toks, k, "{")
    ensures InlineAt(toks, pairs, k) in InlinesTo(toks, pairs, n)
  {
    if k < n - 1 {
      InlineListed(toks, pairs, n - 1, k);
    }
  }

  // ---- the path ------------------------------------------------------------------

  /** The path an attribute gives, printed or not. */
  function PathIn(a: Attr): Option<string> {
    if a.OtherAttr? && |a.body| >= 3 && a.body[0] == Word("path") && a.body[1].text == "=" && a.body[2].kind == Lit
    then Some(StripQuotes(a.body[2].text)) else None
  }

  /** The topmost path of a stack of attributes; the first attribute counts only
      if something stands above it. */
  function Topmost(attrs: seq<Attr>, above: bool, path: Option<string>): Option<string> {
    if attrs == [] then path
    else if above && PathIn(attrs[0]).Some? then PathIn(attrs[0])
    else Topmost(attrs[1..], true, path)
  }

  /** Back over one printed attribute. */
  lemma PathAboveOne(toks: seq<Token>, pairs: map<nat, nat>, k: nat, a: Attr, next: nat, path: Option<string>)
    requires IsBracketMap(toks, pairs) && AttrOk(a)
    requires At(toks, k, PrintAttr(a, false)) && next == k + |PrintAttr(a, false)| <= |toks|
    ensures PathAbove(toks, pairs, next - 1, path)
         == PathAbove(toks, pairs, k - 1, if k > 0 && PathIn(a).Some? then PathIn(a) else path)
  {
    var o, c := k + 1, next - 1;
    AttrEnds(toks, pairs, k, a, o, c);
    PathIsAttr(toks, k, a, c);
    PathAboveStep(toks, pairs, c, o, path, if k > 0 && PathIn(a).Some? then PathIn(a) else path);
  }

  lemma AttrEnds(toks: seq<Token>, pairs: map<nat, nat>, k: nat, a: Attr, o: nat, c: nat)
    requires IsBracketMap(toks, pairs) && AttrOk(a) && At(toks, k, PrintAttr(a, false))
    requires o == k + 1 && c == k + |PrintAttr(a, false)| - 1
    ensures o < c < |toks| && c in pairs && pairs[c] == o && toks[c].text == "]" && toks[k] == Sign("#")
    ensures forall i | 0 <= i < |AttrBody(a)| :: toks[k + 2 + i] == AttrBody(a)[i]
  {
    ReadPrintedAttr(toks, pairs, TargetCfg({}, map[]), k, a, false);
    BracketMapInvolution(toks, pairs, o);
    AttrBodyAt(toks, k, a);
  }

  lemma PathAboveStep(toks: seq<Token>, pairs: map<nat, nat>, b: nat, o: nat, path: Option<string>, found: Option<string>)
    requires IsBracketMap(toks, pairs) && o < b < |toks| && toks[b].text == "]" && b in pairs && pairs[b] == o
    requires found == if PathAttrAt(toks, o, b) then Some(StripQuotes(toks[o + 3].text)) else path
    ensures PathAbove(toks, pairs, b, path) == PathAbove(toks, pairs, o - 2, found)
  {
  }

  lemma PathIsAttr(toks: seq<Token>, k: nat, a: Attr, c: nat)
    requires c == k + 2 + |AttrBody(a)| < |toks| && toks[k] == Sign("#")
    requires forall i | 0 <= i < |AttrBody(a)| :: toks[k + 2 + i] == AttrBody(a)[i]
    ensures PathAttrAt(toks, k + 1, c) <==> k > 0 && PathIn(a).Some?
    ensures PathIn(a).Some? ==> Some(StripQuotes(toks[k + 4].text)) == PathIn(a)
  {
    var body := AttrBody(a);
    assert |body| > 0 ==> toks[k + 2 + 0] == body[0];
    assert |body| > 1 ==> toks[k + 2 + 1] == body[1];
    assert |body| > 2 ==> toks[k + 2 + 2] == body[2];
    assert a.CfgAttr? ==> body[0] == Word("cfg");
  }

  lemma AttrBodyAt(toks: seq<Token>, k: nat, a: Attr)
    requires At(toks, k, PrintAttr(a, false))
    ensures k + |PrintAttr(a, false)| <= |toks| && toks[k + |PrintAttr(a, false)| - 1] == Sign("]")
    ensures forall i | 0 <= i < |AttrBody(a)| :: toks[k + 2 + i] == AttrBody(a)[i]
  {
    AtSplit3(toks, k, AttrOpening(false), AttrBody(a), [Sign("]")]);
    AtIndex(toks, k + 2 + |AttrBody(a)|, [Sign("]")], 0);
    forall i | 0 <= i < |AttrBody(a)| ensures toks[k + 2 + i] == AttrBody(a)[i] {
      AtIndex(toks, k + 2, AttrBody(a), i);
    }
  }

  /** Back over a printed stack of attributes. */
  lemma {:induction false} PathAboveAttrs(toks: seq<Token>, pairs: map<nat, nat>, k: nat, attrs: seq<Attr>, j: nat, path: Option<string>)
    requires IsBracketMap(toks, pairs) && AttrsOk(attrs)
    requires At(toks, k, PrintAttrs(attrs, false)) && j == k + |PrintAttrs(attrs, false)| <= |toks|
    ensures PathAbove(toks, pairs, j - 1, path) == PathAbove(toks, pairs, k - 1, Topmost(attrs, k > 0, path))
    decreases |attrs|
  {
    if attrs != [] {
      var next := k + |PrintAttr(attrs[0], false)|;
      AttrsAt(toks, k, attrs, false, next, j);
      PathAboveAttrs(toks, pairs, next, attrs[1..], j, path);
      PathAboveOne(toks, pairs, k, attrs[0], next, Topmost(attrs[1..], true, path));
    }
  }

  /** `mod name;`, with what stands above and before it. */
  predicate ModItem(item: Item, name: string) {
    item.Leaf? && item.keyword == "mod" && item.rest == [Word(name)]
  }

  lemma WordsAt(toks: seq<Token>, off: nat, attrs: seq<Token>, quals: seq<Token>, name: string, j: nat, k: nat)
    requires At(toks, off, attrs + ((quals + [Word("mod")] + [Word(name)]) + [Sign(";")]))
    requires j == off + |attrs| && k == j + |quals|
    ensures At(toks, off, attrs) && At(toks, j, quals)
    ensures k + 2 < |toks| && toks[k] == Word("mod") && toks[k + 1] == Word(name) && toks[k + 2] == Sign(";")
  {
    AtSplit(toks, off, attrs, quals + [Word("mod")] + [Word(name)] + [Sign(";")]);
    AtSplit(toks, j, quals + [Word("mod")] + [Word(name)], [Sign(";")]);
    AtSplit3(toks, j, quals, [Word("mod")], [Word(name)]);
    AtIndex(toks, k, [Word("mod")], 0);
    AtIndex(toks, k + 1, [Word(name)], 0);
    AtIndex(toks, k + 2, [Sign(";")], 0);
  }

  lemma ModItemAt(toks: seq<Token>, off: nat, item: Item, name: string, j: nat, k: nat)
    requires ModItem(item, name) && At(toks, off, PrintItem(item))
    requires j == off + |PrintAttrs(item.attrs, false)| && k == j + |PrintQuals(item.quals)|
    ensures At(toks, off, PrintAttrs(item.attrs, false)) && At(toks, j, PrintQuals(item.quals))
    ensures k + 2 < |toks| && toks[k] == Word("mod") && toks[k + 1] == Word(name) && toks[k + 2] == Sign(";")
  {
    WordsAt(toks, off, PrintAttrs(item.attrs, false), PrintQuals(item.quals), name, j, k);
  }

  predicate Visible(p: seq<Token>) {
    forall i | 0 <= i < |p| :: IsVisibility(p[i].text)
  }

  lemma {:induction false} BackOver(toks: seq<Token>, j: nat, p: seq<Token>, i: nat)
    requires At(toks, j, p) && i <= |p| && j + |p| <= |toks| && Visible(p)
    ensures BeforeVisibility(toks, j + i - 1) == BeforeVisibility(toks, j - 1)
  {
    if i > 0 {
      AtIndex(toks, j, p, i - 1);
      BackOver(toks, j, p, i - 1);
    }
  }

  lemma {:induction false} BackStops(toks: seq<Token>, j: nat, p: seq<Token>, i: nat)
    requires At(toks, j, p) && i <= |p| && j + |p| <= |toks| && !Visible(p[..i])
    ensures BeforeVisibility(toks, j + i - 1) >= j
    decreases i
  {
    AtIndex(toks, j, p, i - 1);
    if IsVisibility(p[i - 1].text) {
      assert p[..i] == p[..i - 1] + [p[i - 1]];
      BackStops(toks, j, p, i - 1);
    }
  }

  /** What stands above ends in an inner attribute. */
  ghost predicate EndsInner(toks: seq<Token>, off: nat) {
    exists k: nat, a | At(toks, k, PrintAttr(a, true)) :: AttrOk(a) && off == k + |PrintAttr(a, true)|
  }

  /** Nothing of what stands above the item is taken for its own: no word or
      bracket of a visibility, and no `]` but that of an inner attribute. */
  ghost predicate Apart(toks: seq<Token>, off: nat)
    requires off <= |toks|
  {
    off > 0 ==> !IsVisibility(toks[off - 1].text) && (toks[off - 1].text != "]" || EndsInner(toks, off))
  }

  lemma InnerStops(toks: seq<Token>, pairs: map<nat, nat>, k: nat, a: Attr, off: nat, path: Option<string>)
    requires IsBracketMap(toks, pairs) && At(toks, k, PrintAttr(a, true)) && AttrOk(a)
    requires off == k + |PrintAttr(a, true)| <= |toks|
    ensures PathAbove(toks, pairs, off - 1, path) == path
  {
    ReadPrintedAttr(toks, pairs, TargetCfg({}, map[]), k, a, true);
    BracketMapInvolution(toks, pairs, k + 2);
    assert toks[k] == Sign("#") && toks[k + 1] == Sign("!");
  }

  lemma ApartStops(toks: seq<Token>, pairs: map<nat, nat>, off: nat, path: Option<string>)
    requires IsBracketMap(toks, pairs) && off <= |toks| && Apart(toks, off)
    ensures PathAbove(toks, pairs, off - 1, path) == path && BeforeVisibility(toks, off - 1) == off - 1
  {
    if off > 0 && toks[off - 1].text == "]" {
      var k: nat, a :| At(toks, k, PrintAttr(a, true)) && AttrOk(a) && off == k + |PrintAttr(a, true)|;
      InnerStops(toks, pairs, k, a, off, path);
    }
  }

  /** The path of a printed `mod name;` is the topmost of its attributes', unless
      a path stands in its visibility (`pub(in a::b)`), which hides them all, or
      the attribute opens the file, which hides that one. */
  lemma PathIsTopmost(toks: seq<Token>, pairs: map<nat, nat>, off: nat, item: Item, name: string, k: nat)
    requires IsBracketMap(toks, pairs) && ModItem(item, name) && AttrsOk(item.attrs)
    requires At(toks, off, PrintItem(item)) && off <= |toks| && Apart(toks, off)
    requires forall t | t in PrintQuals(item.quals) :: t.text != "]"
    requires k == off + |PrintAttrs(item.attrs, false)| + |PrintQuals(item.quals)|
    ensures ModAt(toks, k, ";") && toks[k + 1].text == name
    ensures PathAbove(toks, pairs, BeforeVisibility(toks, k - 1), None)
         == if Visible(PrintQuals(item.quals)) then Topmost(item.attrs, off > 0, None) else None
  {
    var quals := PrintQuals(item.quals);
    var j := off + |PrintAttrs(item.attrs, false)|;
    ModItemAt(toks, off, item, name, j, k);
    if Visible(quals) {
      SeenPath(toks, pairs, off, item.attrs, j, quals, k);
    } else {
      HiddenPath(toks, pairs, j, quals, k);
    }
  }

  lemma {:induction false} NonePath(attrs: seq<Attr>)
    requires Topmost(attrs, true, None).None?
    ensures Topmost(attrs, false, None).None?
  {
  }

  const FIRST := [Sign("#"), Sign("["), Word("path"), Sign("="), Token(Lit, "\"a.rs\""), Sign("]"), Word("mod"), Word("m"), Sign(";")]

  /** `#[path = "a.rs"] mod m;` at the start of a file: the path is not read. */
  lemma FirstPathIsLost(pairs: map<nat, nat>)
    requires IsBracketMap(FIRST, pairs)
    ensures ModAt(FIRST, 6, ";") && PathAbove(FIRST, pairs, BeforeVisibility(FIRST, 5), None).None?
    ensures PathIn(OtherAttr(FIRST[2..5])) == Some("a.rs")
  {
    assert FIRST[2..5] == [Word("path"), Sign("="), Token(Lit, "\"a.rs\"")];
    StripQuotesInverts("a.rs");
    assert "\"" + "a.rs" + "\"" == "\"a.rs\"";
    BracketsOfFirst(pairs);
  }

  lemma BracketsOfFirst(pairs: map<nat, nat>)
    requires IsBracketMap(FIRST, pairs)
    ensures 5 in pairs ==> pairs[5] == 1
  {
    if 5 in pairs {
      BracketMapInvolution(FIRST, pairs, 5);
    }
  }

  lemma SeenPath(toks: seq<Token>, pairs: map<nat, nat>, off: nat, attrs: seq<Attr>, j: nat, quals: seq<Token>, k: nat)
    requires IsBracketMap(toks, pairs) && AttrsOk(attrs)
    requires At(toks, off, PrintAttrs(attrs, false)) && j == off + |PrintAttrs(attrs, false)| && off <= |toks| && Apart(toks, off)
    requires At(toks, j, quals) && k == j + |quals| <= |toks| && Visible(quals)
    ensures PathAbove(toks, pairs, BeforeVisibility(toks, k - 1), None) == Topmost(attrs, off > 0, None)
  {
    BackOver(toks, j, quals, |quals|);
    AboveAttrs(toks, pairs, off, attrs, j);
  }

  lemma HiddenPath(toks: seq<Token>, pairs: map<nat, nat>, j: nat, quals: seq<Token>, k: nat)
    requires IsBracketMap(toks, pairs) && At(toks, j, quals) && k == j + |quals| <= |toks|
    requires !Visible(quals) && forall t | t in quals :: t.text != "]"
    ensures PathAbove(toks, pairs, BeforeVisibility(toks, k - 1), None).None?
  {
    assert quals[..|quals|] == quals;
    BackStops(toks, j, quals, |quals|);
    var b := BeforeVisibility(toks, k - 1);
    AtIndex(toks, j, quals, b - j);
  }

  lemma AboveAttrs(toks: seq<Token>, pairs: map<nat, nat>, off: nat, attrs: seq<Attr>, j: nat)
    requires IsBracketMap(toks, pairs) && AttrsOk(attrs)
    requires At(toks, off, PrintAttrs(attrs, false)) && j == off + |PrintAttrs(attrs, false)| <= |toks| && Apart(toks, off)
    ensures PathAbove(toks, pairs, BeforeVisibility(toks, j - 1), None) == Topmost(attrs, off > 0, None)
  {
    PathAboveAttrs(toks, pairs, off, attrs, j, None);
    ApartStops(toks, pairs, off, Topmost(attrs, off > 0, None));
    if attrs != [] {
      AttrsEnd(toks, off, attrs, j);
    }
  }

  lemma {:induction false} AttrsEnd(toks: seq<Token>, k: nat, attrs: seq<Attr>, j: nat)
    requires attrs != [] && At(toks, k, PrintAttrs(attrs, false)) && j == k + |PrintAttrs(attrs, false)| <= |toks|
    ensures toks[j - 1].text == "]"
    decreases |attrs|
  {
    var next := k + |PrintAttr(attrs[0], false)|;
    AttrsAt(toks, k, attrs, false, next, j);
    if |attrs| > 1 {
      AttrsEnd(toks, next, attrs[1..], j);
    } else {
      AttrBodyAt(toks, k, attrs[0]);
    }
  }

  // ---- whether a declaration is false ------------------------------------------

  /** A region holds a place of the file exactly when it starts no later and
      ends past it. */
  lemma HoldsByOffset(text: string, ss: seq<Stretch>, m: Mark, p: nat)
    requires Inside(text, ss) && m.Region? && MarkInside(Placed(text, ss), m)
    requires ss[m.last].kind == Punct && p <= |text|
    ensures var s := SpanOf(Placed(text, ss), m);
            AtOrBefore(s.start, PosAt(text, p)) && Before(PosAt(text, p), s.end)
            <==> ss[m.first].start <= p && p < ss[m.last].end
  {
    PosEndExact(text, ss[m.last]);
    PosMonotone(text, ss[m.first].start, p);
    PosMonotone(text, p, ss[m.last].end);
  }

  /** Marks that are exact on a site give a place in it exactly when it is dead. */
  lemma PlaceVerdict(text: string, ss: seq<Stretch>, marks: seq<Mark>, wholeFile: bool, spans: seq<Span>, s: Site, p: nat, cfg: TargetCfg)
    requires Inside(text, ss) && InOrder(ss) && SpansOf(Placed(text, ss), marks, wholeFile, spans)
    requires forall m | m in marks && m.Region? :: ss[m.last].kind == Punct
    requires SiteExact(MarkSet(marks), s, cfg) && StartsIn(ss, s, p)
    ensures StandsFalse(wholeFile, spans, PosAt(text, p)) <==> Dead(s.gates, cfg)
  {
    if Dead(s.gates, cfg) {
      var m :| m in MarkSet(marks) && (m.WholeFile? || (m.first <= s.first && s.last <= m.last));
      if m.Region? {
        CoveringMark(ss, m, s);
        HoldsByOffset(text, ss, m, p);
        assert SpanOf(Placed(text, ss), m) in spans;
      }
    } else {
      LiveIsMissed(ss, marks, s, p, p + 1, cfg);
      forall span | span in spans ensures !(AtOrBefore(span.start, PosAt(text, p)) && Before(PosAt(text, p), span.end)) {
        var m :| m in marks && m.Region? && span == SpanOf(Placed(text, ss), m);
        HoldsByOffset(text, ss, m, p);
      }
    }
  }

  lemma SitePlace(kw: Keywords, text: string, ss: seq<Stretch>, cfg: TargetCfg, file: File, pairs: map<nat, nat>,
                  wholeFile: bool, spans: seq<Span>, s: Site, p: nat)
    requires InOrder(ss) && Scanned(kw, text, cfg, ss, pairs, wholeFile, spans)
    requires FileOk(kw, file) && Toks(Placed(text, ss)) == PrintFile(file)
    requires s in FileSites(file) && StartsIn(ss, s, p)
    ensures StandsFalse(wholeFile, spans, PosAt(text, p)) <==> Dead(s.gates, cfg)
  {
    var marks := MarksOfFile(kw, cfg, file, pairs, Toks(Placed(text, ss)), s);
    KindsKept(text, ss);
    PlaceVerdict(text, ss, marks, wholeFile, spans, s, p, cfg);
  }

  lemma StartsAtToken(text: string, ss: seq<Stretch>, s: Site, k: nat)
    requires Inside(text, ss) && InOrder(ss) && s.first <= k <= s.last < |ss| && !s.block
    ensures StartsIn(ss, s, ss[k].start)
    ensures Pos(Placed(text, ss)[k].line, Placed(text, ss)[k].col) == PosAt(text, ss[k].start)
  {
  }

  /** A `mod name;` standing in a file's code is among its declarations, and is
      false exactly when one of the predicates over it is. */
  lemma DeclIsExact(kw: Keywords, text: string, ss: seq<Stretch>, cfg: TargetCfg, file: File, pairs: map<nat, nat>,
                    wholeFile: bool, spans: seq<Span>, s: Site, k: nat)
    requires IsLexOf(ss, text) && Scanned(kw, text, cfg, ss, pairs, wholeFile, spans)
    requires FileOk(kw, file) && Toks(Placed(text, ss)) == PrintFile(file)
    requires s in FileSites(file) && s.first <= k <= s.last < |ss| && !s.block
    requires ModAt(Toks(Placed(text, ss)), k, ";")
    ensures var d := DeclAt(Placed(text, ss), pairs, wholeFile, spans, k);
            d in DeclsTo(Placed(text, ss), pairs, wholeFile, spans, |ss|) && (d.isFalse <==> Dead(s.gates, cfg))
  {
    LexInOrder(ss, text);
    StartsAtToken(text, ss, s, k);
    SitePlace(kw, text, ss, cfg, file, pairs, wholeFile, spans, s, ss[k].start);
    DeclListed(Placed(text, ss), pairs, wholeFile, spans, |ss|, k, DeclAt(Placed(text, ss), pairs, wholeFile, spans, k));
  }

  // ---- the declarations of a tree ------------------------------------------------

  /** An item of a tree: where it starts, and the predicates around it. */
  datatype Spot = Spot(off: nat, item: Item, gates: seq<Pred>)

  function ItemSpots(item: Item, off: nat, gates: seq<Pred>): seq<Spot>
    decreases item, 0
  {
    match item
    case Leaf(_, _, _, _) => [Spot(off, item, gates)]
    case Block(attrs, _, _, _, inner, body) =>
      [Spot(off, item, gates)] + ElemsSpots(body, BodyOf(item, off), gates + AttrPreds(attrs) + AttrPreds(inner))
  }

  function ElemSpots(e: Elem, off: nat, gates: seq<Pred>): seq<Spot>
    decreases e, 1
  {
    match e
    case Code(_) => []
    case Nested(item) => ItemSpots(item, off, gates)
  }

  function ElemsSpots(elems: seq<Elem>, off: nat, gates: seq<Pred>): seq<Spot>
    decreases elems, 2
  {
    if elems == [] then []
    else ElemSpots(elems[0], off, gates) + ElemsSpots(elems[1..], off + |PrintElem(elems[0])|, gates)
  }

  function FileSpots(file: File): seq<Spot> {
    ElemsSpots(file.body, |PrintAttrs(file.inner, true)|, AttrPreds(file.inner))
  }

  /** Every predicate over an item without a body. */
  function OwnGates(sp: Spot): seq<Pred> {
    sp.gates + AttrPreds(sp.item.attrs)
  }

  function LeafSite(sp: Spot): Site {
    Site(sp.off + |PrintAttrs(sp.item.attrs, false)|, LastOf(sp.item, sp.off), false, OwnGates(sp))
  }

  /** The item is printed where its spot says, and is one of the file's sites. */
  ghost predicate Printed(kw: Keywords, toks: seq<Token>, sites: seq<Site>, sp: Spot) {
    At(toks, sp.off, PrintItem(sp.item)) && ItemOk(kw, sp.item) && (sp.item.Leaf? ==> LeafSite(sp) in sites)
  }

  lemma {:induction false} ItemSpotsPrinted(kw: Keywords, toks: seq<Token>, item: Item, off: nat, gates: seq<Pred>)
    requires ItemOk(kw, item) && At(toks, off, PrintItem(item))
    ensures forall sp | sp in ItemSpots(item, off, gates) :: Printed(kw, toks, ItemSites(item, off, gates), sp)
    decreases item, 0
  {
    if item.Block? {
      BlockBodyAt(toks, off, item);
      ElemsSpotsPrinted(kw, toks, item.body, BodyOf(item, off), gates + AttrPreds(item.attrs) + AttrPreds(item.inner));
    }
  }

  lemma {:induction false} ElemsSpotsPrinted(kw: Keywords, toks: seq<Token>, elems: seq<Elem>, off: nat, gates: seq<Pred>)
    requires ElemsOk(kw, elems) && At(toks, off, PrintElems(elems))
    ensures forall sp | sp in ElemsSpots(elems, off, gates) :: Printed(kw, toks, ElemsSites(elems, off, gates), sp)
    decreases elems, 2
  {
    if elems != [] {
      var next := off + |PrintElem(elems[0])|;
      ElemsAt(toks, off, elems, next, off + |PrintElems(elems)|);
      ElemSpotsPrinted(kw, toks, elems[0], off, gates);
      ElemsSpotsPrinted(kw, toks, elems[1..], next, gates);
      SpotsJoin(kw, toks, ElemSpots(elems[0], off, gates), ElemSites(elems[0], off, gates),
                ElemsSpots(elems[1..], next, gates), ElemsSites(elems[1..], next, gates));
    }
  }

  lemma {:induction false} ElemSpotsPrinted(kw: Keywords, toks: seq<Token>, e: Elem, off: nat, gates: seq<Pred>)
    requires ElemOk(kw, e) && At(toks, off, PrintElem(e))
    ensures forall sp | sp in ElemSpots(e, off, gates) :: Printed(kw, toks, ElemSites(e, off, gates), sp)
    decreases e, 1
  {
    if e.Nested? {
      ItemSpotsPrinted(kw, toks, e.item, off, gates);
    }
  }

  lemma SpotsJoin(kw: Keywords, toks: seq<Token>, a: seq<Spot>, sitesA: seq<Site>, b: seq<Spot>, sitesB: seq<Site>)
    requires forall sp | sp in a :: Printed(kw, toks, sitesA, sp)
    requires forall sp | sp in b :: Printed(kw, toks, sitesB, sp)
    ensures forall sp | sp in a + b :: Printed(kw, toks, sitesA + sitesB, sp)
  {
  }

  lemma FileSpotsPrinted(kw: Keywords, file: File)
    requires FileOk(kw, file)
    ensures forall sp | sp in FileSpots(file) :: Printed(kw, PrintFile(file), FileSites(file), sp)
  {
    var toks := PrintFile(file);
    AtWhole(toks);
    AtSplit(toks, 0, PrintAttrs(file.inner, true), PrintElems(file.body));
    ElemsSpotsPrinted(kw, toks, file.body, |PrintAttrs(file.inner, true)|, AttrPreds(file.inner));
  }

  /** The `mod` of a printed declaration. */
  function ModToken(sp: Spot): nat {
    sp.off + |PrintAttrs(sp.item.attrs, false)| + |PrintQuals(sp.item.quals)|
  }

  /** A `mod name;` of the file, apart from what stands above it. */
  ghost predicate IsModSpot(toks: seq<Token>, sp: Spot, name: string) {
    && ModItem(sp.item, name) && sp.off <= |toks| && Apart(toks, sp.off)
    && forall t | t in PrintQuals(sp.item.quals) :: t.text != "]"
  }

  /** What the path of a printed `mod name;` is, as the language has it... */
  function PathGiven(item: Item): Option<string> {
    Topmost(item.attrs, true, None)
  }

  /** ... and as the look-back reads it. */
  function PathRead(sp: Spot): Option<string> {
    if Visible(PrintQuals(sp.item.quals)) then Topmost(sp.item.attrs, sp.off > 0, None) else None
  }

  /** Whether they are the same. */
  predicate PathIsRead(sp: Spot) {
    || PathGiven(sp.item).None?
    || (&& Visible(PrintQuals(sp.item.quals))
        && (sp.off > 0 || PathIn(sp.item.attrs[0]).None? || PathIn(sp.item.attrs[0]) == Topmost(sp.item.attrs[1..], true, None)))
  }

  /** What a printed `mod name;` declares: its name, the inline modules around
      it, and the path its attributes give. */
  function Declaration(toks: seq<Token>, pairs: map<nat, nat>, sp: Spot, name: string, isFalse: bool): ModDecl {
    ModDecl(name, Names(Holding(InlinesTo(toks, pairs, |toks|), ModToken(sp))), PathGiven(sp.item), isFalse)
  }

  lemma MapIsOne(toks: seq<Token>, a: map<nat, nat>, b: map<nat, nat>)
    requires IsBracketMap(toks, a) && IsBracketMap(toks, b)
    ensures a == b
  {
    forall k: nat, v: nat ensures Linked(a, k, v) <==> Linked(b, k, v) {
    }
    forall k: nat ensures k in a <==> k in b {
      if k in a {
        assert Linked(a, k, a[k]);
      }
      if k in b {
        assert Linked(b, k, b[k]);
      }
    }
    forall k: nat | k in a ensures a[k] == b[k] {
      assert Linked(a, k, a[k]);
    }
  }

  /** The look-back at a printed declaration. */
  lemma SpotPath(kw: Keywords, toks: seq<Token>, pairs: map<nat, nat>, sp: Spot, name: string)
    requires IsBracketMap(toks, pairs) && IsModSpot(toks, sp, name)
    requires ItemOk(kw, sp.item) && At(toks, sp.off, PrintItem(sp.item))
    ensures ModAt(toks, ModToken(sp), ";") && toks[ModToken(sp) + 1].text == name
    ensures LeafSite(sp).first <= ModToken(sp) <= LeafSite(sp).last < |toks|
    ensures PathAbove(toks, pairs, BeforeVisibility(toks, ModToken(sp) - 1), None) == PathRead(sp)
  {
    PathIsTopmost(toks, pairs, sp.off, sp.item, name, ModToken(sp));
    AtIndex(toks, sp.off, PrintItem(sp.item), |PrintItem(sp.item)| - 1);
  }

  /** A printed `mod name;` is read as it stands but for its path, which is the
      one `PathRead` gives, and is false exactly when a predicate over it is. */
  lemma SpotIsRead(kw: Keywords, text: string, ss: seq<Stretch>, cfg: TargetCfg, file: File, pairs: map<nat, nat>,
                   wholeFile: bool, spans: seq<Span>, sp: Spot, name: string)
    requires IsLexOf(ss, text) && Scanned(kw, text, cfg, ss, pairs, wholeFile, spans)
    requires FileOk(kw, file) && Toks(Placed(text, ss)) == PrintFile(file)
    requires sp in FileSpots(file) && IsModSpot(PrintFile(file), sp, name)
    ensures var d := Declaration(PrintFile(file), pairs, sp, name, Dead(OwnGates(sp), cfg)).(path := PathRead(sp));
            && ModAt(Toks(Placed(text, ss)), ModToken(sp), ";")
            && d == DeclAt(Placed(text, ss), pairs, wholeFile, spans, ModToken(sp))
            && d in DeclsTo(Placed(text, ss), pairs, wholeFile, spans, |ss|)
  {
    FileSpotsPrinted(kw, file);
    assert Printed(kw, PrintFile(file), FileSites(file), sp);
    SpotPath(kw, PrintFile(file), pairs, sp, name);
    DeclIsExact(kw, text, ss, cfg, file, pairs, wholeFile, spans, LeafSite(sp), ModToken(sp));
  }

  /** The path read is the topmost one given exactly when none is given, or the
      visibility is plain and the attribute that gives it does not open the file
      (or the next path below says the same). */
  lemma PathIsReadIff(kw: Keywords, toks: seq<Token>, pairs: map<nat, nat>, sp: Spot, name: string)
    requires IsBracketMap(toks, pairs) && IsModSpot(toks, sp, name)
    requires ItemOk(kw, sp.item) && At(toks, sp.off, PrintItem(sp.item))
    ensures ModToken(sp) < |toks|
    ensures PathAbove(toks, pairs, BeforeVisibility(toks, ModToken(sp) - 1), None) == PathGiven(sp.item) <==> PathIsRead(sp)
  {
    SpotPath(kw, toks, pairs, sp, name);
    ReadIff(sp);
  }

  lemma ReadIff(sp: Spot)
    ensures PathRead(sp) == PathGiven(sp.item) <==> PathIsRead(sp)
  {
    if PathGiven(sp.item).None? {
      NonePath(sp.item.attrs);
    }
  }

  /** Plain visibilities hide no path: none, `pub`, `pub(crate)`, `pub(self)`,
      `pub(super)` and `pub(in crate)`, `pub(in self)`, `pub(in super)`. */
  lemma PlainVisibilities(word: string)
    requires word in {"crate", "self", "super"}
    ensures Visible(PrintQuals([])) && Visible(PrintQuals([Plain("pub")]))
    ensures Visible(PrintQuals([Restricted([Word(word)])])) && Visible(PrintQuals([Restricted([Word("in"), Word(word)])]))
  {
    VisibleOne(Plain("pub"));
    VisibleOne(Restricted([Word(word)]));
    VisibleOne(Restricted([Word("in"), Word(word)]));
  }

  lemma VisibleOne(q: Qual)
    requires Visible(PrintQual(q))
    ensures Visible(PrintQuals([q]))
  {
    assert [q][1..] == [];
    assert PrintQuals([q]) == PrintQual(q) + PrintQuals([]);
  }

  /** A path in the visibility hides them all. */
  lemma PathVisibility(first: string, second: string)
    ensures !Visible(PrintQuals([Restricted([Word("in"), Word(first), Sign(":"), Sign(":"), Word(second)])]))
  {
    var q := Restricted([Word("in"), Word(first), Sign(":"), Sign(":"), Word(second)]);
    assert [q][1..] == [];
    assert PrintQuals([q])[4] == Sign(":");
  }

  /** Whatever the tokens: each declaration listed is a `mod`, its name and a `;`. */
  lemma DeclIsAMod(toks: seq<Lexeme>, pairs: map<nat, nat>, wholeFile: bool, spans: seq<Span>, d: ModDecl) returns (k: nat)
    requires IsBracketMap(Toks(toks), pairs) && d in DeclsTo(toks, pairs, wholeFile, spans, |toks|)
    ensures k + 2 < |toks| && toks[k].tok == Token(Ident, "mod") && toks[k + 1].tok == Token(Ident, d.name) && toks[k + 2].tok.text == ";"
  {
    k := DeclFrom(toks, pairs, wholeFile, spans, |toks|, d);
  }

  /** An inline module that nothing closes is around all that follows. */
  lemma UnclosedInline(toks: seq<Token>, pairs: map<nat, nat>, m: nat, k: nat)
    requires ModAt(toks, m, "{") && m + 2 !in pairs && m + 2 < k < |toks| - 1
    ensures InlineAt(toks, pairs, m) in Holding([InlineAt(toks, pairs, m)], k)
  {
    assert [InlineAt(toks, pairs, m)][..0] == [];
  }
}
