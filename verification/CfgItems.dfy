/**
 Rust files as trees of attributed items, printed to tokens: the reference the
 `cfg` scan is measured against. What a scan should mark is read off the tree,
 where "its own cfg, or one on an enclosing item or file" is plain recursion.
 */
module CfgItems {
  import opened RustTokens
  import opened CfgPredicate
  import opened ItemEnd
  import opened CfgSpans

  /** `unsafe`, `pub(crate)`, `extern "C"`. */
  datatype Qual = Plain(word: string) | Restricted(inner: seq<Token>) | Abi(word: string, lit: string)

  datatype Attr = CfgAttr(p: Pred) | OtherAttr(body: seq<Token>)

  /** An item that ends at a `;`, or one whose body is a braced block. */
  datatype Item =
    | Leaf(attrs: seq<Attr>, quals: seq<Qual>, keyword: string, rest: seq<Token>)
    | Block(attrs: seq<Attr>, quals: seq<Qual>, keyword: string, rest: seq<Token>, inner: seq<Attr>, body: seq<Elem>)

  /** What a block holds: plain code, and items nested in it. */
  datatype Elem = Code(toks: seq<Token>) | Nested(item: Item)

  datatype File = File(inner: seq<Attr>, body: seq<Elem>)

  // ---- printing ----------------------------------------------------------

  function PrintQual(q: Qual): seq<Token> {
    match q
    case Plain(word) => [Word(word)]
    case Restricted(inner) => [Word("pub"), Sign("(")] + inner + [Sign(")")]
    case Abi(word, lit) => [Word(word), Token(Lit, lit)]
  }

  function PrintQuals(quals: seq<Qual>): seq<Token> {
    if quals == [] then [] else PrintQual(quals[0]) + PrintQuals(quals[1..])
  }

  function AttrBody(a: Attr): seq<Token> {
    match a
    case CfgAttr(p) => [Word("cfg"), Sign("(")] + Print(p) + [Sign(")")]
    case OtherAttr(body) => body
  }

  function AttrOpening(inner: bool): (toks: seq<Token>)
    ensures |toks| == if inner then 3 else 2
  {
    if inner then [Sign("#"), Sign("!"), Sign("[")] else [Sign("#"), Sign("[")]
  }

  function PrintAttr(a: Attr, inner: bool): seq<Token> {
    AttrOpening(inner) + AttrBody(a) + [Sign("]")]
  }

  function PrintAttrs(attrs: seq<Attr>, inner: bool): seq<Token> {
    if attrs == [] then [] else PrintAttr(attrs[0], inner) + PrintAttrs(attrs[1..], inner)
  }

  /** Qualifiers, keyword, and what follows up to the body or the `;`. */
  function PrintHead(item: Item): (toks: seq<Token>)
    ensures |toks| > 0
  {
    PrintQuals(item.quals) + [Word(item.keyword)] + item.rest
  }

  function PrintItem(item: Item): (toks: seq<Token>)
    ensures |toks| > 0
    decreases item, 0
  {
    match item
    case Leaf(attrs, _, _, _) => PrintAttrs(attrs, false) + (PrintHead(item) + [Sign(";")])
    case Block(attrs, _, _, _, inner, body) =>
      PrintAttrs(attrs, false) + (PrintHead(item) + ([Sign("{")] + (PrintAttrs(inner, true) + (PrintElems(body) + [Sign("}")]))))
  }

  function PrintElem(e: Elem): seq<Token>
    decreases e, 1
  {
    match e
    case Code(toks) => toks
    case Nested(item) => PrintItem(item)
  }

  function PrintElems(elems: seq<Elem>): seq<Token>
    decreases elems, 2
  {
    if elems == [] then [] else PrintElem(elems[0]) + PrintElems(elems[1..])
  }

  function PrintFile(file: File): seq<Token> {
    PrintAttrs(file.inner, true) + PrintElems(file.body)
  }

  // ---- which trees are printable -----------------------------------------

  predicate Closes(open: string, close: string) {
    (open == "(" && close == ")") || (open == "[" && close == "]") || (open == "{" && close == "}")
  }

  /** Brackets match by shape, with `open` still to be closed (innermost first). */
  predicate WellBracketed(p: seq<Token>, open: seq<string>)
    decreases |p|
  {
    if p == [] then open == []
    else if IsOpen(p[0]) then WellBracketed(p[1..], [p[0].text] + open)
    else if IsClose(p[0]) then open != [] && Closes(open[0], p[0].text) && WellBracketed(p[1..], open[1..])
    else WellBracketed(p[1..], open)
  }

  predicate Unfolded(p: seq<Token>, open: seq<string>) {
    |open| == 0
  }

  /** Well bracketed on its own. The trigger keeps the recursion folded in
      proofs that only pass the fact along. */
  ghost predicate Closed(p: seq<Token>) {
    forall open: seq<string> {:trigger Unfolded(p, open)} :: Unfolded(p, open) ==> WellBracketed(p, open)
  }

  /** No attribute starts among these tokens. */
  predicate NoAttr(p: seq<Token>) {
    forall i | 0 <= i < |p| && IsPunct(p[i], "#") ::
      i + 1 < |p| && p[i + 1].text != "[" && p[i + 1].text != "!"
  }

  ghost predicate Inert(p: seq<Token>) {
    Closed(p) && NoAttr(p)
  }

  /** A word that is not a sign the scan looks for. */
  predicate Ordinary(word: string) {
    word != "#" && word != "(" && word != "else" && word != "[" && word != "!"
  }

  ghost predicate QualOk(kw: Keywords, q: Qual) {
    match q
    case Plain(word) => word in kw.qualifiers && Ordinary(word)
    case Restricted(inner) => "pub" in kw.qualifiers && Inert(inner)
    case Abi(word, lit) => word in kw.qualifiers && Ordinary(word)
  }

  ghost predicate AttrOk(a: Attr) {
    match a
    case CfgAttr(p) => Printable(p)
    case OtherAttr(body) => Closed(body) && (|body| > 0 ==> body[0] != Word("cfg"))
  }

  ghost predicate QualsOk(kw: Keywords, quals: seq<Qual>) {
    quals == [] || (QualOk(kw, quals[0]) && QualsOk(kw, quals[1..]))
  }

  ghost predicate AttrsOk(attrs: seq<Attr>) {
    attrs == [] || (AttrOk(attrs[0]) && AttrsOk(attrs[1..]))
  }

  predicate IsConstFn(keyword: string, rest: seq<Token>) {
    keyword == "const" && |rest| > 0 && FnAfterConst(rest[0].text)
  }

  /** The mode the keyword and what follows it call for. */
  function KeywordMode(kw: Keywords, keyword: string, rest: seq<Token>): Mode {
    if IsConstFn(keyword, rest) then HeadModeOf(kw, "fn") else HeadModeOf(kw, keyword)
  }

  function HeadModeOf(kw: Keywords, word: string): Mode {
    if word in kw.semi then Semi else if word in kw.brace then Brace else Expr
  }

  /** Outside every bracket, `rest` holds nothing that would end the item. */
  ghost predicate RestOk(mode: Mode, rest: seq<Token>) {
    Inert(rest) && OpenStretch(rest, 0, |rest|, mode)
  }

  predicate Opened(item: Item, mode: Mode) {
    mode == Semi || mode == Brace || item.Leaf? || item.Block?
  }

  /** Qualifiers, a keyword that calls for a `;` or for braces, and a calm
      rest. The trigger keeps this folded where only the shape matters. */
  ghost predicate HeadOk(kw: Keywords, item: Item) {
    forall mode: Mode {:trigger Opened(item, mode)} ::
      Opened(item, mode) && mode == KeywordMode(kw, item.keyword, item.rest) ==>
        && QualsOk(kw, item.quals)
        && item.keyword !in kw.qualifiers && Ordinary(item.keyword)
        && mode != Expr && (item.Block? ==> mode == Brace)
        && RestOk(mode, item.rest)
  }

  lemma HeadFacts(kw: Keywords, item: Item) returns (mode: Mode)
    requires HeadOk(kw, item)
    ensures mode == KeywordMode(kw, item.keyword, item.rest)
    ensures QualsOk(kw, item.quals)
    ensures item.keyword !in kw.qualifiers && Ordinary(item.keyword)
    ensures mode != Expr && (item.Block? ==> mode == Brace)
    ensures RestOk(mode, item.rest)
  {
    mode := KeywordMode(kw, item.keyword, item.rest);
    assert Opened(item, mode);
  }

  ghost predicate ItemOk(kw: Keywords, item: Item)
    decreases item, 0
  {
    && AttrsOk(item.attrs)
    && HeadOk(kw, item)
    && (item.Block? ==> AttrsOk(item.inner) && ElemsOk(kw, item.body))
  }

  ghost predicate ElemOk(kw: Keywords, e: Elem)
    decreases e, 1
  {
    match e
    case Code(toks) => |toks| > 0 && Inert(toks) && toks[0] != Word("else")
    case Nested(item) => ItemOk(kw, item)
  }

  ghost predicate ElemsOk(kw: Keywords, elems: seq<Elem>)
    decreases elems, 2
  {
    elems != [] ==> ElemOk(kw, elems[0]) && ElemsOk(kw, elems[1..])
  }

  ghost predicate FileOk(kw: Keywords, file: File) {
    AttrsOk(file.inner) && ElemsOk(kw, file.body)
  }

  // ---- what should be marked ---------------------------------------------

  predicate AttrFalse(a: Attr, cfg: TargetCfg) {
    a.CfgAttr? && Value(a.p, cfg) == False
  }

  /** A false attribute marks from itself to the end of its item. */
  function AttrMarks(attrs: seq<Attr>, off: nat, last: nat, cfg: TargetCfg): seq<Mark> {
    if attrs == [] then []
    else
      (if AttrFalse(attrs[0], cfg) then [Region(off, last)] else [])
      + AttrMarks(attrs[1..], off + |PrintAttr(attrs[0], false)|, last, cfg)
  }

  function InnerMarks(attrs: seq<Attr>, mark: Mark, cfg: TargetCfg): seq<Mark> {
    if attrs == [] then []
    else (if AttrFalse(attrs[0], cfg) then [mark] else []) + InnerMarks(attrs[1..], mark, cfg)
  }

  /** Where a block's brace opens, when the block is printed at `off`. */
  function OpenOf(item: Item, off: nat): nat {
    off + |PrintAttrs(item.attrs, false)| + |PrintHead(item)|
  }

  function BodyOf(item: Item, off: nat): nat
    requires item.Block?
  {
    OpenOf(item, off) + 1 + |PrintAttrs(item.inner, true)|
  }

  function LastOf(item: Item, off: nat): nat {
    off + |PrintItem(item)| - 1
  }

  function ItemMarks(item: Item, off: nat, cfg: TargetCfg): seq<Mark>
    decreases item, 0
  {
    AttrMarks(item.attrs, off, LastOf(item, off), cfg)
    + if item.Leaf? then []
      else InnerMarks(item.inner, Region(OpenOf(item, off), LastOf(item, off)), cfg)
           + ElemsMarks(item.body, BodyOf(item, off), cfg)
  }

  function ElemMarks(e: Elem, off: nat, cfg: TargetCfg): seq<Mark>
    decreases e, 1
  {
    match e
    case Code(_) => []
    case Nested(item) => ItemMarks(item, off, cfg)
  }

  function ElemsMarks(elems: seq<Elem>, off: nat, cfg: TargetCfg): seq<Mark>
    decreases elems, 2
  {
    if elems == [] then []
    else ElemMarks(elems[0], off, cfg) + ElemsMarks(elems[1..], off + |PrintElem(elems[0])|, cfg)
  }

  function FileMarks(file: File, cfg: TargetCfg): seq<Mark> {
    InnerMarks(file.inner, WholeFile, cfg) + ElemsMarks(file.body, |PrintAttrs(file.inner, true)|, cfg)
  }

  // ---- whose tokens are whose --------------------------------------------

  /** A stretch of tokens and every cfg predicate over it, its own and those of
      the items and the file around it. `block` says the stretch is a whole
      braced body, nested items included; otherwise it holds no other site. */
  datatype Site = Site(first: nat, last: nat, block: bool, gates: seq<Pred>)

  function AttrPreds(attrs: seq<Attr>): seq<Pred> {
    if attrs == [] then []
    else (if attrs[0].CfgAttr? then [attrs[0].p] else []) + AttrPreds(attrs[1..])
  }

  function ItemSites(item: Item, off: nat, gates: seq<Pred>): seq<Site>
    decreases item, 0
  {
    var start := off + |PrintAttrs(item.attrs, false)|;
    var own := gates + AttrPreds(item.attrs);
    match item
    case Leaf(_, _, _, _) => [Site(start, LastOf(item, off), false, own)]
    case Block(_, _, _, _, inner, body) =>
      var within := own + AttrPreds(inner);
      [Site(start, start + |PrintHead(item)| - 1, false, own),
       Site(OpenOf(item, off), LastOf(item, off), true, within)]
      + ElemsSites(body, BodyOf(item, off), within)
  }

  function ElemSites(e: Elem, off: nat, gates: seq<Pred>): seq<Site>
    decreases e, 1
  {
    match e
    case Code(toks) => if |toks| > 0 then [Site(off, off + |toks| - 1, false, gates)] else []
    case Nested(item) => ItemSites(item, off, gates)
  }

  function ElemsSites(elems: seq<Elem>, off: nat, gates: seq<Pred>): seq<Site>
    decreases elems, 2
  {
    if elems == [] then []
    else ElemSites(elems[0], off, gates) + ElemsSites(elems[1..], off + |PrintElem(elems[0])|, gates)
  }

  /** Every stretch of code in a file, with all the cfg predicates over it. */
  function FileSites(file: File): seq<Site> {
    ElemsSites(file.body, |PrintAttrs(file.inner, true)|, AttrPreds(file.inner))
  }

  /** Some predicate over the stretch is definitely false for the target. */
  ghost predicate Dead(gates: seq<Pred>, cfg: TargetCfg) {
    exists g | g in gates :: Value(g, cfg) == False
  }

  /** Compiled in a build: every predicate over it holds there. */
  ghost predicate Compiled(gates: seq<Pred>, b: Build) {
    forall g | g in gates :: Holds(g, b)
  }
}
