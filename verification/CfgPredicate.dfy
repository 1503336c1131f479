/**
 Reading a `#[cfg(...)]` predicate in three-valued logic
 (`_eval_cfg` in scripts/ci-mutants-summary.py): the parser inverts the
 printer, and a definite answer is right for every build.
 */
module CfgPredicate {
  import opened RustTokens

  datatype Kleene = True | False | Unknown

  /** One entry of `rustc --print cfg`: a bare name, or a key's values. */
  datatype CfgEntry = Flag | Values(vals: set<string>)

  /** The keys the target decides (a predicate on any other key is unknown),
      and what `rustc --print cfg` says of them. */
  datatype TargetCfg = TargetCfg(decided: set<string>, entries: map<string, CfgEntry>)

  function StripQuotes(s: string): string
    decreases |s|
  {
    if |s| > 0 && s[0] == '"' then StripQuotes(s[1..])
    else if |s| > 0 && s[|s| - 1] == '"' then StripQuotes(s[..|s| - 1])
    else s
  }

  function NameValue(name: string, cfg: TargetCfg): Kleene {
    if name !in cfg.decided then Unknown
    else if name in cfg.entries && cfg.entries[name].Flag? then True
    else False
  }

  function KeyValue(key: string, value: string, cfg: TargetCfg): Kleene {
    if key !in cfg.decided then Unknown
    else if key in cfg.entries && cfg.entries[key].Values? && value in cfg.entries[key].vals then True
    else False
  }

  function NotOf(v: Kleene): Kleene {
    match v
    case True => False
    case False => True
    case Unknown => Unknown
  }

  function AllOf(vals: seq<Kleene>): Kleene {
    if False in vals then False
    else if forall v | v in vals :: v == True then True
    else Unknown
  }

  function AnyOf(vals: seq<Kleene>): Kleene {
    if True in vals then True
    else if forall v | v in vals :: v == False then False
    else Unknown
  }

  predicate IsConnective(name: string) {
    name == "all" || name == "any" || name == "not"
  }

  function Combine(name: string, vals: seq<Kleene>): Kleene {
    if name == "not" then (if |vals| > 0 then NotOf(vals[0]) else Unknown)
    else if name == "all" then AllOf(vals)
    else AnyOf(vals)
  }

  /** What the parser reads at `k`, and where it stops. */
  function Parse(toks: seq<Token>, end: nat, k: nat, cfg: TargetCfg): (r: (Kleene, nat))
    requires k < end <= |toks|
    ensures r.1 > k
    decreases end - k, 0
  {
    var t := toks[k];
    if t.kind != Ident then (Unknown, k + 1)
    else if IsConnective(t.text) && k + 1 < end && toks[k + 1].text == "(" then
      var (vals, j) := ParseList(toks, end, k + 2, cfg);
      (Combine(t.text, vals), j + 1)
    else if k + 2 < end && toks[k + 1].text == "=" && toks[k + 2].kind == Lit then
      (KeyValue(t.text, StripQuotes(toks[k + 2].text), cfg), k + 3)
    else (NameValue(t.text, cfg), k + 1)
  }

  /** The arguments from `j` up to the closing parenthesis, and where it is. */
  function ParseList(toks: seq<Token>, end: nat, j: nat, cfg: TargetCfg): (r: (seq<Kleene>, nat))
    requires end <= |toks|
    ensures r.1 >= j
    decreases if j < end then end - j else 0, 1
  {
    if j >= end || toks[j].text == ")" then ([], j)
    else
      var (v, next) := Parse(toks, end, j, cfg);
      var (vals, stop) := ParseList(toks, end, if next < end && toks[next].text == "," then next + 1 else next, cfg);
      ([v] + vals, stop)
  }

  /** The recursive parser with its loop over the arguments. */
  method ParsePredicate(toks: seq<Token>, end: nat, k: nat, cfg: TargetCfg) returns (value: Kleene, stop: nat)
    requires k < end <= |toks|
    ensures (value, stop) == Parse(toks, end, k, cfg)
    decreases end - k
  {
    var t := toks[k];
    if t.kind != Ident {
      return Unknown, k + 1;
    }
    var next := if k + 1 < end then toks[k + 1].text else "";
    if IsConnective(t.text) && k + 1 < end && next == "(" {
      var vals: seq<Kleene> := [];
      var j := k + 2;
      while j < end && toks[j].text != ")"
        invariant j >= k + 2
        invariant ParseList(toks, end, k + 2, cfg).0 == vals + ParseList(toks, end, j, cfg).0
        invariant ParseList(toks, end, k + 2, cfg).1 == ParseList(toks, end, j, cfg).1
        decreases end - j
      {
        var v, stop' := ParsePredicate(toks, end, j, cfg);
        ghost var rest := ParseList(toks, end, j, cfg).0;
        assert vals + rest == vals + [v] + rest[1..];
        vals := vals + [v];
        j := stop';
        if j < end && toks[j].text == "," {
          j := j + 1;
        }
      }
      assert vals + [] == vals;
      return Combine(t.text, vals), j + 1;
    }
    if next == "=" && k + 2 < end && toks[k + 2].kind == Lit {
      return KeyValue(t.text, StripQuotes(toks[k + 2].text), cfg), k + 3;
    }
    return NameValue(t.text, cfg), k + 1;
  }

  function Eval(toks: seq<Token>, start: nat, end: nat, cfg: TargetCfg): Kleene
    requires end <= |toks|
  {
    if start >= end then Unknown else Parse(toks, end, start, cfg).0
  }

  method EvalCfg(toks: seq<Token>, start: nat, end: nat, cfg: TargetCfg) returns (value: Kleene)
    requires end <= |toks|
    ensures value == Eval(toks, start, end, cfg)
  {
    if start >= end {
      return Unknown;
    }
    var stop;
    value, stop := ParsePredicate(toks, end, start, cfg);
  }

  // ---- predicates as trees -----------------------------------------------

  datatype Pred =
    | All(ps: seq<Pred>)
    | Any(ps: seq<Pred>)
    | Not(p: Pred)
    | Name(name: string)
    | KeyVal(key: string, value: string)

  /** A value that survives the quotes put around it. */
  predicate Quotable(value: string) {
    value == "" || (value[0] != '"' && value[|value| - 1] != '"')
  }

  predicate Printable(p: Pred) {
    match p
    case All(ps) => forall q | q in ps :: Printable(q)
    case Any(ps) => forall q | q in ps :: Printable(q)
    case Not(q) => Printable(q)
    case Name(name) => name != ")"
    case KeyVal(key, value) => key != ")" && Quotable(value)
  }

  function Word(s: string): Token {
    Token(Ident, s)
  }

  function Sign(s: string): Token {
    Token(Punct, s)
  }

  function Print(p: Pred): (toks: seq<Token>)
    ensures |toks| > 0
    decreases p, 0
  {
    match p
    case All(ps) => [Word("all"), Sign("(")] + PrintList(ps) + [Sign(")")]
    case Any(ps) => [Word("any"), Sign("(")] + PrintList(ps) + [Sign(")")]
    case Not(q) => [Word("not"), Sign("(")] + Print(q) + [Sign(")")]
    case Name(name) => [Word(name)]
    case KeyVal(key, value) => [Word(key), Sign("="), Token(Lit, "\"" + value + "\"")]
  }

  function PrintList(ps: seq<Pred>): seq<Token>
    decreases ps, 1
  {
    if |ps| == 0 then []
    else if |ps| == 1 then Print(ps[0])
    else Print(ps[0]) + [Sign(",")] + PrintList(ps[1..])
  }

  /** The Kleene value of a predicate tree. */
  function Value(p: Pred, cfg: TargetCfg): Kleene
    decreases p, 0
  {
    match p
    case All(ps) => AllOf(ValuesOf(ps, cfg))
    case Any(ps) => AnyOf(ValuesOf(ps, cfg))
    case Not(q) => NotOf(Value(q, cfg))
    case Name(name) => NameValue(name, cfg)
    case KeyVal(key, value) => KeyValue(key, value, cfg)
  }

  function ValuesOf(ps: seq<Pred>, cfg: TargetCfg): seq<Kleene>
    decreases ps, 1
  {
    seq(|ps|, i requires 0 <= i < |ps| => Value(ps[i], cfg))
  }

  // ---- the parser inverts the printer ------------------------------------

  lemma StripQuotesInverts(value: string)
    requires Quotable(value)
    ensures StripQuotes("\"" + value + "\"") == value
  {
    var s := "\"" + value + "\"";
    assert StripQuotes(value) == value;
    assert (value + "\"")[..|value|] == value;
    assert s[1..] == value + "\"";
    if value == "" {
      assert (value + "\"")[1..] == "";
    }
    assert StripQuotes(value + "\"") == value;
  }

  /** A predicate ends where the next token is a separator, or where the text does. */
  predicate EndsAt(toks: seq<Token>, end: nat, k: nat)
    requires end <= |toks|
  {
    k <= end && (k < end ==> toks[k] == Sign(",") || toks[k] == Sign(")"))
  }

  /** Parsing the printed tokens of `p` gives its value and stops exactly at
      their end, whatever follows. */
  lemma {:induction false} ParseInvertsPrint(p: Pred, toks: seq<Token>, end: nat, k: nat, cfg: TargetCfg)
    requires Printable(p)
    requires At(toks, k, Print(p))
    requires end <= |toks| && EndsAt(toks, end, k + |Print(p)|)
    ensures Parse(toks, end, k, cfg) == (Value(p, cfg), k + |Print(p)|)
    decreases p, 0
  {
    match p {
      case All(ps) =>
        CallInvertsPrint("all", ps, toks, end, k, cfg);
      case Any(ps) =>
        CallInvertsPrint("any", ps, toks, end, k, cfg);
      case Not(q) =>
        NotInvertsPrint(q, toks, end, k, cfg);
      case Name(name) =>
        AtIndex(toks, k, [Word(name)], 0);
      case KeyVal(key, value) =>
        KeyValInvertsPrint(key, value, toks, end, k, cfg);
    }
  }

  lemma {:induction false} CallInvertsPrint(name: string, ps: seq<Pred>, toks: seq<Token>, end: nat, k: nat, cfg: TargetCfg)
    requires name == "all" || name == "any"
    requires forall q | q in ps :: Printable(q)
    requires At(toks, k, [Word(name), Sign("(")] + PrintList(ps) + [Sign(")")])
    requires k + 3 + |PrintList(ps)| <= end <= |toks|
    ensures Parse(toks, end, k, cfg) == (Combine(name, ValuesOf(ps, cfg)), k + 3 + |PrintList(ps)|)
    decreases ps, 2
  {
    CallAt(name, PrintList(ps), toks, k);
    ParseListInvertsPrint(ps, toks, end, k + 2, cfg);
    ParseCall(name, toks, end, k, cfg);
  }

  lemma KeyValInvertsPrint(key: string, value: string, toks: seq<Token>, end: nat, k: nat, cfg: TargetCfg)
    requires Quotable(value)
    requires At(toks, k, [Word(key), Sign("="), Token(Lit, "\"" + value + "\"")])
    requires k + 3 <= end <= |toks|
    ensures Parse(toks, end, k, cfg) == (KeyValue(key, value, cfg), k + 3)
  {
    var printed := [Word(key), Sign("="), Token(Lit, "\"" + value + "\"")];
    AtIndex(toks, k, printed, 0);
    AtIndex(toks, k, printed, 1);
    AtIndex(toks, k, printed, 2);
    StripQuotesInverts(value);
  }

  lemma {:induction false} NotInvertsPrint(q: Pred, toks: seq<Token>, end: nat, k: nat, cfg: TargetCfg)
    requires Printable(q)
    requires At(toks, k, [Word("not"), Sign("(")] + Print(q) + [Sign(")")])
    requires k + 3 + |Print(q)| <= end <= |toks|
    ensures Parse(toks, end, k, cfg) == (NotOf(Value(q, cfg)), k + 3 + |Print(q)|)
    decreases q, 1
  {
    CallAt("not", Print(q), toks, k);
    var stop := k + 2 + |Print(q)|;
    ParseInvertsPrint(q, toks, end, k + 2, cfg);
    AtIndex(toks, k + 2, Print(q), 0);
    PrintStartsOpen(q);
    ParseListStep([q], toks, end, k + 2, stop, cfg);
    assert ParseList(toks, end, stop, cfg) == ([], stop);
    assert ValuesOf([q], cfg) == [Value(q, cfg)];
    ParseCall("not", toks, end, k, cfg);
  }

  lemma ParseCall(name: string, toks: seq<Token>, end: nat, k: nat, cfg: TargetCfg)
    requires k + 1 < end <= |toks| && IsConnective(name)
    requires toks[k] == Word(name) && toks[k + 1] == Sign("(")
    ensures Parse(toks, end, k, cfg)
         == (Combine(name, ParseList(toks, end, k + 2, cfg).0), ParseList(toks, end, k + 2, cfg).1 + 1)
  {
  }

  lemma CallAt(name: string, args: seq<Token>, toks: seq<Token>, k: nat)
    requires At(toks, k, [Word(name), Sign("(")] + args + [Sign(")")])
    ensures toks[k] == Word(name) && toks[k + 1] == Sign("(")
    ensures At(toks, k + 2, args) && toks[k + 2 + |args|] == Sign(")")
  {
    AtSplit3(toks, k, [Word(name), Sign("(")], args, [Sign(")")]);
    AtIndex(toks, k, [Word(name), Sign("(")], 0);
    AtIndex(toks, k, [Word(name), Sign("(")], 1);
    AtIndex(toks, k + 2 + |args|, [Sign(")")], 0);
  }

  lemma {:induction false} ParseListInvertsPrint(ps: seq<Pred>, toks: seq<Token>, end: nat, j: nat, cfg: TargetCfg)
    requires forall q | q in ps :: Printable(q)
    requires At(toks, j, PrintList(ps))
    requires j + |PrintList(ps)| < end <= |toks|
    requires toks[j + |PrintList(ps)|] == Sign(")")
    ensures ParseList(toks, end, j, cfg) == (ValuesOf(ps, cfg), j + |PrintList(ps)|)
    decreases ps, 1
  {
    if |ps| == 0 {
      assert ValuesOf(ps, cfg) == [];
    } else if |ps| == 1 {
      ParseInvertsPrint(ps[0], toks, end, j, cfg);
      ParseListStep(ps, toks, end, j, j + |PrintList(ps)|, cfg);
    } else {
      var first, rest := Print(ps[0]), PrintList(ps[1..]);
      assert PrintList(ps) == first + [Sign(",")] + rest;
      PrintedPair(first, rest, toks, j);
      ParseInvertsPrint(ps[0], toks, end, j, cfg);
      ParseListInvertsPrint(ps[1..], toks, end, j + |first| + 1, cfg);
      ParseListStep(ps, toks, end, j, j + |first| + 1, cfg);
    }
  }

  lemma PrintedPair(first: seq<Token>, rest: seq<Token>, toks: seq<Token>, j: nat)
    requires At(toks, j, first + [Sign(",")] + rest)
    ensures At(toks, j, first) && At(toks, j + |first| + 1, rest)
    ensures toks[j + |first|] == Sign(",")
  {
    AtSplit3(toks, j, first, [Sign(",")], rest);
    AtIndex(toks, j + |first|, [Sign(",")], 0);
  }

  /** One argument read, the rest of the list follows. */
  lemma ParseListStep(ps: seq<Pred>, toks: seq<Token>, end: nat, j: nat, next: nat, cfg: TargetCfg)
    requires |ps| > 0 && j < end <= |toks|
    requires At(toks, j, Print(ps[0])) && Printable(ps[0])
    requires Parse(toks, end, j, cfg) == (Value(ps[0], cfg), j + |Print(ps[0])|)
    requires next == if j + |Print(ps[0])| < end && toks[j + |Print(ps[0])|].text == "," then j + |Print(ps[0])| + 1 else j + |Print(ps[0])|
    requires |ps| == 1 ==> next < end && toks[next].text == ")"
    requires |ps| > 1 ==> ParseList(toks, end, next, cfg).0 == ValuesOf(ps[1..], cfg)
    ensures ParseList(toks, end, j, cfg) == (ValuesOf(ps, cfg), ParseList(toks, end, next, cfg).1)
  {
    AtIndex(toks, j, Print(ps[0]), 0);
    PrintStartsOpen(ps[0]);
    assert ValuesOf(ps, cfg) == [Value(ps[0], cfg)] + ValuesOf(ps[1..], cfg);
  }

  lemma PrintStartsOpen(p: Pred)
    requires Printable(p)
    ensures Print(p)[0].text != ")"
  {
  }

  // ---- a definite answer is right ----------------------------------------

  /** What a build decides about the atoms: names, and key/value pairs. */
  datatype Build = Build(names: iset<string>, pairs: iset<(string, string)>)

  /** A build of the target: on the target's own keys it answers as
      `rustc --print cfg` does; every other atom is free. */
  ghost predicate BuildOf(b: Build, cfg: TargetCfg) {
    && (forall name | name in cfg.decided :: name in b.names <==> name in cfg.entries && cfg.entries[name].Flag?)
    && (forall key, value | key in cfg.decided ::
          (key, value) in b.pairs <==> key in cfg.entries && cfg.entries[key].Values? && value in cfg.entries[key].vals)
  }

  /** Whether the predicate holds in a build: Rust's own two-valued meaning. */
  ghost predicate Holds(p: Pred, b: Build) {
    match p
    case All(ps) => forall q | q in ps :: Holds(q, b)
    case Any(ps) => exists q | q in ps :: Holds(q, b)
    case Not(q) => !Holds(q, b)
    case Name(name) => name in b.names
    case KeyVal(key, value) => (key, value) in b.pairs
  }

  /** A definite answer is the predicate's truth in every build of the target. */
  lemma {:induction false} DefiniteIsRight(p: Pred, cfg: TargetCfg, b: Build)
    requires BuildOf(b, cfg)
    ensures Value(p, cfg) == True ==> Holds(p, b)
    ensures Value(p, cfg) == False ==> !Holds(p, b)
  {
    match p {
      case All(ps) =>
        DefiniteAreRight(ps, cfg, b);
      case Any(ps) =>
        DefiniteAreRight(ps, cfg, b);
      case Not(q) =>
        DefiniteIsRight(q, cfg, b);
      case Name(_) =>
      case KeyVal(_, _) =>
    }
  }

  lemma {:induction false} DefiniteAreRight(ps: seq<Pred>, cfg: TargetCfg, b: Build)
    requires BuildOf(b, cfg)
    ensures AllOf(ValuesOf(ps, cfg)) == True ==> forall q | q in ps :: Holds(q, b)
    ensures AllOf(ValuesOf(ps, cfg)) == False ==> exists q | q in ps :: !Holds(q, b)
    ensures AnyOf(ValuesOf(ps, cfg)) == True ==> exists q | q in ps :: Holds(q, b)
    ensures AnyOf(ValuesOf(ps, cfg)) == False ==> forall q | q in ps :: !Holds(q, b)
  {
    var vals := ValuesOf(ps, cfg);
    forall i | 0 <= i < |ps|
      ensures vals[i] in vals && ps[i] in ps
      ensures vals[i] == True ==> Holds(ps[i], b)
      ensures vals[i] == False ==> !Holds(ps[i], b)
    {
      DefiniteIsRight(ps[i], cfg, b);
    }
  }

  /** On the tokens of a printed tree the evaluator gives the tree's value. */
  lemma EvalInvertsPrint(p: Pred, toks: seq<Token>, start: nat, cfg: TargetCfg)
    requires Printable(p)
    requires At(toks, start, Print(p))
    ensures Eval(toks, start, start + |Print(p)|, cfg) == Value(p, cfg)
  {
    ParseInvertsPrint(p, toks, start + |Print(p)|, start, cfg);
  }
}
