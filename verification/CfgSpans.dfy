/**
 The regions of one file a target does not build
 (`cfg_false_spans` in scripts/ci-mutants-summary.py), over its tokens.
 */
module CfgSpans {
  import opened Wrappers
  import opened RustTokens
  import opened CfgPredicate
  import opened ItemEnd

  /** A region of token indices, both ends included, or the whole file. */
  datatype Mark = WholeFile | Region(first: nat, last: nat)

  /** A well-delimited attribute: where its bracket opens and closes. */
  datatype AttrAt = AttrAt(inner: bool, open: nat, close: nat)

  /** The attribute whose `#` is token `k`, if there is one. */
  function ReadAttr(toks: seq<Token>, pairs: map<nat, nat>, k: nat): (r: Option<AttrAt>)
    requires IsBracketMap(toks, pairs) && k < |toks|
    ensures r.Some? ==> k < r.value.open < r.value.close < |toks|
  {
    if !IsPunct(toks[k], "#") then None
    else
      var inner := k + 1 < |toks| && toks[k + 1].text == "!";
      var lb := if inner then k + 2 else k + 1;
      if lb >= |toks| || toks[lb].text != "[" || lb !in pairs then None
      else
        PartnerOfOpenText(toks, pairs, lb);
        Some(AttrAt(inner, lb, pairs[lb]))
  }

  /** Whether the attribute is `cfg(..)` and its predicate is definitely false. */
  predicate IsFalseCfg(toks: seq<Token>, pairs: map<nat, nat>, cfg: TargetCfg, lb: nat, rb: nat)
    requires lb < rb < |toks|
  {
    && lb + 2 < rb
    && toks[lb + 1] == Token(Ident, "cfg")
    && toks[lb + 2].text == "("
    && lb + 2 in pairs && pairs[lb + 2] == rb - 1
    && Eval(toks, lb + 3, rb - 1, cfg) == False
  }

  /** The open braces before token `k`, outermost first. */
  function BraceStack(toks: seq<Token>, k: nat): seq<nat>
    requires k <= |toks|
  {
    if k == 0 then []
    else
      var stack := BraceStack(toks, k - 1);
      if IsPunct(toks[k - 1], "{") then stack + [k - 1]
      else if IsPunct(toks[k - 1], "}") && |stack| > 0 then stack[..|stack| - 1]
      else stack
  }

  /** The innermost brace open at token `k`. */
  function Enclosing(toks: seq<Token>, k: nat): Option<nat>
    requires k <= |toks|
  {
    var stack := BraceStack(toks, k);
    if |stack| > 0 then Some(stack[|stack| - 1]) else None
  }

  /** Past the outer attributes stacked from `j`. */
  function PastAttrs(toks: seq<Token>, pairs: map<nat, nat>, j: nat): (r: nat)
    requires IsBracketMap(toks, pairs)
    ensures r >= j
    decreases if j < |toks| then |toks| - j else 0
  {
    if j + 1 < |toks| && toks[j].text == "#" && toks[j + 1].text == "[" && j + 1 in pairs
    then (PartnerOfOpenText(toks, pairs, j + 1); PastAttrs(toks, pairs, pairs[j + 1] + 1))
    else j
  }

  /** What a false attribute at `k` marks: the file or the block it opens, or
      the item below it from the attribute on. */
  function MarksOf(kw: Keywords, toks: seq<Token>, pairs: map<nat, nat>, k: nat, a: AttrAt): seq<Mark>
    requires IsBracketMap(toks, pairs) && k < a.open < a.close < |toks|
  {
    if a.inner then
      var o := Enclosing(toks, k);
      if o.None? then [WholeFile]
      else [Region(o.value, if o.value in pairs then pairs[o.value] else |toks| - 1)]
    else
      var j := PastAttrs(toks, pairs, a.close + 1);
      if j < |toks| && EndOf(kw, toks, pairs, j) >= j then [Region(k, EndOf(kw, toks, pairs, j))]
      else []
  }

  /** Every mark made from token `k` on. */
  function Scan(kw: Keywords, toks: seq<Token>, pairs: map<nat, nat>, cfg: TargetCfg, k: nat): seq<Mark>
    requires IsBracketMap(toks, pairs)
    decreases if k < |toks| then |toks| - k else 0
  {
    if k >= |toks| then []
    else
      var attr := ReadAttr(toks, pairs, k);
      if attr.None? then Scan(kw, toks, pairs, cfg, k + 1)
      else
        var a := attr.value;
        (if IsFalseCfg(toks, pairs, cfg, a.open, a.close) then MarksOf(kw, toks, pairs, k, a) else [])
        + Scan(kw, toks, pairs, cfg, a.close + 1)
  }

  function AllMarks(kw: Keywords, toks: seq<Token>, cfg: TargetCfg, pairs: map<nat, nat>): seq<Mark>
    requires IsBracketMap(toks, pairs)
  {
    Scan(kw, toks, pairs, cfg, 0)
  }

  /** The enclosing brace of every token, by one forward walk. */
  method EnclosingBraces(toks: seq<Token>) returns (enclosing: seq<Option<nat>>)
    ensures |enclosing| == |toks|
    ensures forall k | 0 <= k < |toks| :: enclosing[k] == Enclosing(toks, k)
  {
    enclosing := [];
    var stack: seq<nat> := [];
    for k := 0 to |toks|
      invariant |enclosing| == k
      invariant stack == BraceStack(toks, k)
      invariant forall i | 0 <= i < k :: enclosing[i] == Enclosing(toks, i)
    {
      enclosing := enclosing + [if |stack| > 0 then Some(stack[|stack| - 1]) else None];
      if IsPunct(toks[k], "{") {
        stack := stack + [k];
      } else if IsPunct(toks[k], "}") && |stack| > 0 {
        stack := stack[..|stack| - 1];
      }
    }
  }

  method SkipAttrs(toks: seq<Token>, pairs: map<nat, nat>, start: nat) returns (j: nat)
    requires IsBracketMap(toks, pairs)
    ensures j == PastAttrs(toks, pairs, start)
  {
    j := start;
    while j < |toks| && toks[j].text == "#" && j + 1 < |toks| && toks[j + 1].text == "[" && j + 1 in pairs
      invariant PastAttrs(toks, pairs, j) == PastAttrs(toks, pairs, start)
      decreases |toks| - j
    {
      PartnerOfOpenText(toks, pairs, j + 1);
      j := pairs[j + 1] + 1;
    }
  }

  /** What the scan does at one attribute: its marks, if its cfg is false. */
  method MarkAttr(kw: Keywords, toks: seq<Token>, pairs: map<nat, nat>, cfg: TargetCfg,
                  enclosing: seq<Option<nat>>, k: nat, a: AttrAt)
    returns (marks: seq<Mark>)
    requires IsBracketMap(toks, pairs) && k < a.open < a.close < |toks|
    requires |enclosing| == |toks| && enclosing[k] == Enclosing(toks, k)
    ensures marks == if IsFalseCfg(toks, pairs, cfg, a.open, a.close) then MarksOf(kw, toks, pairs, k, a) else []
  {
    var lb, rb := a.open, a.close;
    var isCfg := lb + 2 < rb && toks[lb + 1] == Token(Ident, "cfg") && toks[lb + 2].text == "("
                 && lb + 2 in pairs && pairs[lb + 2] == rb - 1;
    if !isCfg {
      return [];
    }
    var value := EvalCfg(toks, lb + 3, rb - 1, cfg);
    if value != False {
      return [];
    }
    if a.inner {
      var o := enclosing[k];
      if o.None? {
        return [WholeFile];
      }
      return [Region(o.value, if o.value in pairs then pairs[o.value] else |toks| - 1)];
    }
    var j := SkipAttrs(toks, pairs, rb + 1);
    if j < |toks| {
      var end := FindItemEnd(kw, toks, pairs, j);
      if end >= j {
        return [Region(k, end)];
      }
    }
    return [];
  }

  /** The scan over all tokens. */
  method FalseMarks(kw: Keywords, toks: seq<Token>, cfg: TargetCfg) returns (marks: seq<Mark>, pairs: map<nat, nat>)
    ensures IsBracketMap(toks, pairs)
    ensures marks == AllMarks(kw, toks, cfg, pairs)
  {
    pairs := MatchBrackets(toks);
    var enclosing := EnclosingBraces(toks);
    marks := [];
    var k := 0;
    while k < |toks|
      invariant AllMarks(kw, toks, cfg, pairs) == marks + Scan(kw, toks, pairs, cfg, k)
      decreases |toks| - k
    {
      var found, next := MarkNext(kw, toks, pairs, cfg, enclosing, k);
      ghost var rest := Scan(kw, toks, pairs, cfg, next);
      assert marks + (found + rest) == marks + found + rest;
      marks := marks + found;
      k := next;
    }
    assert marks + [] == marks;
  }

  /** One turn of that scan: the marks made at a token, and where it goes on. */
  method MarkNext(kw: Keywords, toks: seq<Token>, pairs: map<nat, nat>, cfg: TargetCfg, enclosing: seq<Option<nat>>, k: nat)
    returns (found: seq<Mark>, next: nat)
    requires IsBracketMap(toks, pairs) && k < |toks|
    requires |enclosing| == |toks| && enclosing[k] == Enclosing(toks, k)
    ensures next > k && Scan(kw, toks, pairs, cfg, k) == found + Scan(kw, toks, pairs, cfg, next)
  {
    var attr := ReadAttr(toks, pairs, k);
    if attr.None? {
      return [], k + 1;
    }
    found := MarkAttr(kw, toks, pairs, cfg, enclosing, k, attr.value);
    return found, attr.value.close + 1;
  }

  /** An attribute excludes something only where it is `cfg` and one pair of
      parentheses, with a predicate in it that is definitely false. */
  lemma FalseCfgIff(toks: seq<Token>, pairs: map<nat, nat>, cfg: TargetCfg, lb: nat, rb: nat)
    requires IsBracketMap(toks, pairs) && lb < rb < |toks|
    ensures IsFalseCfg(toks, pairs, cfg, lb, rb) <==>
            && lb + 3 < rb && toks[lb + 1] == Token(Ident, "cfg") && IsPunct(toks[lb + 2], "(")
            && Partner(toks, lb + 2, rb - 1) && Eval(toks, lb + 3, rb - 1, cfg) == False
  {
    if lb + 2 < rb {
      if lb + 2 in pairs && toks[lb + 2].text == "(" {
        PartnerOfOpenText(toks, pairs, lb + 2);
      }
      if Partner(toks, lb + 2, rb - 1) {
        PartnerInMap(toks, pairs, lb + 2, rb - 1);
      }
    }
  }
}
