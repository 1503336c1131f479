/**
 The keyword tables of scripts/ci-mutants-summary.py. Every result about them
 is stated for any tables; these are the ones the script runs with, and
 `DualModules` has files in the grammar they give.
 */
module RustKeywords {
  import opened RustTokens
  import opened ItemEnd
  import opened CfgItems

  const SEMI: set<string> := {"use", "const", "static", "type", "let"}
  const BRACE: set<string> := {
    "fn", "impl", "struct", "enum", "union", "trait", "mod", "macro_rules",
    "if", "match", "for", "while", "loop"
  }
  const QUALIFIERS: set<string> := {"pub", "unsafe", "async", "extern", "default", "crate"}

  function Tables(): Keywords {
    Keywords(SEMI, BRACE, QUALIFIERS)
  }

  /** Which keyword reads to a `;` and which to its braces, no word being in two
      tables; `const` is the one whose table does not settle it, as `fn` or its
      qualifiers may follow. */
  lemma TablesSettleModes(toks: seq<Token>, j: nat, k: nat, word: string, rest: seq<Token>)
    requires k < |toks| && toks[k] == Token(Ident, word)
    ensures SEMI !! BRACE && SEMI !! QUALIFIERS && BRACE !! QUALIFIERS
    ensures word in {"fn", "impl", "struct", "enum", "union", "trait", "mod", "macro_rules",
                     "if", "match", "for", "while", "loop"} ==>
            HeadMode(Tables(), toks, j, k) == KeywordMode(Tables(), word, rest) == Brace
    ensures word in {"use", "static", "type", "let"} ==>
            HeadMode(Tables(), toks, j, k) == KeywordMode(Tables(), word, rest) == Semi
    ensures word == "const" ==>
            HeadMode(Tables(), toks, j, k) ==
              if k + 1 < |toks| && toks[k + 1].text in {"fn", "unsafe", "async", "extern"} then Brace else Semi
  {
    TablesApart();
  }

  /** The words passed over before the keyword that settles how an item ends. */
  lemma QualifiersArePassed(toks: seq<Token>, pairs: map<nat, nat>, k: nat)
    requires IsBracketMap(toks, pairs) && k < |toks|
    ensures SkipQualifiers(Tables(), toks, pairs, k) > k <==>
            toks[k].kind == Ident && toks[k].text in {"pub", "unsafe", "async", "extern", "default", "crate"}
  {
  }

  lemma TablesApart()
    ensures forall w | w in SEMI :: w !in BRACE && w !in QUALIFIERS
    ensures forall w | w in BRACE :: w !in QUALIFIERS
  {
  }
}
