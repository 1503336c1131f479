/**
 A crate that declares one file twice, once per platform, as the source's own
 comments describe it (scripts/ci-mutants-summary.py:1779-1782), with the tables
 the script runs with: the first `#[path]` opens the file and is not read, so a
 file that is compiled is left out.
 */
module DualModules {
  import opened Wrappers
  import opened RustTokens
  import opened RustText
  import opened RustLexer
  import opened RustKeywords
  import opened RustcTarget
  import opened RustLiterals
  import LexPrinted
  import opened CfgPredicate
  import opened ItemEnd
  import opened CfgSpans
  import opened CfgItems
  import opened CfgBrackets
  import opened CfgSites
  import opened CfgScanPrinted
  import opened PlatformMutants
  import opened ModDecls
  import opened ModuleFiles
  import ModulePaths

  const PATH := [Word("path"), Sign("="), Token(Lit, "\"shared.rs\"")]
  const FIRST_MOD := Leaf([OtherAttr(PATH), CfgAttr(Pred.Name("unix"))], [], "mod", [Word("a")])
  const SECOND_MOD := Leaf([CfgAttr(Pred.Name("windows")), OtherAttr(PATH)], [], "mod", [Word("b")])

  /** `#[path = "shared.rs"] #[cfg(unix)] mod a;`
      `#[cfg(windows)] #[path = "shared.rs"] mod b;` */
  const LIB := File([], [Nested(FIRST_MOD), Nested(SECOND_MOD)])

  const FUNCTION := Block([CfgAttr(Pred.Name("unix"))], [Plain("pub")], "fn", SIGNATURE, [], [])

  /** `#[cfg(unix)] pub fn f() {}` */
  const SHARED := File([], [Nested(FUNCTION)])

  // ---- both files are in the grammar --------------------------------------------

  lemma ModHeadOk(item: Item, name: string)
    requires ModItem(item, name) && item.quals == []
    ensures HeadOk(Tables(), item)
  {
    var rest := [Word(name)];
    ClosedWord(Word(name));
    TokenOpenStretch(rest, 0, Brace);
    TablesSettleModes([Word("mod")] + rest, 0, 0, "mod", rest);
    assert RestOk(Brace, rest);
  }

  const SIGNATURE := [Word("f"), Sign("("), Sign(")")]

  lemma SignatureClosed()
    ensures Closed(SIGNATURE)
  {
    ClosedWord(Word("f"));
    ClosedIntro([]);
    ClosedWrap("(", [], ")");
    ClosedPair([Word("f")], [Sign("(")] + [] + [Sign(")")]);
    assert SIGNATURE == [Word("f")] + ([Sign("(")] + [] + [Sign(")")]);
  }

  lemma SignatureOk()
    ensures RestOk(Brace, SIGNATURE)
  {
    SignatureClosed();
    TokenOpenStretch(SIGNATURE, 0, Brace);
    BalancedNothing(SIGNATURE, 2);
    PartnerOf(SIGNATURE, 1, 2);
    PairOpenStretch(SIGNATURE, 1, 2, Brace);
    OpenStretchJoin(SIGNATURE, 0, 1, 3, Brace);
  }

  lemma FnHeadOk()
    ensures HeadOk(Tables(), FUNCTION)
  {
    SignatureOk();
    TablesSettleModes([Word("fn")] + SIGNATURE, 0, 0, "fn", SIGNATURE);
    assert FUNCTION.quals[1..] == [];
    assert QualOk(Tables(), Plain("pub"));
  }

  lemma BalancedNothing(toks: seq<Token>, k: nat)
    requires k <= |toks|
    ensures Balanced(toks, k, k)
  {
  }

  lemma PathOk()
    ensures AttrOk(OtherAttr(PATH))
  {
    ClosedWord(Word("path"));
    ClosedWord(Sign("="));
    ClosedWord(Token(Lit, "\"shared.rs\""));
    ClosedPair([Word("path")], [Sign("=")]);
    ClosedPair([Word("path")] + [Sign("=")], [Token(Lit, "\"shared.rs\"")]);
    assert PATH == [Word("path")] + [Sign("=")] + [Token(Lit, "\"shared.rs\"")];
  }

  lemma TwoAttrsOk(a: Attr, b: Attr)
    requires AttrOk(a) && AttrOk(b)
    ensures AttrsOk([a, b]) && AttrsOk([a])
  {
    assert [a, b][1..] == [b] && [b][1..] == [] && [a][1..] == [];
  }

  lemma OneElemOk(item: Item)
    requires ItemOk(Tables(), item)
    ensures ElemsOk(Tables(), [Nested(item)])
  {
    assert [Nested(item)][1..] == [];
  }

  /** The grammar is inhabited at the script's own tables. */
  lemma BothFilesOk()
    ensures FileOk(Tables(), LIB) && FileOk(Tables(), SHARED)
  {
    var path, unix, windows := OtherAttr(PATH), CfgAttr(Pred.Name("unix")), CfgAttr(Pred.Name("windows"));
    PathOk();
    FnHeadOk();
    ModHeadOk(FIRST_MOD, "a");
    ModHeadOk(SECOND_MOD, "b");
    TwoAttrsOk(path, unix);
    TwoAttrsOk(windows, path);
    TwoAttrsOk(unix, unix);
    OneElemOk(SECOND_MOD);
    OneElemOk(FUNCTION);
    assert LIB.body[1..] == [Nested(SECOND_MOD)];
  }

  // ---- their tokens ------------------------------------------------------------

  const PATH_TOKENS := [Sign("#"), Sign("["), Word("path"), Sign("="), Token(Lit, "\"shared.rs\""), Sign("]")]

  function CfgTokens(name: string): (toks: seq<Token>)
    ensures |toks| == 7
  {
    [Sign("#"), Sign("["), Word("cfg"), Sign("("), Word(name), Sign(")"), Sign("]")]
  }

  function ModTokens(name: string): (toks: seq<Token>)
    ensures |toks| == 3
  {
    [Word("mod"), Word(name), Sign(";")]
  }

  lemma AttrTokensAre(name: string)
    ensures PrintAttr(OtherAttr(PATH), false) == PATH_TOKENS
    ensures PrintAttr(CfgAttr(Pred.Name(name)), false) == CfgTokens(name)
  {
  }

  lemma TwoAttrTokens(a: Attr, b: Attr)
    ensures PrintAttrs([a, b], false) == PrintAttr(a, false) + PrintAttr(b, false)
    ensures PrintAttrs([a], false) == PrintAttr(a, false)
  {
    assert [a, b][1..] == [b] && [b][1..] == [] && [a][1..] == [];
    assert PrintAttrs([b], false) == PrintAttr(b, false) + PrintAttrs([], false);
  }

  const FIRST_TOKENS := PATH_TOKENS + CfgTokens("unix") + ModTokens("a")
  const SECOND_TOKENS := CfgTokens("windows") + PATH_TOKENS + ModTokens("b")

  lemma ModTokensAre()
    ensures PrintItem(FIRST_MOD) == FIRST_TOKENS && PrintItem(SECOND_MOD) == SECOND_TOKENS
  {
    AttrTokensAre("unix");
    AttrTokensAre("windows");
    TwoAttrTokens(OtherAttr(PATH), CfgAttr(Pred.Name("unix")));
    TwoAttrTokens(CfgAttr(Pred.Name("windows")), OtherAttr(PATH));
    assert PrintHead(FIRST_MOD) + [Sign(";")] == ModTokens("a");
    assert PrintHead(SECOND_MOD) + [Sign(";")] == ModTokens("b");
  }

  lemma LibTokensAre()
    ensures PrintFile(LIB) == FIRST_TOKENS + SECOND_TOKENS
  {
    ModTokensAre();
    assert LIB.body[1..] == [Nested(SECOND_MOD)] && [Nested(SECOND_MOD)][1..] == [];
    assert PrintElems([Nested(SECOND_MOD)]) == SECOND_TOKENS + PrintElems([]);
    assert PrintElems(LIB.body) == FIRST_TOKENS + PrintElems([Nested(SECOND_MOD)]);
  }

  const SHARED_TOKENS := CfgTokens("unix") + ([Word("pub"), Word("fn")] + SIGNATURE + [Sign("{"), Sign("}")])

  lemma SharedTokensAre()
    ensures PrintFile(SHARED) == SHARED_TOKENS
  {
    AttrTokensAre("unix");
    TwoAttrTokens(CfgAttr(Pred.Name("unix")), CfgAttr(Pred.Name("unix")));
    assert FUNCTION.quals[1..] == [];
    assert PrintQuals(FUNCTION.quals) == [Word("pub")] + PrintQuals([]);
    assert PrintHead(FUNCTION) == [Word("pub"), Word("fn")] + SIGNATURE;
    assert PrintItem(FUNCTION) == SHARED_TOKENS;
    assert SHARED.body[1..] == [];
    assert PrintElems(SHARED.body) == SHARED_TOKENS + PrintElems([]);
  }

  lemma WritableJoins(a: seq<Token>, b: seq<Token>)
    requires LexPrinted.AllWritable(a) && LexPrinted.AllWritable(b)
    ensures LexPrinted.AllWritable(a + b)
  {
  }

  lemma CfgWritable(name: string)
    requires WordOk(name)
    ensures LexPrinted.AllWritable(CfgTokens(name))
  {
    WordOkBy("cfg");
    SignsOk();
  }

  lemma ModWritable(name: string)
    requires WordOk(name)
    ensures LexPrinted.AllWritable(ModTokens(name))
  {
    WordOkBy("mod");
    SignsOk();
  }

  lemma SignsOk()
    ensures forall c | c in "#[](){};=" :: LexPrinted.SignOk(c)
  {
    forall c | c in "#[](){};=" ensures LexPrinted.SignOk(c) {
      WordLetterIs(c);
    }
  }

  lemma PathIsString()
    ensures LexPrinted.Writable(Token(Lit, "\"shared.rs\""))
  {
  }

  lemma PathWritable()
    ensures LexPrinted.AllWritable(PATH_TOKENS)
  {
    WordOkBy("path");
    PathIsString();
    SignsOk();
    assert '#' in "#[](){};=" && '[' in "#[](){};=" && ']' in "#[](){};=" && '=' in "#[](){};=";
  }

  lemma FunctionWritable()
    ensures LexPrinted.AllWritable([Word("pub"), Word("fn")] + SIGNATURE + [Sign("{"), Sign("}")])
  {
    WordOkBy("pub");
    WordOkBy("fn");
    WordOkBy("f");
    SignsOk();
    assert '(' in "#[](){};=" && ')' in "#[](){};=" && '{' in "#[](){};=" && '}' in "#[](){};=";
  }

  lemma BothWritable()
    ensures LexPrinted.AllWritable(FIRST_TOKENS + SECOND_TOKENS) && LexPrinted.AllWritable(SHARED_TOKENS)
  {
    PathWritable();
    WordOkBy("unix");
    CfgWritable("unix");
    WordOkBy("windows");
    CfgWritable("windows");
    WordOkBy("a");
    ModWritable("a");
    WordOkBy("b");
    ModWritable("b");
    FunctionWritable();
    WritableJoins(PATH_TOKENS, CfgTokens("unix"));
    WritableJoins(PATH_TOKENS + CfgTokens("unix"), ModTokens("a"));
    WritableJoins(CfgTokens("windows"), PATH_TOKENS);
    WritableJoins(CfgTokens("windows") + PATH_TOKENS, ModTokens("b"));
    WritableJoins(FIRST_TOKENS, SECOND_TOKENS);
    WritableJoins(CfgTokens("unix"), [Word("pub"), Word("fn")] + SIGNATURE + [Sign("{"), Sign("}")]);
  }

  // ---- what the scans find --------------------------------------------------------

  const LIB_TEXT: string := LexPrinted.Written(LexPrinted.Spaced(FIRST_TOKENS + SECOND_TOKENS))
  const SHARED_TEXT: string := LexPrinted.Written(LexPrinted.Spaced(SHARED_TOKENS))
  const FILES: seq<string> := ["lib.rs", "shared.rs"]
  const TEXTS: map<string, string> := map["lib.rs" := LIB_TEXT, "shared.rs" := SHARED_TEXT]

  /** A target on which `unix` is not false and `windows` is. */
  predicate IsUnix(cfg: TargetCfg) {
    Value(Pred.Name("unix"), cfg) != False && Value(Pred.Name("windows"), cfg) == False
  }

  lemma UnixTarget(entries: map<string, CfgEntry>)
    requires "unix" in entries && entries["unix"].Flag? && "windows" !in entries
    ensures IsUnix(Target(entries))
  {
    assert "unix" in TARGET_CFG_KEYS && "windows" in TARGET_CFG_KEYS;
  }

  const FIRST_SPOT := Spot(0, FIRST_MOD, [])
  const SECOND_SPOT := Spot(16, SECOND_MOD, [])

  lemma LibSpots()
    ensures FIRST_SPOT in FileSpots(LIB) && SECOND_SPOT in FileSpots(LIB)
    ensures ModToken(FIRST_SPOT) == 13 && ModToken(SECOND_SPOT) == 29
  {
    ModTokensAre();
    AttrTokensAre("unix");
    AttrTokensAre("windows");
    TwoAttrTokens(OtherAttr(PATH), CfgAttr(Pred.Name("unix")));
    TwoAttrTokens(CfgAttr(Pred.Name("windows")), OtherAttr(PATH));
    var second := [Nested(SECOND_MOD)];
    assert LIB.body[1..] == second;
    assert ElemSpots(second[0], 16, []) == [SECOND_SPOT];
    assert SECOND_SPOT in ElemsSpots(second, 16, []);
    assert ElemSpots(LIB.body[0], 0, []) == [FIRST_SPOT];
  }

  /** The only declarations of the library are the two printed. */
  lemma OnlyTwoMods(k: nat)
    requires ModAt(FIRST_TOKENS + SECOND_TOKENS, k, ";")
    ensures k == 13 || k == 29
  {
    var toks := FIRST_TOKENS + SECOND_TOKENS;
    assert toks[k] == Word("mod");
    if k < 16 {
      assert toks[k] == FIRST_TOKENS[k];
    } else {
      assert toks[k] == SECOND_TOKENS[k - 16];
    }
  }

  lemma GatesAre(cfg: TargetCfg)
    requires IsUnix(cfg)
    ensures !Dead(OwnGates(FIRST_SPOT), cfg) && Dead(OwnGates(SECOND_SPOT), cfg)
  {
    var path, unix, windows := OtherAttr(PATH), CfgAttr(Pred.Name("unix")), CfgAttr(Pred.Name("windows"));
    assert [path, unix][1..] == [unix] && [unix][1..] == [] && [windows, path][1..] == [path] && [path][1..] == [];
    assert AttrPreds([unix]) == [Pred.Name("unix")] + AttrPreds([]);
    assert OwnGates(FIRST_SPOT) == [Pred.Name("unix")];
    assert AttrPreds([path]) == [] + AttrPreds([]);
    assert OwnGates(SECOND_SPOT) == [Pred.Name("windows")];
    assert Pred.Name("windows") in OwnGates(SECOND_SPOT);
  }

  lemma PathsAre()
    ensures PathGiven(FIRST_MOD) == Some("shared.rs") && PathRead(FIRST_SPOT) == None && PathRead(SECOND_SPOT) == Some("shared.rs")
  {
    var path, unix, windows := OtherAttr(PATH), CfgAttr(Pred.Name("unix")), CfgAttr(Pred.Name("windows"));
    assert FIRST_MOD.attrs[1..] == [unix] && [unix][1..] == [] && SECOND_MOD.attrs[1..] == [path] && [path][1..] == [];
    PathIsShared();
    assert Topmost([unix], true, None) == Topmost([], true, None);
    assert Topmost([path], true, None) == PathIn(path);
  }

  lemma PathIsShared()
    ensures PathIn(OtherAttr(PATH)) == Some("shared.rs")
  {
    StripQuotesInverts("shared.rs");
    assert "\"" + "shared.rs" + "\"" == "\"shared.rs\"";
  }

  lemma {:induction false} NoInline(toks: seq<Token>, pairs: map<nat, nat>, n: nat)
    requires forall k: nat :: !ModAt(toks, k, "{")
    ensures InlinesTo(toks, pairs, n) == []
  {
    if n > 0 {
      NoInline(toks, pairs, n - 1);
    }
  }

  lemma LibHasNoBraces()
    ensures forall k: nat :: !ModAt(FIRST_TOKENS + SECOND_TOKENS, k, "{")
  {
    var toks := FIRST_TOKENS + SECOND_TOKENS;
    forall k | 0 <= k < |toks| ensures toks[k].text != "{" {
      if k < 16 {
        assert toks[k] == FIRST_TOKENS[k];
      } else {
        assert toks[k] == SECOND_TOKENS[k - 16];
      }
    }
  }

  lemma SpotsAreMods()
    ensures IsModSpot(FIRST_TOKENS + SECOND_TOKENS, FIRST_SPOT, "a") && IsModSpot(FIRST_TOKENS + SECOND_TOKENS, SECOND_SPOT, "b")
  {
    assert (FIRST_TOKENS + SECOND_TOKENS)[15] == FIRST_TOKENS[15] == Sign(";");
  }

  const FIRST_GIVEN := ModDecl("a", [], Some("shared.rs"), false)
  const FIRST_READ := ModDecl("a", [], None, false)
  const SECOND_READ := ModDecl("b", [], Some("shared.rs"), true)

  lemma DeclarationsAre(pairs: map<nat, nat>)
    ensures var toks := FIRST_TOKENS + SECOND_TOKENS;
            && Declaration(toks, pairs, FIRST_SPOT, "a", false) == FIRST_GIVEN
            && Declaration(toks, pairs, FIRST_SPOT, "a", false).(path := PathRead(FIRST_SPOT)) == FIRST_READ
            && Declaration(toks, pairs, SECOND_SPOT, "b", true).(path := PathRead(SECOND_SPOT)) == SECOND_READ
  {
    LibHasNoBraces();
    NoInline(FIRST_TOKENS + SECOND_TOKENS, pairs, |FIRST_TOKENS + SECOND_TOKENS|);
    PathsAre();
  }

  lemma LexedAs(toks: seq<Token>) returns (ss: seq<Stretch>)
    requires LexPrinted.AllWritable(toks)
    ensures var text := LexPrinted.Written(LexPrinted.Spaced(toks));
            IsLexOf(ss, text) && Inside(text, ss) && Toks(Placed(text, ss)) == toks
  {
    var items := LexPrinted.Spaced(toks);
    LexPrinted.SpacedIs(toks);
    ss := LexPrinted.LexInvertsWritten([], items);
    assert LexPrinted.GapsText([]) + LexPrinted.Written(items) == LexPrinted.Written(items);
  }

  /** The library's scan: the first declaration without its path, and the second. */
  lemma LibScan(cfg: TargetCfg, scan: FileScan)
    requires IsUnix(cfg) && IsScan(Tables(), cfg, LIB_TEXT, scan)
    ensures SECOND_READ in scan.decls && forall d | d in scan.decls && !d.isFalse :: d == FIRST_READ
  {
    LibTokensAre();
    BothWritable();
    BothFilesOk();
    LibSpots();
    SpotsAreMods();
    GatesAre(cfg);
    var ss := LexedAs(FIRST_TOKENS + SECOND_TOKENS);
    var toks := Placed(LIB_TEXT, ss);
    var pairs :| Scanned(Tables(), LIB_TEXT, cfg, ss, pairs, scan.wholeFile, scan.spans)
      && scan.decls == DeclsTo(toks, pairs, scan.wholeFile, scan.spans, |ss|);
    DeclarationsAre(pairs);
    SpotIsRead(Tables(), LIB_TEXT, ss, cfg, LIB, pairs, scan.wholeFile, scan.spans, FIRST_SPOT, "a");
    SpotIsRead(Tables(), LIB_TEXT, ss, cfg, LIB, pairs, scan.wholeFile, scan.spans, SECOND_SPOT, "b");
    forall d | d in scan.decls && !d.isFalse ensures d == FIRST_READ {
      var k := DeclFrom(toks, pairs, scan.wholeFile, scan.spans, |ss|, d);
      OnlyTwoMods(k);
    }
  }

  lemma SharedMarks(cfg: TargetCfg)
    requires IsUnix(cfg)
    ensures FileMarks(SHARED, cfg) == []
  {
    assert SHARED.body[1..] == [];
    assert FUNCTION.attrs[1..] == [];
    assert AttrMarks(FUNCTION.attrs, 0, LastOf(FUNCTION, 0), cfg) == [];
    assert ItemMarks(FUNCTION, 0, cfg) == [];
    assert ElemMarks(SHARED.body[0], 0, cfg) == [];
    assert ElemsMarks([], 0 + |PrintElem(SHARED.body[0])|, cfg) == [];
    assert ElemsMarks(SHARED.body, 0, cfg) == [];
  }

  lemma SharedHasNoMod(k: nat)
    ensures !ModAt(SHARED_TOKENS, k, ";")
  {
    if k < |SHARED_TOKENS| {
      var rest := [Word("pub"), Word("fn")] + SIGNATURE + [Sign("{"), Sign("}")];
      if k < 7 {
        assert SHARED_TOKENS[k] == CfgTokens("unix")[k];
      } else {
        assert SHARED_TOKENS[k] == rest[k - 7];
      }
    }
  }

  /** The other file's scan finds nothing. */
  lemma SharedScan(cfg: TargetCfg, scan: FileScan)
    requires IsUnix(cfg) && IsScan(Tables(), cfg, SHARED_TEXT, scan)
    ensures !scan.wholeFile && scan.spans == [] && scan.decls == []
  {
    SharedTokensAre();
    BothWritable();
    BothFilesOk();
    SharedMarks(cfg);
    var ss := LexedAs(SHARED_TOKENS);
    var toks := Placed(SHARED_TEXT, ss);
    var pairs :| Scanned(Tables(), SHARED_TEXT, cfg, ss, pairs, scan.wholeFile, scan.spans)
      && scan.decls == DeclsTo(toks, pairs, scan.wholeFile, scan.spans, |ss|);
    ScanFile(Tables(), cfg, SHARED, pairs);
    NoSpans(toks, scan.wholeFile, scan.spans);
    NoDecls(toks, pairs, scan.wholeFile, scan.spans, |ss|);
  }

  lemma NoSpans(toks: seq<Lexeme>, wholeFile: bool, spans: seq<Span>)
    requires SpansOf(toks, [], wholeFile, spans)
    ensures !wholeFile && spans == []
  {
    if |spans| > 0 {
      SpanHasMark(toks, [], wholeFile, spans, 0);
      assert false;
    }
  }

  lemma SpanHasMark(toks: seq<Lexeme>, marks: seq<Mark>, wholeFile: bool, spans: seq<Span>, i: nat)
    requires SpansOf(toks, marks, wholeFile, spans) && i < |spans|
    ensures exists m :: m in marks && m.Region?
  {
    assert spans[i] in spans;
  }

  lemma {:induction false} NoDecls(toks: seq<Lexeme>, pairs: map<nat, nat>, wholeFile: bool, spans: seq<Span>, n: nat)
    requires IsBracketMap(Toks(toks), pairs) && Toks(toks) == SHARED_TOKENS
    ensures DeclsTo(toks, pairs, wholeFile, spans, n) == []
  {
    if n > 0 {
      NoDecls(toks, pairs, wholeFile, spans, n - 1);
      SharedHasNoMod(n - 1);
    }
  }

  // ---- the verdict ------------------------------------------------------------------

  lemma WordJoins(name: string)
    requires ModulePaths.IsPart(name)
    ensures ModulePaths.Shown(ModulePaths.Joined(ModulePaths.Path(false, []), name)) == name
    ensures ModulePaths.Parsed(name) == ModulePaths.Path(false, [name])
  {
    ModulePaths.JoinPart(ModulePaths.Path(false, []), name);
    ModulePaths.ShownReadsBack(ModulePaths.Path(false, [name]));
  }

  /** Beside a crate's root, a module without a path, and one with. */
  lemma RootTargets(name: string)
    requires ModulePaths.IsName(name)
    ensures ModulePaths.ModuleTargets("lib.rs", name, [], None) == [name + ".rs", name + "/"]
  {
    ModulePaths.NameIsPart(name);
    WordJoins("lib.rs");
    WordJoins(name + ".rs");
    WordJoins(name);
    assert ModulePaths.BaseOf(ModulePaths.Path(false, ["lib.rs"])) == ModulePaths.Path(false, []);
  }

  lemma PathTargets(name: string, path: string)
    requires ModulePaths.IsPart(path)
    ensures ModulePaths.ModuleTargets("lib.rs", name, [], Some(path)) == [path]
  {
    WordJoins("lib.rs");
    WordJoins(path);
    var root := ModulePaths.Path(false, []);
    assert ModulePaths.Parent(ModulePaths.Path(false, ["lib.rs"])) == root;
    ModulePaths.ShownReadsBack(root);
  }

  lemma LibTargets()
    ensures SourceTargets()("lib.rs", FIRST_GIVEN) == ["shared.rs"]
    ensures SourceTargets()("lib.rs", FIRST_READ) == ["a.rs", "a/"]
    ensures SourceTargets()("lib.rs", SECOND_READ) == ["shared.rs"]
  {
    RootTargets("a");
    assert "a" + ".rs" == "a.rs" && "a" + "/" == "a/";
    PathTargets("a", "shared.rs");
    PathTargets("b", "shared.rs");
    TargetsAre("lib.rs", FIRST_GIVEN);
    TargetsAre("lib.rs", FIRST_READ);
    TargetsAre("lib.rs", SECOND_READ);
  }

  lemma TargetsAre(file: string, d: ModDecl)
    ensures SourceTargets()(file, d) == ModulePaths.ModuleTargets(file, d.name, d.chain, d.path)
  {
  }

  /** A false declaration reaches the file, and none that is not false does. */
  lemma OnlyFalseReaches(scans: map<string, FileScan>)
    requires "lib.rs" in scans && "shared.rs" in scans && scans["shared.rs"].decls == []
    requires SECOND_READ in scans["lib.rs"].decls && forall d | d in scans["lib.rs"].decls && !d.isFalse :: d == FIRST_READ
    ensures Declared(FILES, scans, SourceTargets(), "shared.rs", true)
    ensures !Declared(FILES, scans, SourceTargets(), "shared.rs", false)
  {
    LibTargets();
    assert "lib.rs" in FILES;
    ReachedBy("shared.rs");
    assert AnyUnder("shared.rs", SourceTargets()("lib.rs", SECOND_READ));
    assert !AnyUnder("shared.rs", SourceTargets()("lib.rs", FIRST_READ));
    forall file, d | file in FILES && file in scans && d in scans[file].decls && !d.isFalse
      ensures !AnyUnder("shared.rs", SourceTargets()(file, d))
    {
      assert file == "lib.rs" || file == "shared.rs";
    }
  }

  lemma ReachedBy(f: string)
    requires f == "shared.rs"
    ensures AnyUnder(f, ["shared.rs"]) && !AnyUnder(f, ["a.rs", "a/"])
  {
    assert Under(f, ["shared.rs"][0]);
    assert f[0] == 's' && "a/"[0] == 'a' && "a.rs"[0] == 'a';
  }

  /** On a target that has `unix` and not `windows` the first `mod` is compiled
      and its file is `shared.rs`, but no mutant of that file is tested. */
  lemma CompiledFileIsDropped(entries: map<string, CfgEntry>, scans: map<string, FileScan>, m: Listed)
    requires "unix" in entries && entries["unix"].Flag? && "windows" !in entries
    requires ScansOf(Tables(), Target(entries), FILES, TEXTS, scans)
    requires m.file == "shared.rs" && m.place.Some?
    ensures !Dead(OwnGates(FIRST_SPOT), Target(entries)) && AnyUnder(m.file, SourceTargets()("lib.rs", FIRST_GIVEN))
    ensures NotCompiled(FILES, scans, SourceTargets(), m) && !ByItself(FILES, scans, m)
  {
    var cfg := Target(entries);
    UnixTarget(entries);
    GatesAre(cfg);
    LibTargets();
    ReachedBy("shared.rs");
    LibScanned(cfg, scans);
    SharedScanned(cfg, scans);
    OnlyFalseReaches(scans);
  }

  lemma ScansAre(cfg: TargetCfg, scans: map<string, FileScan>, f: string)
    requires ScansOf(Tables(), cfg, FILES, TEXTS, scans) && f in FILES && f in TEXTS
    ensures f in scans && IsScan(Tables(), cfg, TEXTS[f], scans[f])
  {
  }

  lemma LibScanned(cfg: TargetCfg, scans: map<string, FileScan>)
    requires IsUnix(cfg) && ScansOf(Tables(), cfg, FILES, TEXTS, scans)
    ensures "lib.rs" in scans && SECOND_READ in scans["lib.rs"].decls
    ensures forall d | d in scans["lib.rs"].decls && !d.isFalse :: d == FIRST_READ
  {
    assert FILES[0] in FILES;
    ScansAre(cfg, scans, "lib.rs");
    LibScan(cfg, scans["lib.rs"]);
  }

  lemma SharedScanned(cfg: TargetCfg, scans: map<string, FileScan>)
    requires IsUnix(cfg) && ScansOf(Tables(), cfg, FILES, TEXTS, scans)
    ensures "shared.rs" in scans
    ensures !scans["shared.rs"].wholeFile && scans["shared.rs"].spans == [] && scans["shared.rs"].decls == []
  {
    assert FILES[1] in FILES;
    ScansAre(cfg, scans, "shared.rs");
    SharedScan(cfg, scans["shared.rs"]);
  }
}
