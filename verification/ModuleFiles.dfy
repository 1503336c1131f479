/**
 Which files and mutants a target does not compile
 (scripts/ci-mutants-summary.py, `platform_not_built`): each file's own scan,
 and the `mod name;` declarations of all of them.

 The results hold wherever a declaration's module may be; the run itself looks
 where `ModulePaths` says.
 */
module ModuleFiles {
  import opened Wrappers
  import opened RustTokens
  import opened RustText
  import opened RustLexer
  import opened CfgPredicate
  import opened ItemEnd
  import opened CfgSpans
  import opened CfgItems
  import opened PlatformMutants
  import opened ModDecls
  import ModulePaths

  datatype FileScan = FileScan(wholeFile: bool, spans: seq<Span>, decls: seq<ModDecl>)

  /** Where the module a file declares may be: files, and directories with a
      `/` at the end. */
  type Targets = (string, ModDecl) -> seq<string>

  function SourceTargets(): Targets {
    (file, d: ModDecl) => ModulePaths.ModuleTargets(file, d.name, d.chain, d.path)
  }

  /** What the scan of one file's text finds. */
  ghost predicate IsScan(kw: Keywords, cfg: TargetCfg, text: string, scan: FileScan) {
    forall ss | IsLexOf(ss, text) :: exists pairs ::
      Scanned(kw, text, cfg, ss, pairs, scan.wholeFile, scan.spans)
      && scan.decls == DeclsTo(Placed(text, ss), pairs, scan.wholeFile, scan.spans, |ss|)
  }

  method ScanText(kw: Keywords, cfg: TargetCfg, text: string) returns (scan: FileScan)
    ensures IsScan(kw, cfg, text, scan)
  {
    var wholeFile, spans, pairs := CfgFalseSpans(kw, text, cfg);
    var toks := Lex(text);
    ghost var found := LexExists(text);
    assert Scanned(kw, text, cfg, found, pairs, wholeFile, spans);
    LexUnfolded(found, text);
    var decls := FindDecls(toks, pairs, wholeFile, spans);
    scan := FileScan(wholeFile, spans, decls);
    forall ss | IsLexOf(ss, text)
      ensures Scanned(kw, text, cfg, ss, pairs, wholeFile, spans) && decls == DeclsTo(Placed(text, ss), pairs, wholeFile, spans, |ss|)
    {
      LexUnique(text, ss, found);
    }
  }

  /** Every file that can be read, scanned. */
  ghost predicate ScansOf(kw: Keywords, cfg: TargetCfg, files: seq<string>, texts: map<string, string>, scans: map<string, FileScan>) {
    && (forall f :: f in scans <==> f in files && f in texts)
    && (forall f | f in scans :: IsScan(kw, cfg, texts[f], scans[f]))
  }

  method ScanAll(kw: Keywords, cfg: TargetCfg, files: seq<string>, texts: map<string, string>) returns (scans: map<string, FileScan>)
    ensures ScansOf(kw, cfg, files, texts, scans)
  {
    scans := map[];
    for n := 0 to |files|
      invariant ScansOf(kw, cfg, files[..n], texts, scans)
    {
      assert files[..n + 1] == files[..n] + [files[n]];
      if files[n] in texts {
        var scan := ScanText(kw, cfg, texts[files[n]]);
        scans := scans[files[n] := scan];
      }
    }
    assert files[..|files|] == files;
  }

  /** A mutant as it is listed; one without a span cannot be placed. */
  datatype Listed = Listed(name: string, file: string, place: Option<(Pos, Pos)>)

  /** The file itself, or a directory it is in. */
  predicate Under(f: string, pre: string) {
    f == pre || (pre != "" && pre[|pre| - 1] == '/' && pre <= f)
  }

  predicate AnyUnder(f: string, targets: seq<string>) {
    exists i :: 0 <= i < |targets| && Under(f, targets[i])
  }

  /** Some readable file declares `f`'s module, false or not as asked. */
  ghost predicate Declared(files: seq<string>, scans: map<string, FileScan>, to: Targets, f: string, isFalse: bool) {
    exists file, d :: file in files && file in scans && d in scans[file].decls && d.isFalse == isFalse && AnyUnder(f, to(file, d))
  }

  /** `f` is left out whole: by its own inner cfg, or by a false declaration
      that no compiled or undecided one makes up for. */
  ghost predicate FileFalse(files: seq<string>, scans: map<string, FileScan>, to: Targets, f: string) {
    || (f in files && f in scans && scans[f].wholeFile)
    || (Declared(files, scans, to, f, true) && !Declared(files, scans, to, f, false))
  }

  ghost predicate NotCompiled(files: seq<string>, scans: map<string, FileScan>, to: Targets, m: Listed) {
    && m.place.Some?
    && (FileFalse(files, scans, to, m.file) ||
        (m.file in files && m.file in scans && LeftOut(false, scans[m.file].spans, m.place.value.0, m.place.value.1)))
  }

  /** What the first loop has gathered from the files before `n`. */
  ghost predicate Gathered(files: seq<string>, scans: map<string, FileScan>, to: Targets, n: nat, falseFiles: set<string>,
                           falsePrefixes: seq<string>, builtTargets: seq<string>, spansByFile: map<string, seq<Span>>)
    requires n <= |files|
  {
    && (forall f :: f in falseFiles <==> f in files[..n] && f in scans && scans[f].wholeFile)
    && (forall f :: AnyUnder(f, falsePrefixes) <==> Declared(files[..n], scans, to, f, true))
    && (forall f :: AnyUnder(f, builtTargets) <==> Declared(files[..n], scans, to, f, false))
    && (forall f :: f in spansByFile <==> f in files[..n] && f in scans && scans[f].spans != [])
    && (forall f | f in spansByFile :: spansByFile[f] == scans[f].spans)
  }

  method TargetsOf(to: Targets, file: string, decls: seq<ModDecl>, isFalse: bool, before: seq<string>) returns (targets: seq<string>)
    ensures forall f :: AnyUnder(f, targets) <==>
              AnyUnder(f, before) || exists d :: d in decls && d.isFalse == isFalse && AnyUnder(f, to(file, d))
  {
    targets := before;
    for i := 0 to |decls|
      invariant forall f :: AnyUnder(f, targets) <==>
                  AnyUnder(f, before) || exists d :: d in decls[..i] && d.isFalse == isFalse && AnyUnder(f, to(file, d))
    {
      assert decls[..i + 1] == decls[..i] + [decls[i]];
      if decls[i].isFalse == isFalse {
        forall f ensures AnyUnder(f, targets + to(file, decls[i])) <==> AnyUnder(f, targets) || AnyUnder(f, to(file, decls[i])) {
          UnderConcat(f, targets, to(file, decls[i]));
        }
        targets := targets + to(file, decls[i]);
      }
    }
    assert decls[..|decls|] == decls;
  }

  lemma UnderConcat(f: string, a: seq<string>, b: seq<string>)
    ensures AnyUnder(f, a + b) <==> AnyUnder(f, a) || AnyUnder(f, b)
  {
    if AnyUnder(f, a) {
      var i :| 0 <= i < |a| && Under(f, a[i]);
      assert (a + b)[i] == a[i];
    }
    if AnyUnder(f, b) {
      var i :| 0 <= i < |b| && Under(f, b[i]);
      assert (a + b)[|a| + i] == b[i];
    }
  }

  lemma DeclaredNext(files: seq<string>, scans: map<string, FileScan>, to: Targets, n: nat, f: string, isFalse: bool)
    requires n < |files|
    ensures Declared(files[..n + 1], scans, to, f, isFalse) <==>
            Declared(files[..n], scans, to, f, isFalse) ||
            (files[n] in scans && exists d :: d in scans[files[n]].decls && d.isFalse == isFalse && AnyUnder(f, to(files[n], d)))
  {
    assert files[..n + 1] == files[..n] + [files[n]];
  }

  /** The files that could not be read, in order. */
  function Missing(files: seq<string>, scans: map<string, FileScan>): seq<string> {
    if files == [] then []
    else Missing(files[..|files| - 1], scans) + if files[|files| - 1] !in scans then [files[|files| - 1]] else []
  }

  lemma MissingNext(files: seq<string>, scans: map<string, FileScan>, n: nat)
    requires n < |files|
    ensures Missing(files[..n + 1], scans) == Missing(files[..n], scans) + if files[n] !in scans then [files[n]] else []
  {
    assert files[..n + 1][..n] == files[..n];
  }

  lemma {:induction false} MissingIs(files: seq<string>, scans: map<string, FileScan>, f: string)
    ensures f in Missing(files, scans) <==> f in files && f !in scans
  {
    if files != [] {
      MissingIs(files[..|files| - 1], scans, f);
      assert files == files[..|files| - 1] + [files[|files| - 1]];
    }
  }

  /** The first loop: scan every file once, keeping what could not be read. */
  method Gather(files: seq<string>, scans: map<string, FileScan>, to: Targets)
    returns (falseFiles: set<string>, falsePrefixes: seq<string>, builtTargets: seq<string>,
             spansByFile: map<string, seq<Span>>, unreadable: seq<string>)
    ensures Gathered(files, scans, to, |files|, falseFiles, falsePrefixes, builtTargets, spansByFile)
    ensures unreadable == Missing(files, scans)
  {
    falseFiles, falsePrefixes, builtTargets, spansByFile, unreadable := {}, [], [], map[], [];
    for n := 0 to |files|
      invariant Gathered(files, scans, to, n, falseFiles, falsePrefixes, builtTargets, spansByFile)
      invariant unreadable == Missing(files[..n], scans)
    {
      var f := files[n];
      MissingNext(files, scans, n);
      if f !in scans {
        NothingNew(files, scans, to, n, falseFiles, falsePrefixes, builtTargets, spansByFile);
        unreadable := unreadable + [f];
        continue;
      }
      var scan := scans[f];
      var falses := TargetsOf(to, f, scan.decls, true, falsePrefixes);
      var builts := TargetsOf(to, f, scan.decls, false, builtTargets);
      OneMoreFile(files, scans, to, n, falseFiles, falsePrefixes, builtTargets, spansByFile, falses, builts);
      if scan.wholeFile {
        falseFiles := falseFiles + {f};
      }
      if scan.spans != [] {
        spansByFile := spansByFile[f := scan.spans];
      }
      falsePrefixes, builtTargets := falses, builts;
    }
    assert files[..|files|] == files;
  }

  lemma NothingNew(files: seq<string>, scans: map<string, FileScan>, to: Targets, n: nat, falseFiles: set<string>,
                   falsePrefixes: seq<string>, builtTargets: seq<string>, spansByFile: map<string, seq<Span>>)
    requires n < |files| && files[n] !in scans
    requires Gathered(files, scans, to, n, falseFiles, falsePrefixes, builtTargets, spansByFile)
    ensures Gathered(files, scans, to, n + 1, falseFiles, falsePrefixes, builtTargets, spansByFile)
  {
    assert files[..n + 1] == files[..n] + [files[n]];
    forall f ensures AnyUnder(f, falsePrefixes) <==> Declared(files[..n + 1], scans, to, f, true) {
      DeclaredNext(files, scans, to, n, f, true);
    }
    forall f ensures AnyUnder(f, builtTargets) <==> Declared(files[..n + 1], scans, to, f, false) {
      DeclaredNext(files, scans, to, n, f, false);
    }
  }

  lemma OneMoreFile(files: seq<string>, scans: map<string, FileScan>, to: Targets, n: nat, falseFiles: set<string>,
                    falsePrefixes: seq<string>, builtTargets: seq<string>, spansByFile: map<string, seq<Span>>,
                    falses: seq<string>, builts: seq<string>)
    requires n < |files| && files[n] in scans
    requires Gathered(files, scans, to, n, falseFiles, falsePrefixes, builtTargets, spansByFile)
    requires forall f :: AnyUnder(f, falses) <==>
               AnyUnder(f, falsePrefixes) || exists d :: d in scans[files[n]].decls && d.isFalse && AnyUnder(f, to(files[n], d))
    requires forall f :: AnyUnder(f, builts) <==>
               AnyUnder(f, builtTargets) || exists d :: d in scans[files[n]].decls && !d.isFalse && AnyUnder(f, to(files[n], d))
    ensures var scan := scans[files[n]];
            Gathered(files, scans, to, n + 1, if scan.wholeFile then falseFiles + {files[n]} else falseFiles, falses, builts,
                     if scan.spans != [] then spansByFile[files[n] := scan.spans] else spansByFile)
  {
    assert files[..n + 1] == files[..n] + [files[n]];
    forall f ensures AnyUnder(f, falses) <==> Declared(files[..n + 1], scans, to, f, true) {
      DeclaredNext(files, scans, to, n, f, true);
    }
    forall f ensures AnyUnder(f, builts) <==> Declared(files[..n + 1], scans, to, f, false) {
      DeclaredNext(files, scans, to, n, f, false);
    }
  }

  method IsUnderAny(f: string, targets: seq<string>) returns (found: bool)
    ensures found == AnyUnder(f, targets)
  {
    for i := 0 to |targets|
      invariant forall j | 0 <= j < i :: !Under(f, targets[j])
    {
      if Under(f, targets[i]) {
        return true;
      }
    }
    return false;
  }

  /** The names of the mutants the target does not compile, and the files that
      could not be read. */
  method PlatformNotBuilt(kw: Keywords, cfg: TargetCfg, files: seq<string>, texts: map<string, string>, mutants: seq<Listed>)
    returns (names: set<string>, unreadable: seq<string>, ghost scans: map<string, FileScan>)
    ensures ScansOf(kw, cfg, files, texts, scans)
    ensures forall f :: f in unreadable <==> f in files && f !in texts
    ensures forall name :: name in names <==>
              exists m :: m in mutants && m.name == name && NotCompiled(files, scans, SourceTargets(), m)
  {
    var found := ScanAll(kw, cfg, files, texts);
    scans := found;
    names, unreadable := NamesNotBuilt(files, found, SourceTargets(), mutants);
    forall f ensures f in unreadable <==> f in files && f !in texts {
      MissingIs(files, found, f);
    }
  }

  method NamesNotBuilt(files: seq<string>, scans: map<string, FileScan>, to: Targets, mutants: seq<Listed>)
    returns (names: set<string>, unreadable: seq<string>)
    ensures unreadable == Missing(files, scans)
    ensures forall name :: name in names <==> exists m :: m in mutants && m.name == name && NotCompiled(files, scans, to, m)
  {
    var falseFiles, falsePrefixes, builtTargets, spansByFile;
    falseFiles, falsePrefixes, builtTargets, spansByFile, unreadable := Gather(files, scans, to);
    assert files[..|files|] == files;
    names := {};
    for i := 0 to |mutants|
      invariant forall name :: name in names <==> exists m :: m in mutants[..i] && m.name == name && NotCompiled(files, scans, to, m)
    {
      var m := mutants[i];
      assert mutants[..i + 1] == mutants[..i] + [m];
      if m.place.None? {
        continue;
      }
      var byFalse := IsUnderAny(m.file, falsePrefixes);
      var byBuilt := IsUnderAny(m.file, builtTargets);
      var spans := if m.file in spansByFile then spansByFile[m.file] else [];
      var (start, end) := m.place.value;
      if m.file in falseFiles || (byFalse && !byBuilt) || LeftOut(false, spans, start, end) {
        assert NotCompiled(files, scans, to, m);
        names := names + {m.name};
      }
    }
    assert mutants[..|mutants|] == mutants;
  }

  // ---- what is never left out ---------------------------------------------------------------

  /** The file is left out by its own scan. */
  ghost predicate ByItself(files: seq<string>, scans: map<string, FileScan>, m: Listed) {
    && m.file in files && m.file in scans && m.place.Some?
    && LeftOut(scans[m.file].wholeFile, scans[m.file].spans, m.place.value.0, m.place.value.1)
  }

  /** A printed `mod name;` of a file that can be read. */
  ghost predicate ModOf(kw: Keywords, text: string, ss: seq<Stretch>, file: File, pairs: map<nat, nat>, sp: Spot, name: string) {
    && IsLexOf(ss, text) && Inside(text, ss)
    && FileOk(kw, file) && Toks(Placed(text, ss)) == PrintFile(file) && IsBracketMap(PrintFile(file), pairs)
    && sp in FileSpots(file) && IsModSpot(PrintFile(file), sp, name)
  }

  /** The scan lists it as it stands, but for the path it reads. */
  lemma ModIsListed(kw: Keywords, cfg: TargetCfg, text: string, ss: seq<Stretch>, file: File, pairs: map<nat, nat>,
                    sp: Spot, name: string, scan: FileScan)
    requires IsScan(kw, cfg, text, scan) && ModOf(kw, text, ss, file, pairs, sp, name)
    ensures Declaration(PrintFile(file), pairs, sp, name, Dead(OwnGates(sp), cfg)).(path := PathRead(sp)) in scan.decls
  {
    var found :| Scanned(kw, text, cfg, ss, found, scan.wholeFile, scan.spans)
      && scan.decls == DeclsTo(Placed(text, ss), found, scan.wholeFile, scan.spans, |ss|);
    MapIsOne(PrintFile(file), found, pairs);
    SpotIsRead(kw, text, ss, cfg, file, pairs, scan.wholeFile, scan.spans, sp, name);
  }

  /** One declaration that is not false settles it, however many false ones reach
      the file, and whether or not a directory of a false one holds it. */
  lemma LiveDeclarationKeeps(files: seq<string>, scans: map<string, FileScan>, to: Targets, parent: string, d: ModDecl, m: Listed)
    requires parent in files && parent in scans && d in scans[parent].decls && !d.isFalse && AnyUnder(m.file, to(parent, d))
    ensures NotCompiled(files, scans, to, m) <==> ByItself(files, scans, m)
  {
    assert Declared(files, scans, to, m.file, false);
  }

  /** The files a declaration names are left out by their own scans alone,
      wherever its module may be. */
  ghost predicate Keeps(files: seq<string>, scans: map<string, FileScan>, parent: string, d: ModDecl) {
    forall to: Targets, m: Listed | AnyUnder(m.file, to(parent, d)) ::
      NotCompiled(files, scans, to, m) <==> ByItself(files, scans, m)
  }

  /** No readable file declares a module that is false. */
  ghost predicate AllCompiled(files: seq<string>, scans: map<string, FileScan>) {
    forall f, d | f in files && f in scans && d in scans[f].decls :: !d.isFalse
  }

  /** From text to verdict: where a readable file declares a module in code no
      cfg rules out, with no path or one that is read, the files that module may
      be in are left out by their own scans alone, whatever other declarations
      and directories say. */
  lemma LiveModIsKept(kw: Keywords, cfg: TargetCfg, files: seq<string>, texts: map<string, string>, scans: map<string, FileScan>,
                      parent: string, ss: seq<Stretch>, file: File, pairs: map<nat, nat>, sp: Spot, name: string)
    requires ScansOf(kw, cfg, files, texts, scans) && parent in files && parent in texts
    requires ModOf(kw, texts[parent], ss, file, pairs, sp, name)
    requires !Dead(OwnGates(sp), cfg) && PathIsRead(sp)
    ensures Declaration(PrintFile(file), pairs, sp, name, false) in scans[parent].decls
    ensures Keeps(files, scans, parent, Declaration(PrintFile(file), pairs, sp, name, false))
  {
    var d := Declaration(PrintFile(file), pairs, sp, name, false);
    ModIsListed(kw, cfg, texts[parent], ss, file, pairs, sp, name, scans[parent]);
    ReadIff(sp);
    assert d == d.(path := PathRead(sp));
    ListedKeeps(files, scans, parent, d);
  }

  lemma ListedKeeps(files: seq<string>, scans: map<string, FileScan>, parent: string, d: ModDecl)
    requires parent in files && parent in scans && d in scans[parent].decls && !d.isFalse
    ensures Keeps(files, scans, parent, d)
  {
    forall to: Targets, m: Listed | AnyUnder(m.file, to(parent, d))
      ensures NotCompiled(files, scans, to, m) <==> ByItself(files, scans, m)
    {
      LiveDeclarationKeeps(files, scans, to, parent, d, m);
    }
  }

  /** A name no file has. */
  lemma {:induction false} FreshFile(files: seq<string>) returns (f: string)
    ensures f !in files && forall g | g in files :: |g| < |f|
  {
    f := "x";
    if files != [] {
      var before := FreshFile(files[1..]);
      f := before + files[0] + "x";
    }
  }

  /** A declaration that is not listed keeps nothing once a false one is: the
      files of both may be the same. */
  lemma UnlistedLoses(files: seq<string>, scans: map<string, FileScan>, parent: string, d: ModDecl, other: string, e: ModDecl)
    requires parent in files && parent in scans && d !in scans[parent].decls && !d.isFalse
    requires other in files && other in scans && e in scans[other].decls && e.isFalse
    ensures !Keeps(files, scans, parent, d)
  {
    var x := FreshFile(files);
    var to: Targets := (f, c) => if (f == parent && c == d) || (f == other && c == e) then [x] else [];
    var m := Listed("m", x, Some((Pos(1, 1), Pos(1, 2))));
    assert Under(x, to(parent, d)[0]) && Under(x, to(other, e)[0]);
    assert AnyUnder(m.file, to(parent, d)) && AnyUnder(x, to(other, e));
    assert Declared(files, scans, to, x, true) && !Declared(files, scans, to, x, false);
    assert NotCompiled(files, scans, to, m) && !ByItself(files, scans, m);
  }

  lemma AllCompiledKeeps(files: seq<string>, scans: map<string, FileScan>, parent: string, d: ModDecl)
    requires AllCompiled(files, scans)
    ensures Keeps(files, scans, parent, d)
  {
    forall to: Targets, m: Listed ensures NotCompiled(files, scans, to, m) <==> ByItself(files, scans, m) {
      assert !Declared(files, scans, to, m.file, true);
    }
  }

  /** Exactly when a live `mod` keeps its files, wherever they may be: its path
      is read, or another `mod` of the file says the same, or nothing at all is
      declared false. */
  lemma ModIsKeptIff(kw: Keywords, cfg: TargetCfg, files: seq<string>, texts: map<string, string>, scans: map<string, FileScan>,
                     parent: string, ss: seq<Stretch>, file: File, pairs: map<nat, nat>, sp: Spot, name: string)
    requires ScansOf(kw, cfg, files, texts, scans) && parent in files && parent in texts
    requires ModOf(kw, texts[parent], ss, file, pairs, sp, name) && !Dead(OwnGates(sp), cfg)
    ensures var d := Declaration(PrintFile(file), pairs, sp, name, false);
            Keeps(files, scans, parent, d) <==>
            PathIsRead(sp) || d in scans[parent].decls || AllCompiled(files, scans)
  {
    var d := Declaration(PrintFile(file), pairs, sp, name, false);
    if PathIsRead(sp) {
      LiveModIsKept(kw, cfg, files, texts, scans, parent, ss, file, pairs, sp, name);
    }
    if d in scans[parent].decls {
      ListedKeeps(files, scans, parent, d);
    } else if AllCompiled(files, scans) {
      AllCompiledKeeps(files, scans, parent, d);
    } else {
      var other, e :| other in files && other in scans && e in scans[other].decls && e.isFalse;
      UnlistedLoses(files, scans, parent, d, other, e);
    }
  }

  // ---- what is left out -------------------------------------------------------------------------

  /** The file is the module's own, or somewhere in its directory. */
  predicate OfModule(p: ModulePaths.Path, dir: ModulePaths.Path, names: seq<string>)
    requires names != []
  {
    p == ModulePaths.FileOf(dir, names) || ModulePaths.IsBelow(p, ModulePaths.DirOf(dir, names))
  }

  /** A module's targets reach exactly its own file and what is in its directory. */
  lemma ReachesItsOwn(p: ModulePaths.Path, dir: ModulePaths.Path, names: seq<string>)
    requires ModulePaths.Clean(p) && ModulePaths.Clean(dir) && names != [] && ModulePaths.AllNames(names)
    ensures AnyUnder(ModulePaths.Shown(p), [ModulePaths.Shown(ModulePaths.FileOf(dir, names)),
                                            ModulePaths.Shown(ModulePaths.DirOf(dir, names)) + "/"])
            <==> OfModule(p, dir, names)
  {
    var file, below := ModulePaths.FileOf(dir, names), ModulePaths.DirOf(dir, names);
    ModulePaths.CleanFile(dir, names);
    ModulePaths.CleanNames(dir, names);
    ModulePaths.BelowIff(p, below);
    ModulePaths.ShownReadsBack(p);
    ModulePaths.ShownReadsBack(file);
    ModulePaths.ShownEnds(file);
    UnderFile(ModulePaths.Shown(p), ModulePaths.Shown(file));
    UnderDirectory(p, below);
    var targets := [ModulePaths.Shown(file), ModulePaths.Shown(below) + "/"];
    assert AnyUnder(ModulePaths.Shown(p), targets) <==>
           Under(ModulePaths.Shown(p), targets[0]) || Under(ModulePaths.Shown(p), targets[1]);
  }

  lemma UnderFile(f: string, file: string)
    requires file != "" && file[|file| - 1] != '/'
    ensures Under(f, file) <==> f == file
  {
  }

  lemma UnderDirectory(p: ModulePaths.Path, d: ModulePaths.Path)
    requires ModulePaths.Clean(p) && ModulePaths.Clean(d) && d.parts != []
    ensures Under(ModulePaths.Shown(p), ModulePaths.Shown(d) + "/") <==> ModulePaths.Shown(d) + "/" <= ModulePaths.Shown(p)
  {
    var f, pre := ModulePaths.Shown(p), ModulePaths.Shown(d) + "/";
    assert pre[|pre| - 1] == '/';
    if p.parts != [] {
      ModulePaths.ShownEnds(p);
    } else {
      assert f == "/" || f == ".";
      ModulePaths.ShownEnds(d);
    }
  }

  /** From text to verdict: a module declared in dead code, with no path, takes
      its own file and everything in its directory out with it, unless another
      declaration that is not false reaches the file. */
  lemma DeadModIsLeftOut(kw: Keywords, cfg: TargetCfg, files: seq<string>, texts: map<string, string>, scans: map<string, FileScan>,
                         parent: ModulePaths.Path, ss: seq<Stretch>, file: File, pairs: map<nat, nat>, sp: Spot, name: string,
                         p: ModulePaths.Path, m: Listed)
    requires ScansOf(kw, cfg, files, texts, scans) && ModulePaths.Clean(parent) && ModulePaths.Clean(p)
    requires ModulePaths.Shown(parent) in files && ModulePaths.Shown(parent) in texts
    requires ModOf(kw, texts[ModulePaths.Shown(parent)], ss, file, pairs, sp, name)
    requires Dead(OwnGates(sp), cfg) && PathGiven(sp.item).None?
    requires var chain := Declaration(PrintFile(file), pairs, sp, name, true).chain;
             && ModulePaths.AllNames(chain) && ModulePaths.IsName(name)
             && ModulePaths.Clean(ModulePaths.BaseOf(parent)) && OfModule(p, ModulePaths.BaseOf(parent), chain + [name])
    requires m.file == ModulePaths.Shown(p) && m.place.Some? && !Declared(files, scans, SourceTargets(), m.file, false)
    ensures NotCompiled(files, scans, SourceTargets(), m)
  {
    var d := Declaration(PrintFile(file), pairs, sp, name, true);
    DeadModIsListed(kw, cfg, texts[ModulePaths.Shown(parent)], ss, file, pairs, sp, name, scans[ModulePaths.Shown(parent)]);
    DeclarationReaches(parent, d, p);
    assert Declared(files, scans, SourceTargets(), m.file, true);
  }

  lemma DeadModIsListed(kw: Keywords, cfg: TargetCfg, text: string, ss: seq<Stretch>, file: File, pairs: map<nat, nat>,
                        sp: Spot, name: string, scan: FileScan)
    requires IsScan(kw, cfg, text, scan) && ModOf(kw, text, ss, file, pairs, sp, name)
    requires Dead(OwnGates(sp), cfg) && PathGiven(sp.item).None?
    ensures Declaration(PrintFile(file), pairs, sp, name, true) in scan.decls
  {
    var d := Declaration(PrintFile(file), pairs, sp, name, true);
    ModIsListed(kw, cfg, text, ss, file, pairs, sp, name, scan);
    ReadIff(sp);
    assert d == d.(path := PathRead(sp));
  }

  lemma DeclarationReaches(parent: ModulePaths.Path, d: ModDecl, p: ModulePaths.Path)
    requires ModulePaths.Clean(parent) && ModulePaths.Clean(p) && d.path.None?
    requires ModulePaths.AllNames(d.chain) && ModulePaths.IsName(d.name)
    requires ModulePaths.Clean(ModulePaths.BaseOf(parent)) && OfModule(p, ModulePaths.BaseOf(parent), d.chain + [d.name])
    ensures AnyUnder(ModulePaths.Shown(p), SourceTargets()(ModulePaths.Shown(parent), d))
  {
    ModulePaths.PlainTargets(parent, ModulePaths.BaseOf(parent), d.name, d.chain);
    ReachesItsOwn(p, ModulePaths.BaseOf(parent), d.chain + [d.name]);
  }
}
