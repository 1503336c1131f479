/**
 Where `mod name;` finds its source
 (`_module_targets` in scripts/ci-mutants-summary.py), with as much of POSIX
 path arithmetic as it uses.
 */
module ModulePaths {
  import opened Wrappers

  // ---- paths ---------------------------------------------------------------

  /** A path by its components, which are neither empty nor `.`. */
  datatype Path = Path(absolute: bool, parts: seq<string>)

  predicate IsPart(s: string) {
    s != "" && s != "." && '/' !in s
  }

  predicate Clean(p: Path) {
    forall i | 0 <= i < |p.parts| :: IsPart(p.parts[i])
  }

  function Kept(s: string): seq<string> {
    if s == "" || s == "." then [] else [s]
  }

  /** The components of `cur + s`, `cur` holding no slash. */
  function PartsFrom(cur: string, s: string): (parts: seq<string>)
    requires '/' !in cur
    ensures forall i | 0 <= i < |parts| :: IsPart(parts[i])
    decreases |s|
  {
    if s == "" then Kept(cur)
    else if s[0] == '/' then Kept(cur) + PartsFrom("", s[1..])
    else PartsFrom(cur + [s[0]], s[1..])
  }

  function Parsed(s: string): (p: Path)
    ensures Clean(p)
  {
    Path(s != "" && s[0] == '/', PartsFrom("", s))
  }

  function Slashed(parts: seq<string>): string {
    if parts == [] then "" else if |parts| == 1 then parts[0] else parts[0] + "/" + Slashed(parts[1..])
  }

  function Shown(p: Path): string {
    if p.absolute then "/" + Slashed(p.parts) else if p.parts == [] then "." else Slashed(p.parts)
  }

  lemma {:induction false} PartsOfWord(cur: string, w: string, rest: string)
    requires '/' !in cur && '/' !in w
    ensures PartsFrom(cur, w + rest) == PartsFrom(cur + w, rest)
    decreases |w|
  {
    if w == "" {
      assert w + rest == rest && cur + w == cur;
    } else {
      assert (w + rest)[1..] == w[1..] + rest;
      assert cur + [w[0]] + w[1..] == cur + w;
      PartsOfWord(cur + [w[0]], w[1..], rest);
    }
  }

  lemma {:induction false} PartsOfSlashed(parts: seq<string>)
    requires forall i | 0 <= i < |parts| :: IsPart(parts[i])
    ensures PartsFrom("", Slashed(parts)) == parts
    decreases |parts|
  {
    if parts != [] {
      var w, rest := parts[0], if |parts| == 1 then "" else "/" + Slashed(parts[1..]);
      assert Slashed(parts) == w + rest;
      PartsOfWord("", w, rest);
      assert "" + w == w;
      if |parts| > 1 {
        PartsOfSlashed(parts[1..]);
        assert rest[1..] == Slashed(parts[1..]);
        assert parts == [w] + parts[1..];
      }
    }
  }

  lemma SlashedStarts(parts: seq<string>)
    requires parts != [] && IsPart(parts[0])
    ensures Slashed(parts) != "" && Slashed(parts)[0] == parts[0][0] != '/'
  {
    assert parts[0][0] in parts[0];
  }

  /** A shown path reads back. */
  lemma {:induction false} ShownReadsBack(p: Path)
    requires Clean(p)
    ensures Parsed(Shown(p)) == p
  {
    PartsOfSlashed(p.parts);
    if p.absolute {
      assert Shown(p)[1..] == Slashed(p.parts);
    } else if p.parts == [] {
      assert "."[1..] == "";
      assert "" + "." == ".";
    } else {
      SlashedStarts(p.parts);
    }
  }

  function Name(p: Path): string {
    if p.parts == [] then "" else p.parts[|p.parts| - 1]
  }

  function Parent(p: Path): Path {
    if p.parts == [] then p else p.(parts := p.parts[..|p.parts| - 1])
  }

  /** `base / s` */
  function Joined(base: Path, s: string): Path {
    var more := Parsed(s);
    if more.absolute then more else base.(parts := base.parts + more.parts)
  }

  /** Where the last `.` is, or the length. */
  function LastDot(s: string): (i: nat)
    ensures i <= |s| && (i < |s| ==> s[i] == '.') && forall j | i < j < |s| :: s[j] != '.'
    ensures i == |s| ==> '.' !in s
    decreases |s|
  {
    if s == "" then 0
    else if s[|s| - 1] == '.' then |s| - 1
    else
      var i := LastDot(s[..|s| - 1]);
      if i == |s| - 1 then |s| else i
  }

  /** The name without its suffix. */
  function Stem(p: Path): string {
    var i := LastDot(Name(p));
    if 0 < i < |Name(p)| - 1 then Name(p)[..i] else Name(p)
  }

  /** A name is cut at its last dot, unless nothing stands before or after it. */
  lemma StemIs(p: Path, front: string, back: string)
    requires Name(p) == front + "." + back && '.' !in back
    ensures Stem(p) == if front == "" || back == "" then Name(p) else front
  {
    var name, i := Name(p), LastDot(Name(p));
    assert name[|front|] == '.';
    assert name[|front| + 1..] == back;
    forall j | |front| < j < |name| ensures name[j] != '.' {
      assert name[j] == back[j - |front| - 1];
    }
    assert name[..|front|] == front;
  }

  // ---- the targets -------------------------------------------------------------

  predicate RootName(s: string) {
    s == "lib.rs" || s == "main.rs" || s == "mod.rs" || s == "build.rs"
  }

  predicate RootDir(s: string) {
    s == "bin" || s == "tests" || s == "benches" || s == "examples"
  }

  /** A crate root or a `mod.rs`: its modules are beside it. */
  predicate RootLike(p: Path) {
    RootName(Name(p)) || RootDir(Name(Parent(p)))
  }

  function Under(base: Path, chain: seq<string>): Path
    decreases |chain|
  {
    if chain == [] then base else Joined(Under(base, chain[..|chain| - 1]), chain[|chain| - 1])
  }

  /** The directory a file's modules are in. */
  function BaseOf(p: Path): Path {
    if RootLike(p) then Parent(p) else Joined(Parent(p), Stem(p))
  }

  function ModuleTargets(file: string, name: string, chain: seq<string>, path: Option<string>): seq<string> {
    var p := Parsed(file);
    var base := Under(BaseOf(p), chain);
    if path.Some? then [Shown(Joined(Parsed(Shown(if chain == [] then Parent(p) else base)), path.value))]
    else [Shown(Joined(base, name + ".rs")), Shown(Joined(base, name)) + "/"]
  }

  method FindTargets(file: string, name: string, chain: seq<string>, path: Option<string>) returns (targets: seq<string>)
    ensures targets == ModuleTargets(file, name, chain, path)
  {
    var p := Parsed(file);
    var base := BaseOf(p);
    for i := 0 to |chain|
      invariant base == Under(BaseOf(p), chain[..i])
    {
      assert chain[..i + 1][..i] == chain[..i];
      base := Joined(base, chain[i]);
    }
    assert chain[..|chain|] == chain;
    if path.Some? {
      return [Shown(Joined(Parsed(Shown(if chain == [] then Parent(p) else base)), path.value))];
    }
    return [Shown(Joined(base, name + ".rs")), Shown(Joined(base, name)) + "/"];
  }

  // ---- the layout ----------------------------------------------------------------

  /** A module's name. */
  predicate IsName(s: string) {
    s != "" && '/' !in s && '.' !in s
  }

  predicate AllNames(names: seq<string>) {
    forall i | 0 <= i < |names| :: IsName(names[i])
  }

  /** The directory of a module, given where its crate's root is. */
  function DirOf(root: Path, names: seq<string>): Path {
    root.(parts := root.parts + names)
  }

  /** Its file, in the layout without `mod.rs`. */
  function FileOf(root: Path, names: seq<string>): Path
    requires names != []
  {
    var last := |names| - 1;
    root.(parts := root.parts + names[..last] + [names[last] + ".rs"])
  }

  lemma JoinPart(base: Path, s: string)
    requires IsPart(s)
    ensures Joined(base, s) == base.(parts := base.parts + [s])
  {
    PartsOfSlashed([s]);
    assert s[0] in s;
  }

  lemma NameIsPart(s: string)
    requires IsName(s)
    ensures IsPart(s) && IsPart(s + ".rs")
  {
    assert s[0] in s;
    assert (s + ".rs")[0] == s[0];
  }

  lemma {:induction false} UnderNames(base: Path, chain: seq<string>)
    requires AllNames(chain)
    ensures Under(base, chain) == DirOf(base, chain)
    decreases |chain|
  {
    if chain == [] {
      assert base.parts + chain == base.parts;
    } else {
      var front, last := chain[..|chain| - 1], chain[|chain| - 1];
      UnderNames(base, front);
      NameIsPart(last);
      JoinPart(DirOf(base, front), last);
      assert base.parts + front + [last] == base.parts + chain;
    }
  }

  lemma StemOfFile(p: Path, name: string)
    requires IsName(name) && p.parts != [] && Name(p) == name + ".rs"
    ensures Stem(p) == name
  {
    var i := LastDot(Name(p));
    assert Name(p)[|name|] == '.';
    assert forall j | 0 <= j < |name| :: Name(p)[j] == name[j] && name[j] in name;
    assert Name(p)[|name| + 1] == 'r' && Name(p)[|name| + 2] == 's';
    assert i == |name|;
    assert (name + ".rs")[..|name|] == name;
  }

  /** In the layout without `mod.rs` a module's own modules are in its directory. */
  lemma BaseOfFile(root: Path, names: seq<string>)
    requires Clean(root) && names != [] && AllNames(names) && !RootLike(FileOf(root, names))
    ensures BaseOf(FileOf(root, names)) == DirOf(root, names)
  {
    var last := |names| - 1;
    var p := FileOf(root, names);
    assert p.parts == root.parts + names[..last] + [names[last] + ".rs"];
    StemOfFile(p, names[last]);
    NameIsPart(names[last]);
    JoinPart(Parent(p), names[last]);
    assert Parent(p).parts + [names[last]] == root.parts + names;
  }

  lemma CleanDir(root: Path, names: seq<string>, r: string)
    requires Clean(root) && AllNames(names) && RootName(r)
    ensures Clean(DirOf(root, names + [r])) && BaseOf(DirOf(root, names + [r])) == DirOf(root, names)
  {
    var p := DirOf(root, names + [r]);
    forall i | 0 <= i < |names| ensures IsPart(names[i]) {
      NameIsPart(names[i]);
    }
    assert p.parts == root.parts + names + [r];
    assert Name(p) == r && Parent(p) == DirOf(root, names);
  }

  lemma CleanFile(root: Path, names: seq<string>)
    requires Clean(root) && AllNames(names) && names != []
    ensures Clean(FileOf(root, names))
  {
    forall i | 0 <= i < |names| ensures IsPart(names[i]) && IsPart(names[i] + ".rs") {
      NameIsPart(names[i]);
    }
  }

  lemma PlainTargets(file: Path, dir: Path, name: string, chain: seq<string>)
    requires Clean(file) && AllNames(chain) && IsName(name) && BaseOf(file) == dir
    ensures ModuleTargets(Shown(file), name, chain, None) ==
            [Shown(FileOf(dir, chain + [name])), Shown(DirOf(dir, chain + [name])) + "/"]
  {
    ShownReadsBack(file);
    UnderNames(dir, chain);
    NameIsPart(name);
    JoinPart(DirOf(dir, chain), name);
    JoinPart(DirOf(dir, chain), name + ".rs");
    assert (chain + [name])[..|chain|] == chain;
    assert dir.parts + chain + [name] == dir.parts + (chain + [name]);
  }

  /** A `mod.rs` or a crate root looks for its modules, inside inline modules or
      not, where the two layouts put them. */
  lemma ChildOfRoot(root: Path, names: seq<string>, r: string, chain: seq<string>, name: string)
    requires Clean(root) && AllNames(names) && AllNames(chain) && IsName(name)
    requires r in {"lib.rs", "main.rs", "mod.rs", "build.rs"}
    ensures var child := names + chain + [name];
            ModuleTargets(Shown(DirOf(root, names + [r])), name, chain, None) ==
              [Shown(FileOf(root, child)), Shown(DirOf(root, child)) + "/"]
  {
    CleanDir(root, names, r);
    PlainTargets(DirOf(root, names + [r]), DirOf(root, names), name, chain);
    LayoutJoins(root, names, chain, name);
  }

  /** A program, test, bench or example is a root whatever its name. */
  lemma ChildOfProgram(root: Path, dir: string, r: string, chain: seq<string>, name: string)
    requires Clean(root) && dir in {"bin", "tests", "benches", "examples"} && AllNames(chain) && IsName(name) && IsPart(r)
    ensures var child := [dir] + chain + [name];
            ModuleTargets(Shown(DirOf(root, [dir, r])), name, chain, None) ==
              [Shown(FileOf(root, child)), Shown(DirOf(root, child)) + "/"]
  {
    var p := DirOf(root, [dir, r]);
    assert p.parts == root.parts + [dir] + [r];
    assert Parent(p) == DirOf(root, [dir]) && Name(Parent(p)) == dir;
    assert IsPart(dir);
    PlainTargets(p, DirOf(root, [dir]), name, chain);
    LayoutJoins(root, [dir], chain, name);
  }

  /** And so does the file of the other layout, unless its name or its directory's
      makes it look like a root. */
  lemma ChildOfFile(root: Path, names: seq<string>, chain: seq<string>, name: string)
    requires Clean(root) && names != [] && AllNames(names) && AllNames(chain) && IsName(name)
    requires names[|names| - 1] !in {"lib", "main", "mod", "build"}
    requires Name(Parent(FileOf(root, names))) !in {"bin", "tests", "benches", "examples"}
    ensures var child := names + chain + [name];
            ModuleTargets(Shown(FileOf(root, names)), name, chain, None) ==
              [Shown(FileOf(root, child)), Shown(DirOf(root, child)) + "/"]
  {
    NotRootName(names[|names| - 1]);
    BaseOfFile(root, names);
    CleanFile(root, names);
    PlainTargets(FileOf(root, names), DirOf(root, names), name, chain);
    LayoutJoins(root, names, chain, name);
  }

  lemma NotRootName(name: string)
    requires name !in {"lib", "main", "mod", "build"}
    ensures !RootName(name + ".rs")
  {
    var n := |name|;
    assert (name + ".rs")[..n] == name;
    assert "lib.rs"[..3] == "lib" && "main.rs"[..4] == "main" && "mod.rs"[..3] == "mod" && "build.rs"[..5] == "build";
  }

  lemma LayoutJoins(root: Path, names: seq<string>, chain: seq<string>, name: string)
    ensures FileOf(DirOf(root, names), chain + [name]) == FileOf(root, names + chain + [name])
    ensures DirOf(DirOf(root, names), chain + [name]) == DirOf(root, names + chain + [name])
  {
    var child := names + chain + [name];
    assert (chain + [name])[..|chain|] == chain && child[..|child| - 1] == names + chain;
    assert root.parts + names + chain == root.parts + (names + chain);
    assert root.parts + names + (chain + [name]) == root.parts + child;
  }

  // ---- a `#[path]` ---------------------------------------------------------------------------

  /** The files below a directory, by a relative path. */
  function Below(dir: Path, rel: seq<string>): Path {
    dir.(parts := dir.parts + rel)
  }

  lemma JoinShown(base: Path, rel: seq<string>)
    requires rel != [] && forall i | 0 <= i < |rel| :: IsPart(rel[i])
    ensures Joined(base, Shown(Path(false, rel))) == Below(base, rel)
  {
    ShownReadsBack(Path(false, rel));
  }

  lemma PathLeads(file: Path, dir: Path, name: string, chain: seq<string>, rel: seq<string>)
    requires Clean(file) && Clean(dir) && AllNames(chain) && rel != [] && (forall i | 0 <= i < |rel| :: IsPart(rel[i]))
    requires dir == if chain == [] then Parent(file) else DirOf(BaseOf(file), chain)
    ensures ModuleTargets(Shown(file), name, chain, Some(Shown(Path(false, rel)))) == [Shown(Below(dir, rel))]
  {
    ShownReadsBack(file);
    UnderNames(BaseOf(file), chain);
    ShownReadsBack(dir);
    JoinShown(dir, rel);
  }

  lemma CleanNames(root: Path, names: seq<string>)
    requires Clean(root) && AllNames(names)
    ensures Clean(DirOf(root, names))
  {
    forall i | 0 <= i < |names| ensures IsPart(names[i]) {
      NameIsPart(names[i]);
    }
  }

  /** In a crate root or a `mod.rs`, a path is taken from its directory, or from
      the directory of the inline modules around the declaration. */
  lemma PathInRoot(root: Path, names: seq<string>, r: string, name: string, chain: seq<string>, rel: seq<string>)
    requires Clean(root) && AllNames(names) && AllNames(chain) && RootName(r)
    requires rel != [] && forall i | 0 <= i < |rel| :: IsPart(rel[i])
    ensures ModuleTargets(Shown(DirOf(root, names + [r])), name, chain, Some(Shown(Path(false, rel)))) ==
            [Shown(Below(DirOf(root, names + chain), rel))]
  {
    CleanDir(root, names, r);
    CleanNames(root, names + chain);
    assert DirOf(DirOf(root, names), chain) == DirOf(root, names + chain);
    assert Parent(DirOf(root, names + [r])) == DirOf(root, names);
    assert names + [] == names;
    PathLeads(DirOf(root, names + [r]), DirOf(root, names + chain), name, chain, rel);
  }

  /** In the file of a module, a path outside inline modules is taken from the
      file's own directory, its parent module's, and one inside them from the
      module's directory. */
  lemma PathInFile(root: Path, names: seq<string>, name: string, chain: seq<string>, rel: seq<string>)
    requires Clean(root) && names != [] && AllNames(names) && AllNames(chain) && !RootLike(FileOf(root, names))
    requires rel != [] && forall i | 0 <= i < |rel| :: IsPart(rel[i])
    ensures ModuleTargets(Shown(FileOf(root, names)), name, chain, Some(Shown(Path(false, rel)))) ==
            [Shown(Below(DirOf(root, if chain == [] then names[..|names| - 1] else names + chain), rel))]
  {
    if chain == [] {
      PathBeside(root, names, name, rel);
    } else {
      PathWithin(root, names, name, chain, rel);
    }
  }

  lemma PathBeside(root: Path, names: seq<string>, name: string, rel: seq<string>)
    requires Clean(root) && names != [] && AllNames(names) && !RootLike(FileOf(root, names))
    requires rel != [] && forall i | 0 <= i < |rel| :: IsPart(rel[i])
    ensures ModuleTargets(Shown(FileOf(root, names)), name, [], Some(Shown(Path(false, rel)))) ==
            [Shown(Below(DirOf(root, names[..|names| - 1]), rel))]
  {
    CleanFile(root, names);
    CleanNames(root, names[..|names| - 1]);
    ParentOfFile(root, names);
    PathLeads(FileOf(root, names), DirOf(root, names[..|names| - 1]), name, [], rel);
  }

  lemma PathWithin(root: Path, names: seq<string>, name: string, chain: seq<string>, rel: seq<string>)
    requires Clean(root) && names != [] && AllNames(names) && AllNames(chain) && chain != [] && !RootLike(FileOf(root, names))
    requires rel != [] && forall i | 0 <= i < |rel| :: IsPart(rel[i])
    ensures ModuleTargets(Shown(FileOf(root, names)), name, chain, Some(Shown(Path(false, rel)))) ==
            [Shown(Below(DirOf(root, names + chain), rel))]
  {
    BaseOfFile(root, names);
    CleanFile(root, names);
    CleanNames(root, names + chain);
    DirsJoin(root, names, chain);
    PathLeads(FileOf(root, names), DirOf(root, names + chain), name, chain, rel);
  }

  lemma DirsJoin(root: Path, names: seq<string>, chain: seq<string>)
    ensures DirOf(DirOf(root, names), chain) == DirOf(root, names + chain)
  {
    assert root.parts + names + chain == root.parts + (names + chain);
  }

  lemma ParentOfFile(root: Path, names: seq<string>)
    requires names != []
    ensures Parent(FileOf(root, names)) == DirOf(root, names[..|names| - 1])
  {
    var p, front := FileOf(root, names), names[..|names| - 1];
    assert p.parts == root.parts + front + [names[|names| - 1] + ".rs"];
    assert p.parts[..|p.parts| - 1] == root.parts + front;
  }

  /** An absolute path is taken as it is. */
  lemma AbsolutePath(file: string, name: string, chain: seq<string>, p: Path)
    requires Clean(p) && p.absolute
    ensures ModuleTargets(file, name, chain, Some(Shown(p))) == [Shown(p)]
  {
    ShownReadsBack(p);
  }

  // ---- what is under a directory --------------------------------------------------------------

  lemma {:induction false} PartsPast(parts: seq<string>, rest: string)
    requires parts != [] && forall i | 0 <= i < |parts| :: IsPart(parts[i])
    ensures PartsFrom("", Slashed(parts) + "/" + rest) == parts + PartsFrom("", rest)
    decreases |parts|
  {
    if |parts| == 1 {
      PartPast(parts[0], rest);
    } else {
      PartPast(parts[0], Slashed(parts[1..]) + "/" + rest);
      PartsPast(parts[1..], rest);
      SlashedPast(parts, rest);
      assert parts == [parts[0]] + parts[1..];
    }
  }

  lemma PartPast(w: string, rest: string)
    requires IsPart(w)
    ensures PartsFrom("", w + "/" + rest) == [w] + PartsFrom("", rest)
  {
    var more := "/" + rest;
    assert w + "/" + rest == w + more;
    PartsOfWord("", w, more);
    assert "" + w == w && more[1..] == rest;
  }

  lemma SlashedPast(parts: seq<string>, rest: string)
    requires |parts| > 1
    ensures Slashed(parts) + "/" + rest == parts[0] + "/" + (Slashed(parts[1..]) + "/" + rest)
  {
  }

  lemma {:induction false} SlashedJoins(a: seq<string>, b: seq<string>)
    requires a != [] && b != []
    ensures Slashed(a + b) == Slashed(a) + "/" + Slashed(b)
    decreases |a|
  {
    assert (a + b)[0] == a[0] && (a + b)[1..] == a[1..] + b;
    if |a| == 1 {
      assert a[1..] + b == b;
    } else {
      SlashedJoins(a[1..], b);
    }
  }

  /** `p` stands somewhere below `d`. */
  predicate IsBelow(p: Path, d: Path) {
    p.absolute == d.absolute && |d.parts| < |p.parts| && p.parts[..|d.parts|] == d.parts
  }

  /** As text, the directory and a slash begin the path exactly when the path is
      below the directory, component by component. */
  lemma BelowIff(p: Path, d: Path)
    requires Clean(p) && Clean(d) && d.parts != []
    ensures Shown(d) + "/" <= Shown(p) <==> IsBelow(p, d)
  {
    if IsBelow(p, d) {
      var rest := p.parts[|d.parts|..];
      assert p.parts == d.parts + rest;
      SlashedJoins(d.parts, rest);
    }
    if Shown(d) + "/" <= Shown(p) {
      PrefixIsBelow(p, d, Shown(p)[|Shown(d)| + 1..]);
    }
  }

  lemma SameText(p: Path, d: Path)
    ensures p.parts == d.parts && p.absolute == d.absolute ==> Shown(p) == Shown(d)
  {
  }

  lemma PrefixIsBelow(p: Path, d: Path, rest: string)
    requires Clean(p) && Clean(d) && d.parts != [] && Shown(p) == Shown(d) + "/" + rest
    ensures IsBelow(p, d)
  {
    SlashedStarts(d.parts);
    ShownReadsBack(p);
    ShownReadsBack(d);
    assert Shown(p)[0] == Shown(d)[0];
    PartsPast(d.parts, rest);
    if d.absolute {
      assert Shown(p)[1..] == Slashed(d.parts) + "/" + rest;
    }
    assert Parsed(Shown(p)).parts == d.parts + PartsFrom("", rest);
    SameText(p, d);
    assert |Shown(p)| > |Shown(d)|;
    assert d.parts + [] == d.parts;
  }

  lemma {:induction false} SlashedEnds(parts: seq<string>)
    requires parts != [] && forall i | 0 <= i < |parts| :: IsPart(parts[i])
    ensures Slashed(parts) != "" && Slashed(parts)[|Slashed(parts)| - 1] != '/'
    decreases |parts|
  {
    if |parts| == 1 {
      assert parts[0][|parts[0]| - 1] in parts[0];
    } else {
      SlashedEnds(parts[1..]);
    }
  }

  lemma ShownEnds(p: Path)
    requires Clean(p) && p.parts != []
    ensures Shown(p) != "" && Shown(p)[|Shown(p)| - 1] != '/'
  {
    SlashedEnds(p.parts);
  }
}
