/**
 The contract additive guard (scripts/contract-additive-guard.py): everything
 the base had must still be there, counted with repeats for the golden files
 and as a set for the generated types.
 */
module AdditiveGuard {

  /** A member of a golden file, with the line it stands on. */
  datatype Member = Member(line: nat, text: string)

  function Texts(members: seq<Member>): seq<string> {
    seq(|members|, i requires 0 <= i < |members| => members[i].text)
  }

  function Occurrences(texts: seq<string>, t: string): nat
    decreases |texts|
  {
    if texts == [] then 0
    else Occurrences(texts[..|texts| - 1], t) + if texts[|texts| - 1] == t then 1 else 0
  }

  lemma {:induction false} OccurrencesAre(texts: seq<string>, t: string)
    ensures Occurrences(texts, t) == multiset(texts)[t]
    decreases |texts|
  {
    if texts != [] {
      var before := texts[..|texts| - 1];
      OccurrencesAre(before, t);
      assert texts == before + [texts[|texts| - 1]];
    }
  }

  /** The members of `old` the new file lacks: an occurrence is lacking when as
      many equal ones before it use up all the new file has. */
  function Lacking(old_: seq<Member>, new_: seq<string>): seq<Member>
    decreases |old_|
  {
    if old_ == [] then []
    else
      var before, last := old_[..|old_| - 1], old_[|old_| - 1];
      Lacking(before, new_) +
      if Occurrences(Texts(before), last.text) >= Occurrences(new_, last.text) then [last] else []
  }

  method CountAll(texts: seq<string>) returns (remaining: map<string, nat>)
    ensures forall t :: Occurrences(texts, t) == if t in remaining then remaining[t] else 0
  {
    remaining := map[];
    for i := 0 to |texts|
      invariant forall t :: Occurrences(texts[..i], t) == if t in remaining then remaining[t] else 0
    {
      assert texts[..i + 1][..i] == texts[..i];
      remaining := remaining[texts[i] := (if texts[i] in remaining then remaining[texts[i]] else 0) + 1];
    }
    assert texts[..|texts|] == texts;
  }

  function Left(new_: seq<string>, before: seq<Member>, t: string): int {
    var left := Occurrences(new_, t) - Occurrences(Texts(before), t);
    if left < 0 then 0 else left
  }

  lemma TextsSnoc(before: seq<Member>, m: Member, t: string)
    ensures Occurrences(Texts(before + [m]), t) == Occurrences(Texts(before), t) + if m.text == t then 1 else 0
  {
    var all := Texts(before + [m]);
    assert all[..|before|] == Texts(before);
    assert all[|before|] == m.text;
  }

  function Get(remaining: map<string, nat>, t: string): nat {
    if t in remaining then remaining[t] else 0
  }

  /** `remaining` is what the new file still has to answer with. */
  ghost predicate Tracks(remaining: map<string, nat>, new_: seq<string>, before: seq<Member>) {
    forall t :: Get(remaining, t) == Left(new_, before, t)
  }

  function Used(remaining: map<string, nat>, t: string): map<string, nat> {
    if Get(remaining, t) > 0 then remaining[t := Get(remaining, t) - 1] else remaining
  }

  lemma LackingSnoc(before: seq<Member>, m: Member, new_: seq<string>)
    ensures Lacking(before + [m], new_) == Lacking(before, new_) +
            if Occurrences(Texts(before), m.text) >= Occurrences(new_, m.text) then [m] else []
  {
    assert (before + [m])[..|before|] == before;
  }

  lemma TrackStep(remaining: map<string, nat>, new_: seq<string>, before: seq<Member>, m: Member)
    requires Tracks(remaining, new_, before)
    ensures Tracks(Used(remaining, m.text), new_, before + [m])
    ensures Lacking(before + [m], new_) == Lacking(before, new_) + if Get(remaining, m.text) > 0 then [] else [m]
  {
    LackingSnoc(before, m, new_);
    assert Get(remaining, m.text) == Left(new_, before, m.text);
    forall t ensures Get(Used(remaining, m.text), t) == Left(new_, before + [m], t) {
      TextsSnoc(before, m, t);
      assert Get(remaining, t) == Left(new_, before, t);
    }
  }

  /** The counting pass: each new member answers for one old one. */
  method LineViolations(old_: seq<Member>, new_: seq<string>) returns (found: seq<Member>)
    ensures found == Lacking(old_, new_)
  {
    var remaining := CountAll(new_);
    found := [];
    assert Tracks(remaining, new_, []);
    for i := 0 to |old_|
      invariant found == Lacking(old_[..i], new_)
      invariant Tracks(remaining, new_, old_[..i])
    {
      var m := old_[i];
      assert old_[..i + 1] == old_[..i] + [m];
      TrackStep(remaining, new_, old_[..i], m);
      if m.text in remaining && remaining[m.text] > 0 {
        remaining := remaining[m.text := remaining[m.text] - 1];
      } else {
        found := found + [m];
      }
    }
    assert old_[..|old_|] == old_;
  }

  lemma MultisetStep(a: multiset<string>, b: multiset<string>, t: string)
    ensures a + multiset{t} - b == if a[t] >= b[t] then a - b + multiset{t} else a - b
  {
  }

  lemma BagSnoc(before: seq<Member>, m: Member)
    ensures multiset(Texts(before + [m])) == multiset(Texts(before)) + multiset{m.text}
  {
    assert Texts(before + [m]) == Texts(before) + [m.text];
  }

  /** What is reported is the multiset difference: old members less new ones. */
  lemma {:induction false} LackingIsDifference(old_: seq<Member>, new_: seq<string>)
    ensures multiset(Texts(Lacking(old_, new_))) == multiset(Texts(old_)) - multiset(new_)
    decreases |old_|
  {
    if old_ == [] {
      assert Texts(Lacking(old_, new_)) == [];
      assert Texts(old_) == [];
    } else {
      var before, last := old_[..|old_| - 1], old_[|old_| - 1];
      assert old_ == before + [last];
      LackingIsDifference(before, new_);
      DifferenceStep(before, last, new_);
    }
  }

  lemma DifferenceStep(before: seq<Member>, m: Member, new_: seq<string>)
    requires multiset(Texts(Lacking(before, new_))) == multiset(Texts(before)) - multiset(new_)
    ensures multiset(Texts(Lacking(before + [m], new_))) == multiset(Texts(before + [m])) - multiset(new_)
  {
    var a, b := multiset(Texts(before)), multiset(new_);
    OccurrencesAre(Texts(before), m.text);
    OccurrencesAre(new_, m.text);
    MultisetStep(a, b, m.text);
    BagSnoc(before, m);
    LackingSnoc(before, m, new_);
    if a[m.text] >= b[m.text] {
      BagSnoc(Lacking(before, new_), m);
    } else {
      assert Lacking(before + [m], new_) == Lacking(before, new_);
    }
  }

  /** Nothing is lacking exactly when the new file has every old member, as
      often. */
  lemma {:induction false} PassingIsInclusion(old_: seq<Member>, new_: seq<string>)
    ensures Lacking(old_, new_) == [] <==> multiset(Texts(old_)) <= multiset(new_)
  {
    LackingIsDifference(old_, new_);
    var lacking := Lacking(old_, new_);
    if lacking == [] {
      assert Texts(lacking) == [];
      NoDifference(multiset(Texts(old_)), multiset(new_));
    } else {
      assert Texts(lacking)[0] in multiset(Texts(lacking));
    }
  }

  lemma NoDifference(a: multiset<string>, b: multiset<string>)
    requires a - b == multiset{}
    ensures a <= b
  {
    forall t ensures a[t] <= b[t] {
      assert (a - b)[t] == 0;
    }
  }

  // ---- a whole tree against a base ----------------------------------------------------------

  type TsMembers = map<string, nat>

  /** A revision: the golden files it has, and its generated types. */
  datatype Revision = Revision(golden: map<string, seq<Member>>, types: map<string, TsMembers>)

  datatype Violation = Deleted(path: string) | Removed(path: string, line: nat, text: string)

  /** Every member the base had is still there. */
  ghost predicate Additive(base: Revision, head: Revision, lineFiles: seq<string>) {
    && (forall path | path in lineFiles && path in base.golden ::
          path in head.golden && multiset(Texts(base.golden[path])) <= multiset(Texts(head.golden[path])))
    && (forall path | path in base.types :: path in head.types && base.types[path].Keys <= head.types[path].Keys)
  }

  function Reported(path: string, members: seq<Member>): seq<Violation> {
    seq(|members|, i requires 0 <= i < |members| => Removed(path, members[i].line, members[i].text))
  }

  /** What one golden file has to answer for. */
  function PathReport(base: Revision, head: Revision, path: string): seq<Violation> {
    if path !in base.golden then []
    else if path !in head.golden then [Deleted(path)]
    else Reported(path, Lacking(base.golden[path], Texts(head.golden[path])))
  }

  function GoldenReport(base: Revision, head: Revision, lineFiles: seq<string>): seq<Violation>
    decreases |lineFiles|
  {
    if lineFiles == [] then []
    else GoldenReport(base, head, lineFiles[..|lineFiles| - 1]) + PathReport(base, head, lineFiles[|lineFiles| - 1])
  }

  predicate GoldenKept(base: Revision, head: Revision, path: string) {
    path in base.golden ==>
      path in head.golden && multiset(Texts(base.golden[path])) <= multiset(Texts(head.golden[path]))
  }

  lemma {:induction false} NothingReported(base: Revision, head: Revision, lineFiles: seq<string>)
    ensures GoldenReport(base, head, lineFiles) == [] <==> forall path | path in lineFiles :: GoldenKept(base, head, path)
    decreases |lineFiles|
  {
    if lineFiles != [] {
      var before, path := lineFiles[..|lineFiles| - 1], lineFiles[|lineFiles| - 1];
      NothingReported(base, head, before);
      if path in base.golden && path in head.golden {
        PassingIsInclusion(base.golden[path], Texts(head.golden[path]));
      }
      assert |PathReport(base, head, path)| == 0 <==> GoldenKept(base, head, path);
      assert |GoldenReport(base, head, lineFiles)| == |GoldenReport(base, head, before)| + |PathReport(base, head, path)|;
      assert lineFiles == before + [path];
    }
  }

  method GoldenViolations(base: Revision, head: Revision, lineFiles: seq<string>) returns (found: seq<Violation>)
    ensures found == GoldenReport(base, head, lineFiles)
  {
    found := [];
    for i := 0 to |lineFiles|
      invariant found == GoldenReport(base, head, lineFiles[..i])
    {
      assert lineFiles[..i + 1][..i] == lineFiles[..i];
      var path := lineFiles[i];
      if path in base.golden {
        if path !in head.golden {
          found := found + [Deleted(path)];
        } else {
          var lacking := LineViolations(base.golden[path], Texts(head.golden[path]));
          found := found + Reported(path, lacking);
        }
      }
    }
    assert lineFiles[..|lineFiles|] == lineFiles;
  }

  predicate TypesKept(base: Revision, head: Revision, path: string) {
    path in base.types ==> path in head.types && base.types[path].Keys <= head.types[path].Keys
  }

  predicate IsTypeViolation(base: Revision, head: Revision, v: Violation) {
    match v
    case Deleted(path) => path in base.types && path !in head.types
    case Removed(path, line, m) =>
      && path in base.types && path in head.types
      && m in base.types[path] && m !in head.types[path] && line == base.types[path][m]
  }

  method TypeViolations(base: Revision, head: Revision, paths: seq<string>, memberOrder: map<string, seq<string>>)
    returns (found: seq<Violation>)
    requires forall path :: path in paths <==> path in base.types
    requires forall path | path in paths :: path in memberOrder &&
               forall m :: m in memberOrder[path] <==> m in base.types[path]
    ensures forall v :: v in found <==> IsTypeViolation(base, head, v)
  {
    found := [];
    for i := 0 to |paths|
      invariant forall v :: v in found <==> v.path in paths[..i] && IsTypeViolation(base, head, v)
    {
      assert paths[..i + 1] == paths[..i] + [paths[i]];
      var path := paths[i];
      if path !in head.types {
        found := found + [Deleted(path)];
      } else {
        found := GoneMembers(path, base.types[path], head.types[path], memberOrder[path], found);
      }
    }
    assert paths[..|paths|] == paths;
  }

  method GoneMembers(path: string, old_: TsMembers, new_: TsMembers, order: seq<string>, before: seq<Violation>)
    returns (found: seq<Violation>)
    requires forall m :: m in order <==> m in old_
    ensures forall v :: v in found <==>
              v in before || (v.Removed? && v.path == path && v.text in old_ && v.text !in new_ && v.line == old_[v.text])
  {
    found := before;
    for i := 0 to |order|
      invariant forall v :: v in found <==>
                  v in before || (v.Removed? && v.path == path && v.text in order[..i] && v.text !in new_ && v.line == old_[v.text])
    {
      assert order[..i + 1] == order[..i] + [order[i]];
      assert order[i] in order;
      if order[i] !in new_ {
        found := found + [Removed(path, old_[order[i]], order[i])];
      }
    }
    assert order[..|order|] == order;
  }

  lemma TypesAllKept(base: Revision, head: Revision, found: seq<Violation>)
    requires forall v :: v in found <==> IsTypeViolation(base, head, v)
    ensures found == [] <==> forall path | path in base.types :: TypesKept(base, head, path)
  {
    if found != [] {
      assert IsTypeViolation(base, head, found[0]);
      assert !TypesKept(base, head, found[0].path);
    } else {
      forall path | path in base.types ensures TypesKept(base, head, path) {
        assert !IsTypeViolation(base, head, Deleted(path));
        forall m | m in base.types[path] ensures m in head.types[path] {
          assert !IsTypeViolation(base, head, Removed(path, base.types[path][m], m));
        }
      }
    }
  }

  /** The guard finds nothing exactly when the head is additive over the base. */
  method Violations(base: Revision, head: Revision, lineFiles: seq<string>,
                    typeFiles: seq<string>, memberOrder: map<string, seq<string>>)
    returns (found: seq<Violation>)
    requires forall path :: path in typeFiles <==> path in base.types
    requires forall path | path in typeFiles :: path in memberOrder &&
               forall m :: m in memberOrder[path] <==> m in base.types[path]
    ensures found == [] <==> Additive(base, head, lineFiles)
    ensures |found| >= |GoldenReport(base, head, lineFiles)| &&
            found[..|GoldenReport(base, head, lineFiles)|] == GoldenReport(base, head, lineFiles)
    ensures forall v :: v in found[|GoldenReport(base, head, lineFiles)|..] <==> IsTypeViolation(base, head, v)
  {
    var golden := GoldenViolations(base, head, lineFiles);
    var types := TypeViolations(base, head, typeFiles, memberOrder);
    found := golden + types;
    NothingReported(base, head, lineFiles);
    TypesAllKept(base, head, types);
  }

  /** A history additive at every step is additive from end to end. */
  lemma {:induction false} StepsCompose(history: seq<Revision>, lineFiles: seq<string>)
    requires history != [] && forall i | 0 < i < |history| :: Additive(history[i - 1], history[i], lineFiles)
    ensures Additive(history[0], history[|history| - 1], lineFiles)
    decreases |history|
  {
    if |history| > 1 {
      var before := history[..|history| - 1];
      forall i | 0 < i < |before| ensures Additive(before[i - 1], before[i], lineFiles) {
        assert before[i - 1] == history[i - 1] && before[i] == history[i];
      }
      StepsCompose(before, lineFiles);
      AdditiveTransitive(history[0], before[|before| - 1], history[|history| - 1], lineFiles);
    }
  }

  lemma AdditiveTransitive(a: Revision, b: Revision, c: Revision, lineFiles: seq<string>)
    requires Additive(a, b, lineFiles) && Additive(b, c, lineFiles)
    ensures Additive(a, c, lineFiles)
  {
    forall path | path in lineFiles && path in a.golden
      ensures path in c.golden && multiset(Texts(a.golden[path])) <= multiset(Texts(c.golden[path]))
    {
      assert multiset(Texts(a.golden[path])) <= multiset(Texts(b.golden[path]));
    }
  }

  // ---- which members a report names --------------------------------------------------------------

  /** The occurrence at `i` is one the new file has no answer left for. */
  predicate Unanswered(old_: seq<Member>, new_: seq<string>, i: nat)
    requires i < |old_|
  {
    multiset(Texts(old_[..i]))[old_[i].text] >= multiset(new_)[old_[i].text]
  }

  /** A member is reported, with its own line, exactly for such an occurrence. */
  lemma {:induction false} LackingAre(old_: seq<Member>, new_: seq<string>, m: Member)
    ensures m in Lacking(old_, new_) <==> exists i: nat :: i < |old_| && old_[i] == m && Unanswered(old_, new_, i)
    decreases |old_|
  {
    if old_ != [] {
      var before, last := old_[..|old_| - 1], old_[|old_| - 1];
      LackingAre(before, new_, m);
      LastUnanswered(old_, new_);
      EarlierUnanswered(old_, before, new_, m);
    }
  }

  lemma LastUnanswered(old_: seq<Member>, new_: seq<string>)
    requires old_ != []
    ensures var before, last := old_[..|old_| - 1], old_[|old_| - 1];
            Lacking(old_, new_) == Lacking(before, new_) + if Unanswered(old_, new_, |before|) then [last] else []
  {
    var before, last := old_[..|old_| - 1], old_[|old_| - 1];
    OccurrencesAre(Texts(before), last.text);
    OccurrencesAre(new_, last.text);
  }

  lemma EarlierUnanswered(old_: seq<Member>, before: seq<Member>, new_: seq<string>, m: Member)
    requires old_ != [] && before == old_[..|old_| - 1]
    ensures (exists i: nat :: i < |old_| && old_[i] == m && Unanswered(old_, new_, i)) <==>
            || (exists i: nat :: i < |before| && before[i] == m && Unanswered(before, new_, i))
            || (old_[|before|] == m && Unanswered(old_, new_, |before|))
  {
    forall i: nat | i < |before| ensures Unanswered(old_, new_, i) <==> Unanswered(before, new_, i) {
      assert old_[..i] == before[..i];
    }
    if i: nat :| i < |before| && before[i] == m && Unanswered(before, new_, i) {
      assert old_[i] == m && Unanswered(old_, new_, i);
    }
  }

  /** What a golden report may hold. */
  ghost predicate IsGoldenViolation(base: Revision, head: Revision, lineFiles: seq<string>, v: Violation) {
    && v.path in lineFiles && v.path in base.golden
    && match v
       case Deleted(path) => path !in head.golden
       case Removed(path, line, text) =>
         path in head.golden && exists i: nat ::
           i < |base.golden[path]| && base.golden[path][i] == Member(line, text)
           && Unanswered(base.golden[path], Texts(head.golden[path]), i)
  }

  lemma PathReports(base: Revision, head: Revision, path: string, v: Violation)
    ensures v in PathReport(base, head, path) <==> IsGoldenViolation(base, head, [path], v)
  {
    if path in base.golden && path in head.golden {
      var old_, new_ := base.golden[path], Texts(head.golden[path]);
      var lacking := Lacking(old_, new_);
      if v.Removed? {
        LackingAre(old_, new_, Member(v.line, v.text));
        ReportedAre(path, lacking, v);
      } else {
        assert v !in Reported(path, lacking);
      }
    }
  }

  lemma ReportedAre(path: string, members: seq<Member>, v: Violation)
    requires v.Removed?
    ensures v in Reported(path, members) <==> v.path == path && Member(v.line, v.text) in members
  {
    if v.path == path && Member(v.line, v.text) in members {
      var i :| 0 <= i < |members| && members[i] == Member(v.line, v.text);
      assert Reported(path, members)[i] == v;
    }
  }

  /** The golden report names exactly the files deleted and the occurrences
      unanswered, each with its own path, line and text. */
  lemma {:induction false} GoldenReportIs(base: Revision, head: Revision, lineFiles: seq<string>, v: Violation)
    ensures v in GoldenReport(base, head, lineFiles) <==> IsGoldenViolation(base, head, lineFiles, v)
    decreases |lineFiles|
  {
    if lineFiles != [] {
      var before, path := lineFiles[..|lineFiles| - 1], lineFiles[|lineFiles| - 1];
      GoldenReportIs(base, head, before, v);
      PathReports(base, head, path, v);
      assert lineFiles == before + [path];
    }
  }
}
