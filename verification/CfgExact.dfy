/**
 The other half of the `cfg` evaluation: unknown is answered only where builds
 of the target really differ. It holds where no undecided atom stands twice in
 the predicate; three-valued logic cannot see that `test` and `not(test)` are
 related.
 */
module CfgExact {
  import opened RustTokens
  import opened CfgPredicate
  import opened CfgItems

  datatype Atom = NameAtom(name: string) | PairAtom(key: string, value: string)

  predicate Decided(a: Atom, cfg: TargetCfg) {
    match a
    case NameAtom(name) => name in cfg.decided
    case PairAtom(key, _) => key in cfg.decided
  }

  /** The undecided atoms of a predicate, as often as they stand in it. */
  function FreeAtoms(p: Pred, cfg: TargetCfg): seq<Atom>
    decreases p, 0
  {
    match p
    case All(ps) => FreeIn(ps, cfg)
    case Any(ps) => FreeIn(ps, cfg)
    case Not(q) => FreeAtoms(q, cfg)
    case Name(name) => if name in cfg.decided then [] else [NameAtom(name)]
    case KeyVal(key, value) => if key in cfg.decided then [] else [PairAtom(key, value)]
  }

  function FreeIn(ps: seq<Pred>, cfg: TargetCfg): seq<Atom>
    decreases ps, 1
  {
    if ps == [] then [] else FreeAtoms(ps[0], cfg) + FreeIn(ps[1..], cfg)
  }

  /** No undecided atom stands twice. */
  predicate Distinct(atoms: seq<Atom>) {
    forall i, j | 0 <= i < j < |atoms| :: atoms[i] != atoms[j]
  }

  /** Whether a build has the atom. */
  ghost predicate Has(b: Build, a: Atom) {
    match a
    case NameAtom(name) => name in b.names
    case PairAtom(key, value) => (key, value) in b.pairs
  }

  /** Of these atoms the build has exactly those chosen. */
  ghost predicate Chooses(b: Build, atoms: seq<Atom>, chosen: iset<Atom>) {
    forall a | a in atoms :: Has(b, a) <==> a in chosen
  }

  /** The build of the target that has the chosen atoms and no other undecided one. */
  ghost function BuildWith(cfg: TargetCfg, chosen: iset<Atom>): Build {
    Build(iset name: string | if name in cfg.decided then name in cfg.entries && cfg.entries[name].Flag?
                              else NameAtom(name) in chosen,
          iset pair: (string, string) |
            if pair.0 in cfg.decided then pair.0 in cfg.entries && cfg.entries[pair.0].Values? && pair.1 in cfg.entries[pair.0].vals
            else PairAtom(pair.0, pair.1) in chosen)
  }

  lemma BuildWithIs(cfg: TargetCfg, chosen: iset<Atom>, atoms: seq<Atom>)
    requires forall a | a in atoms :: !Decided(a, cfg)
    ensures BuildOf(BuildWith(cfg, chosen), cfg) && Chooses(BuildWith(cfg, chosen), atoms, chosen)
  {
  }

  lemma {:induction false} FreeAreFree(p: Pred, cfg: TargetCfg)
    ensures forall a | a in FreeAtoms(p, cfg) :: !Decided(a, cfg)
    decreases p, 0
  {
    match p {
      case All(ps) => FreeInAreFree(ps, cfg);
      case Any(ps) => FreeInAreFree(ps, cfg);
      case Not(q) => FreeAreFree(q, cfg);
      case _ =>
    }
  }

  lemma {:induction false} FreeInAreFree(ps: seq<Pred>, cfg: TargetCfg)
    ensures forall a | a in FreeIn(ps, cfg) :: !Decided(a, cfg)
    decreases ps, 1
  {
    if ps != [] {
      FreeAreFree(ps[0], cfg);
      FreeInAreFree(ps[1..], cfg);
    }
  }

  function Against(want: bool): Kleene {
    if want then False else True
  }

  /** The chosen atoms give the predicate the value wanted, whatever else a
      build of the target has. */
  ghost predicate Forces(p: Pred, cfg: TargetCfg, chosen: iset<Atom>, want: bool) {
    forall b | BuildOf(b, cfg) && Chooses(b, FreeAtoms(p, cfg), chosen) :: Holds(p, b) == want
  }

  ghost predicate ForcesEach(ps: seq<Pred>, cfg: TargetCfg, chosen: iset<Atom>, want: bool) {
    forall b | BuildOf(b, cfg) && Chooses(b, FreeIn(ps, cfg), chosen) :: forall q | q in ps :: Holds(q, b) == want
  }

  lemma DistinctParts(a: seq<Atom>, b: seq<Atom>)
    requires Distinct(a + b)
    ensures Distinct(a) && Distinct(b) && forall x | x in a :: x !in b
  {
    forall i, j | 0 <= i < j < |a| ensures a[i] != a[j] {
      assert (a + b)[i] == a[i] && (a + b)[j] == a[j];
    }
    forall i, j | 0 <= i < j < |b| ensures b[i] != b[j] {
      assert (a + b)[|a| + i] == b[i] && (a + b)[|a| + j] == b[j];
    }
    forall x | x in a ensures x !in b {
      var i :| 0 <= i < |a| && a[i] == x;
      forall j | 0 <= j < |b| ensures b[j] != x {
        assert (a + b)[i] == a[i] && (a + b)[|a| + j] == b[j];
      }
    }
  }

  /** Unless its value is the opposite, a predicate can be given either value. */
  lemma {:induction false} CanForce(p: Pred, cfg: TargetCfg, want: bool) returns (chosen: iset<Atom>)
    requires Distinct(FreeAtoms(p, cfg)) && Value(p, cfg) != Against(want)
    ensures Forces(p, cfg, chosen, want) && forall a | a in chosen :: a in FreeAtoms(p, cfg)
    decreases p, 0
  {
    match p {
      case All(ps) =>
        if want {
          EachIsNot(ps, cfg, False);
          chosen := CanForceEach(ps, cfg, want);
        } else {
          var i := SomeIsNot(ps, cfg, True);
          chosen := CanForceOne(ps, cfg, i, want);
        }
        AllForced(ps, cfg, chosen, want);
      case Any(ps) =>
        if want {
          var i := SomeIsNot(ps, cfg, False);
          chosen := CanForceOne(ps, cfg, i, want);
        } else {
          EachIsNot(ps, cfg, True);
          chosen := CanForceEach(ps, cfg, want);
        }
        AnyForced(ps, cfg, chosen, want);
      case Not(q) =>
        chosen := CanForce(q, cfg, !want);
        NotForced(q, cfg, chosen, want);
      case Name(name) =>
        chosen := if want && name !in cfg.decided then iset{NameAtom(name)} else iset{};
        assert name !in cfg.decided ==> NameAtom(name) in FreeAtoms(p, cfg);
      case KeyVal(key, value) =>
        chosen := if want && key !in cfg.decided then iset{PairAtom(key, value)} else iset{};
        assert key !in cfg.decided ==> PairAtom(key, value) in FreeAtoms(p, cfg);
    }
  }

  ghost predicate ForcesOne(ps: seq<Pred>, cfg: TargetCfg, chosen: iset<Atom>, want: bool) {
    forall b | BuildOf(b, cfg) && Chooses(b, FreeIn(ps, cfg), chosen) :: exists q | q in ps :: Holds(q, b) == want
  }

  lemma AllForced(ps: seq<Pred>, cfg: TargetCfg, chosen: iset<Atom>, want: bool)
    requires if want then ForcesEach(ps, cfg, chosen, want) else ForcesOne(ps, cfg, chosen, want)
    ensures Forces(All(ps), cfg, chosen, want)
  {
    forall b | BuildOf(b, cfg) && Chooses(b, FreeAtoms(All(ps), cfg), chosen) ensures Holds(All(ps), b) == want {
      assert Chooses(b, FreeIn(ps, cfg), chosen);
    }
  }

  lemma AnyForced(ps: seq<Pred>, cfg: TargetCfg, chosen: iset<Atom>, want: bool)
    requires if want then ForcesOne(ps, cfg, chosen, want) else ForcesEach(ps, cfg, chosen, want)
    ensures Forces(Any(ps), cfg, chosen, want)
  {
    forall b | BuildOf(b, cfg) && Chooses(b, FreeAtoms(Any(ps), cfg), chosen) ensures Holds(Any(ps), b) == want {
      assert Chooses(b, FreeIn(ps, cfg), chosen);
    }
  }

  lemma NotForced(q: Pred, cfg: TargetCfg, chosen: iset<Atom>, want: bool)
    requires Forces(q, cfg, chosen, !want)
    ensures Forces(Not(q), cfg, chosen, want)
  {
    forall b | BuildOf(b, cfg) && Chooses(b, FreeAtoms(Not(q), cfg), chosen) ensures Holds(Not(q), b) == want {
      assert Chooses(b, FreeAtoms(q, cfg), chosen);
    }
  }

  lemma EachIsNot(ps: seq<Pred>, cfg: TargetCfg, v: Kleene)
    requires v !in ValuesOf(ps, cfg)
    ensures forall q | q in ps :: Value(q, cfg) != v
  {
    forall i | 0 <= i < |ps| ensures Value(ps[i], cfg) != v {
      assert ValuesOf(ps, cfg)[i] in ValuesOf(ps, cfg);
    }
  }

  lemma SomeIsNot(ps: seq<Pred>, cfg: TargetCfg, v: Kleene) returns (i: nat)
    requires exists w :: w in ValuesOf(ps, cfg) && w != v
    ensures i < |ps| && Value(ps[i], cfg) != v
  {
    var w :| w in ValuesOf(ps, cfg) && w != v;
    i :| 0 <= i < |ps| && ValuesOf(ps, cfg)[i] == w;
  }

  lemma {:induction false} CanForceEach(ps: seq<Pred>, cfg: TargetCfg, want: bool) returns (chosen: iset<Atom>)
    requires Distinct(FreeIn(ps, cfg)) && forall q | q in ps :: Value(q, cfg) != Against(want)
    ensures ForcesEach(ps, cfg, chosen, want) && forall a | a in chosen :: a in FreeIn(ps, cfg)
    decreases ps, 1
  {
    if ps == [] {
      chosen := iset{};
    } else {
      DistinctParts(FreeAtoms(ps[0], cfg), FreeIn(ps[1..], cfg));
      var first := CanForce(ps[0], cfg, want);
      var others := CanForceEach(ps[1..], cfg, want);
      chosen := first + others;
      JoinForces(ps, cfg, first, others, want);
    }
  }

  lemma JoinForces(ps: seq<Pred>, cfg: TargetCfg, first: iset<Atom>, others: iset<Atom>, want: bool)
    requires ps != [] && Forces(ps[0], cfg, first, want) && ForcesEach(ps[1..], cfg, others, want)
    requires forall a | a in first :: a in FreeAtoms(ps[0], cfg)
    requires forall a | a in others :: a in FreeIn(ps[1..], cfg)
    requires forall a | a in FreeAtoms(ps[0], cfg) :: a !in FreeIn(ps[1..], cfg)
    ensures ForcesEach(ps, cfg, first + others, want)
  {
    forall b | BuildOf(b, cfg) && Chooses(b, FreeIn(ps, cfg), first + others)
      ensures forall q | q in ps :: Holds(q, b) == want
    {
      assert Chooses(b, FreeAtoms(ps[0], cfg), first);
      assert Chooses(b, FreeIn(ps[1..], cfg), others);
      forall q | q in ps ensures Holds(q, b) == want {
        assert q == ps[0] || q in ps[1..];
      }
    }
  }

  /** One of a list's predicates decides; the others do not matter. */
  lemma {:induction false} CanForceOne(ps: seq<Pred>, cfg: TargetCfg, i: nat, want: bool) returns (chosen: iset<Atom>)
    requires Distinct(FreeIn(ps, cfg)) && i < |ps| && Value(ps[i], cfg) != Against(want)
    ensures ForcesOne(ps, cfg, chosen, want)
    ensures forall a | a in chosen :: a in FreeIn(ps, cfg)
    decreases ps, 1
  {
    DistinctParts(FreeAtoms(ps[0], cfg), FreeIn(ps[1..], cfg));
    if i == 0 {
      chosen := CanForce(ps[0], cfg, want);
      forall b | BuildOf(b, cfg) && Chooses(b, FreeIn(ps, cfg), chosen) ensures exists q | q in ps :: Holds(q, b) == want {
        assert Chooses(b, FreeAtoms(ps[0], cfg), chosen);
        assert ps[0] in ps;
      }
    } else {
      chosen := CanForceOne(ps[1..], cfg, i - 1, want);
      forall b | BuildOf(b, cfg) && Chooses(b, FreeIn(ps, cfg), chosen) ensures exists q | q in ps :: Holds(q, b) == want {
        assert Chooses(b, FreeIn(ps[1..], cfg), chosen);
        var q :| q in ps[1..] && Holds(q, b) == want;
        assert q in ps;
      }
    }
  }

  /** A definite answer is given exactly when every build of the target agrees,
      on every predicate in which no undecided atom stands twice. */
  lemma ValueIsExact(p: Pred, cfg: TargetCfg)
    requires Distinct(FreeAtoms(p, cfg))
    ensures Value(p, cfg) == False <==> forall b | BuildOf(b, cfg) :: !Holds(p, b)
    ensures Value(p, cfg) == True <==> forall b | BuildOf(b, cfg) :: Holds(p, b)
  {
    FreeAreFree(p, cfg);
    forall b | BuildOf(b, cfg)
      ensures Value(p, cfg) == True ==> Holds(p, b)
      ensures Value(p, cfg) == False ==> !Holds(p, b)
    {
      DefiniteIsRight(p, cfg, b);
    }
    if Value(p, cfg) != False {
      var chosen := CanForce(p, cfg, true);
      BuildWithIs(cfg, chosen, FreeAtoms(p, cfg));
      assert Holds(p, BuildWith(cfg, chosen));
    }
    if Value(p, cfg) != True {
      var chosen := CanForce(p, cfg, false);
      BuildWithIs(cfg, chosen, FreeAtoms(p, cfg));
      assert !Holds(p, BuildWith(cfg, chosen));
    }
  }

  /** So the evaluator, reading such a predicate, answers false exactly when no
      build of the target satisfies it, and true exactly when every one does. */
  lemma EvalIsExact(p: Pred, toks: seq<Token>, start: nat, cfg: TargetCfg)
    requires Printable(p) && At(toks, start, Print(p)) && Distinct(FreeAtoms(p, cfg))
    ensures var v := Eval(toks, start, start + |Print(p)|, cfg);
            && (v == False <==> forall b | BuildOf(b, cfg) :: !Holds(p, b))
            && (v == True <==> forall b | BuildOf(b, cfg) :: Holds(p, b))
  {
    EvalInvertsPrint(p, toks, start, cfg);
    ValueIsExact(p, cfg);
  }

  /** `any(name, not(name))` holds in every build, and is unknown: where an
      undecided atom stands twice the answer may be less than it could be. */
  lemma TwiceIsUnknown(name: string, cfg: TargetCfg, b: Build)
    requires name !in cfg.decided
    ensures var p := Any([Name(name), Not(Name(name))]);
            Holds(p, b) && Value(p, cfg) == Unknown && !Distinct(FreeAtoms(p, cfg))
  {
    var yes, no := Name(name), Not(Name(name));
    var ps := [yes, no];
    assert ps[0] in ps && ps[1] in ps;
    assert Value(no, cfg) == NotOf(Value(yes, cfg)) == Unknown;
    assert ValuesOf(ps, cfg) == [Value(yes, cfg), Value(no, cfg)];
    assert ps[1..] == [no] && [no][1..] == [];
    assert FreeIn([no], cfg) == FreeAtoms(no, cfg) + FreeIn([], cfg);
    assert FreeAtoms(no, cfg) == FreeAtoms(yes, cfg) == [NameAtom(name)];
    assert FreeIn([no], cfg) == [NameAtom(name)];
    assert FreeIn(ps, cfg) == FreeAtoms(yes, cfg) + FreeIn([no], cfg);
    var atoms := FreeIn(ps, cfg);
    assert FreeAtoms(Any(ps), cfg) == atoms;
    assert atoms == [NameAtom(name), NameAtom(name)] && atoms[0] == atoms[1];
    var vals := ValuesOf(ps, cfg);
    assert vals[0] == Unknown && vals[0] in vals;
    assert Holds(yes, b) || Holds(no, b);
  }

  /** Code is dead exactly when no build of the target compiles it, where no
      undecided atom stands twice in all the predicates over it. */
  lemma DeadIffNeverCompiled(gates: seq<Pred>, cfg: TargetCfg)
    requires Distinct(FreeIn(gates, cfg))
    ensures Dead(gates, cfg) <==> forall b | BuildOf(b, cfg) :: !Compiled(gates, b)
  {
    var p := All(gates);
    var vals := ValuesOf(gates, cfg);
    assert FreeAtoms(p, cfg) == FreeIn(gates, cfg);
    ValueIsExact(p, cfg);
    if Dead(gates, cfg) {
      var g :| g in gates && Value(g, cfg) == False;
      var i :| 0 <= i < |gates| && gates[i] == g;
      assert vals[i] == False;
    } else {
      forall i | 0 <= i < |vals| ensures vals[i] != False {
        assert gates[i] in gates;
      }
    }
    assert Value(p, cfg) == AllOf(vals);
    forall b | BuildOf(b, cfg) ensures Holds(p, b) == Compiled(gates, b) {
    }
  }

  /** Nothing at all, what starts with no word, and `not()` are unknown, and so
      exclude nothing. */
  lemma MalformedIsUnknown(toks: seq<Token>, start: nat, end: nat, cfg: TargetCfg)
    requires start <= end <= |toks|
    ensures start == end || toks[start].kind != Ident ==> Eval(toks, start, end, cfg) == Unknown
    ensures start + 3 == end && toks[start] == Token(Ident, "not") && toks[start + 1].text == "(" && toks[start + 2].text == ")" ==>
            Eval(toks, start, end, cfg) == Unknown
  {
    if start + 3 == end && toks[start + 2].text == ")" {
      assert ParseList(toks, end, start + 2, cfg) == ([], start + 2);
    }
  }
}
