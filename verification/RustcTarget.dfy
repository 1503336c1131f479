/**
 The keys whose value `rustc --print cfg` decides for a target
 (`_TARGET_CFG_KEYS` in scripts/ci-mutants-summary.py).
 */
module RustcTarget {
  import opened CfgPredicate

  const TARGET_CFG_KEYS: set<string> := {
    "target_os", "target_family", "target_arch", "target_env",
    "target_vendor", "target_endian", "target_pointer_width", "target_abi",
    "target_has_atomic", "panic", "unix", "windows"
  }

  function Target(entries: map<string, CfgEntry>): TargetCfg {
    TargetCfg(TARGET_CFG_KEYS, entries)
  }

  /** Whatever the target says, test code and features stay undecided, under
      any nesting of `not`: neither `#[cfg(test)]` nor `#[cfg(not(test))]` nor
      a feature gate ever excludes anything. */
  lemma {:induction false} TestAndFeaturesAreUnknown(p: Pred, entries: map<string, CfgEntry>)
    requires NegationOf(p, "test", "feature")
    ensures Value(p, Target(entries)) == Unknown
  {
    if p.Not? {
      TestAndFeaturesAreUnknown(p.p, entries);
    }
  }

  predicate NegationOf(p: Pred, name: string, key: string) {
    match p
    case Not(q) => NegationOf(q, name, key)
    case Name(n) => n == name
    case KeyVal(k, _) => k == key
    case _ => false
  }

  /** What a target decides: twelve keys, each true as rustc lists it, with a value
      or as a bare name, and false otherwise. Every other key is undecided. */
  lemma TargetDecides(entries: map<string, CfgEntry>, key: string, value: string)
    ensures var known := key in {"target_os", "target_family", "target_arch", "target_env", "target_vendor", "target_endian",
                                 "target_pointer_width", "target_abi", "target_has_atomic", "panic", "unix", "windows"};
            && Value(KeyVal(key, value), Target(entries)) ==
                 (if !known then Unknown
                  else if key in entries && entries[key].Values? && value in entries[key].vals then True else False)
            && Value(Name(key), Target(entries)) ==
                 if !known then Unknown else if key in entries && entries[key].Flag? then True else False
  {
  }
}
