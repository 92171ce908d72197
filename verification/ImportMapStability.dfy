/** What the engine promises over whole runs: an answer once given is never changed by
    a later map, and pruning takes away no rule that could not have changed one. */
module ImportMapStability {
  import opened Wrappers
  import opened Text
  import opened ImportMaps

  datatype Operation = MergeOp(added: ParsedMap) | ResolveOp(specifier: string, referrer: Url)

  const START := Rules(map[], map[], [])

  function Step(lib: UrlLib, rules: Rules, op: Operation): Rules
  {
    match op
    case MergeOp(added) => AfterMerge(rules, added)
    case ResolveOp(specifier, referrer) => AfterResolve(lib, rules, specifier, referrer)
  }

  function Run(lib: UrlLib, rules: Rules, ops: seq<Operation>): Rules
    decreases |ops|
  {
    if ops == [] then rules else Run(lib, Step(lib, rules, ops[0]), ops[1..])
  }

  // ---------- the longest rule wins ----------

  ghost predicate PrefixRule(entries: Entries, normalized: string, key: string)
  {
    key in entries && EndsWith(key, "/") && key <= normalized
  }

  /** Without an exact key the rule of the longest matching prefix key decides, and a
      null there blocks instead of letting a shorter key answer. */
  lemma LongestPrefixDecides(lib: UrlLib, entries: Entries, normalized: string, asUrl: Option<Url>, key: string)
    requires normalized !in entries && PrefixesAllowed(lib, asUrl)
    requires PrefixRule(entries, normalized, key)
    requires forall k :: PrefixRule(entries, normalized, k) ==> |k| <= |key|
    ensures Match(lib, entries, normalized, asUrl) == FollowPrefix(lib, entries, normalized, key)
    ensures entries[key].None? ==> Match(lib, entries, normalized, asUrl) == Err(BlockedByPrefix(key))
  {
    assert forall l :: |key| < l <= |normalized| ==> !PrefixRule(entries, normalized, normalized[..l]);
    SkipPrefixes(lib, entries, normalized, |normalized|, |key|);
    assert normalized[..|key|] == key;
  }

  /** The scope that answers is the longest applicable one whose rules say anything. */
  lemma LongestScopeDecides(lib: UrlLib, scopes: map<string, Entries>, referrer: string, normalized: string,
                            asUrl: Option<Url>, prefix: string)
    requires prefix in scopes && ScopeApplies(prefix, referrer)
    requires Match(lib, scopes[prefix], normalized, asUrl) != Ok(None)
    requires forall p :: p in scopes && ScopeApplies(p, referrer) && |p| > |prefix| ==>
      Match(lib, scopes[p], normalized, asUrl) == Ok(None)
    ensures LongestScope(lib, scopes, referrer, normalized, asUrl, |referrer|)
      == Match(lib, scopes[prefix], normalized, asUrl)
  {
    EmptyRulesMatchNothing(lib, normalized, asUrl);
    SkipScopes(lib, scopes, referrer, normalized, asUrl, |referrer|, |prefix|);
    assert referrer[..|prefix|] == prefix;
  }

  // ---------- pruning is exact ----------

  /** A single rule answers a lookup exactly when pruning would remove it for that lookup. */
  lemma AffectsExactly(lib: UrlLib, key: string, address: Option<Url>, normalized: string, asUrl: Option<Url>)
    ensures Affects(key, normalized, PrefixesAllowed(lib, asUrl))
       <==> Match(lib, map[key := address], normalized, asUrl) != Ok(None)
  {
    var rule := map[key := address];
    if key != normalized && PrefixesAllowed(lib, asUrl) {
      if EndsWith(key, "/") && key <= normalized {
        LongestPrefixDecides(lib, rule, normalized, asUrl, key);
      } else {
        assert forall l :: 0 < l <= |normalized| ==> !PrefixRule(rule, normalized, normalized[..l]);
        SkipPrefixes(lib, rule, normalized, |normalized|, 0);
      }
    }
  }

  lemma {:induction false} PrunedImportsExactly(entries: Entries, records: seq<ResolvedModule>, key: string)
    ensures key in PruneImports(entries, records) <==>
      key in entries && forall i :: 0 <= i < |records| ==> !Affects(key, records[i].specifier, records[i].special)
    ensures key in PruneImports(entries, records) ==> PruneImports(entries, records)[key] == entries[key]
  {
    if records != [] {
      PrunedImportsExactly(entries, records[..|records| - 1], key);
    }
  }

  lemma {:induction false} PrunedScopeExactly(prefix: string, entries: Entries, records: seq<ResolvedModule>,
                                              key: string)
    ensures key in PruneScope(prefix, entries, records) <==>
      key in entries && forall i :: 0 <= i < |records| && ScopeApplies(prefix, records[i].referrer) ==>
                          !Affects(key, records[i].specifier, records[i].special)
    ensures key in PruneScope(prefix, entries, records) ==> PruneScope(prefix, entries, records)[key] == entries[key]
  {
    if records != [] {
      PrunedScopeExactly(prefix, entries, records[..|records| - 1], key);
    }
  }

  /** Every top-level rule is there after a merge: the old one if the key had one, else the
      new one unless it could have answered a recorded lookup. */
  lemma MergedImports(rules: Rules, added: ParsedMap, key: string)
    ensures var after := AfterMerge(rules, added).imports;
      && (key in rules.imports ==> key in after && after[key] == rules.imports[key])
      && (key !in rules.imports ==>
            (key in after <==>
              key in added.imports.entries &&
              forall i :: 0 <= i < |rules.resolved| ==>
                !Affects(key, rules.resolved[i].specifier, rules.resolved[i].special)))
      && (key !in rules.imports && key in after ==> after[key] == added.imports.entries[key])
  {
    PrunedImportsExactly(added.imports.entries, rules.resolved, key);
  }

  // ---------- a merge changes no recorded answer ----------

  /** Rules that do not affect a lookup leave its answer alone, wherever they are merged in. */
  lemma {:induction false} UnaffectedPrefix(lib: UrlLib, added: Entries, entries: Entries, normalized: string, len: nat)
    requires len <= |normalized|
    requires forall k :: k in added ==> !Affects(k, normalized, true)
    ensures LongestPrefix(lib, added + entries, normalized, len) == LongestPrefix(lib, entries, normalized, len)
  {
    if len != 0 {
      UnaffectedPrefix(lib, added, entries, normalized, len - 1);
    }
  }

  lemma UnaffectedMatch(lib: UrlLib, added: Entries, entries: Entries, normalized: string, asUrl: Option<Url>)
    requires forall k :: k in added ==> !Affects(k, normalized, PrefixesAllowed(lib, asUrl))
    ensures Match(lib, added + entries, normalized, asUrl) == Match(lib, entries, normalized, asUrl)
  {
    if PrefixesAllowed(lib, asUrl) {
      UnaffectedPrefix(lib, added, entries, normalized, |normalized|);
    }
  }

  lemma {:induction false} UnaffectedScope(lib: UrlLib, scopes: map<string, Entries>, added: seq<Scope>,
                                           records: seq<ResolvedModule>,
                                           i: nat, asUrl: Option<Url>, prefix: string)
    requires i < |records| && records[i].special == PrefixesAllowed(lib, asUrl)
    requires ScopeApplies(prefix, records[i].referrer)
    ensures Match(lib, ScopeRules(AddScopes(scopes, added, records), prefix), records[i].specifier, asUrl)
         == Match(lib, ScopeRules(scopes, prefix), records[i].specifier, asUrl)
  {
    if added != [] {
      var last, init := added[|added| - 1], added[..|added| - 1];
      UnaffectedScope(lib, scopes, init, records, i, asUrl, prefix);
      if last.0 == prefix {
        var pruned := PruneScope(prefix, last.1.entries, records);
        forall k | k in pruned ensures !Affects(k, records[i].specifier, records[i].special) {
          PrunedScopeExactly(prefix, last.1.entries, records, k);
        }
        UnaffectedMatch(lib, pruned, ScopeRules(AddScopes(scopes, init, records), prefix), records[i].specifier, asUrl);
      }
    }
  }

  lemma {:induction false} UnaffectedScopes(lib: UrlLib, scopes: map<string, Entries>, added: seq<Scope>,
                                            records: seq<ResolvedModule>,
                                            i: nat, asUrl: Option<Url>, len: nat)
    requires i < |records| && records[i].special == PrefixesAllowed(lib, asUrl)
    requires len <= |records[i].referrer|
    ensures LongestScope(lib, AddScopes(scopes, added, records), records[i].referrer, records[i].specifier, asUrl, len)
         == LongestScope(lib, scopes, records[i].referrer, records[i].specifier, asUrl, len)
  {
    var prefix := records[i].referrer[..len];
    if ScopeApplies(prefix, records[i].referrer) {
      UnaffectedScope(lib, scopes, added, records, i, asUrl, prefix);
    }
    if len != 0 {
      UnaffectedScopes(lib, scopes, added, records, i, asUrl, len - 1);
    }
  }

  lemma MergeKeepsAnswer(lib: UrlLib, rules: Rules, added: ParsedMap, specifier: string, referrer: Url)
    requires RecordOf(lib, specifier, referrer) in rules.resolved
    ensures Answer(lib, AfterMerge(rules, added), specifier, referrer) == Answer(lib, rules, specifier, referrer)
  {
    var record := RecordOf(lib, specifier, referrer);
    var i :| 0 <= i < |rules.resolved| && rules.resolved[i] == record;
    var asUrl := ResolveUrlLike(lib, specifier, referrer);
    UnaffectedScopes(lib, rules.scopes, added.scopes, rules.resolved, i, asUrl, |referrer|);
    var pruned := PruneImports(added.imports.entries, rules.resolved);
    forall k | k in pruned ensures !Affects(k, record.specifier, record.special) {
      PrunedImportsExactly(added.imports.entries, rules.resolved, k);
    }
    UnaffectedMatch(lib, pruned, rules.imports, record.specifier, asUrl);
  }

  lemma {:induction false} RecordedStays(lib: UrlLib, rules: Rules, ops: seq<Operation>, specifier: string,
                                         referrer: Url)
    requires RecordOf(lib, specifier, referrer) in rules.resolved
    ensures Answer(lib, Run(lib, rules, ops), specifier, referrer) == Answer(lib, rules, specifier, referrer)
    decreases |ops|
  {
    if ops != [] {
      match ops[0] {
        case MergeOp(added) => MergeKeepsAnswer(lib, rules, added, specifier, referrer);
        case ResolveOp(_, _) =>
      }
      RecordedStays(lib, Step(lib, rules, ops[0]), ops[1..], specifier, referrer);
    }
  }

  /** Stability: from the moment a lookup is answered with a URL, any later mix of merges and
      lookups leaves it answered with that URL. */
  lemma ResolutionIsStable(lib: UrlLib, before: seq<Operation>, specifier: string, referrer: Url, after: seq<Operation>)
    requires Answer(lib, Run(lib, START, before), specifier, referrer).Ok?
    ensures var given := Run(lib, START, before);
      Answer(lib, Run(lib, Step(lib, given, ResolveOp(specifier, referrer)), after), specifier, referrer)
      == Answer(lib, given, specifier, referrer)
  {
    var given := Run(lib, START, before);
    RecordedStays(lib, Step(lib, given, ResolveOp(specifier, referrer)), after, specifier, referrer);
  }
}
