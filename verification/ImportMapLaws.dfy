/** What a lookup, a parse and a merge mean, said of the specifiers, keys and addresses alone. */
module ImportMapLaws {
  import opened Wrappers
  import opened Text
  import opened ImportMaps
  import opened ImportMapStability

  // ---------- what is looked up ----------

  predicate EndsInSlash(s: string)
  {
    s != "" && s[|s| - 1] == '/'
  }

  /** The URL that `text` stands for next to `base`, if it is one: joined when it begins like a
      relative reference, else parsed. */
  ghost predicate StandsFor(lib: UrlLib, text: string, base: Url, url: Option<Url>)
  {
    if text != "" && (text[0] == '/' || (text[0] == '.' && |text| > 1
                       && (text[1] == '/' || (text[1] == '.' && |text| > 2 && text[2] == '/'))))
    then url == lib.join(base, text)
    else url == lib.parse(text)
  }

  lemma UrlLikeStandsFor(lib: UrlLib, text: string, base: Url)
    ensures StandsFor(lib, text, base, ResolveUrlLike(lib, text, base))
  {
    assert "/" <= text <==> text != "" && text[0] == '/';
    assert "./" <= text <==> |text| > 1 && text[0] == '.' && text[1] == '/';
    assert "../" <= text <==> |text| > 2 && text[0] == '.' && text[1] == '.' && text[2] == '/';
  }

  /** The rule under `key` speaks of `wanted`: it is that key, or a slash-ended key that `wanted` begins
      with, unless `wanted` is a URL of a scheme without such lookups. */
  ghost predicate Fits(lib: UrlLib, entries: Entries, wanted: string, url: Option<Url>, key: string)
  {
    && key in entries
    && (key == wanted
        || (EndsInSlash(key) && key <= wanted && (url == None || lib.special(url.value))))
  }

  /** Of the rules that speak of `wanted`, the one with the longest key. */
  ghost predicate LongestFit(lib: UrlLib, entries: Entries, wanted: string, url: Option<Url>, key: string)
  {
    && Fits(lib, entries, wanted, url, key)
    && forall k :: Fits(lib, entries, wanted, url, k) ==> |k| <= |key|
  }

  /** What that rule answers: a null blocks, an exact key gives its address, and a prefix gives what
      is behind it joined to the address, which has to stay below the address. */
  ghost predicate Says(lib: UrlLib, rule: Option<Url>, wanted: string, key: string, r: Result<Url, Failure>)
    requires key <= wanted
  {
    if rule.None? then r == Err(if key == wanted then Blocked else BlockedByPrefix(key))
    else if key == wanted then r == Ok(rule.value)
    else
      match lib.join(rule.value, wanted[|key|..])
      case None => r == Err(JoinFailed(key))
      case Some(joined) => r == if rule.value <= joined then Ok(joined) else Err(Backtracks(key))
  }

  predicate Covers(scope: string, referrer: string)
  {
    scope == referrer || (EndsInSlash(scope) && scope <= referrer)
  }

  ghost predicate SpeaksOf(lib: UrlLib, entries: Entries, wanted: string, url: Option<Url>)
  {
    exists key :: Fits(lib, entries, wanted, url, key)
  }

  /** The longest scope over `referrer` with a rule that speaks of `wanted`. */
  ghost predicate DecidingScope(lib: UrlLib, scopes: map<string, Entries>, referrer: string, wanted: string,
                                url: Option<Url>, scope: string)
  {
    && scope in scopes && Covers(scope, referrer) && SpeaksOf(lib, scopes[scope], wanted, url)
    && forall p :: p in scopes && Covers(p, referrer) && SpeaksOf(lib, scopes[p], wanted, url) ==> |p| <= |scope|
  }

  ghost predicate SaysOf(lib: UrlLib, entries: Entries, wanted: string, url: Option<Url>, r: Result<Url, Failure>)
  {
    exists key :: LongestFit(lib, entries, wanted, url, key) && Says(lib, entries[key], wanted, key, r)
  }

  /** The deciding scope answers; without one the top-level rules; and where nothing speaks of
      `wanted` it is its own URL, or an error when it is none. */
  ghost predicate Law(lib: UrlLib, rules: Rules, wanted: string, referrer: Url, url: Option<Url>,
                      r: Result<Url, Failure>)
  {
    if exists scope :: DecidingScope(lib, rules.scopes, referrer, wanted, url, scope)
    then exists scope ::
      DecidingScope(lib, rules.scopes, referrer, wanted, url, scope) && SaysOf(lib, rules.scopes[scope], wanted, url, r)
    else if SpeaksOf(lib, rules.imports, wanted, url)
    then SaysOf(lib, rules.imports, wanted, url, r)
    else r == if url.Some? then Ok(url.value) else Err(Unmapped)
  }

  // ---------- one set of rules ----------

  lemma SlashIsSlash(s: string)
    ensures EndsWith(s, "/") <==> EndsInSlash(s)
  {
    if s != "" {
      assert s[|s| - 1..] == [s[|s| - 1]];
    }
  }

  lemma ScopeCovers(scope: string, referrer: string)
    ensures ScopeApplies(scope, referrer) <==> Covers(scope, referrer)
  {
    SlashIsSlash(scope);
  }

  /** Whether the answer of one set of rules is `r`; `Ok(None)` is none. */
  ghost predicate Agrees(found: Result<Option<Url>, Failure>, r: Result<Url, Failure>)
  {
    match found
    case Err(e) => r == Err(e)
    case Ok(url) => url.Some? && r == Ok(url.value)
  }

  lemma FitsAtLength(lib: UrlLib, entries: Entries, wanted: string, url: Option<Url>, l: nat)
    requires l <= |wanted|
    ensures PrefixesAllowed(lib, url) && wanted[..l] in entries && EndsWith(wanted[..l], "/") ==>
      Fits(lib, entries, wanted, url, wanted[..l])
  {
    SlashIsSlash(wanted[..l]);
  }

  lemma SilentMatch(lib: UrlLib, entries: Entries, wanted: string, url: Option<Url>)
    requires !SpeaksOf(lib, entries, wanted, url)
    ensures Match(lib, entries, wanted, url) == Ok(None)
  {
    assert wanted in entries ==> Fits(lib, entries, wanted, url, wanted);
    if PrefixesAllowed(lib, url) {
      forall l | 0 < l <= |wanted| ensures !(wanted[..l] in entries && EndsWith(wanted[..l], "/")) {
        FitsAtLength(lib, entries, wanted, url, l);
      }
      SkipPrefixes(lib, entries, wanted, |wanted|, 0);
    }
  }

  lemma LongestSays(lib: UrlLib, entries: Entries, wanted: string, url: Option<Url>, key: string,
                    r: Result<Url, Failure>)
    requires LongestFit(lib, entries, wanted, url, key)
    ensures Match(lib, entries, wanted, url) != Ok(None)
    ensures Agrees(Match(lib, entries, wanted, url), r) <==> Says(lib, entries[key], wanted, key, r)
  {
    if wanted in entries {
      assert Fits(lib, entries, wanted, url, wanted);
    } else {
      SlashIsSlash(key);
      forall l | |key| < l <= |wanted| ensures !(wanted[..l] in entries && EndsWith(wanted[..l], "/")) {
        FitsAtLength(lib, entries, wanted, url, l);
      }
      SkipPrefixes(lib, entries, wanted, |wanted|, |key|);
      assert wanted[..|key|] == key;
    }
  }

  lemma {:induction false} LongestExists(lib: UrlLib, entries: Entries, wanted: string, url: Option<Url>, key: string)
    returns (longest: string)
    requires Fits(lib, entries, wanted, url, key)
    ensures LongestFit(lib, entries, wanted, url, longest)
    decreases |wanted| - |key|
  {
    longest := key;
    if k :| Fits(lib, entries, wanted, url, k) && |k| > |key| {
      longest := LongestExists(lib, entries, wanted, url, k);
    }
  }

  lemma MatchLaw(lib: UrlLib, entries: Entries, wanted: string, url: Option<Url>, r: Result<Url, Failure>)
    ensures Match(lib, entries, wanted, url) == Ok(None) <==> !SpeaksOf(lib, entries, wanted, url)
    ensures SpeaksOf(lib, entries, wanted, url) ==>
      (Agrees(Match(lib, entries, wanted, url), r) <==> SaysOf(lib, entries, wanted, url, r))
  {
    if key :| Fits(lib, entries, wanted, url, key) {
      var longest := LongestExists(lib, entries, wanted, url, key);
      LongestSays(lib, entries, wanted, url, longest, r);
      forall k | LongestFit(lib, entries, wanted, url, k) ensures k == longest {
        assert k == wanted[..|k|] && longest == wanted[..|longest|];
      }
    } else {
      SilentMatch(lib, entries, wanted, url);
    }
  }

  // ---------- the scopes ----------

  lemma {:induction false} DecidingScopeExists(lib: UrlLib, scopes: map<string, Entries>, referrer: string,
                                               wanted: string, url: Option<Url>, scope: string)
    returns (longest: string)
    requires scope in scopes && Covers(scope, referrer) && SpeaksOf(lib, scopes[scope], wanted, url)
    ensures DecidingScope(lib, scopes, referrer, wanted, url, longest)
    decreases |referrer| - |scope|
  {
    longest := scope;
    if p :| p in scopes && Covers(p, referrer) && SpeaksOf(lib, scopes[p], wanted, url) && |p| > |scope| {
      longest := DecidingScopeExists(lib, scopes, referrer, wanted, url, p);
    }
  }

  lemma ScopeDecides(lib: UrlLib, scopes: map<string, Entries>, referrer: string, wanted: string, url: Option<Url>,
                     scope: string, r: Result<Url, Failure>)
    requires DecidingScope(lib, scopes, referrer, wanted, url, scope)
    ensures LongestScope(lib, scopes, referrer, wanted, url, |referrer|) == Match(lib, scopes[scope], wanted, url)
    ensures Match(lib, scopes[scope], wanted, url) != Ok(None)
  {
    MatchLaw(lib, scopes[scope], wanted, url, r);
    ScopeCovers(scope, referrer);
    forall p | p in scopes && ScopeApplies(p, referrer) && |p| > |scope|
      ensures Match(lib, scopes[p], wanted, url) == Ok(None)
    {
      ScopeCovers(p, referrer);
      MatchLaw(lib, scopes[p], wanted, url, r);
    }
    LongestScopeDecides(lib, scopes, referrer, wanted, url, scope);
  }

  lemma NoScopeDecides(lib: UrlLib, scopes: map<string, Entries>, referrer: string, wanted: string, url: Option<Url>)
    requires forall p :: p in scopes && Covers(p, referrer) ==> !SpeaksOf(lib, scopes[p], wanted, url)
    ensures LongestScope(lib, scopes, referrer, wanted, url, |referrer|) == Ok(None)
  {
    EmptyRulesMatchNothing(lib, wanted, url);
    forall l | 0 <= l <= |referrer| && ScopeApplies(referrer[..l], referrer)
      ensures Match(lib, ScopeRules(scopes, referrer[..l]), wanted, url) == Ok(None)
    {
      ScopeCovers(referrer[..l], referrer);
      if referrer[..l] in scopes {
        SilentMatch(lib, scopes[referrer[..l]], wanted, url);
      }
    }
    SkipScopes(lib, scopes, referrer, wanted, url, |referrer|, 0);
  }

  // ---------- the whole answer ----------

  lemma ScopedAnswer(lib: UrlLib, rules: Rules, specifier: string, referrer: Url, scope: string,
                     r: Result<Url, Failure>)
    requires var url := ResolveUrlLike(lib, specifier, referrer);
      DecidingScope(lib, rules.scopes, referrer, Normalized(specifier, url), url, scope)
    ensures var url := ResolveUrlLike(lib, specifier, referrer);
      r == Answer(lib, rules, specifier, referrer)
      <==> SaysOf(lib, rules.scopes[scope], Normalized(specifier, url), url, r)
  {
    var url := ResolveUrlLike(lib, specifier, referrer);
    var wanted := Normalized(specifier, url);
    ScopeDecides(lib, rules.scopes, referrer, wanted, url, scope, r);
    MatchLaw(lib, rules.scopes[scope], wanted, url, r);
  }

  lemma UnscopedAnswer(lib: UrlLib, rules: Rules, specifier: string, referrer: Url, r: Result<Url, Failure>)
    requires var url := ResolveUrlLike(lib, specifier, referrer);
      forall p :: p in rules.scopes && Covers(p, referrer) ==>
        !SpeaksOf(lib, rules.scopes[p], Normalized(specifier, url), url)
    ensures var url := ResolveUrlLike(lib, specifier, referrer);
      var wanted := Normalized(specifier, url);
      r == Answer(lib, rules, specifier, referrer)
      <==> if SpeaksOf(lib, rules.imports, wanted, url) then SaysOf(lib, rules.imports, wanted, url, r)
           else r == if url.Some? then Ok(url.value) else Err(Unmapped)
  {
    var url := ResolveUrlLike(lib, specifier, referrer);
    var wanted := Normalized(specifier, url);
    NoScopeDecides(lib, rules.scopes, referrer, wanted, url);
    MatchLaw(lib, rules.imports, wanted, url, r);
  }

  /** The answer to a lookup is the one the law gives, and the law gives no other. */
  lemma AnswerExactly(lib: UrlLib, rules: Rules, specifier: string, referrer: Url, url: Option<Url>,
                      r: Result<Url, Failure>)
    requires StandsFor(lib, specifier, referrer, url)
    ensures r == Answer(lib, rules, specifier, referrer)
       <==> Law(lib, rules, if url.Some? then url.value else specifier, referrer, url, r)
  {
    UrlLikeStandsFor(lib, specifier, referrer);
    var wanted := if url.Some? then url.value else specifier;
    if scope :| DecidingScope(lib, rules.scopes, referrer, wanted, url, scope) {
      ScopedAnswer(lib, rules, specifier, referrer, scope, r);
      forall p | DecidingScope(lib, rules.scopes, referrer, wanted, url, p) ensures p == scope {
        assert p == referrer[..|p|] && scope == referrer[..|scope|];
      }
    } else {
      forall p | p in rules.scopes && Covers(p, referrer) ensures !SpeaksOf(lib, rules.scopes[p], wanted, url) {
        if SpeaksOf(lib, rules.scopes[p], wanted, url) {
          var longest := DecidingScopeExists(lib, rules.scopes, referrer, wanted, url, p);
        }
      }
      UnscopedAnswer(lib, rules, specifier, referrer, r);
    }
  }

  // ---------- what is recorded ----------

  /** A lookup is recorded, as what was looked up and from where, exactly when it succeeds. */
  lemma RecordsSuccess(lib: UrlLib, rules: Rules, specifier: string, referrer: Url, url: Option<Url>,
                       record: ResolvedModule)
    requires StandsFor(lib, specifier, referrer, url)
    ensures var after := AfterResolve(lib, rules, specifier, referrer);
      && after.imports == rules.imports && after.scopes == rules.scopes
      && (record in after.resolved <==>
            record in rules.resolved ||
            (&& Answer(lib, rules, specifier, referrer).Ok?
             && record == ResolvedModule(referrer, if url.Some? then url.value else specifier,
                                         url == None || lib.special(url.value))))
  {
    UrlLikeStandsFor(lib, specifier, referrer);
  }

  // ---------- merged scopes ----------

  /** The rule under `key` could answer the recorded lookup. */
  predicate CouldAnswer(key: string, record: ResolvedModule)
  {
    key == record.specifier || (record.special && EndsInSlash(key) && key <= record.specifier)
  }

  /** No recorded lookup from under `scope` could be answered by the rule under `key`. */
  ghost predicate Harmless(resolved: seq<ResolvedModule>, scope: string, key: string)
  {
    forall i :: 0 <= i < |resolved| && Covers(scope, resolved[i].referrer) ==> !CouldAnswer(key, resolved[i])
  }

  predicate HasRule(scopes: map<string, Entries>, scope: string, key: string)
  {
    scope in scopes && key in scopes[scope]
  }

  predicate Offers(added: seq<Scope>, j: nat, scope: string, key: string)
  {
    j < |added| && added[j].0 == scope && key in added[j].1.entries
  }

  lemma AffectsIsCouldAnswer(key: string, record: ResolvedModule)
    ensures Affects(key, record.specifier, record.special) <==> CouldAnswer(key, record)
  {
    SlashIsSlash(key);
  }

  lemma PrunedIsHarmless(scope: string, entries: Entries, resolved: seq<ResolvedModule>, key: string)
    ensures key in PruneScope(scope, entries, resolved) <==> key in entries && Harmless(resolved, scope, key)
    ensures key in PruneScope(scope, entries, resolved) ==> PruneScope(scope, entries, resolved)[key] == entries[key]
  {
    PrunedScopeExactly(scope, entries, resolved, key);
    forall i | 0 <= i < |resolved|
      ensures ScopeApplies(scope, resolved[i].referrer) <==> Covers(scope, resolved[i].referrer)
      ensures Affects(key, resolved[i].specifier, resolved[i].special) <==> CouldAnswer(key, resolved[i])
    {
      ScopeCovers(scope, resolved[i].referrer);
      AffectsIsCouldAnswer(key, resolved[i]);
    }
  }

  /** Scoped rules after a merge: the old ones stay as they are; a new one is there exactly when it
      could answer no lookup recorded from under its scope. */
  lemma {:induction false} MergedScopes(scopes: map<string, Entries>, added: seq<Scope>, resolved: seq<ResolvedModule>,
                                        scope: string, key: string)
    ensures var after := AddScopes(scopes, added, resolved);
      && (scope in after <==> scope in scopes || exists j :: 0 <= j < |added| && added[j].0 == scope)
      && (HasRule(scopes, scope, key) ==> HasRule(after, scope, key) && after[scope][key] == scopes[scope][key])
      && (!HasRule(scopes, scope, key) ==>
            (HasRule(after, scope, key) <==>
               Harmless(resolved, scope, key) && exists j: nat :: Offers(added, j, scope, key)))
    decreases |added|
  {
    if added != [] {
      var init, last := added[..|added| - 1], added[|added| - 1];
      MergedScopes(scopes, init, resolved, scope, key);
      PrunedIsHarmless(scope, last.1.entries, resolved, key);
      assert forall j: nat :: Offers(init, j, scope, key) ==> Offers(added, j, scope, key);
      assert forall j: nat :: Offers(added, j, scope, key) ==> Offers(init, j, scope, key) || j == |init|;
      assert added == init + [last];
      if last.0 == scope && key in last.1.entries {
        assert Offers(added, |init|, scope, key);
      }
    }
  }

  /** And it is the rule of the first added scope that offers one. */
  lemma {:induction false} MergedScopeRule(scopes: map<string, Entries>, added: seq<Scope>,
                                           resolved: seq<ResolvedModule>, scope: string, key: string, j: nat)
    requires !HasRule(scopes, scope, key) && Harmless(resolved, scope, key)
    requires Offers(added, j, scope, key) && forall i: nat :: i < j ==> !Offers(added, i, scope, key)
    ensures var after := AddScopes(scopes, added, resolved);
      HasRule(after, scope, key) && after[scope][key] == added[j].1.entries[key]
    decreases |added|
  {
    var init, last := added[..|added| - 1], added[|added| - 1];
    PrunedIsHarmless(scope, last.1.entries, resolved, key);
    if j < |init| {
      assert Offers(init, j, scope, key);
      assert forall i: nat :: i < j ==> Offers(init, i, scope, key) ==> Offers(added, i, scope, key);
      MergedScopeRule(scopes, init, resolved, scope, key, j);
    } else {
      MergedScopes(scopes, init, resolved, scope, key);
      assert forall i: nat :: Offers(init, i, scope, key) ==> Offers(added, i, scope, key);
    }
  }

  // ---------- parsed rules ----------

  /** The key that a member's rule is stored under. */
  ghost predicate StoredUnder(lib: UrlLib, member: (string, Json), base: Url, key: string)
  {
    member.0 != "" &&
    exists url :: StandsFor(lib, member.0, base, url) && key == if url.Some? then url.value else member.0
  }

  /** The address of that rule: the URL its text stands for, which for a slash-ended key has to end
      in a slash; what is no such text blocks. */
  ghost predicate GivesAddress(lib: UrlLib, member: (string, Json), base: Url, address: Option<Url>)
  {
    if !member.1.JString? then address == None
    else exists url ::
      && StandsFor(lib, member.1.text, base, url)
      && address == if url.Some? && EndsInSlash(member.0) && !EndsInSlash(url.value) then None else url
  }

  lemma MemberKey(lib: UrlLib, member: (string, Json), base: Url, key: string)
    ensures NormalizeKey(lib, member.0, base) == Some(key) <==> StoredUnder(lib, member, base, key)
  {
    UrlLikeStandsFor(lib, member.0, base);
  }

  lemma MemberAddress(lib: UrlLib, member: (string, Json), base: Url, address: Option<Url>)
    ensures Address(member, lib, base) == address <==> GivesAddress(lib, member, base, address)
  {
    if member.1.JString? {
      UrlLikeStandsFor(lib, member.1.text, base);
      var url := ResolveUrlLike(lib, member.1.text, base);
      SlashIsSlash(member.0);
      if url.Some? {
        SlashIsSlash(url.value);
      }
    }
  }

  /** A parsed object has a rule under exactly the keys its members are stored under, and it is that of
      the last of them. */
  lemma {:induction false} ParsedExactly(lib: UrlLib, members: seq<(string, Json)>, base: Url, key: string)
    ensures key in ParsedEntries(lib, members, base) <==>
      exists i :: 0 <= i < |members| && StoredUnder(lib, members[i], base, key)
    decreases |members|
  {
    if members != [] {
      var init, last := members[..|members| - 1], members[|members| - 1];
      ParsedExactly(lib, init, base, key);
      MemberKey(lib, last, base, key);
      assert members == init + [last];
      if StoredUnder(lib, last, base, key) {
        assert StoredUnder(lib, members[|init|], base, key);
      }
      assert forall i :: 0 <= i < |init| ==> members[i] == init[i];
    }
  }

  lemma {:induction false} ParsedRule(lib: UrlLib, members: seq<(string, Json)>, base: Url, key: string, i: nat,
                                      address: Option<Url>)
    requires i < |members| && StoredUnder(lib, members[i], base, key)
    requires forall j :: i < j < |members| ==> !StoredUnder(lib, members[j], base, key)
    ensures key in ParsedEntries(lib, members, base)
    ensures ParsedEntries(lib, members, base)[key] == address <==> GivesAddress(lib, members[i], base, address)
    decreases |members|
  {
    var init, last := members[..|members| - 1], members[|members| - 1];
    MemberKey(lib, last, base, key);
    if i == |init| {
      MemberAddress(lib, last, base, address);
    } else {
      ParsedRule(lib, init, base, key, i, address);
    }
  }

  /** A scope is parsed for every member that is an object under a prefix that joins the base. */
  lemma {:induction false} ParsedScopesExactly(lib: UrlLib, members: seq<(string, Json)>, base: Url, scope: string,
                                               entries: Entries)
    ensures (scope, entries) in ParsedScopes(lib, members, base) <==>
      exists i :: 0 <= i < |members| && lib.join(base, members[i].0) == Some(scope) && members[i].1.JObject?
                  && entries == ParsedEntries(lib, members[i].1.members, base)
    decreases |members|
  {
    if members != [] {
      var init, last := members[..|members| - 1], members[|members| - 1];
      ParsedScopesExactly(lib, init, base, scope, entries);
      assert members == init + [last];
      assert forall i :: 0 <= i < |init| ==> members[i] == init[i];
      if lib.join(base, last.0) == Some(scope) && last.1.JObject?
         && entries == ParsedEntries(lib, last.1.members, base) {
        assert members[|init|] == last;
      }
    }
  }

  /** The section of a map is the object under that name. */
  lemma {:induction false} SectionIs(members: seq<(string, Json)>, name: string, i: nat)
    requires i < |members| && members[i].0 == name && forall j :: 0 <= j < i ==> members[j].0 != name
    ensures Member(members, name) == Some(members[i].1)
    ensures members[i].1.JObject? ==> Section(JObject(members), name) == members[i].1.members
    decreases |members|
  {
    if i > 0 {
      SectionIs(members[1..], name, i - 1);
    }
  }
}
