/** The import-map engine: a stateful resolver over sorted rule lists, refined to
    plain maps searched longest key first. */
module ImportMaps {
  import opened Wrappers
  import opened Text
  import opened Ordering

  // A URL is identified with its serialization.
  type Url = string

  /** The URL library, left uninterpreted. */
  datatype UrlLib = UrlLib(parse: string -> Option<Url>, join: (Url, string) -> Option<Url>, special: Url -> bool)

  datatype Failure =
    | Blocked
    | BlockedByPrefix(key: string)
    | MissingAddress(key: string)
    | JoinFailed(key: string)
    | Backtracks(key: string)
    | Unmapped

  // A rule's address; None is a rule that blocks.
  type Entries = map<string, Option<Url>>

  datatype SpecifierMap = SpecifierMap(entries: Entries, prefixes: seq<string>) {
    /** `prefixes` lists exactly the keys ending in a slash, largest first. A map
        straight from `ParseSpecifiers` may list a key twice. */
    ghost predicate Coherent() {
      && Descending(prefixes, Self)
      && forall k :: k in prefixes <==> k in entries && EndsWith(k, "/")
    }
  }

  // A scope prefix with its rules.
  type Scope = (string, SpecifierMap)

  datatype ResolvedModule = ResolvedModule(referrer: string, specifier: string, special: bool)

  /** An import map fresh from its JSON text: no resolution recorded yet, and two
      scopes may share a prefix. */
  datatype ParsedMap = ParsedMap(imports: SpecifierMap, scopes: seq<Scope>) {
    ghost predicate Coherent() {
      imports.Coherent() && AllCoherent(scopes)
    }
  }

  const NO_RULES := SpecifierMap(map[], [])

  function Self(s: string): string { s }

  function ScopePrefix(scope: Scope): string { scope.0 }

  // ---------- expressions of the resolver ----------

  function ResolveUrlLike(lib: UrlLib, specifier: string, base: Url): Option<Url>
  {
    if "/" <= specifier || "./" <= specifier || "../" <= specifier
    then lib.join(base, specifier)
    else lib.parse(specifier)
  }

  function NormalizeKey(lib: UrlLib, key: string, base: Url): Option<string>
  {
    if key == "" then None
    else match ResolveUrlLike(lib, key, base)
      case Some(url) => Some(url)
      case None => Some(key)
  }

  predicate ScopeApplies(scopePrefix: string, referrer: string)
  {
    scopePrefix == referrer || (EndsWith(scopePrefix, "/") && scopePrefix <= referrer)
  }

  /** A specifier that is no URL is looked up as freely as one with a special scheme. */
  predicate PrefixesAllowed(lib: UrlLib, asUrl: Option<Url>)
  {
    asUrl.None? || lib.special(asUrl.value)
  }

  predicate Affects(key: string, specifier: string, special: bool)
  {
    key == specifier || (special && EndsWith(key, "/") && key <= specifier)
  }

  function Prune(entries: Entries, specifier: string, special: bool): Entries
  {
    map k | k in entries && !Affects(k, specifier, special) :: entries[k]
  }

  function Address(entry: (string, Json), lib: UrlLib, base: Url): Option<Url>
  {
    if !entry.1.JString? then None
    else
      match ResolveUrlLike(lib, entry.1.text, base)
      case Some(url) => if !EndsWith(entry.0, "/") || EndsWith(url, "/") then Some(url) else None
      case None => None
  }

  // ---------- the specification: plain maps, longest key first ----------

  datatype Rules = Rules(imports: Entries, scopes: map<string, Entries>, resolved: seq<ResolvedModule>)

  /** Follow the rule stored under the prefix `key` of `normalized`. */
  function FollowPrefix(lib: UrlLib, entries: Entries, normalized: string, key: string): Result<Option<Url>, Failure>
    requires key in entries && key <= normalized
  {
    match entries[key]
    case None => Err(BlockedByPrefix(key))
    case Some(address) =>
      match lib.join(address, normalized[|key|..])
      case None => Err(JoinFailed(key))
      case Some(url) => if address <= url then Ok(Some(url)) else Err(Backtracks(key))
  }

  /** The rule of the longest slash-ended key among `normalized[..1]` to `normalized[..len]`. */
  function LongestPrefix(lib: UrlLib, entries: Entries, normalized: string, len: nat): Result<Option<Url>, Failure>
    requires len <= |normalized|
  {
    if len == 0 then Ok(None)
    else if normalized[..len] in entries && EndsWith(normalized[..len], "/")
    then FollowPrefix(lib, entries, normalized, normalized[..len])
    else LongestPrefix(lib, entries, normalized, len - 1)
  }

  /** One rule set's answer: the exact key, else the longest prefix key; None falls through. */
  function Match(lib: UrlLib, entries: Entries, normalized: string, asUrl: Option<Url>): Result<Option<Url>, Failure>
  {
    if normalized in entries then
      if entries[normalized].Some? then Ok(entries[normalized]) else Err(Blocked)
    else if !PrefixesAllowed(lib, asUrl) then Ok(None)
    else LongestPrefix(lib, entries, normalized, |normalized|)
  }

  function ScopeRules(scopes: map<string, Entries>, prefix: string): Entries
  {
    if prefix in scopes then scopes[prefix] else map[]
  }

  /** The answer of the longest applicable scope that has one, among the prefixes of
      `referrer` of length at most `len`. */
  function LongestScope(lib: UrlLib, scopes: map<string, Entries>, referrer: string, normalized: string,
                        asUrl: Option<Url>, len: nat): Result<Option<Url>, Failure>
    requires len <= |referrer|
  {
    var prefix := referrer[..len];
    var here := if ScopeApplies(prefix, referrer)
                then Match(lib, ScopeRules(scopes, prefix), normalized, asUrl) else Ok(None);
    if here != Ok(None) || len == 0 then here
    else LongestScope(lib, scopes, referrer, normalized, asUrl, len - 1)
  }

  function Normalized(specifier: string, asUrl: Option<Url>): string
  {
    if asUrl.Some? then asUrl.value else specifier
  }

  /** Scopes first, then the top-level rules, then the specifier's own URL. */
  function Answer(lib: UrlLib, rules: Rules, specifier: string, referrer: Url): Result<Url, Failure>
  {
    var asUrl := ResolveUrlLike(lib, specifier, referrer);
    var normalized := Normalized(specifier, asUrl);
    match LongestScope(lib, rules.scopes, referrer, normalized, asUrl, |referrer|)
    case Err(e) => Err(e)
    case Ok(Some(url)) => Ok(url)
    case Ok(None) =>
      match Match(lib, rules.imports, normalized, asUrl)
      case Err(e) => Err(e)
      case Ok(Some(url)) => Ok(url)
      case Ok(None) => if asUrl.Some? then Ok(asUrl.value) else Err(Unmapped)
  }

  function RecordOf(lib: UrlLib, specifier: string, referrer: Url): ResolvedModule
  {
    var asUrl := ResolveUrlLike(lib, specifier, referrer);
    ResolvedModule(referrer, Normalized(specifier, asUrl), PrefixesAllowed(lib, asUrl))
  }

  function Remember(rules: Rules, record: ResolvedModule): Rules
  {
    if record in rules.resolved then rules else rules.(resolved := rules.resolved + [record])
  }

  function AfterResolve(lib: UrlLib, rules: Rules, specifier: string, referrer: Url): Rules
  {
    if Answer(lib, rules, specifier, referrer).Ok?
    then Remember(rules, RecordOf(lib, specifier, referrer)) else rules
  }

  function PruneImports(entries: Entries, records: seq<ResolvedModule>): Entries
  {
    if records == [] then entries
    else
      var last := records[|records| - 1];
      Prune(PruneImports(entries, records[..|records| - 1]), last.specifier, last.special)
  }

  function PruneScope(prefix: string, entries: Entries, records: seq<ResolvedModule>): Entries
  {
    if records == [] then entries
    else
      var last := records[|records| - 1];
      var before := PruneScope(prefix, entries, records[..|records| - 1]);
      if ScopeApplies(prefix, last.referrer) then Prune(before, last.specifier, last.special) else before
  }

  /** Add pruned scopes one at a time; a key already present keeps its rule. */
  function AddScopes(scopes: map<string, Entries>, added: seq<Scope>, records: seq<ResolvedModule>)
    : map<string, Entries>
  {
    if added == [] then scopes
    else
      var last := added[|added| - 1];
      var before := AddScopes(scopes, added[..|added| - 1], records);
      before[last.0 := PruneScope(last.0, last.1.entries, records) + ScopeRules(before, last.0)]
  }

  function AfterMerge(rules: Rules, added: ParsedMap): Rules
  {
    Rules(
      PruneImports(added.imports.entries, rules.resolved) + rules.imports,
      AddScopes(rules.scopes, added.scopes, rules.resolved),
      rules.resolved)
  }

  // ---------- sorted lists against plain maps ----------

  ghost predicate AllCoherent(scopes: seq<Scope>)
  {
    forall i :: 0 <= i < |scopes| ==> scopes[i].1.Coherent()
  }

  ghost predicate DistinctScopes(scopes: seq<Scope>)
  {
    forall i, j :: 0 <= i < j < |scopes| ==> scopes[i].0 != scopes[j].0
  }

  function PrefixSet(scopes: seq<Scope>): (prefixes: set<string>)
    ensures forall p :: p in prefixes <==> exists i :: 0 <= i < |scopes| && scopes[i].0 == p
  {
    set i | 0 <= i < |scopes| :: scopes[i].0
  }

  /** The rules under `prefix`, empty when no scope has it. */
  function RulesUnder(scopes: seq<Scope>, prefix: string): Entries
  {
    if scopes == [] then map[]
    else if scopes[0].0 == prefix then scopes[0].1.entries
    else RulesUnder(scopes[1..], prefix)
  }

  function ScopeTable(scopes: seq<Scope>): map<string, Entries>
  {
    map p | p in PrefixSet(scopes) :: RulesUnder(scopes, p)
  }

  lemma {:induction false} RulesUnderAt(scopes: seq<Scope>, i: nat)
    requires DistinctScopes(scopes) && i < |scopes|
    ensures RulesUnder(scopes, scopes[i].0) == scopes[i].1.entries
  {
    if i > 0 {
      RulesUnderAt(scopes[1..], i - 1);
    }
  }

  lemma SameTable(s: seq<Scope>, t: seq<Scope>)
    requires DistinctScopes(s) && DistinctScopes(t)
    requires forall x :: x in s <==> x in t
    ensures ScopeTable(s) == ScopeTable(t)
  {
    forall p
      ensures p in PrefixSet(s) <==> p in PrefixSet(t)
      ensures p in PrefixSet(s) ==> RulesUnder(s, p) == RulesUnder(t, p)
    {
      if p in PrefixSet(s) {
        var i :| 0 <= i < |s| && s[i].0 == p;
        assert s[i] in t;
        var j :| 0 <= j < |t| && t[j] == s[i];
        RulesUnderAt(s, i);
        RulesUnderAt(t, j);
      }
      if p in PrefixSet(t) {
        var j :| 0 <= j < |t| && t[j].0 == p;
        assert t[j] in s;
      }
    }
  }

  lemma {:induction false} RulesUnderUpdated(scopes: seq<Scope>, i: nat, changed: Scope, p: string)
    requires DistinctScopes(scopes) && i < |scopes| && scopes[i].0 == changed.0
    ensures RulesUnder(scopes[i := changed], p) == if p == changed.0 then changed.1.entries else RulesUnder(scopes, p)
  {
    if i > 0 {
      RulesUnderUpdated(scopes[1..], i - 1, changed, p);
      assert scopes[i := changed][1..] == scopes[1..][i - 1 := changed];
    }
  }

  lemma {:induction false} RulesUnderAppended(scopes: seq<Scope>, added: Scope, p: string)
    requires forall i :: 0 <= i < |scopes| ==> scopes[i].0 != added.0
    ensures RulesUnder(scopes + [added], p) == if p == added.0 then added.1.entries else RulesUnder(scopes, p)
  {
    if scopes != [] {
      RulesUnderAppended(scopes[1..], added, p);
      assert (scopes + [added])[1..] == scopes[1..] + [added];
    }
  }

  lemma UpdatedTable(scopes: seq<Scope>, i: nat, changed: Scope)
    requires DistinctScopes(scopes) && i < |scopes| && scopes[i].0 == changed.0
    ensures ScopeTable(scopes[i := changed]) == ScopeTable(scopes)[changed.0 := changed.1.entries]
  {
    var t := scopes[i := changed];
    assert forall j :: 0 <= j < |t| ==> t[j].0 == scopes[j].0;
    assert PrefixSet(t) == PrefixSet(scopes);
    forall p { RulesUnderUpdated(scopes, i, changed, p); }
  }

  lemma AppendedTable(scopes: seq<Scope>, added: Scope)
    requires forall i :: 0 <= i < |scopes| ==> scopes[i].0 != added.0
    ensures ScopeTable(scopes + [added]) == ScopeTable(scopes)[added.0 := added.1.entries]
    ensures added.0 !in ScopeTable(scopes)
  {
    var t := scopes + [added];
    assert PrefixSet(t) == PrefixSet(scopes) + {added.0} by {
      assert forall j :: 0 <= j < |scopes| ==> t[j] == scopes[j];
      assert t[|scopes|] == added;
    }
    forall p { RulesUnderAppended(scopes, added, p); }
  }

  ghost predicate Avoids(scopes: seq<Scope>, prefix: string)
  {
    forall i :: 0 <= i < |scopes| ==> scopes[i].0 != prefix
  }

  lemma SortAvoids(scopes: seq<Scope>, prefix: string)
    requires Avoids(scopes, prefix)
    ensures Avoids(SortDescending(scopes, ScopePrefix), prefix)
  {
    var sorted := SortDescending(scopes, ScopePrefix);
    SortMembers(scopes, ScopePrefix);
    forall i | 0 <= i < |sorted| ensures sorted[i].0 != prefix {
      assert sorted[i] in scopes;
    }
  }

  lemma {:induction false} SortKeepsDistinct(scopes: seq<Scope>)
    requires DistinctScopes(scopes)
    ensures DistinctScopes(SortDescending(scopes, ScopePrefix))
  {
    if scopes != [] {
      var init, last := scopes[..|scopes| - 1], scopes[|scopes| - 1];
      SortKeepsDistinct(init);
      SortAvoids(init, last.0);
      var sorted := SortDescending(init, ScopePrefix);
      InsertKeepsDistinct(sorted, last, InsertionPoint(sorted, last, ScopePrefix));
    }
  }

  lemma SortKeepsCoherent(scopes: seq<Scope>)
    requires AllCoherent(scopes)
    ensures AllCoherent(SortDescending(scopes, ScopePrefix))
  {
    SortMembers(scopes, ScopePrefix);
    var sorted := SortDescending(scopes, ScopePrefix);
    forall i | 0 <= i < |sorted| ensures sorted[i].1.Coherent() {
      assert sorted[i] in scopes;
    }
  }

  lemma SortedTable(scopes: seq<Scope>)
    requires AllCoherent(scopes) && DistinctScopes(scopes)
    ensures var sorted := SortDescending(scopes, ScopePrefix);
      AllCoherent(sorted) && DistinctScopes(sorted) && ScopeTable(sorted) == ScopeTable(scopes)
  {
    SortKeepsDistinct(scopes);
    SortKeepsCoherent(scopes);
    SortMembers(scopes, ScopePrefix);
    SameTable(scopes, SortDescending(scopes, ScopePrefix));
  }

  lemma InsertKeepsDistinct(scopes: seq<Scope>, added: Scope, k: nat)
    requires DistinctScopes(scopes) && k <= |scopes| && Avoids(scopes, added.0)
    ensures DistinctScopes(scopes[..k] + [added] + scopes[k..])
  {
  }

  /** Lengths at which no key sits can be skipped. */
  lemma {:induction false} SkipPrefixes(lib: UrlLib, entries: Entries, normalized: string, from: nat, to: nat)
    requires to <= from <= |normalized|
    requires forall l :: to < l <= from ==> !(normalized[..l] in entries && EndsWith(normalized[..l], "/"))
    ensures LongestPrefix(lib, entries, normalized, from) == LongestPrefix(lib, entries, normalized, to)
    decreases from
  {
    if to < from {
      SkipPrefixes(lib, entries, normalized, from - 1, to);
    }
  }

  lemma {:induction false} SkipScopes(lib: UrlLib, scopes: map<string, Entries>, referrer: string, normalized: string,
                                      asUrl: Option<Url>, from: nat, to: nat)
    requires to <= from <= |referrer|
    requires forall l :: to < l <= from && ScopeApplies(referrer[..l], referrer) ==>
      Match(lib, ScopeRules(scopes, referrer[..l]), normalized, asUrl) == Ok(None)
    ensures LongestScope(lib, scopes, referrer, normalized, asUrl, from)
         == LongestScope(lib, scopes, referrer, normalized, asUrl, to)
    decreases from
  {
    if to < from {
      SkipScopes(lib, scopes, referrer, normalized, asUrl, from - 1, to);
    }
  }

  /** The first match in the descending list is the longest one. */
  lemma FirstPrefixIsLongest(lib: UrlLib, rules: SpecifierMap, normalized: string, i: nat)
    requires rules.Coherent() && i < |rules.prefixes| && rules.prefixes[i] <= normalized
    requires forall j :: 0 <= j < i ==> !(rules.prefixes[j] <= normalized)
    ensures rules.prefixes[i] in rules.entries
    ensures LongestPrefix(lib, rules.entries, normalized, |normalized|)
         == FollowPrefix(lib, rules.entries, normalized, rules.prefixes[i])
  {
    var key := rules.prefixes[i];
    assert key in rules.prefixes;
    forall l | |key| < l <= |normalized|
      ensures !(normalized[..l] in rules.entries && EndsWith(normalized[..l], "/"))
    {
      var longer := normalized[..l];
      LeOnPrefixes(longer, key, normalized);
      assert longer in rules.prefixes <==> longer in rules.entries && EndsWith(longer, "/");
      assert forall j :: i < j < |rules.prefixes| ==> Le(Self(rules.prefixes[j]), Self(key));
    }
    SkipPrefixes(lib, rules.entries, normalized, |normalized|, |key|);
    assert normalized[..|key|] == key;
  }

  lemma NoPrefixNoMatch(lib: UrlLib, rules: SpecifierMap, normalized: string)
    requires rules.Coherent()
    requires forall j :: 0 <= j < |rules.prefixes| ==> !(rules.prefixes[j] <= normalized)
    ensures LongestPrefix(lib, rules.entries, normalized, |normalized|) == Ok(None)
  {
    forall l | 0 < l <= |normalized|
      ensures !(normalized[..l] in rules.entries && EndsWith(normalized[..l], "/"))
    {
      var key := normalized[..l];
      assert key in rules.prefixes <==> key in rules.entries && EndsWith(key, "/");
    }
    SkipPrefixes(lib, rules.entries, normalized, |normalized|, 0);
  }

  /** `pruned` is `added` after the records `done` below index `n` and `todo` from there on. */
  ghost predicate PrunedScopes(added: seq<Scope>, pruned: seq<Scope>, done: seq<ResolvedModule>,
                               todo: seq<ResolvedModule>, n: nat)
  {
    && |pruned| == |added|
    && forall k :: 0 <= k < |pruned| ==>
         && pruned[k].1.Coherent()
         && pruned[k].0 == added[k].0
         && pruned[k].1.entries == PruneScope(added[k].0, added[k].1.entries, if k < n then done else todo)
  }

  // ---------- the operations on one rule set ----------

  /** `resolve_match`: an exact key, else the first prefix in the list that matches. */
  method ResolveMatch(lib: UrlLib, rules: SpecifierMap, normalized: string, asUrl: Option<Url>)
    returns (r: Result<Option<Url>, Failure>)
    requires rules.Coherent()
    ensures r == Match(lib, rules.entries, normalized, asUrl)
  {
    if normalized in rules.entries {
      return if rules.entries[normalized].Some? then Ok(rules.entries[normalized]) else Err(Blocked);
    }
    if asUrl.Some? && !lib.special(asUrl.value) {
      return Ok(None);
    }
    for i := 0 to |rules.prefixes|
      invariant forall j :: 0 <= j < i ==> !(rules.prefixes[j] <= normalized)
    {
      var key := rules.prefixes[i];
      if key <= normalized {
        FirstPrefixIsLongest(lib, rules, normalized, i);
        if key !in rules.entries {
          return Err(MissingAddress(key));
        }
        if rules.entries[key].None? {
          return Err(BlockedByPrefix(key));
        }
        var address := rules.entries[key].value;
        var resolved := lib.join(address, normalized[|key|..]);
        if resolved.None? {
          return Err(JoinFailed(key));
        }
        if !(address <= resolved.value) {
          return Err(Backtracks(key));
        }
        return Ok(Some(resolved.value));
      }
    }
    NoPrefixNoMatch(lib, rules, normalized);
    return Ok(None);
  }

  function KeptPrefixes(prefixes: seq<string>, entries: Entries): (kept: seq<string>)
    requires Descending(prefixes, Self)
    ensures Descending(kept, Self)
    ensures forall k :: k in kept <==> k in prefixes && k in entries
  {
    if prefixes == [] then []
    else
      var last := prefixes[|prefixes| - 1];
      var before := KeptPrefixes(prefixes[..|prefixes| - 1], entries);
      assert forall x :: x in before ==> x in prefixes[..|prefixes| - 1];
      assert forall x :: x in prefixes <==> x in prefixes[..|prefixes| - 1] || x == last;
      if last in entries then
        assert forall i :: 0 <= i < |before| ==> Le(Self(last), Self(before[i])) by {
          forall i | 0 <= i < |before| ensures Le(Self(last), Self(before[i])) {
            assert before[i] in prefixes[..|prefixes| - 1];
          }
        }
        before + [last]
      else before
  }

  function RemoveRulesAffecting(rules: SpecifierMap, specifier: string, special: bool): (r: SpecifierMap)
    requires rules.Coherent()
    ensures r.Coherent()
    ensures r.entries == Prune(rules.entries, specifier, special)
  {
    var entries := Prune(rules.entries, specifier, special);
    SpecifierMap(entries, KeptPrefixes(rules.prefixes, entries))
  }

  /** The merge of all new rules but those under `rest`; old rules win. */
  function MergedBut(added: Entries, rules: Entries, rest: set<string>): Entries
  {
    (map k | k in added && k !in rest :: added[k]) + rules
  }

  lemma MergedOneMore(added: Entries, rules: Entries, rest: set<string>, key: string)
    requires key in rest && key in added
    ensures var now := MergedBut(added, rules, rest);
      MergedBut(added, rules, rest - {key}) == if key in now then now else now[key := added[key]]
  {
  }

  /** `SpecifierMap::merge`; the new map is read in no particular order. */
  method MergeSpecifiers(rules: SpecifierMap, added: SpecifierMap) returns (r: SpecifierMap)
    requires rules.Coherent()
    ensures r.Coherent()
    ensures r.entries == added.entries + rules.entries
    ensures Distinct(r.prefixes) <==> Distinct(rules.prefixes)
  {
    var entries, prefixes := rules.entries, rules.prefixes;
    var rest := added.entries.Keys;
    while rest != {}
      invariant rest <= added.entries.Keys
      invariant entries == MergedBut(added.entries, rules.entries, rest)
      invariant forall k :: k in prefixes <==> k in entries && EndsWith(k, "/")
      invariant Distinct(prefixes) <==> Distinct(rules.prefixes)
      decreases rest
    {
      var key :| key in rest;
      MergedOneMore(added.entries, rules.entries, rest, key);
      if key !in entries {
        if EndsWith(key, "/") {
          DistinctSnoc(prefixes, key);
          prefixes := prefixes + [key];
        }
        entries := entries[key := added.entries[key]];
      }
      rest := rest - {key};
    }
    SortMembers(prefixes, Self);
    SortedStrictly(prefixes, Self);
    r := SpecifierMap(entries, SortDescending(prefixes, Self));
  }

  // ---------- the engine ----------

  class ImportMap {
    var imports: SpecifierMap
    var scopes: seq<Scope>
    var resolved: seq<ResolvedModule>

    /** The lists are sorted and coherent; no import prefix is listed twice. */
    ghost predicate Valid()
      reads this
    {
      && imports.Coherent()
      && StrictlyDescending(imports.prefixes)
      && AllCoherent(scopes)
      && DistinctScopes(scopes)
      && Descending(scopes, ScopePrefix)
    }

    ghost function Contents(): Rules
      reads this
      requires Valid()
    {
      Rules(imports.entries, ScopeTable(scopes), resolved)
    }

    constructor ()
      ensures Valid() && Contents() == Rules(map[], map[], [])
    {
      imports, scopes, resolved := NO_RULES, [], [];
    }

    /** The first half of `merge`: drop every new rule that could answer a recorded lookup. */
    method PruneAdded(added: ParsedMap) returns (newImports: SpecifierMap, newScopes: seq<Scope>)
      requires added.Coherent()
      ensures newImports.Coherent() && newImports.entries == PruneImports(added.imports.entries, resolved)
      ensures PrunedScopes(added.scopes, newScopes, resolved, resolved, |newScopes|)
    {
      newImports, newScopes := added.imports, added.scopes;
      for i := 0 to |resolved|
        invariant newImports.Coherent()
        invariant newImports.entries == PruneImports(added.imports.entries, resolved[..i])
        invariant PrunedScopes(added.scopes, newScopes, resolved[..i], resolved[..i], |newScopes|)
      {
        var record := resolved[i];
        assert resolved[..i + 1][..i] == resolved[..i];
        newImports := RemoveRulesAffecting(newImports, record.specifier, record.special);
        for j := 0 to |newScopes|
          invariant PrunedScopes(added.scopes, newScopes, resolved[..i + 1], resolved[..i], j)
        {
          if ScopeApplies(newScopes[j].0, record.referrer) {
            newScopes := newScopes[j := (newScopes[j].0,
                                         RemoveRulesAffecting(newScopes[j].1, record.specifier, record.special))];
          }
        }
      }
      assert resolved[..|resolved|] == resolved;
    }

    method Merge(added: ParsedMap)
      requires Valid() && added.Coherent()
      modifies this
      ensures Valid() && Contents() == AfterMerge(old(Contents()), added)
    {
      var newImports, newScopes := PruneAdded(added);
      imports := MergeSpecifiers(imports, newImports);
      assert StrictlyDescending(imports.prefixes);
      for j := 0 to |newScopes|
        invariant imports.Coherent() && StrictlyDescending(imports.prefixes) && resolved == old(resolved)
        invariant imports.entries == PruneImports(added.imports.entries, resolved) + old(imports.entries)
        invariant AllCoherent(scopes) && DistinctScopes(scopes)
        invariant ScopeTable(scopes) == AddScopes(old(ScopeTable(scopes)), added.scopes[..j], resolved)
      {
        assert added.scopes[..j + 1][..j] == added.scopes[..j];
        AddScope(newScopes[j]);
      }
      assert added.scopes[..|newScopes|] == added.scopes;
      SortedTable(scopes);
      scopes := SortDescending(scopes, ScopePrefix);
    }

    /** One turn of the scope loop in `merge`: extend the scope of that prefix or append it. */
    method AddScope(added: Scope)
      requires AllCoherent(scopes) && DistinctScopes(scopes) && added.1.Coherent()
      modifies `scopes
      ensures AllCoherent(scopes) && DistinctScopes(scopes)
      ensures ScopeTable(scopes) ==
        old(ScopeTable(scopes))[added.0 := added.1.entries + ScopeRules(old(ScopeTable(scopes)), added.0)]
      ensures (forall i :: 0 <= i < |old(scopes)| ==> old(scopes)[i].0 != added.0) ==> scopes == old(scopes) + [added]
    {
      for i := 0 to |scopes|
        invariant scopes == old(scopes)
        invariant forall j :: 0 <= j < i ==> scopes[j].0 != added.0
      {
        if scopes[i].0 == added.0 {
          var merged := MergeSpecifiers(scopes[i].1, added.1);
          scopes := scopes[i := (added.0, merged)];
          UpdatedTable(old(scopes), i, (added.0, merged));
          RulesUnderAt(old(scopes), i);
          return;
        }
      }
      AppendedTable(scopes, added);
      assert added.1.entries + map[] == added.1.entries;
      scopes := scopes + [added];
    }

    method Resolve(lib: UrlLib, specifier: string, referrer: Url) returns (r: Result<Url, Failure>)
      requires Valid()
      modifies `resolved
      ensures Valid()
      ensures r == Answer(lib, old(Contents()), specifier, referrer)
      ensures Contents() == AfterResolve(lib, old(Contents()), specifier, referrer)
    {
      var asUrl := ResolveUrlLike(lib, specifier, referrer);
      var normalized := Normalized(specifier, asUrl);
      ghost var table := ScopeTable(scopes);
      for i := 0 to |scopes|
        invariant unchanged(this)
        invariant forall j :: 0 <= j < i && ScopeApplies(scopes[j].0, referrer) ==>
          Match(lib, scopes[j].1.entries, normalized, asUrl) == Ok(None)
      {
        if ScopeApplies(scopes[i].0, referrer) {
          var found := ResolveMatch(lib, scopes[i].1, normalized, asUrl);
          if found != Ok(None) {
            FirstScopeIsLongest(lib, scopes, i, referrer, normalized, asUrl);
          }
          if found.Err? {
            return Err(found.error);
          }
          if found.value.Some? {
            RememberResolution(referrer, normalized, PrefixesAllowed(lib, asUrl));
            return Ok(found.value.value);
          }
        }
      }
      NoScopeNoMatch(lib, scopes, referrer, normalized, asUrl);
      var found := ResolveMatch(lib, imports, normalized, asUrl);
      if found.Err? {
        return Err(found.error);
      }
      if found.value.Some? {
        RememberResolution(referrer, normalized, PrefixesAllowed(lib, asUrl));
        return Ok(found.value.value);
      }
      if asUrl.None? {
        return Err(Unmapped);
      }
      RememberResolution(referrer, normalized, PrefixesAllowed(lib, asUrl));
      return Ok(asUrl.value);
    }

    method RememberResolution(referrer: string, specifier: string, special: bool)
      requires Valid()
      modifies `resolved
      ensures Valid()
      ensures Contents() == Remember(old(Contents()), ResolvedModule(referrer, specifier, special))
    {
      var record := ResolvedModule(referrer, specifier, special);
      if record !in resolved {
        resolved := resolved + [record];
      }
    }
  }

  lemma FirstScopeIsLongest(lib: UrlLib, scopes: seq<Scope>, i: nat, referrer: string, normalized: string,
                            asUrl: Option<Url>)
    requires DistinctScopes(scopes) && Descending(scopes, ScopePrefix) && i < |scopes|
    requires ScopeApplies(scopes[i].0, referrer)
    requires Match(lib, scopes[i].1.entries, normalized, asUrl) != Ok(None)
    requires forall j :: 0 <= j < i && ScopeApplies(scopes[j].0, referrer) ==>
      Match(lib, scopes[j].1.entries, normalized, asUrl) == Ok(None)
    ensures LongestScope(lib, ScopeTable(scopes), referrer, normalized, asUrl, |referrer|)
         == Match(lib, scopes[i].1.entries, normalized, asUrl)
  {
    var prefix := scopes[i].0;
    forall l | |prefix| < l <= |referrer| && ScopeApplies(referrer[..l], referrer)
      ensures Match(lib, ScopeRules(ScopeTable(scopes), referrer[..l]), normalized, asUrl) == Ok(None)
    {
      LongerScopeIsSilent(lib, scopes, i, referrer, normalized, asUrl, l);
    }
    SkipScopes(lib, ScopeTable(scopes), referrer, normalized, asUrl, |referrer|, |prefix|);
    assert referrer[..|prefix|] == prefix;
    RulesUnderAt(scopes, i);
  }

  /** In descending order an applicable scope longer than the one at `i` comes before it. */
  lemma LongerScopeIsSilent(lib: UrlLib, scopes: seq<Scope>, i: nat, referrer: string, normalized: string,
                            asUrl: Option<Url>, l: nat)
    requires DistinctScopes(scopes) && Descending(scopes, ScopePrefix) && i < |scopes|
    requires ScopeApplies(scopes[i].0, referrer)
    requires forall j :: 0 <= j < i && ScopeApplies(scopes[j].0, referrer) ==>
      Match(lib, scopes[j].1.entries, normalized, asUrl) == Ok(None)
    requires |scopes[i].0| < l <= |referrer| && ScopeApplies(referrer[..l], referrer)
    ensures Match(lib, ScopeRules(ScopeTable(scopes), referrer[..l]), normalized, asUrl) == Ok(None)
  {
    var longer := referrer[..l];
    if longer in ScopeTable(scopes) {
      var j :| 0 <= j < |scopes| && scopes[j].0 == longer;
      LeOnPrefixes(longer, scopes[i].0, referrer);
      assert i < j ==> Le(ScopePrefix(scopes[j]), ScopePrefix(scopes[i]));
      RulesUnderAt(scopes, j);
    } else {
      EmptyRulesMatchNothing(lib, normalized, asUrl);
    }
  }

  lemma NoScopeNoMatch(lib: UrlLib, scopes: seq<Scope>, referrer: string, normalized: string, asUrl: Option<Url>)
    requires DistinctScopes(scopes)
    requires forall j :: 0 <= j < |scopes| && ScopeApplies(scopes[j].0, referrer) ==>
      Match(lib, scopes[j].1.entries, normalized, asUrl) == Ok(None)
    ensures LongestScope(lib, ScopeTable(scopes), referrer, normalized, asUrl, |referrer|) == Ok(None)
  {
    forall l | 0 <= l <= |referrer| && ScopeApplies(referrer[..l], referrer)
      ensures Match(lib, ScopeRules(ScopeTable(scopes), referrer[..l]), normalized, asUrl) == Ok(None)
    {
      if referrer[..l] in ScopeTable(scopes) {
        var j :| 0 <= j < |scopes| && scopes[j].0 == referrer[..l];
        RulesUnderAt(scopes, j);
      } else {
        EmptyRulesMatchNothing(lib, normalized, asUrl);
      }
    }
    SkipScopes(lib, ScopeTable(scopes), referrer, normalized, asUrl, |referrer|, 0);
  }

  lemma EmptyRulesMatchNothing(lib: UrlLib, normalized: string, asUrl: Option<Url>)
    ensures Match(lib, map[], normalized, asUrl) == Ok(None)
  {
    SkipPrefixes(lib, map[], normalized, |normalized|, 0);
  }

  // ---------- parsing ----------

  datatype Json = JObject(members: seq<(string, Json)>) | JString(text: string) | JOther

  datatype ParseFailure = BadBase | NotAnObject | BadImports | BadScopes | BadScope(prefix: string) | BadIntegrity

  function Member(members: seq<(string, Json)>, name: string): Option<Json>
  {
    if members == [] then None
    else if members[0].0 == name then Some(members[0].1)
    else Member(members[1..], name)
  }

  /** The rules of a JSON object: among members with one normalized key the last decides. */
  function ParsedEntries(lib: UrlLib, members: seq<(string, Json)>, base: Url): Entries
  {
    if members == [] then map[]
    else
      var last := members[|members| - 1];
      var before := ParsedEntries(lib, members[..|members| - 1], base);
      match NormalizeKey(lib, last.0, base)
      case Some(key) => before[key := Address(last, lib, base)]
      case None => before
  }

  /** The key a member is listed under as a prefix, if it is. */
  function SlashKey(lib: UrlLib, member: (string, Json), base: Url): Option<string>
  {
    match NormalizeKey(lib, member.0, base)
    case Some(key) => if EndsWith(key, "/") then Some(key) else None
    case None => None
  }

  function SlashKeys(lib: UrlLib, members: seq<(string, Json)>, base: Url): seq<string>
  {
    if members == [] then []
    else
      var last := SlashKey(lib, members[|members| - 1], base);
      SlashKeys(lib, members[..|members| - 1], base) + if last.Some? then [last.value] else []
  }

  /** No two members are listed under the same prefix. */
  ghost predicate NoSharedSlashKey(lib: UrlLib, members: seq<(string, Json)>, base: Url)
  {
    forall i, j :: 0 <= i < j < |members| && SlashKey(lib, members[i], base).Some? ==>
      SlashKey(lib, members[i], base) != SlashKey(lib, members[j], base)
  }

  lemma {:induction false} SlashKeysMembers(lib: UrlLib, members: seq<(string, Json)>, base: Url, key: string)
    ensures key in SlashKeys(lib, members, base) <==>
      exists i :: 0 <= i < |members| && SlashKey(lib, members[i], base) == Some(key)
  {
    if members != [] {
      SlashKeysMembers(lib, members[..|members| - 1], base, key);
    }
  }

  lemma {:induction false} SlashKeysDistinct(lib: UrlLib, members: seq<(string, Json)>, base: Url)
    ensures Distinct(SlashKeys(lib, members, base)) <==> NoSharedSlashKey(lib, members, base)
  {
    if members != [] {
      var init, last := members[..|members| - 1], SlashKey(lib, members[|members| - 1], base);
      SlashKeysDistinct(lib, init, base);
      if last.Some? {
        SlashKeysMembers(lib, init, base, last.value);
        DistinctSnoc(SlashKeys(lib, init, base), last.value);
      } else {
        assert SlashKeys(lib, init, base) + [] == SlashKeys(lib, init, base);
      }
      assert forall i :: 0 <= i < |init| ==> init[i] == members[i];
    }
  }

  /** The prefix list is strictly descending exactly when no two members share a slash-ended
      normalized key. */
  method ParseSpecifiers(lib: UrlLib, members: seq<(string, Json)>, base: Url) returns (r: SpecifierMap)
    ensures r.Coherent() && r.entries == ParsedEntries(lib, members, base)
    ensures StrictlyDescending(r.prefixes) <==> NoSharedSlashKey(lib, members, base)
  {
    var entries: Entries, prefixes := map[], [];
    for n := 0 to |members|
      invariant entries == ParsedEntries(lib, members[..n], base)
      invariant prefixes == SlashKeys(lib, members[..n], base)
      invariant forall k :: k in prefixes <==> k in entries && EndsWith(k, "/")
    {
      assert members[..n + 1][..n] == members[..n];
      var key := NormalizeKey(lib, members[n].0, base);
      if key.Some? {
        if EndsWith(key.value, "/") {
          prefixes := prefixes + [key.value];
        }
        entries := entries[key.value := Address(members[n], lib, base)];
      }
    }
    assert members[..|members|] == members;
    SortMembers(prefixes, Self);
    SortedStrictly(prefixes, Self);
    SlashKeysDistinct(lib, members, base);
    r := SpecifierMap(entries, SortDescending(prefixes, Self));
  }

  /** Two different members of one object that are listed under one prefix. */
  lemma RepeatedPrefix()
    ensures var lib := UrlLib(s => Some(s), (base, s) => Some("http://h/a/"), url => true);
      !NoSharedSlashKey(lib, [("./a/", JString("x/")), ("http://h/a/", JString("y/"))], "http://h/")
  {
    var lib := UrlLib(s => Some(s), (base: Url, s: string) => Some("http://h/a/"), (url: Url) => true);
    var members := [("./a/", JString("x/")), ("http://h/a/", JString("y/"))];
    assert SlashKey(lib, members[0], "http://h/") == Some("http://h/a/");
    assert SlashKey(lib, members[1], "http://h/") == Some("http://h/a/");
  }

  /** The members of a section, none when it is absent. */
  function Section(json: Json, name: string): seq<(string, Json)>
  {
    if json.JObject? && Member(json.members, name).Some? && Member(json.members, name).value.JObject?
    then Member(json.members, name).value.members else []
  }

  /** The scopes in the order written, leaving out those whose prefix is no URL. */
  function ParsedScopes(lib: UrlLib, members: seq<(string, Json)>, base: Url): seq<(string, Entries)>
  {
    if members == [] then []
    else
      var last := members[|members| - 1];
      ParsedScopes(lib, members[..|members| - 1], base) +
      if lib.join(base, last.0).Some? && last.1.JObject?
      then [(lib.join(base, last.0).value, ParsedEntries(lib, last.1.members, base))] else []
  }

  function Listed(scopes: seq<Scope>): seq<(string, Entries)>
  {
    seq(|scopes|, i requires 0 <= i < |scopes| => (scopes[i].0, scopes[i].1.entries))
  }

  /** `scopes` holds those listed, stably sorted by descending prefix. */
  ghost predicate SortedFrom(scopes: seq<Scope>, listed: seq<(string, Entries)>)
  {
    exists unsorted: seq<Scope> :: Listed(unsorted) == listed && scopes == SortDescending(unsorted, ScopePrefix)
  }

  predicate ScopesAreObjects(lib: UrlLib, members: seq<(string, Json)>, base: Url)
  {
    forall i :: 0 <= i < |members| && lib.join(base, members[i].0).Some? ==> members[i].1.JObject?
  }

  method ParseScopes(lib: UrlLib, members: seq<(string, Json)>, base: Url) returns (r: Result<seq<Scope>, ParseFailure>)
    ensures r.Ok? <==> ScopesAreObjects(lib, members, base)
    ensures r.Ok? ==> AllCoherent(r.value) && Descending(r.value, ScopePrefix)
    ensures r.Ok? ==> SortedFrom(r.value, ParsedScopes(lib, members, base))
  {
    var scopes: seq<Scope> := [];
    for n := 0 to |members|
      invariant AllCoherent(scopes) && Listed(scopes) == ParsedScopes(lib, members[..n], base)
      invariant ScopesAreObjects(lib, members[..n], base)
    {
      assert members[..n + 1] == members[..n] + [members[n]];
      var prefix := lib.join(base, members[n].0);
      if prefix.None? {
        continue;
      }
      if !members[n].1.JObject? {
        return Err(BadScope(members[n].0));
      }
      var rules := ParseSpecifiers(lib, members[n].1.members, base);
      assert Listed(scopes + [(prefix.value, rules)]) == Listed(scopes) + [(prefix.value, rules.entries)];
      scopes := scopes + [(prefix.value, rules)];
    }
    assert members[..|members|] == members;
    SortKeepsCoherent(scopes);
    r := Ok(SortDescending(scopes, ScopePrefix));
  }

  predicate IsObject(json: Option<Json>)
  {
    json.Some? ==> json.value.JObject?
  }

  /** A map parses exactly when its sections are objects and so is every scope whose
      prefix is a URL. */
  ghost predicate WellShaped(lib: UrlLib, json: Json, base: Url)
  {
    && json.JObject?
    && IsObject(Member(json.members, "imports"))
    && IsObject(Member(json.members, "scopes"))
    && IsObject(Member(json.members, "integrity"))
    && ScopesAreObjects(lib, Section(json, "scopes"), base)
  }

  lemma NothingSorted(lib: UrlLib, base: Url)
    ensures SortedFrom([], ParsedScopes(lib, [], base))
  {
    assert Listed([]) == [] && SortDescending([], ScopePrefix) == [];
  }

  method Parse(lib: UrlLib, json: Json, baseUrl: string) returns (r: Result<ParsedMap, ParseFailure>)
    ensures r.Ok? <==> lib.parse(baseUrl).Some? && WellShaped(lib, json, lib.parse(baseUrl).value)
    ensures r.Ok? ==> r.value.Coherent() && Descending(r.value.scopes, ScopePrefix)
    ensures r.Ok? ==> r.value.imports.entries == ParsedEntries(lib, Section(json, "imports"), lib.parse(baseUrl).value)
    ensures r.Ok? ==> SortedFrom(r.value.scopes, ParsedScopes(lib, Section(json, "scopes"), lib.parse(baseUrl).value))
  {
    var parsedBase := lib.parse(baseUrl);
    if parsedBase.None? {
      return Err(BadBase);
    }
    var base := parsedBase.value;
    if !json.JObject? {
      return Err(NotAnObject);
    }
    var imports := NO_RULES;
    var section := Member(json.members, "imports");
    if section.Some? {
      if !section.value.JObject? {
        return Err(BadImports);
      }
      imports := ParseSpecifiers(lib, section.value.members, base);
    }
    var scopes: seq<Scope> := [];
    section := Member(json.members, "scopes");
    if section.Some? {
      if !section.value.JObject? {
        return Err(BadScopes);
      }
      assert Section(json, "scopes") == section.value.members;
      var parsed := ParseScopes(lib, section.value.members, base);
      if parsed.Err? {
        return Err(parsed.error);
      }
      scopes := parsed.value;
    } else {
      NothingSorted(lib, base);
    }
    section := Member(json.members, "integrity");
    if section.Some? && !section.value.JObject? {
      return Err(BadIntegrity);
    }
    return Ok(ParsedMap(imports, scopes));
  }
}
