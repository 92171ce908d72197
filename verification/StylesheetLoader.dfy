/** The capped breadth-first stylesheet loader, for any answers the network gives. */
module StylesheetLoader {
  import opened Wrappers
  import opened StylesheetGraph

  const MAX_STYLESHEET_IMPORT_DEPTH: nat := 4
  const MAX_STYLESHEET_RESOURCES: nat := 128

  /** A queued download: canonical key and import depth. */
  datatype Request = Request(key: string, depth: nat)

  /** A successful response: its canonical URL, its imports and its remaining rules. */
  datatype Answer = Answer(responseUrl: string, imports: seq<Import>, rules: string)

  /** The outside world: canonical key of a joined URL, the blocking rules, and the network,
      which may answer the n-th download in any way. */
  datatype Env = Env(keyOf: (string, string) -> Option<string>, blocked: string -> bool,
                     net: (nat, string) -> Option<Answer>)

  /** What is stored for an answer: below the depth limit its imports are kept. */
  function SheetOf(answer: Answer, depth: nat): Sheet
  {
    Sheet(answer.responseUrl, if depth < MAX_STYLESHEET_IMPORT_DEPTH then answer.imports else [], answer.rules)
  }

  /** The `n`-th download is settled: an answer makes its key known, and a sheet stored under
      its key is that answer's. */
  predicate Answered(env: Env, request: Request, n: nat, known: set<string>, sheets: map<string, Sheet>)
  {
    match env.net(n, request.key)
    case None => request.key !in sheets
    case Some(answer) =>
      request.key in known && (request.key in sheets ==> sheets[request.key] == SheetOf(answer, request.depth))
  }

  ghost predicate AllAnswered(env: Env, requested: seq<Request>, n: nat, known: set<string>, sheets: map<string, Sheet>)
    requires n <= |requested|
  {
    forall j :: 0 <= j < n ==> Answered(env, requested[j], j, known, sheets)
  }

  /** The keys of the sheets to start from, in document order: those that join and are not blocked. */
  function RootKeys(env: Env, base: string, urls: seq<string>): seq<string>
  {
    if urls == [] then []
    else
      var key := env.keyOf(base, urls[|urls| - 1]);
      RootKeys(env, base, urls[..|urls| - 1]) +
      if key.Some? && !env.blocked(key.value) then [key.value] else []
  }

  /** A key is a root exactly when some usable reference joins to it. */
  lemma {:induction false} RootKeysMembers(env: Env, base: string, urls: seq<string>, key: string)
    ensures key in RootKeys(env, base, urls) <==>
      !env.blocked(key) && exists i :: 0 <= i < |urls| && env.keyOf(base, urls[i]) == Some(key)
  {
    if urls != [] {
      RootKeysMembers(env, base, urls[..|urls| - 1], key);
    }
  }

  /** And roots stand in the order of the references. */
  lemma {:induction false} RootKeysInOrder(env: Env, base: string, urls: seq<string>, more: seq<string>)
    ensures RootKeys(env, base, urls + more) == RootKeys(env, base, urls) + RootKeys(env, base, more)
    decreases |more|
  {
    if more == [] {
      assert urls + more == urls;
      assert RootKeys(env, base, urls) + [] == RootKeys(env, base, urls);
    } else {
      var init := more[..|more| - 1];
      RootKeysInOrder(env, base, urls, init);
      assert (urls + more)[..|urls + more| - 1] == urls + init;
    }
  }

  function ImportUrls(imports: seq<Import>): seq<string>
  {
    seq(|imports|, i requires 0 <= i < |imports| => imports[i].url)
  }

  ghost predicate DistinctKeys(requests: seq<Request>)
  {
    forall i, j :: 0 <= i < j < |requests| ==> requests[i].key != requests[j].key
  }

  /** Every alias leads to a stored sheet, which is its own alias. */
  ghost predicate AliasesSettled(aliases: map<string, string>, sheets: map<string, Sheet>)
  {
    && (forall k :: k in aliases ==> aliases[k] in sheets)
    && (forall s :: s in sheets ==> s in aliases && aliases[s] == s)
  }

  predicate ResponseKnown(aliases: map<string, string>, sheets: map<string, Sheet>, s: string)
    requires s in sheets
  {
    sheets[s].responseUrl in aliases
  }

  ghost predicate ResponsesKnown(aliases: map<string, string>, sheets: map<string, Sheet>)
  {
    forall s {:trigger ResponseKnown(aliases, sheets, s)} :: s in sheets ==> ResponseKnown(aliases, sheets, s)
  }

  /** No two stored sheets came from the same response URL. */
  ghost predicate ResponsesDiffer(sheets: map<string, Sheet>)
  {
    forall s, t :: s in sheets && t in sheets && s != t ==> sheets[s].responseUrl != sheets[t].responseUrl
  }

  ghost predicate DistinctResponses(aliases: map<string, string>, sheets: map<string, Sheet>)
  {
    ResponsesKnown(aliases, sheets) && ResponsesDiffer(sheets)
  }

  /** The import at `i` of a stored sheet has been dealt with. */
  predicate ImportHandled(env: Env, sheet: Sheet, i: nat, known: set<string>, scheduled: set<string>)
    requires i < |sheet.imports|
  {
    match env.keyOf(sheet.responseUrl, sheet.imports[i].url)
    case None => true
    case Some(key) => key in known || key in scheduled || env.blocked(key) || |scheduled| >= MAX_STYLESHEET_RESOURCES
  }

  ghost predicate AllImportsHandled(env: Env, known: set<string>, sheets: map<string, Sheet>, scheduled: set<string>)
  {
    forall s :: s in sheets ==> SheetHandled(env, sheets[s], known, scheduled)
  }

  ghost predicate SheetHandled(env: Env, sheet: Sheet, known: set<string>, scheduled: set<string>)
  {
    forall i :: 0 <= i < |sheet.imports| ==> ImportHandled(env, sheet, i, known, scheduled)
  }

  lemma HandledStays(env: Env, sheet: Sheet, known: set<string>, scheduled: set<string>, moreKnown: set<string>,
                     more: set<string>)
    requires SheetHandled(env, sheet, known, scheduled)
    requires known <= moreKnown && scheduled <= more && |scheduled| <= |more|
    ensures SheetHandled(env, sheet, moreKnown, more)
  {
    forall i | 0 <= i < |sheet.imports| ensures ImportHandled(env, sheet, i, moreKnown, more) {
      assert ImportHandled(env, sheet, i, known, scheduled);
    }
  }

  lemma AllHandledStays(env: Env, known: set<string>, sheets: map<string, Sheet>, scheduled: set<string>,
                        moreKnown: set<string>, more: set<string>)
    requires AllImportsHandled(env, known, sheets, scheduled)
    requires known <= moreKnown && scheduled <= more && |scheduled| <= |more|
    ensures AllImportsHandled(env, moreKnown, sheets, more)
  {
    forall s | s in sheets ensures SheetHandled(env, sheets[s], moreKnown, more) {
      HandledStays(env, sheets[s], known, scheduled, moreKnown, more);
    }
  }

  /** A redirect to a response already stored becomes one more alias of its sheet. */
  lemma AliasAdded(aliases: map<string, string>, sheets: map<string, Sheet>, key: string, response: string)
    requires AliasesSettled(aliases, sheets) && DistinctResponses(aliases, sheets)
    requires response in aliases && key !in sheets
    ensures var more := aliases[key := aliases[response]];
      AliasesSettled(more, sheets) && DistinctResponses(more, sheets)
  {
    var more := aliases[key := aliases[response]];
    forall s | s in sheets ensures ResponseKnown(more, sheets, s) {
      assert ResponseKnown(aliases, sheets, s);
    }
  }

  lemma SheetAdded(aliases: map<string, string>, sheets: map<string, Sheet>, key: string, sheet: Sheet)
    requires AliasesSettled(aliases, sheets) && DistinctResponses(aliases, sheets)
    requires sheet.responseUrl !in aliases && key !in sheets
    ensures var more := aliases[key := key][sheet.responseUrl := key];
      AliasesSettled(more, sheets[key := sheet]) && DistinctResponses(more, sheets[key := sheet])
  {
    var more := aliases[key := key][sheet.responseUrl := key];
    forall s | s in sheets
      ensures ResponseKnown(more, sheets[key := sheet], s) && sheets[s].responseUrl != sheet.responseUrl
    {
      assert ResponseKnown(aliases, sheets, s);
    }
  }

  /** The queue history: distinct keys, all scheduled, within the cap and the depth limit; below
      the cap whatever is scheduled is in it. */
  ghost predicate RequestsSound(requested: seq<Request>, scheduled: set<string>)
  {
    && DistinctKeys(requested)
    && |requested| <= MAX_STYLESHEET_RESOURCES && |requested| <= |scheduled|
    && (forall i :: 0 <= i < |requested| ==>
          requested[i].key in scheduled && requested[i].depth <= MAX_STYLESHEET_IMPORT_DEPTH)
    && (|scheduled| <= MAX_STYLESHEET_RESOURCES ==> forall k :: k in scheduled ==> Requested(requested, k))
  }

  ghost predicate Requested(requested: seq<Request>, key: string)
  {
    exists i :: 0 <= i < |requested| && requested[i].key == key
  }

  lemma RequestMore(requested: seq<Request>, scheduled: set<string>, key: string, depth: nat)
    requires RequestsSound(requested, scheduled) && key !in scheduled && depth <= MAX_STYLESHEET_IMPORT_DEPTH
    requires |scheduled| < MAX_STYLESHEET_RESOURCES
    ensures RequestsSound(requested + [Request(key, depth)], scheduled + {key})
  {
    var more := requested + [Request(key, depth)];
    forall k | k in scheduled + {key} ensures Requested(more, k) {
      if k == key {
        assert more[|requested|].key == k;
      } else {
        assert Requested(requested, k);
        var i :| 0 <= i < |requested| && requested[i].key == k;
        assert more[i].key == k;
      }
    }
  }

  // ---------- what the answers make of keys and response URLs ----------

  /** The `j`-th download was answered. */
  predicate Got(env: Env, requested: seq<Request>, j: nat)
    requires j < |requested|
  {
    env.net(j, requested[j].key).Some?
  }

  function AnswerOf(env: Env, requested: seq<Request>, j: nat): Answer
    requires j < |requested| && Got(env, requested, j)
  {
    env.net(j, requested[j].key).value
  }

  /** Among the first `n` downloads, the answered one of the key `u`. */
  function KeyDownload(env: Env, requested: seq<Request>, n: nat, u: string): (r: Option<nat>)
    requires n <= |requested|
    ensures r.Some? ==> r.value < n && Got(env, requested, r.value) && requested[r.value].key == u
    ensures r.None? ==> forall j :: 0 <= j < n && requested[j].key == u ==> !Got(env, requested, j)
  {
    if n == 0 then None
    else if Got(env, requested, n - 1) && requested[n - 1].key == u then Some(n - 1)
    else KeyDownload(env, requested, n - 1, u)
  }

  /** Among the first `n` downloads, the first answered from the response URL `u`. */
  function FirstFrom(env: Env, requested: seq<Request>, n: nat, u: string): (r: Option<nat>)
    requires n <= |requested|
    ensures r.Some? ==>
      && r.value < n && Got(env, requested, r.value) && AnswerOf(env, requested, r.value).responseUrl == u
      && forall j :: 0 <= j < r.value && Got(env, requested, j) ==> AnswerOf(env, requested, j).responseUrl != u
    ensures r.None? ==>
      forall j :: 0 <= j < n && Got(env, requested, j) ==> AnswerOf(env, requested, j).responseUrl != u
  {
    if n == 0 then None
    else
      var earlier := FirstFrom(env, requested, n - 1, u);
      if earlier.Some? then earlier
      else if Got(env, requested, n - 1) && AnswerOf(env, requested, n - 1).responseUrl == u then Some(n - 1)
      else None
  }

  /** The download whose sheet the URL `u` leads to after `n` downloads: where the answer to its own
      download leads, else the first download answered from it. */
  function LedTo(env: Env, requested: seq<Request>, n: nat, u: string): (r: Option<nat>)
    requires n <= |requested|
    ensures r.Some? ==> r.value < n && Got(env, requested, r.value)
    decreases n, 0
  {
    match KeyDownload(env, requested, n, u)
    case Some(j) => Some(Leader(env, requested, j))
    case None => FirstFrom(env, requested, n, u)
  }

  /** The download whose sheet an answered download leads to: where its response URL led before, else
      itself. */
  function Leader(env: Env, requested: seq<Request>, j: nat): (m: nat)
    requires j < |requested| && Got(env, requested, j)
    ensures m <= j && Got(env, requested, m)
    decreases j, 1
  {
    match LedTo(env, requested, j, AnswerOf(env, requested, j).responseUrl)
    case Some(m) => m
    case None => j
  }

  /** Its answer became a sheet of its own. */
  predicate Stored(env: Env, requested: seq<Request>, j: nat)
    requires j < |requested|
  {
    Got(env, requested, j) && LedTo(env, requested, j, AnswerOf(env, requested, j).responseUrl).None?
  }

  function SheetAt(env: Env, requested: seq<Request>, j: nat): Sheet
    requires j < |requested| && Got(env, requested, j)
  {
    SheetOf(AnswerOf(env, requested, j), requested[j].depth)
  }

  ghost predicate AliasIs(env: Env, requested: seq<Request>, n: nat, aliases: map<string, string>, u: string)
    requires n <= |requested|
  {
    match LedTo(env, requested, n, u)
    case None => u !in aliases
    case Some(m) => u in aliases && aliases[u] == requested[m].key
  }

  ghost predicate StoredIs(env: Env, requested: seq<Request>, j: nat, sheets: map<string, Sheet>)
    requires j < |requested|
  {
    if Stored(env, requested, j)
    then requested[j].key in sheets && sheets[requested[j].key] == SheetAt(env, requested, j)
    else requested[j].key !in sheets
  }

  /** Aliases and sheets are what the answers to the first `n` downloads make of them. */
  ghost predicate StoreIs(env: Env, requested: seq<Request>, n: nat, aliases: map<string, string>,
                          sheets: map<string, Sheet>)
  {
    && n <= |requested|
    && (forall u :: AliasIs(env, requested, n, aliases, u))
    && (forall j :: 0 <= j < n ==> StoredIs(env, requested, j, sheets))
  }

  /** What one more answer does to the two tables. */
  function AfterAnswer(request: Request, answer: Option<Answer>, aliases: map<string, string>,
                       sheets: map<string, Sheet>): (map<string, string>, map<string, Sheet>)
  {
    var key := request.key;
    match answer
    case None => (aliases, sheets)
    case Some(given) =>
      if given.responseUrl in aliases then (aliases[key := aliases[given.responseUrl]], sheets)
      else (aliases[key := key][given.responseUrl := key], sheets[key := SheetOf(given, request.depth)])
  }

  lemma AliasIsNext(env: Env, requested: seq<Request>, n: nat, aliases: map<string, string>,
                    sheets: map<string, Sheet>, u: string)
    requires n < |requested|
    requires forall v :: AliasIs(env, requested, n, aliases, v)
    ensures var after := AfterAnswer(requested[n], env.net(n, requested[n].key), aliases, sheets);
      AliasIs(env, requested, n + 1, after.0, u)
  {
    assert AliasIs(env, requested, n, aliases, u);
    if Got(env, requested, n) {
      assert AliasIs(env, requested, n, aliases, AnswerOf(env, requested, n).responseUrl);
    }
  }

  lemma StoredIsNext(env: Env, requested: seq<Request>, n: nat, aliases: map<string, string>,
                     sheets: map<string, Sheet>, j: nat)
    requires n < |requested| && DistinctKeys(requested) && j <= n
    requires Got(env, requested, n) ==> AliasIs(env, requested, n, aliases, AnswerOf(env, requested, n).responseUrl)
    requires j < n ==> StoredIs(env, requested, j, sheets)
    requires requested[n].key !in sheets
    ensures StoredIs(env, requested, j, AfterAnswer(requested[n], env.net(n, requested[n].key), aliases, sheets).1)
  {
  }

  /** One more answer keeps the tables what the answers make of them. */
  lemma StoreNext(env: Env, requested: seq<Request>, n: nat, aliases: map<string, string>, sheets: map<string, Sheet>,
                  moreAliases: map<string, string>, moreSheets: map<string, Sheet>)
    requires n < |requested| && DistinctKeys(requested) && StoreIs(env, requested, n, aliases, sheets)
    requires requested[n].key !in sheets
    requires AfterAnswer(requested[n], env.net(n, requested[n].key), aliases, sheets) == (moreAliases, moreSheets)
    ensures StoreIs(env, requested, n + 1, moreAliases, moreSheets)
  {
    var next := n + 1;
    forall u ensures AliasIs(env, requested, next, moreAliases, u) {
      AliasIsNext(env, requested, n, aliases, sheets, u);
    }
    forall j | 0 <= j < next ensures StoredIs(env, requested, j, moreSheets) {
      assert j < n ==> StoredIs(env, requested, j, sheets);
      StoredIsNext(env, requested, n, aliases, sheets, j);
    }
  }

  lemma {:induction false} LedToInLonger(env: Env, requested: seq<Request>, more: seq<Request>, n: nat, u: string)
    requires n <= |requested| && requested <= more
    ensures LedTo(env, more, n, u) == LedTo(env, requested, n, u)
    decreases n
  {
    DownloadsInLonger(env, requested, more, n, u);
    var j := KeyDownload(env, requested, n, u);
    if j.Some? {
      LedToInLonger(env, requested, more, j.value, AnswerOf(env, requested, j.value).responseUrl);
    }
  }

  lemma {:induction false} DownloadsInLonger(env: Env, requested: seq<Request>, more: seq<Request>, n: nat, u: string)
    requires n <= |requested| && requested <= more
    ensures KeyDownload(env, more, n, u) == KeyDownload(env, requested, n, u)
    ensures FirstFrom(env, more, n, u) == FirstFrom(env, requested, n, u)
    decreases n
  {
    if n > 0 {
      DownloadsInLonger(env, requested, more, n - 1, u);
    }
  }

  lemma StoreInLonger(env: Env, requested: seq<Request>, more: seq<Request>, n: nat, aliases: map<string, string>,
                      sheets: map<string, Sheet>)
    requires StoreIs(env, requested, n, aliases, sheets) && requested <= more
    ensures StoreIs(env, more, n, aliases, sheets)
  {
    forall u ensures AliasIs(env, more, n, aliases, u) {
      assert AliasIs(env, requested, n, aliases, u);
      LedToInLonger(env, requested, more, n, u);
    }
    forall j | 0 <= j < n ensures StoredIs(env, more, j, sheets) {
      assert StoredIs(env, requested, j, sheets);
      if Got(env, requested, j) {
        LedToInLonger(env, requested, more, j, AnswerOf(env, requested, j).responseUrl);
      }
    }
  }

  // ---------- where requests come from ----------

  /** The `i`-th import of the sheet, joined, is `key`, and may be fetched. */
  predicate Imported(env: Env, sheet: Sheet, i: nat, key: string)
  {
    && i < |sheet.imports| && !env.blocked(key)
    && env.keyOf(sheet.responseUrl, sheet.imports[i].url) == Some(key)
  }

  /** A request for an import of `sheet`, one level below it. */
  ghost predicate RequestOfImport(env: Env, sheet: Sheet, depth: nat, r: Request)
  {
    r.depth == depth + 1 && exists i: nat :: Imported(env, sheet, i, r.key)
  }

  ghost predicate RequestsOfImports(env: Env, sheet: Sheet, depth: nat, requested: seq<Request>, from: nat)
  {
    forall n :: from <= n < |requested| ==> RequestOfImport(env, sheet, depth, requested[n])
  }

  lemma OneMoreImport(env: Env, sheet: Sheet, i: nat, depth: nat, before: seq<Request>, after: seq<Request>, from: nat)
    requires i < |sheet.imports| && RequestsOfImports(env, sheet, depth, before, from)
    requires after == before ||
      var key := env.keyOf(sheet.responseUrl, sheet.imports[i].url);
      key.Some? && !env.blocked(key.value) && after == before + [Request(key.value, depth + 1)]
    ensures before <= after && RequestsOfImports(env, sheet, depth, after, from)
  {
    if after != before {
      assert Imported(env, sheet, i, after[|before|].key);
    }
  }

  /** The `n`-th request is one for an import of a sheet stored before. */
  ghost predicate FromImport(env: Env, requested: seq<Request>, n: nat)
    requires n < |requested|
  {
    exists m :: 0 <= m < n && Stored(env, requested, m)
                && RequestOfImport(env, SheetAt(env, requested, m), requested[m].depth, requested[n])
  }

  ghost predicate FromImports(env: Env, requested: seq<Request>, roots: nat)
  {
    forall n :: roots <= n < |requested| ==> FromImport(env, requested, n)
  }

  lemma FromImportsInLonger(env: Env, requested: seq<Request>, more: seq<Request>, roots: nat, m: nat)
    requires FromImports(env, requested, roots) && requested <= more && m < |requested|
    requires Stored(env, requested, m)
    requires RequestsOfImports(env, SheetAt(env, requested, m), requested[m].depth, more, |requested|)
    ensures FromImports(env, more, roots)
  {
    LedToInLonger(env, requested, more, m, AnswerOf(env, requested, m).responseUrl);
    forall n | roots <= n < |more| ensures FromImport(env, more, n) {
      if n < |requested| {
        assert FromImport(env, requested, n);
        var k :| 0 <= k < n && Stored(env, requested, k)
          && RequestOfImport(env, SheetAt(env, requested, k), requested[k].depth, requested[n]);
        LedToInLonger(env, requested, more, k, AnswerOf(env, requested, k).responseUrl);
        assert Stored(env, more, k);
      } else {
        var r := more[n];
        assert Stored(env, requested, m);
        assert Stored(env, more, m) && SheetAt(env, more, m) == SheetAt(env, requested, m);
        assert RequestOfImport(env, SheetAt(env, more, m), more[m].depth, r);
      }
    }
  }

  /** A root request: a linked sheet at depth 0, or an inline import at depth 1. */
  ghost predicate RootRequest(env: Env, base: string, links: seq<string>, inlineUrls: seq<string>, r: Request)
  {
    if r.key in RootKeys(env, base, links) then r.depth == 0
    else r.depth == 1 && r.key in RootKeys(env, base, inlineUrls)
  }

  /** From `from` on all requests are root requests. */
  ghost predicate RootRequests(env: Env, base: string, links: seq<string>, inlineUrls: seq<string>,
                               requested: seq<Request>, from: nat)
  {
    forall n :: from <= n < |requested| ==> RootRequest(env, base, links, inlineUrls, requested[n])
  }

  /** At place `i` of all references the root loops ask for a root; an inline import that is linked
      too has been asked for before. */
  lemma RootAt(env: Env, base: string, links: seq<string>, inlineUrls: seq<string>, i: nat, key: string)
    requires i < |links + inlineUrls| && env.keyOf(base, (links + inlineUrls)[i]) == Some(key) && !env.blocked(key)
    ensures i < |links| ==> RootRequest(env, base, links, inlineUrls, Request(key, 0))
    ensures i >= |links| && key !in RootKeys(env, base, (links + inlineUrls)[..i]) ==>
      RootRequest(env, base, links, inlineUrls, Request(key, 1))
  {
    var urls := links + inlineUrls;
    RootKeysMembers(env, base, links, key);
    RootKeysMembers(env, base, inlineUrls, key);
    RootKeysMembers(env, base, urls[..i], key);
    if i < |links| {
      assert links[i] == urls[i];
    } else {
      assert inlineUrls[i - |links|] == urls[i];
      assert forall k :: 0 <= k < |links| ==> urls[..i][k] == links[k];
    }
  }

  /** After the first `i` references `roots` are the roots among them, all scheduled, and what has been
      requested from `from` on are root requests. */
  ghost predicate RootsAsked(env: Env, base: string, links: seq<string>, inlineUrls: seq<string>, i: nat,
                             roots: seq<string>, scheduled: set<string>, requested: seq<Request>, from: nat)
  {
    && i <= |links + inlineUrls| && roots == RootKeys(env, base, (links + inlineUrls)[..i])
    && (forall r :: r in roots ==> r in scheduled)
    && RootRequests(env, base, links, inlineUrls, requested, from)
  }

  lemma OneMoreRoot(env: Env, base: string, links: seq<string>, inlineUrls: seq<string>, i: nat, roots: seq<string>,
                    scheduled: set<string>, before: seq<Request>, more: set<string>, after: seq<Request>, from: nat)
    requires RootsAsked(env, base, links, inlineUrls, i, roots, scheduled, before, from)
    requires i < |links + inlineUrls| && from <= |before|
    requires var key := env.keyOf(base, (links + inlineUrls)[i]);
      if key.None? || env.blocked(key.value) then after == before && more == scheduled
      else && more == scheduled + {key.value}
           && (after == before || (key.value !in scheduled
                                   && after == before + [Request(key.value, if i < |links| then 0 else 1)]))
    ensures var key := env.keyOf(base, (links + inlineUrls)[i]);
      var now := if key.None? || env.blocked(key.value) then roots else roots + [key.value];
      RootsAsked(env, base, links, inlineUrls, i + 1, now, more, after, from)
  {
    var urls, key := links + inlineUrls, env.keyOf(base, (links + inlineUrls)[i]);
    assert urls[..i + 1][..i] == urls[..i];
    if key.Some? && !env.blocked(key.value) {
      RootAt(env, base, links, inlineUrls, i, key.value);
    }
  }

  class Loader {
    var pending: seq<Request>
    var scheduled: set<string>
    var aliases: map<string, string>
    var sheets: map<string, Sheet>
    // How many downloads have been started.
    var downloads: nat
    // Everything ever queued, in order; the downloads come before what is pending.
    ghost var requested: seq<Request>

    ghost predicate Valid()
      reads this
    {
      && RequestsSound(requested, scheduled)
      && downloads <= |requested| && pending == requested[downloads..]
    }

    ghost predicate StoreSound(env: Env)
      reads this
    {
      && AliasesSettled(aliases, sheets)
      && DistinctResponses(aliases, sheets)
      && AllImportsHandled(env, aliases.Keys, sheets, scheduled)
    }

    constructor ()
      ensures Valid() && pending == [] && requested == [] && sheets == map[] && aliases == map[] && downloads == 0
    {
      pending, scheduled, aliases, sheets, requested, downloads := [], {}, map[], map[], [], 0;
    }

    /** A linked sheet or inline import that may be fetched; beyond the cap it is marked but not queued. */
    method ScheduleRoot(key: string, depth: nat)
      requires Valid() && depth <= MAX_STYLESHEET_IMPORT_DEPTH
      modifies `pending, `scheduled, `requested
      ensures Valid() && scheduled == old(scheduled) + {key}
      ensures requested == old(requested) +
        if key !in old(scheduled) && |old(scheduled)| < MAX_STYLESHEET_RESOURCES then [Request(key, depth)] else []
    {
      if key in scheduled {
        assert scheduled + {key} == scheduled;
        return;
      }
      if |scheduled| < MAX_STYLESHEET_RESOURCES {
        Enqueue(key, depth);
      } else {
        scheduled := scheduled + {key};
      }
    }

    /** The root loops: linked sheets at depth 0, then inline imports at depth 1. */
    method ScheduleRoots(env: Env, base: string, links: seq<string>, inlineImports: seq<Import>)
      returns (roots: seq<string>)
      requires Valid()
      modifies `pending, `scheduled, `requested
      ensures Valid() && roots == RootKeys(env, base, links + ImportUrls(inlineImports))
      ensures forall r :: r in roots ==> r in scheduled
      ensures old(requested) <= requested
      ensures RootRequests(env, base, links, ImportUrls(inlineImports), requested, |old(requested)|)
    {
      roots := [];
      ghost var inlineUrls := ImportUrls(inlineImports);
      for i := 0 to |links| + |inlineImports|
        invariant Valid() && old(requested) <= requested
        invariant RootsAsked(env, base, links, inlineUrls, i, roots, scheduled, requested, |old(requested)|)
      {
        roots := RootTurn(env, base, links, inlineImports, i, roots, |old(requested)|);
      }
      assert (links + inlineUrls)[..|links| + |inlineImports|] == links + inlineUrls;
    }

    /** One turn of the root loops. */
    method RootTurn(env: Env, base: string, links: seq<string>, inlineImports: seq<Import>, i: nat, roots: seq<string>,
                    ghost from: nat) returns (more: seq<string>)
      requires Valid() && i < |links| + |inlineImports| && from <= |requested|
      requires RootsAsked(env, base, links, ImportUrls(inlineImports), i, roots, scheduled, requested, from)
      modifies `pending, `scheduled, `requested
      ensures Valid() && old(requested) <= requested
      ensures RootsAsked(env, base, links, ImportUrls(inlineImports), i + 1, more, scheduled, requested, from)
    {
      var url := if i < |links| then links[i] else inlineImports[i - |links|].url;
      var key := env.keyOf(base, url);
      more := roots;
      ghost var before, known := requested, scheduled;
      if key.Some? && !env.blocked(key.value) {
        more := roots + [key.value];
        ScheduleRoot(key.value, if i < |links| then 0 else 1);
      }
      OneMoreRoot(env, base, links, ImportUrls(inlineImports), i, roots, known, before, scheduled, requested, from);
    }

    method Enqueue(key: string, depth: nat)
      requires Valid() && key !in scheduled && depth <= MAX_STYLESHEET_IMPORT_DEPTH
      requires |scheduled| < MAX_STYLESHEET_RESOURCES
      modifies `pending, `scheduled, `requested
      ensures Valid() && scheduled == old(scheduled) + {key} && |scheduled| == |old(scheduled)| + 1
      ensures pending == old(pending) + [Request(key, depth)] && requested == old(requested) + [Request(key, depth)]
    {
      RequestMore(requested, scheduled, key, depth);
      scheduled := scheduled + {key};
      pending := pending + [Request(key, depth)];
      requested := requested + [Request(key, depth)];
    }

    /** The last loop of the loader: queue the imports of a sheet just stored. */
    method ScheduleImports(env: Env, sheet: Sheet, depth: nat)
      requires Valid() && depth < MAX_STYLESHEET_IMPORT_DEPTH
      modifies `pending, `scheduled, `requested
      ensures Valid() && old(requested) <= requested
      ensures old(scheduled) <= scheduled && |old(scheduled)| <= |scheduled|
      ensures SheetHandled(env, sheet, aliases.Keys, scheduled)
      ensures RequestsOfImports(env, sheet, depth, requested, |old(requested)|)
    {
      for i := 0 to |sheet.imports|
        invariant Valid() && old(requested) <= requested
        invariant RequestsOfImports(env, sheet, depth, requested, |old(requested)|)
        invariant old(scheduled) <= scheduled && |old(scheduled)| <= |scheduled|
        invariant SheetHandled(env, sheet.(imports := sheet.imports[..i]), aliases.Keys, scheduled)
      {
        ghost var before, asked := scheduled, requested;
        ScheduleImport(env, sheet, i, depth);
        OneMoreImport(env, sheet, i, depth, asked, requested, |old(requested)|);
        HandledStays(env, sheet.(imports := sheet.imports[..i]), aliases.Keys, before, aliases.Keys, scheduled);
        OneMoreHandled(env, sheet, i, aliases.Keys, scheduled);
      }
      assert sheet.imports[..|sheet.imports|] == sheet.imports;
    }

    method ScheduleImport(env: Env, sheet: Sheet, i: nat, depth: nat)
      requires Valid() && depth < MAX_STYLESHEET_IMPORT_DEPTH && i < |sheet.imports|
      modifies `pending, `scheduled, `requested
      ensures Valid() && old(requested) <= requested
      ensures old(scheduled) <= scheduled && |old(scheduled)| <= |scheduled|
      ensures ImportHandled(env, sheet, i, aliases.Keys, scheduled)
      ensures var key := env.keyOf(sheet.responseUrl, sheet.imports[i].url);
        requested == old(requested) +
          if && key.Some? && key.value !in aliases && key.value !in old(scheduled) && !env.blocked(key.value)
             && |old(scheduled)| < MAX_STYLESHEET_RESOURCES
          then [Request(key.value, depth + 1)] else []
    {
      var key := env.keyOf(sheet.responseUrl, sheet.imports[i].url);
      if key.None? || key.value in aliases || key.value in scheduled {
        return;
      }
      if |scheduled| >= MAX_STYLESHEET_RESOURCES || env.blocked(key.value) {
        return;
      }
      Enqueue(key.value, depth + 1);
    }

    /** One result of a batch. */
    method Process(env: Env, request: Request, answer: Option<Answer>)
      requires Valid() && StoreSound(env) && request.depth <= MAX_STYLESHEET_IMPORT_DEPTH
      requires request.key !in sheets
      modifies `pending, `scheduled, `requested, `aliases, `sheets
      ensures Valid() && StoreSound(env) && old(requested) <= requested && old(scheduled) <= scheduled
      ensures sheets.Keys <= old(sheets).Keys + {request.key} && old(aliases).Keys <= aliases.Keys
      ensures forall s :: s in old(sheets) ==> s in sheets && sheets[s] == old(sheets)[s]
      ensures answer.None? ==> request.key !in sheets
      ensures answer.Some? ==> request.key in aliases
      ensures answer.Some? && request.key in sheets ==> sheets[request.key] == SheetOf(answer.value, request.depth)
      ensures (aliases, sheets) == AfterAnswer(request, answer, old(aliases), old(sheets))
      ensures if answer.Some? && answer.value.responseUrl !in old(aliases)
              then var sheet := SheetOf(answer.value, request.depth);
                   RequestsOfImports(env, sheet, request.depth, requested, |old(requested)|)
              else requested == old(requested)
    {
      if answer.None? {
        return;
      }
      if answer.value.responseUrl in aliases {
        AddAlias(env, request.key, answer.value.responseUrl);
      } else {
        Store(env, request, SheetOf(answer.value, request.depth));
      }
    }

    method AddAlias(env: Env, key: string, response: string)
      requires StoreSound(env) && key !in sheets && response in aliases
      modifies `aliases
      ensures StoreSound(env) && aliases == old(aliases)[key := old(aliases)[response]]
    {
      ghost var known := aliases.Keys;
      AliasAdded(aliases, sheets, key, response);
      aliases := aliases[key := aliases[response]];
      AllHandledStays(env, known, sheets, scheduled, aliases.Keys, scheduled);
    }

    method Store(env: Env, request: Request, sheet: Sheet)
      requires Valid() && StoreSound(env) && request.depth <= MAX_STYLESHEET_IMPORT_DEPTH
      requires request.key !in sheets && sheet.responseUrl !in aliases
      requires request.depth == MAX_STYLESHEET_IMPORT_DEPTH ==> sheet.imports == []
      modifies `pending, `scheduled, `requested, `aliases, `sheets
      ensures Valid() && StoreSound(env) && old(requested) <= requested && old(scheduled) <= scheduled
      ensures aliases == old(aliases)[request.key := request.key][sheet.responseUrl := request.key]
      ensures sheets == old(sheets)[request.key := sheet]
      ensures RequestsOfImports(env, sheet, request.depth, requested, |old(requested)|)
    {
      ghost var known, before, stored := aliases.Keys, scheduled, sheets;
      SheetAdded(aliases, sheets, request.key, sheet);
      aliases := aliases[request.key := request.key][sheet.responseUrl := request.key];
      sheets := sheets[request.key := sheet];
      if request.depth < MAX_STYLESHEET_IMPORT_DEPTH {
        ScheduleImports(env, sheet, request.depth);
      }
      AllHandledStays(env, known, stored, before, aliases.Keys, scheduled);
    }

    /** The work loop of `fetch_stylesheets`. */
    method Run(env: Env)
      requires Valid() && sheets == map[] && aliases == map[] && downloads == 0
      modifies this
      ensures Valid() && StoreSound(env) && pending == [] && old(scheduled) <= scheduled
      ensures downloads == |requested| && forall s :: s in sheets ==> Requested(requested, s)
      ensures AllAnswered(env, requested, |requested|, aliases.Keys, sheets)
      ensures StoreIs(env, requested, |requested|, aliases, sheets)
      ensures old(requested) <= requested && FromImports(env, requested, |old(requested)|)
    {
      NothingStored(env, requested);
      while pending != []
        invariant Valid() && StoreSound(env) && old(scheduled) <= scheduled
        invariant StoredByNow(sheets.Keys, requested, downloads)
        invariant AllAnswered(env, requested, downloads, aliases.Keys, sheets)
        invariant StoreIs(env, requested, downloads, aliases, sheets)
        invariant old(requested) <= requested && FromImports(env, requested, |old(requested)|)
        decreases MAX_STYLESHEET_RESOURCES - downloads
      {
        RunBatch(env, |old(requested)|);
      }
      assert requested[..|requested|] == requested;
    }

    /** The `n`-th download and its result. */
    method ProcessNext(env: Env, request: Request, ghost all: seq<Request>, n: nat, ghost roots: nat)
      requires Valid() && StoreSound(env) && all <= requested && n < |all| && all[n] == request
      requires StoredByNow(sheets.Keys, all, n) && AllAnswered(env, all, n, aliases.Keys, sheets)
      requires StoreIs(env, all, n, aliases, sheets) && FromImports(env, requested, roots)
      modifies `pending, `scheduled, `requested, `aliases, `sheets
      ensures Valid() && StoreSound(env) && old(requested) <= requested && old(scheduled) <= scheduled
      ensures StoredByNow(sheets.Keys, all, n + 1) && AllAnswered(env, all, n + 1, aliases.Keys, sheets)
      ensures StoreIs(env, all, n + 1, aliases, sheets) && FromImports(env, requested, roots)
    {
      ghost var before, known, kept := requested, aliases, sheets;
      assert requested[n] == request && DistinctKeys(all);
      var answer := env.net(n, request.key);
      Process(env, request, answer);
      assert all <= before <= requested;
      StoredNext(kept.Keys, sheets.Keys, all, n);
      AnsweredNext(env, all, n, known.Keys, kept, aliases.Keys, sheets);
      StoreNext(env, all, n, known, kept, aliases, sheets);
      if answer.Some? && answer.value.responseUrl !in known {
        NewRequests(env, all, before, requested, roots, n, known);
      }
    }

    /** One turn of the work loop: download everything queued, then process the results in order. */
    method RunBatch(env: Env, ghost roots: nat)
      requires Valid() && StoreSound(env) && pending != []
      requires StoredByNow(sheets.Keys, requested, downloads)
      requires AllAnswered(env, requested, downloads, aliases.Keys, sheets)
      requires StoreIs(env, requested, downloads, aliases, sheets) && FromImports(env, requested, roots)
      modifies this
      ensures Valid() && StoreSound(env) && old(scheduled) <= scheduled && old(requested) <= requested
      ensures downloads == old(downloads) + |old(pending)|
      ensures StoredByNow(sheets.Keys, requested, downloads)
      ensures AllAnswered(env, requested, downloads, aliases.Keys, sheets)
      ensures StoreIs(env, requested, downloads, aliases, sheets) && FromImports(env, requested, roots)
    {
      var batch, first := pending, downloads;
      pending, downloads := [], downloads + |batch|;
      ghost var all := requested;
      for i := 0 to |batch|
        invariant Valid() && StoreSound(env) && old(scheduled) <= scheduled
        invariant all <= requested && downloads == |all| == first + |batch| && all[first..] == batch
        invariant StoredByNow(sheets.Keys, all, first + i)
        invariant AllAnswered(env, all, first + i, aliases.Keys, sheets)
        invariant StoreIs(env, all, first + i, aliases, sheets) && FromImports(env, requested, roots)
      {
        ProcessNext(env, batch[i], all, first + i, roots);
      }
      StoredInLonger(sheets.Keys, all, requested, downloads);
      StoreInLonger(env, all, requested, downloads, aliases, sheets);
    }
  }

  lemma NothingStored(env: Env, requested: seq<Request>)
    ensures StoreIs(env, requested, 0, map[], map[])
  {
    forall u ensures AliasIs(env, requested, 0, map[], u) {
    }
  }

  /** What is queued for the sheet of download `n` comes from its imports. */
  lemma NewRequests(env: Env, all: seq<Request>, before: seq<Request>, requested: seq<Request>, roots: nat, n: nat,
                    known: map<string, string>)
    requires all <= before <= requested && n < |all| && Got(env, all, n) && FromImports(env, before, roots)
    requires forall u :: AliasIs(env, all, n, known, u)
    requires AnswerOf(env, all, n).responseUrl !in known
    requires RequestsOfImports(env, SheetAt(env, all, n), all[n].depth, requested, |before|)
    ensures FromImports(env, requested, roots)
  {
    assert AliasIs(env, all, n, known, AnswerOf(env, all, n).responseUrl);
    LedToInLonger(env, all, before, n, AnswerOf(env, all, n).responseUrl);
    FromImportsInLonger(env, before, requested, roots, n);
  }

  /** Every stored key is among the first `n` requests. */
  ghost predicate StoredByNow(stored: set<string>, requested: seq<Request>, n: nat)
  {
    n <= |requested| && forall s :: s in stored ==> Requested(requested[..n], s)
  }

  lemma AnsweredNext(env: Env, requested: seq<Request>, n: nat, known: set<string>, sheets: map<string, Sheet>,
                     moreKnown: set<string>, more: map<string, Sheet>)
    requires n < |requested| && AllAnswered(env, requested, n, known, sheets) && DistinctKeys(requested)
    requires known <= moreKnown && more.Keys <= sheets.Keys + {requested[n].key}
    requires forall s :: s in sheets ==> s in more && more[s] == sheets[s]
    requires Answered(env, requested[n], n, moreKnown, more)
    ensures AllAnswered(env, requested, n + 1, moreKnown, more)
  {
    forall j | 0 <= j < n ensures Answered(env, requested[j], j, moreKnown, more) {
      assert Answered(env, requested[j], j, known, sheets);
      assert requested[j].key != requested[n].key;
    }
  }

  lemma StoredNext(before: set<string>, stored: set<string>, requested: seq<Request>, n: nat)
    requires StoredByNow(before, requested, n) && n < |requested|
    requires stored <= before + {requested[n].key}
    ensures StoredByNow(stored, requested, n + 1)
  {
    assert requested[..n + 1] == requested[..n] + [requested[n]];
    forall s | s in stored ensures Requested(requested[..n + 1], s) {
      if s in before {
        var i :| 0 <= i < n && requested[..n][i].key == s;
        assert requested[..n + 1][i].key == s;
      } else {
        assert requested[..n + 1][n].key == s;
      }
    }
  }

  lemma StoredInLonger(stored: set<string>, requested: seq<Request>, more: seq<Request>, n: nat)
    requires StoredByNow(stored, requested, n) && requested <= more
    ensures StoredByNow(stored, more, n)
  {
    assert more[..n] == requested[..n];
  }

  lemma OneMoreHandled(env: Env, sheet: Sheet, i: nat, known: set<string>, scheduled: set<string>)
    requires i < |sheet.imports|
    requires SheetHandled(env, sheet.(imports := sheet.imports[..i]), known, scheduled)
    requires ImportHandled(env, sheet, i, known, scheduled)
    ensures SheetHandled(env, sheet.(imports := sheet.imports[..i + 1]), known, scheduled)
  {
    var shorter, longer := sheet.(imports := sheet.imports[..i]), sheet.(imports := sheet.imports[..i + 1]);
    forall j | 0 <= j <= i ensures ImportHandled(env, longer, j, known, scheduled) {
      assert j < i ==> ImportHandled(env, shorter, j, known, scheduled);
    }
  }

  /** First the roots, then only imports of sheets stored before. */
  ghost predicate RootsThenImports(env: Env, base: string, links: seq<string>, inlineUrls: seq<string>,
                                   requested: seq<Request>)
  {
    exists n :: 0 <= n <= |requested| && RootRequests(env, base, links, inlineUrls, requested[..n], 0)
                && FromImports(env, requested, n)
  }

  /** Queue the document's linked sheets at depth 0 and its inline imports at depth 1, then load. */
  method FetchStylesheets(env: Env, base: string, links: seq<string>, inlineImports: seq<Import>)
    returns (loader: Loader, roots: seq<string>)
    ensures fresh(loader) && loader.Valid() && loader.StoreSound(env)
    ensures loader.pending == [] && loader.downloads == |loader.requested| <= MAX_STYLESHEET_RESOURCES
    ensures forall s :: s in loader.sheets ==> Requested(loader.requested, s)
    ensures AllAnswered(env, loader.requested, loader.downloads, loader.aliases.Keys, loader.sheets)
    ensures StoreIs(env, loader.requested, |loader.requested|, loader.aliases, loader.sheets)
    ensures RootsThenImports(env, base, links, ImportUrls(inlineImports), loader.requested)
    ensures roots == RootKeys(env, base, links + ImportUrls(inlineImports))
    ensures forall r :: r in roots ==> r in loader.scheduled
  {
    loader := new Loader();
    roots := loader.ScheduleRoots(env, base, links, inlineImports);
    ghost var first := loader.requested;
    loader.Run(env);
    assert loader.requested[..|first|] == first;
  }

  /** After loading, alias lookup is idempotent and always ends at a stored sheet. */
  lemma AliasLookup(g: Graph, key: string)
    requires AliasesSettled(g.aliases, g.sheets)
    ensures Canonical(g, Canonical(g, key)) == Canonical(g, key)
    ensures key in g.aliases ==> Canonical(g, key) in g.sheets
  {
  }

  // ---------- where downloads lead ----------

  /** Every answered download leads to the sheet of its leader, and `LedTo` says where any other URL
      leads; what leads nowhere has no alias. */
  lemma LeadsToLeader(env: Env, requested: seq<Request>, aliases: map<string, string>, sheets: map<string, Sheet>,
                      n: nat)
    requires StoreIs(env, requested, |requested|, aliases, sheets) && DistinctKeys(requested)
    requires n < |requested| && Got(env, requested, n)
    ensures requested[n].key in aliases && aliases[requested[n].key] in sheets
    ensures sheets[aliases[requested[n].key]] == SheetAt(env, requested, Leader(env, requested, n))
    ensures var m := Leader(env, requested, n);
      var sheet, answer := sheets[aliases[requested[n].key]], AnswerOf(env, requested, m);
      && sheet.responseUrl == answer.responseUrl && sheet.rules == answer.rules
      && sheet.imports == if requested[m].depth < 4 then answer.imports else []
  {
    assert AliasIs(env, requested, |requested|, aliases, requested[n].key);
    OwnDownload(env, requested, |requested|, n);
    LeaderStored(env, requested, n);
    assert StoredIs(env, requested, Leader(env, requested, n), sheets);
  }

  lemma {:induction false} LeaderStored(env: Env, requested: seq<Request>, n: nat)
    requires n < |requested| && Got(env, requested, n)
    ensures Stored(env, requested, Leader(env, requested, n))
    decreases n
  {
    var u := AnswerOf(env, requested, n).responseUrl;
    var j := KeyDownload(env, requested, n, u);
    if j.Some? {
      LeaderStored(env, requested, j.value);
    } else {
      var m := FirstFrom(env, requested, n, u);
      if m.Some? {
        KeyDownloadEarlier(env, requested, m.value, n, u);
        FirstFromLeast(env, requested, m.value, u);
      }
    }
  }

  lemma {:induction false} KeyDownloadEarlier(env: Env, requested: seq<Request>, m: nat, n: nat, u: string)
    requires m <= n <= |requested| && KeyDownload(env, requested, n, u).None?
    ensures KeyDownload(env, requested, m, u).None?
    decreases n
  {
    if m < n {
      KeyDownloadEarlier(env, requested, m, n - 1, u);
    }
  }

  lemma FirstFromLeast(env: Env, requested: seq<Request>, m: nat, u: string)
    requires m <= |requested|
    requires forall j :: 0 <= j < m && Got(env, requested, j) ==> AnswerOf(env, requested, j).responseUrl != u
    ensures FirstFrom(env, requested, m, u).None?
  {
  }

  lemma OwnDownload(env: Env, requested: seq<Request>, n: nat, j: nat)
    requires DistinctKeys(requested) && j < n <= |requested| && Got(env, requested, j)
    ensures KeyDownload(env, requested, n, requested[j].key) == Some(j)
  {
    var k := KeyDownload(env, requested, n, requested[j].key);
    assert k.Some?;
  }

  /** The response URL of the sheet that an answered download leads to. */
  function SheetUrl(env: Env, requested: seq<Request>, n: nat): string
    requires n < |requested| && Got(env, requested, n)
  {
    AnswerOf(env, requested, Leader(env, requested, n)).responseUrl
  }

  /** The key that is the response URL of download `n` was downloaded before, and led elsewhere. */
  ghost predicate LedAway(env: Env, requested: seq<Request>, n: nat)
    requires n < |requested| && Got(env, requested, n)
  {
    exists j :: 0 <= j < n && Got(env, requested, j) && requested[j].key == AnswerOf(env, requested, n).responseUrl
                && SheetUrl(env, requested, j) != AnswerOf(env, requested, n).responseUrl
  }

  /** A download leads to a sheet from its own response URL exactly unless it was led away, and then to
      that of the first answer from there. */
  lemma LeadsToItsResponse(env: Env, requested: seq<Request>, n: nat)
    requires DistinctKeys(requested) && n < |requested| && Got(env, requested, n)
    ensures SheetUrl(env, requested, n) == AnswerOf(env, requested, n).responseUrl <==> !LedAway(env, requested, n)
    ensures forall j :: 0 <= j < Leader(env, requested, n) && Got(env, requested, j) ==>
      AnswerOf(env, requested, j).responseUrl != SheetUrl(env, requested, n)
  {
    LeaderStored(env, requested, n);
    StoredIsFirst(env, requested, Leader(env, requested, n));
    var u := AnswerOf(env, requested, n).responseUrl;
    var j := KeyDownload(env, requested, n, u);
    if j.Some? {
      LeadsBack(env, requested, n, j.value);
      assert SheetUrl(env, requested, n) == SheetUrl(env, requested, j.value);
      assert forall k :: 0 <= k < n && requested[k].key == u ==> k == j.value;
    } else {
      assert SheetUrl(env, requested, n) == u;
    }
  }

  lemma LeadsBack(env: Env, requested: seq<Request>, n: nat, j: nat)
    requires n < |requested| && Got(env, requested, n) && j < n && Got(env, requested, j)
    requires KeyDownload(env, requested, n, AnswerOf(env, requested, n).responseUrl) == Some(j)
    ensures Leader(env, requested, n) == Leader(env, requested, j)
  {
  }

  /** A sheet of its own is that of the first answer from its response URL. */
  lemma StoredIsFirst(env: Env, requested: seq<Request>, m: nat)
    requires m < |requested| && Stored(env, requested, m)
    ensures forall j :: 0 <= j < m && Got(env, requested, j) ==>
      AnswerOf(env, requested, j).responseUrl != AnswerOf(env, requested, m).responseUrl
  {
  }

  /** Every download of `key` was answered. */
  ghost predicate GotAnswer(env: Env, requested: seq<Request>, key: string)
  {
    forall n :: 0 <= n < |requested| && requested[n].key == key ==> env.net(n, key).Some?
  }

  /** What the loader guarantees, joined up: below the cap, every import of a stored sheet that
      joins, is not blocked and got its answers leads by its alias to a stored sheet, the one that its
      download was led to. */
  lemma ImportsLeadToSheets(env: Env, g: Graph, requested: seq<Request>, scheduled: set<string>, s: string, i: nat)
    requires AliasesSettled(g.aliases, g.sheets) && RequestsSound(requested, scheduled)
    requires AllImportsHandled(env, g.aliases.Keys, g.sheets, scheduled)
    requires AllAnswered(env, requested, |requested|, g.aliases.Keys, g.sheets)
    requires StoreIs(env, requested, |requested|, g.aliases, g.sheets)
    requires |scheduled| < MAX_STYLESHEET_RESOURCES
    requires s in g.sheets && i < |g.sheets[s].imports|
    ensures match env.keyOf(g.sheets[s].responseUrl, g.sheets[s].imports[i].url)
      case None => true
      case Some(key) => !env.blocked(key) && GotAnswer(env, requested, key) ==>
        Canonical(g, key) in g.sheets && IsLedTo(env, requested, key, g.sheets[Canonical(g, key)])
  {
    assert SheetHandled(env, g.sheets[s], g.aliases.Keys, scheduled);
    assert ImportHandled(env, g.sheets[s], i, g.aliases.Keys, scheduled);
    var joined := env.keyOf(g.sheets[s].responseUrl, g.sheets[s].imports[i].url);
    if joined.Some? && joined.value in scheduled && joined.value !in g.aliases {
      assert Requested(requested, joined.value);
      var n :| 0 <= n < |requested| && requested[n].key == joined.value;
      assert Answered(env, requested[n], n, g.aliases.Keys, g.sheets);
    }
    if joined.Some? && joined.value in g.aliases {
      KnownIsLedTo(env, g, requested, joined.value);
    }
  }

  /** `sheet` is the one `key` is led to: that of the leader of its own download when it has one, else
      the first answered from it. */
  ghost predicate IsLedTo(env: Env, requested: seq<Request>, key: string, sheet: Sheet)
  {
    var own, from := KeyDownload(env, requested, |requested|, key), FirstFrom(env, requested, |requested|, key);
    if own.Some? then sheet == SheetAt(env, requested, Leader(env, requested, own.value))
    else from.Some? && sheet == SheetAt(env, requested, from.value)
  }

  lemma KnownIsLedTo(env: Env, g: Graph, requested: seq<Request>, key: string)
    requires DistinctKeys(requested) && StoreIs(env, requested, |requested|, g.aliases, g.sheets) && key in g.aliases
    ensures g.aliases[key] in g.sheets && IsLedTo(env, requested, key, g.sheets[g.aliases[key]])
  {
    assert AliasIs(env, requested, |requested|, g.aliases, key);
    var own := KeyDownload(env, requested, |requested|, key);
    if own.Some? {
      LeadsToLeader(env, requested, g.aliases, g.sheets, own.value);
    } else {
      var m := FirstFrom(env, requested, |requested|, key).value;
      KeyDownloadEarlier(env, requested, m, |requested|, key);
      FirstFromLeast(env, requested, m, key);
      assert StoredIs(env, requested, m, g.sheets);
    }
  }

  /** A download led away: the second sheet was answered from the address of the first, which itself
      had been answered from elsewhere. */
  lemma RedirectedAway()
    ensures exists env: Env, requested: seq<Request> ::
      DistinctKeys(requested) && |requested| == 2 && Got(env, requested, 1) && LedAway(env, requested, 1)
  {
    var requested := [Request("a", 0), Request("b", 0)];
    var env := Env((base, url) => None, key => false,
                   (n, key) => Some(Answer(if key == "a" then "c" else "a", [], "")));
    assert Got(env, requested, 0) && Got(env, requested, 1);
    assert AnswerOf(env, requested, 0).responseUrl == "c" && AnswerOf(env, requested, 1).responseUrl == "a";
    assert Leader(env, requested, 0) == 0;
    assert SheetUrl(env, requested, 0) == "c";
    assert LedAway(env, requested, 1);
  }
}
