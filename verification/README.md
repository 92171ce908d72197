# Verified core of the headless browser

The repository is a headless browser driven over the Chrome DevTools Protocol (CDP). This project
models the parts of it that carry real algorithms or protocols and proves what they are for. URL
parsing and joining, the network, the clock, scripts and JSON are parameters; every theorem holds
for all of their behaviours unless its row says otherwise.

| files | component |
|---|---|
| `ImportMap`, `ImportMapStability`, `ImportMapLaws` | module import maps: merge, resolve, what decides an answer, and why it never changes |
| `CdpWatchdog` | the shared V8 watchdog: the object and all interleavings of its threads |
| `CssUrls`, `CssUrlLaws`, `StylesheetGraph`, `StylesheetLoader` | rewriting `url(...)`, expanding and downloading stylesheets |
| `UrlPattern` | the URL pattern matcher of request blocking |
| `HtmlSerializer`, `HtmlWorklist`, `HtmlDecoder` | the HTML serializer with an explicit stack, and a decoder for its output |
| `HtmlCycles`, `HtmlInsertion` | when the serializer hits its cap, and which insertions bring that about |
| `IoStreams`, `PortableIo`, `PortableIoRuns`, `PortableIoLaws` | the byte-budgeted stream store and the IO commands |
| `ActionQueue` | the host action queue |
| `Pages`, `CdpContext`, `Dispatch`, `LiveRuntimes`, `TargetLaws` | pages, sessions, contexts, and where JS runtimes live |
| `Connection`, `ConnectionRuns`, `ConnectionLaws` | the command scheduler of one connection |
| `Base64`, `PageRanges` | two codecs |
| `Wrappers`, `Machine`, `Text`, `Ordering`, `Walks` | shared vocabulary |

Objects that the program updates in place are classes; each method's contract gives the new state as
a function of the old one, and what that function is good for is proved about it as lemmas over
all inputs and all runs. The modules named Laws say what those functions are without naming them, in
terms of texts, keys, tables and pages alone. `dafny verify dfyconfig.toml` checks everything.

## Findings

Where a promise turned out not to hold, the code is modelled as it is, the failing case is shown, and
the exact condition under which the promise holds is proved.

* **One live runtime per connection.** The comments in `server.rs` and `dispatch.rs` promise at most
  one live V8 isolate. `Target.createTarget` with a url other than `about:blank` loads the new page
  without suspending any other, and so does one carried by `Target.sendMessageToTarget`; two live
  runtimes are reachable either way (`ConnectionRuns.TwoRuntimesReachable`, with the frames a client
  sends). That command, plain or inside any number of wrappers, while another page is live, is the
  only way (`LiveRuntimes.DispatchKeepsOneExactly`, `ConnectionRuns.StepKeepsOneExactly`), and a
  navigation always runs alone (`ConnectionRuns.NavigationRunsAlone`).
* **Glob matching.** The greedy matcher never searches again, so it accepts exactly the urls that
  match and, unless the pattern ends in `*`, have no matching proper prefix
  (`UrlPatterns.AcceptsMeansShortest`). It is complete for a pattern if and only if the pattern has
  no `*` or ends in one (`UrlPatterns.CompleteExactly`); `*a` misses `aba`
  (`UrlPatterns.StarAMissesAba`).
* **The serializer's cap.** A comment in `serialize.rs` says that the insertion guards keep the graph
  free of cycles, so the cap is never reached. Where no node has two owners, it is reached if and only
  if a cycle of visits can be reached from the node (`HtmlCycles.OuterCapExactly`,
  `HtmlCycles.InnerCapExactly`). The guard climbs parent links and steps from a shadow root to its
  host, but never from template contents to their template. An insertion closes a cycle exactly when
  visits led from the node to the children of its new parent, and the guard refuses exactly those
  that do so without template contents on the way (`HtmlInsertion.GuardSeesExactly`). So where there
  was no cycle before, `append_child` and `insert_before` leave the node's markup cut off if and only
  if such visits led through template contents (`HtmlInsertion.AppendCutsExactly`,
  `HtmlInsertion.InsertBeforeCutsExactly`). A template appended to its own contents is the simplest
  case, with or without ordinary children (`HtmlInsertion.OwnContentsCut`,
  `HtmlInsertion.TemplatesCut`).
* **Text of `textarea` and `title`.** The serializer writes it as it stands, like that of scripts and
  styles. The HTML Living Standard (section 13.1.2) has character references read there, so a title
  with the text `&lt;` comes back as `<` (`HtmlDecoder.TitleLost`). Text that does not look like an
  end tag comes back if and only if nothing in it reads as a reference (`HtmlDecoder.EscapableExactly`).
* **Stylesheet redirects.** An answered download is meant to lead to the sheet from its response URL.
  It does exactly unless that URL was itself requested before and led elsewhere; then it leads where
  that request does (`StylesheetLoader.LeadsToItsResponse`, `StylesheetLoader.RedirectedAway`).
* **Action queue limit.** `enqueue` checks `ready + pending >= 512` but adds to both. The sum goes
  beyond 512 exactly at a successful enqueue into a queue that holds 511
  (`Actions.LimitExceededExactly`); 256 enqueues, a drain of one and another enqueue do it
  (`Actions.LimitExceeded`). It never exceeds 513 (`Actions.RunKeepsSound`).
* **Stream owners.** The owner table lists exactly the live streams after every command except an
  insertion that evicts streams and then finds the handle counter exhausted
  (`PortableIoRuns.OwnersMatchStreams`), and throughout a run if and only if it has no such step
  (`PortableIoRuns.RunStaysExact`). A run gets there, but only through 2^64 - 1 insertions
  (`PortableIoRuns.TrackLost`), and no run leaves a live stream without an owner
  (`PortableIoRuns.OwnedRun`).
* **Prefix lists.** `parse` lists a prefix once for every member whose normalized key it is: the
  members `./a/` and `http://h/a/` of a map at `http://h/` list one prefix twice
  (`ImportMaps.RepeatedPrefix`). The list is strictly descending if and only if no two members share
  a slash-ended normalized key (`ImportMaps.ParseSpecifiers`). `merge` adds only keys that are new, so
  it keeps a list as free of repeats as it was (`ImportMaps.MergeSpecifiers`) and that of the
  document's imports is always strict; a scope that `merge` appends keeps its repeats
  (`ImportMaps.ImportMap.AddScope`). No answer depends on this.
* **Blank pages.** No failure, but a narrow escape: `navigate_blank` does not clear the started-script
  ids saved by a suspension. A later resume starts the blank document with none exactly because none
  of them is a script of that document (`Pages.BlankInheritsExactly`), which has no scripts.

## Model

| member | source | states |
|---|---|---|
| ImportMaps.ResolveMatch | crates/obscura-js/src/import_map.rs:217-266 | The search loop gives the plain rule's answer: the exact key, else the longest slash-ended key that prefixes the specifier; a null rule blocks, an address that backtracks or cannot be joined is an error. |
| ImportMaps.FirstPrefixIsLongest | crates/obscura-js/src/import_map.rs:232-266 | On descending prefixes the first that fits is the longest key of the table that fits, so first hit and longest match agree. |
| ImportMaps.NoPrefixNoMatch | crates/obscura-js/src/import_map.rs:232-266 | When no listed prefix fits, no key of the table does. |
| ImportMaps.FirstScopeIsLongest | crates/obscura-js/src/import_map.rs:121-145 | On descending distinct scopes the first applicable scope with an answer is the longest applicable one that has an answer. |
| ImportMaps.NoScopeNoMatch | crates/obscura-js/src/import_map.rs:121-145 | When no listed applicable scope answers, none among all prefixes of the referrer does. |
| ImportMaps.RemoveRulesAffecting | crates/obscura-js/src/import_map.rs:208-215 | Pruning keeps `prefixes` the descending list of exactly the slash-ended keys that remain. |
| ImportMaps.MergeSpecifiers | crates/obscura-js/src/import_map.rs:196-206 | Old rules win on a key clash, every other new rule is added, the sorted prefix list again lists exactly the slash-ended keys, and it is free of repeats if and only if the old one was. |
| ImportMaps.ParseSpecifiers | crates/obscura-js/src/import_map.rs:176-194 | The loop over JSON members yields, under each normalized key, the rule of the last member with that key, null when its address is unusable, with a coherent prefix list that is strictly descending if and only if no two members share a slash-ended normalized key. |
| ImportMaps.SlashKeysDistinct | crates/obscura-js/src/import_map.rs:176-194 | The prefixes pushed by the loop are distinct if and only if no two members share a slash-ended normalized key. |
| ImportMaps.RepeatedPrefix | crates/obscura-js/src/import_map.rs:176-194 | Two different members of one object that are listed under one prefix. |
| ImportMaps.ParseScopes | crates/obscura-js/src/import_map.rs:46-70 | Succeeds exactly when every scope whose prefix is a URL is an object; the result is the written scopes, other prefixes left out, stably sorted by descending prefix. |
| ImportMaps.Parse | crates/obscura-js/src/import_map.rs:26-87 | Succeeds exactly when the base parses and imports, scopes, integrity and every usable scope are objects, and then holds the parsed imports and the sorted scopes. |
| ImportMaps.ImportMap.Merge | crates/obscura-js/src/import_map.rs:89-119 | The new state is the plain merge of the pruned new map, and scopes end up distinct and descending with coherent rules. |
| ImportMaps.ImportMap.PruneAdded | crates/obscura-js/src/import_map.rs:94-104 | The nested loops remove, record by record, the rules that record is affected by, from the imports and from each scope that applies to its referrer. |
| ImportMaps.ImportMap.AddScope | crates/obscura-js/src/import_map.rs:107-117 | One scope is merged under its prefix, or appended as it stands when there is none, leaving every other scope's rules alone. |
| ImportMaps.ImportMap.Resolve | crates/obscura-js/src/import_map.rs:121-156 | The loop over the scopes and the imports gives the answer that `ImportMapLaws.AnswerExactly` determines, and records the lookup exactly when it succeeds. |
| ImportMaps.ImportMap.RememberResolution | crates/obscura-js/src/import_map.rs:158-172 | A lookup is recorded once. |
| ImportMaps.SortedTable | crates/obscura-js/src/import_map.rs:118 | Sorting the scopes changes neither which prefixes there are nor the rules under any. |
| Ordering.SortIsStable | crates/obscura-js/src/import_map.rs:69 | Sorting by descending prefix keeps scopes with one prefix in their order. |
| ImportMapStability.LongestPrefixDecides | crates/obscura-js/src/import_map.rs:217-266 | The answer is that of the fitting slash-ended key no other fitting key is longer than, and a null rule there blocks instead of falling through to a shorter key (HTML Living Standard, section 8.1.5). |
| ImportMapStability.LongestScopeDecides | crates/obscura-js/src/import_map.rs:121-145 | The scopes' answer is that of the applicable scope with an answer than which no longer one has an answer. |
| ImportMapStability.AffectsExactly | crates/obscura-js/src/import_map.rs:208-215 | The pruning test holds of a rule exactly when that rule alone would answer the recorded lookup. |
| ImportMapStability.PrunedImportsExactly | crates/obscura-js/src/import_map.rs:94-97 | A new import survives pruning exactly when no recorded lookup is affected by it. |
| ImportMapStability.PrunedScopeExactly | crates/obscura-js/src/import_map.rs:98-103 | A new scoped rule survives exactly when no recorded lookup whose referrer the scope applies to is affected by it. |
| ImportMapStability.MergedImports | crates/obscura-js/src/import_map.rs:89-106 | After a merge an old key keeps its rule, and a new key is present, with the new rule, exactly when no recorded lookup is affected by it. |
| ImportMapStability.UnaffectedMatch | crates/obscura-js/src/import_map.rs:106 | Adding rules that cannot answer a lookup does not change its answer. |
| ImportMapStability.UnaffectedScopes | crates/obscura-js/src/import_map.rs:107-117 | Adding pruned scopes does not change which scope answers a recorded lookup, nor how. |
| ImportMapStability.MergeKeepsAnswer | crates/obscura-js/src/import_map.rs:89-119 | No merge changes the answer to a recorded lookup. |
| ImportMapStability.RecordedStays | crates/obscura-js/src/import_map.rs:89-172 | No run of merges and resolves changes it either. |
| ImportMapStability.ResolutionIsStable | crates/obscura-js/src/import_map.rs:89-172 | From an empty map, once a resolve succeeds with a URL, the same resolve gives that URL after every later interleaving of merges and resolves. |
| ImportMapLaws.AnswerExactly | crates/obscura-js/src/import_map.rs:121-156 | An answer is right if and only if it is that of the longest scope over the referrer with a rule that speaks of the specifier, else that of the top-level rules, else the specifier itself when it is a URL. In one set of rules the longest key decides: the specifier itself or a slash-ended key it begins with; null blocks, and what is behind a prefix is joined to its address and has to stay below it. |
| ImportMapLaws.MatchLaw | crates/obscura-js/src/import_map.rs:217-266 | The same of one set of rules, which is silent exactly when no key speaks of the specifier. |
| ImportMapLaws.RecordsSuccess | crates/obscura-js/src/import_map.rs:121-172 | A resolve records its specifier, referrer and kind exactly when it succeeds, and changes no rule. |
| ImportMapLaws.MergedScopes | crates/obscura-js/src/import_map.rs:98-118 | A scoped rule of the old map stays; a new one is there exactly when it could answer no lookup recorded from under its scope. |
| ImportMapLaws.MergedScopeRule | crates/obscura-js/src/import_map.rs:107-117 | Of several added scopes with one prefix the first to offer a rule gives it. |
| ImportMapLaws.ParsedExactly | crates/obscura-js/src/import_map.rs:268-277 | A parsed object has a rule under exactly the keys of its members, a key being the URL it stands for next to the base, else itself, and the empty key none. |
| ImportMapLaws.ParsedRule | crates/obscura-js/src/import_map.rs:176-194 | Its address is the URL that the last such member gives, dropped when it is no text or no URL, or when a slash-ended key gets an address without a slash at its end. |
| ImportMapLaws.ParsedScopesExactly | crates/obscura-js/src/import_map.rs:46-70 | A scope is parsed for every object member whose prefix joins the base. |
| ImportMapLaws.SectionIs | crates/obscura-js/src/import_map.rs:37-47 | A section of the map is the object under that name. |
| Watchdog.Shared.Scan | crates/obscura-js/src/cdp_watchdog.rs:54-81 | One pass fires exactly the overrun slots, each isolate once, keeps the others, and sleeps until the nearest remaining deadline or without limit when there is none. |
| Watchdog.Shared.FireExpired | crates/obscura-js/src/cdp_watchdog.rs:58-69 | The loop removes exactly the overrun slots, sets exactly their flags and terminates each once. |
| Watchdog.Shared.NearestDuration | crates/obscura-js/src/cdp_watchdog.rs:73-77 | The minimum loop finds the time to the nearest deadline. |
| Watchdog.Shared.Arm | crates/obscura-js/src/cdp_watchdog.rs:94-110 | Arming adds one slot under a generation never used before and touches no other. |
| Watchdog.Shared.Disarm | crates/obscura-js/src/cdp_watchdog.rs:115-122 | Disarming removes that slot only and reports whether its flag was set. |
| Watchdog.ArmKeepsInv | crates/obscura-js/src/cdp_watchdog.rs:94-110 | Arming keeps tables and history in agreement and the worker's plan sound. |
| Watchdog.DisarmKeepsInv | crates/obscura-js/src/cdp_watchdog.rs:115-122 | So does disarming. |
| Watchdog.FireKeepsInv | crates/obscura-js/src/cdp_watchdog.rs:64-69 | So does firing. |
| Watchdog.RunKeepsInv | crates/obscura-js/src/cdp_watchdog.rs:51-122 | The invariant holds in every state of every interleaving of arming, disarming, worker steps, wake-ups and clock ticks. |
| Watchdog.FiresOnceOnTime | crates/obscura-js/src/cdp_watchdog.rs:58-69 | A slot fires at most once, after it was armed, not before its deadline, and never after its disarm. |
| Watchdog.DisarmTellsTheTruth | crates/obscura-js/src/cdp_watchdog.rs:112-122 | Disarm returns true exactly when that slot was terminated, in the whole history, and the slot is gone. |
| Watchdog.ArmsNeverCollide | crates/obscura-js/src/cdp_watchdog.rs:91-110 | Concurrent arms get generations never armed before and overwrite no slot. |
| Watchdog.NoDeadlineLost | crates/obscura-js/src/cdp_watchdog.rs:70-81 | While the worker waits and a slot is armed, a timeout is set no later than that deadline plus the time from the clock reading to the start of the wait. |
| Watchdog.SleepsOnlyAsNeeded | crates/obscura-js/src/cdp_watchdog.rs:70-81 | A timeout is always that of some armed slot, with the same slack. |
| Watchdog.WorkerCatchesUp | crates/obscura-js/src/cdp_watchdog.rs:51-83 | From any state where the worker is ready or its timeout is due, its own steps alone, the clock standing still, reach a state where exactly the overdue slots have fired and it waits again. |
| Watchdog.WorkerFinishes | crates/obscura-js/src/cdp_watchdog.rs:58-81 | In the middle of firing, its own steps fire what is left of what the scan found expired and put it to sleep. |
| Watchdog.OverdueFires | crates/obscura-js/src/cdp_watchdog.rs:51-83 | From every reachable state, without a notification or a spurious wake-up, the worker's own steps and at most one waiting out of its timeout reach a state where exactly the slots due by its time have fired; the clock moves on only for an overdue slot, no further than its deadline plus the time between clock reading and wait. |
| Watchdog.RoundIsScan | crates/obscura-js/src/cdp_watchdog.rs:54-81 | Every round of the worker in the state machine, from taking the lock to the wait, the clock moving meanwhile, does to the table what `Scan` does and sleeps as long. |
| CssUrls.ScanString | crates/obscura-browser/src/page.rs:400-417 | The character loop finds the end of a quoted string, escapes respected. |
| CssUrls.ScanUrl | crates/obscura-browser/src/page.rs:427-453 | The character loop finds the closing parenthesis of `url(`, quotes and escapes respected. |
| CssUrls.RewriteToken | crates/obscura-browser/src/page.rs:454-484 | A `url(...)` is replaced by the escaped resolved URL exactly when its value is non-empty, not a fragment, has no `var(`, is not absolute and joins; everything else is copied. |
| CssUrls.Rebase | crates/obscura-browser/src/page.rs:381-487 | The main loop terminates and its output is the rewriting of the input token by token. |
| CssUrls.TokensCover | crates/obscura-browser/src/page.rs:384-486 | The tokens of a text, put together, are the text. |
| CssUrls.OutputByTokens | crates/obscura-browser/src/page.rs:381-487 | The output is the tokens of the input with only `url(...)` tokens replaced: comments, strings and all other text are copied unchanged and in order. |
| CssUrls.UrlTextIsToken | crates/obscura-browser/src/page.rs:472-482 | Whatever the resolver returns, the escaped replacement is read back as one `url(...)` token, whatever follows it. |
| CssUrls.SameBoundaries | crates/obscura-browser/src/page.rs:381-487 | Tokenizing the output gives the rewritten tokens of the input, with the same boundaries, for every resolver. |
| CssUrls.PlainResultsSuffice | crates/obscura-browser/src/page.rs:463-471 | Resolver results that are absolute and free of quotes and backslashes satisfy the assumption of `RebaseTwice`. |
| CssUrls.RebaseTwice | crates/obscura-browser/src/page.rs:381-487 | Rewriting is idempotent when the escaped results of the resolver parse as absolute URLs. |
| CssUrlLaws.FirstTokenExactly | crates/obscura-browser/src/page.rs:384-453 | The first token is a comment up to its first end, a string up to its first unescaped quote, or a `url(` up to its first closing parenthesis outside strings and escapes, each to the end of the text when it does not close; or one character. No other token is taken. |
| CssUrlLaws.OutputTokens | crates/obscura-browser/src/page.rs:381-487 | The output has the tokens of the input in their places: all but `url(...)` as they were, and a `url(...)` whose value is `v` as it was when `v` is empty, begins with `#`, has `var(` in it, is absolute or does not join, else as the joined URL in double quotes. The value is what stands between blanks, without its quotes. |
| CssUrlLaws.CallHasValue | crates/obscura-browser/src/page.rs:454-462 | Every `url(...)` token has such a value. |
| CssUrlLaws.CallBecomes | crates/obscura-browser/src/page.rs:454-484 | The same of one token, whatever blanks and quotes are around its value. |
| CssUrlLaws.EscapeReads | crates/obscura-browser/src/page.rs:472-482 | Reading the escaped URL as a CSS string gives the URL. |
| StylesheetGraph.Materialize | crates/obscura-browser/src/page.rs:338-375 | The recursion over the mutable active set terminates on every graph, equals the functional expansion, and leaves the active set as it found it on every path. |
| StylesheetGraph.MaterializeImport | crates/obscura-browser/src/page.rs:353-372 | One turn of its loop gives the block of that import, or nothing, and leaves the active set as it was. |
| StylesheetGraph.CutClosesCycle | crates/obscura-browser/src/page.rs:344-351 | When the active sheets are those of an import path, a cut below its end closes a cycle of imports reachable from its start. |
| StylesheetGraph.CycleCuts | crates/obscura-browser/src/page.rs:344-351 | Along an import path that comes back to one of its sheets, the expansion of every sheet on it has a cut. |
| StylesheetGraph.CutsOnlyBackEdges | crates/obscura-browser/src/page.rs:338-375 | Expanding a stored sheet leaves out a stored sheet somewhere, at any depth, if and only if a cycle of imports is reachable from it. |
| StylesheetGraph.ImportsComeFirst | crates/obscura-browser/src/page.rs:353-372 | The blocks of any two imports stand in the expansion in the order of the imports, and the sheet's own rules come last. |
| StylesheetGraph.AcyclicGraphExpandsFully | crates/obscura-browser/src/page.rs:335-375 | Where no cycle of imports can be reached from a sheet, whatever there is elsewhere, its guarded expansion is the unguarded recursive one (CSS Cascading and Inheritance Level 4, section 2). |
| StylesheetGraph.BlockEncloses | crates/obscura-browser/src/page.rs:353-372 | An import's block is its text and a line end, inside its media condition when it has one, and empty when it does not expand. |
| StylesheetGraph.PlainSheetExpands | crates/obscura-browser/src/page.rs:373-374 | A sheet without imports expands to its own rules, rebased on its response URL. |
| StylesheetLoader.RequestMore | crates/obscura-browser/src/page.rs:1194-1208 | Queueing one more key below the cap keeps queued keys distinct, at most 128, at depth at most 4, and all scheduled. |
| StylesheetLoader.AliasAdded | crates/obscura-browser/src/page.rs:1160-1164 | A redirect to a known response adds an alias that leads to a stored sheet and keeps responses distinct. |
| StylesheetLoader.SheetAdded | crates/obscura-browser/src/page.rs:1172-1181 | Storing a sheet keeps every alias pointing to a stored sheet that is its own alias, and no two sheets from one response URL. |
| StylesheetLoader.AnsweredNext | crates/obscura-browser/src/page.rs:1141-1210 | Settling one more download keeps every earlier one settled: an answer's key is known and a sheet under its key is that answer's. |
| StylesheetLoader.Loader.Process | crates/obscura-browser/src/page.rs:1141-1210 | One result stores nothing; or, when its response URL is known, makes its key an alias of where that leads; or stores its sheet under its key and makes key and response URL lead to it, and asks for its imports one level deeper. No other sheet changes, and all imports of stored sheets are handled. |
| StylesheetLoader.Loader.ScheduleImports | crates/obscura-browser/src/page.rs:1186-1209 | Afterwards each import of the sheet is unusable, known, scheduled, blocked or beyond the cap. |
| StylesheetLoader.Loader.ScheduleRoots | crates/obscura-browser/src/page.rs:1040-1087 | The roots are the usable, unblocked linked sheets and inline imports in order, each scheduled; linked ones are requested at depth 0, inline ones that are not linked at depth 1. |
| StylesheetLoader.Loader.Run | crates/obscura-browser/src/page.rs:1090-1211 | For any network answers the work loop terminates with every queued key downloaded once, all imports handled, every further request an import of a sheet stored before, one level deeper, and aliases and sheets exactly what the answers make of them (`LeadsToLeader`). |
| StylesheetLoader.FetchStylesheets | crates/obscura-browser/src/page.rs:1040-1211 | The whole loader: at most 128 downloads of distinct keys at depth at most 4, first the roots and then imports of stored sheets, pairwise distinct response URLs, and every key leading where the answers lead it. |
| StylesheetLoader.StoreNext | crates/obscura-browser/src/page.rs:1141-1181 | One more answer keeps aliases and sheets what the history of answers makes of them: a URL leads where the answer to its own download leads, else to the first download answered from it. |
| StylesheetLoader.LeadsToLeader | crates/obscura-browser/src/page.rs:1160-1181 | Every answered download leads to a stored sheet with the response URL, the rules and, above the depth limit, the imports of the download that leads it. |
| StylesheetLoader.LeadsToItsResponse | crates/obscura-browser/src/page.rs:1160-1181 | That sheet is from its own response URL if and only if no earlier download of that URL led elsewhere, and it is always the first answer from where it is. |
| StylesheetLoader.RedirectedAway | crates/obscura-browser/src/page.rs:1160-1164 | A download answered from a URL that had itself been answered from elsewhere. |
| StylesheetLoader.RootKeysMembers | crates/obscura-browser/src/page.rs:1043-1087 | A key is a root exactly when some reference joins to it and it is not blocked. |
| StylesheetLoader.RootKeysInOrder | crates/obscura-browser/src/page.rs:1043-1087 | Roots stand in the order of the references. |
| StylesheetLoader.ImportsLeadToSheets | crates/obscura-browser/src/page.rs:1141-1211 | With what `FetchStylesheets` ensures and below the cap of 128, every kept import of a stored sheet that joins, is not blocked and was answered leads by its alias to a stored sheet, the one its own download was led to. |
| StylesheetLoader.AliasLookup | crates/obscura-browser/src/page.rs:344 | With settled aliases, alias lookup is idempotent and ends at a stored sheet. |
| UrlPatterns.Matches | crates/obscura-browser/src/page.rs:3540-3565 | The matcher's verdict, early returns included, is whether finding the parts leftmost succeeds and leaves nothing unless the pattern ends in a star. |
| UrlPatterns.FindParts | crates/obscura-browser/src/page.rs:3546-3563 | The loop that shrinks the remainder finds each part at its leftmost place, the first at the front, and leaves what is behind the last. |
| UrlPatterns.WildByParts | crates/obscura-browser/src/page.rs:3540-3565 | A declarative wildcard match is the same as an arrangement of the pattern's parts. |
| UrlPatterns.ConsumedIsLeast | crates/obscura-browser/src/page.rs:3540-3565 | The greedy search ends at the shortest prefix of the url that matches, and finds one whenever there is one. |
| UrlPatterns.AcceptsMeansShortest | crates/obscura-browser/src/page.rs:3540-3565 | The matcher accepts a url exactly when it matches and, unless the pattern ends in a star, no proper prefix of it does. |
| UrlPatterns.CompleteExactly | crates/obscura-browser/src/page.rs:3540-3565 | Every accepted url matches; every matching url is accepted if and only if the pattern has no star or ends in one. |
| UrlPatterns.MissedMatch | crates/obscura-browser/src/page.rs:3564 | For every other pattern, a url that matches and is rejected. |
| UrlPatterns.StarAMissesAba | crates/obscura-browser/src/page.rs:3564 | `*a` matches `aba` and rejects it. |
| HtmlWorklist.PopConserves | crates/obscura-dom/src/serialize.rs:50-176 | Each kind of popped work item, with what it writes and pushes, stands for the same text as before and one step less. |
| HtmlWorklist.CostWithinCap | crates/obscura-dom/src/serialize.rs:50-62 | On every well-formed arena, nested template contents included, a serialization takes at most `2 * slots + 16` steps, so the cap is never hit. |
| HtmlWorklist.SiblingsDisjoint | crates/obscura-dom/src/serialize.rs:42-48 | Subtrees of distinct children of one node share no node. |
| HtmlWorklist.Perform | crates/obscura-dom/src/serialize.rs:69-174 | One turn of the loop writes and pushes what `PopConserves` is about, for every kind of node; `HtmlDecoder` says what that text is. |
| HtmlWorklist.SerializeWorklist | crates/obscura-dom/src/serialize.rs:50-176 | On any arena, well-formed or not, the stack loop writes what its first `2 * slots + 16` pops write and stops at the cap if work is left then; `HtmlCycles` says when that is. |
| HtmlWorklist.RunsOut | crates/obscura-dom/src/serialize.rs:50-176 | On a well-formed arena as many pops as the stack costs empty it and write its recursive rendering. |
| HtmlWorklist.SerializerIsPrinter | crates/obscura-dom/src/serialize.rs:16-176 | On every well-formed arena outer and inner markup are the recursive rendering of the node and of its contents, and the work ends within the cap. |
| HtmlWorklist.OuterHtml | crates/obscura-dom/src/serialize.rs:16-20 | The outer markup is what the loop writes from the node's own work item, within the cap; `SerializerIsPrinter` says what that is. |
| HtmlWorklist.InnerHtml | crates/obscura-dom/src/serialize.rs:22-30 | The inner markup is what the loop writes from the children, a template's contents for a template, within the cap; `SerializerIsPrinter` says what that is. |
| HtmlWorklist.OuterWrapsInner | crates/obscura-dom/src/serialize.rs:16-48 | The outer markup given for a non-void element is its open tag, the inner markup given for it (a template's contents for a template) and its close tag. |
| HtmlCycles.EdgesAreVisits | crates/obscura-dom/src/serialize.rs:69-174 | The edges between nodes are what the loop pushes: a visit of one node pushes a visit of the other. |
| HtmlCycles.CycleNeverEnds | crates/obscura-dom/src/serialize.rs:50-176 | On every arena, once a node from which a cycle can be reached waits on the stack, work is left after any number of pops. |
| HtmlCycles.NextIsNew | crates/obscura-dom/src/serialize.rs:50-176 | Where no node has two owners and no cycle can be reached, what a visit pushes has neither been visited nor waits already. |
| HtmlCycles.PopRunsOut | crates/obscura-dom/src/serialize.rs:50-62 | Then every pop uses up the budget of two steps for each slot not yet visited and one for each closing tag. |
| HtmlCycles.OuterCapExactly | crates/obscura-dom/src/serialize.rs:50-62 | Where no node has two owners, the outer markup of a node is cut off at the cap if and only if a cycle of visits can be reached from it, and then it would be at any cap. |
| HtmlCycles.InnerCapExactly | crates/obscura-dom/src/serialize.rs:50-62 | The inner markup is cut off if and only if a cycle of visits can be reached from one of the node's children, a template's contents for a template. |
| HtmlCycles.WellFormedHasNoCycle | crates/obscura-dom/src/serialize.rs:50-62 | Well-formed arenas are among these: each node has one owner and no cycle of visits can be reached. |
| HtmlInsertion.DomTree.WouldCreateCycle | crates/obscura-dom/src/tree.rs:762-793 | The bounded walk from the destination to its root, shadow roots stepping to their hosts, for a node that has children or a shadow root; `GuardSeesExactly` says what it finds. |
| HtmlInsertion.DomTree.Detach | crates/obscura-dom/src/tree.rs:1032-1080 | The node leaves its parent's list and has no parent; the document and shadow roots stay. |
| HtmlInsertion.DomTree.AppendChild | crates/obscura-dom/src/tree.rs:858-942 | Nothing happens when the two are one node, either is missing, the child is a shadow root or the guard refuses; otherwise the child is detached and put last under the parent. |
| HtmlInsertion.DomTree.InsertBefore | crates/obscura-dom/src/tree.rs:944-1026 | The same with the parent of the node to insert in front of, and the place found after detaching. |
| HtmlInsertion.InsertedAt | crates/obscura-dom/src/tree.rs:905-938 | An insertion changes the lists of the old and the new parent and the parent link of the node, and nothing else; no list gets a repeat. |
| HtmlInsertion.InsertedInPlace | crates/obscura-dom/src/tree.rs:905-1026 | The children of the new parent are the others in their order, with the node right in front of the one it was inserted before, or last. |
| HtmlInsertion.SoundKeptExactly | crates/obscura-dom/src/tree.rs:858-1026 | Afterwards nodes have one owner each and links agree with lists if and only if neither template contents nor the document was inserted. |
| HtmlInsertion.InsertionClosesExactly | crates/obscura-dom/src/tree.rs:858-1026 | An insertion closes a cycle of visits if and only if visits led from the node to the children of its new parent. |
| HtmlInsertion.GuardSeesExactly | crates/obscura-dom/src/tree.rs:751-793 | Of the insertions that would close a cycle the guard refuses exactly those that do so without template contents on the way. |
| HtmlInsertion.AppendCutsExactly | crates/obscura-dom/src/tree.rs:858-942 | After `append_child` the child's outer markup is cut off if and only if, before it, visits led from the child to the children of the parent through template contents. |
| HtmlInsertion.InsertBeforeCutsExactly | crates/obscura-dom/src/tree.rs:944-1026 | The same of `insert_before`. |
| HtmlInsertion.OwnContentsCut | crates/obscura-dom/src/tree.rs:751-793 | Every template appended to its own contents is cut off, wherever the cap is. |
| HtmlInsertion.TemplatesCut | crates/obscura-dom/src/tree.rs:762-775 | Two such trees: an empty template, which passes by the leaf test, and one with an ordinary child, which passes the whole walk. |
| HtmlSerializer.AppendEscapedText | crates/obscura-dom/src/serialize.rs:179-188 | The loop appends the text with `&`, `<` and `>` escaped. |
| HtmlSerializer.AppendEscapedAttr | crates/obscura-dom/src/serialize.rs:190-198 | The loop appends the value with `&` and `"` escaped. |
| HtmlDecoder.TextUnescapes | crates/obscura-dom/src/serialize.rs:179-188 | Unescaping undoes text escaping. |
| HtmlDecoder.TextHasNoTags | crates/obscura-dom/src/serialize.rs:179-188 | Escaped text has no bare `<` or `>`. |
| HtmlDecoder.AttrUnescapes | crates/obscura-dom/src/serialize.rs:190-198 | Unescaping undoes attribute escaping, which leaves no bare quote. |
| HtmlDecoder.ReadAttrsPrint | crates/obscura-dom/src/serialize.rs:100-111 | Reading a printed attribute list gives the attributes back, prefixes included, and stops behind the tag. |
| HtmlDecoder.ReadForestPrint | crates/obscura-dom/src/serialize.rs:50-176 | Reading the markup of a forest, with the end or a closing tag behind it, gives the forest and stops there. |
| HtmlDecoder.DecodePrint | crates/obscura-dom/src/serialize.rs:50-176 | The decoder recovers every legal element from its markup: with texts, comments, void elements and text elements inside. |
| HtmlDecoder.RenderIsPrint | crates/obscura-dom/src/serialize.rs:16-176 | Rendering an arena that holds a tree prints that tree, a template being printed from its contents. |
| HtmlDecoder.SerializationDecodes | crates/obscura-dom/src/serialize.rs:16-206 | The decoder recovers the tree from the outer markup given for any arena that holds it, and its children from the inner markup, which for a script, style, textarea or title is its text as it stands. |
| HtmlDecoder.SerializationInjective | crates/obscura-dom/src/serialize.rs:16-206 | Equal outer markup means equal trees, and so does equal inner markup of two text elements or of two others for the children, across arenas. |
| HtmlDecoder.TagKinds | crates/obscura-dom/src/serialize.rs:200-210 | The void elements and the ones with raw text are those of the HTML Living Standard, section 13.1.2, and `textarea` and `title`. |
| HtmlDecoder.RawTextVerbatim | crates/obscura-dom/src/serialize.rs:130-146 | The inner markup of a script, style, textarea or title is the text of its text nodes put together, unescaped. |
| HtmlDecoder.EscapableExactly | crates/obscura-dom/src/serialize.rs:130-146 | A textarea or title with a text that does not look like an end tag is read back if and only if nothing in it reads as a character reference. |
| HtmlDecoder.TitleLost | crates/obscura-dom/src/serialize.rs:130-146 | A title with the text `&lt;` is not. |
| HtmlDecoder.CommentMarkup | crates/obscura-dom/src/serialize.rs:147-166 | A comment is its text between `<!--` and `-->`, with every `>` in it as a reference and nothing else changed. |
| HtmlDecoder.DeclarationMarkup | crates/obscura-dom/src/serialize.rs:90-172 | Doctypes and processing instructions are written from their parts. |
| HtmlDecoder.PlainTextKept | crates/obscura-dom/src/serialize.rs:179-188 | Text without `&`, `<` and `>` is written as it is. |
| HtmlDecoder.PlainAttrKept | crates/obscura-dom/src/serialize.rs:190-198 | A value without `&` and `"` is written as it is. |
| IoStreams.KeptIsLongest | crates/obscura-cdp/src/io.rs:85-97 | Eviction keeps a suffix of the insertion order that leaves room, and every longer one would not. |
| IoStreams.InsertKeepsSound | crates/obscura-cdp/src/io.rs:77-108 | Insertion, failing or not, keeps handles distinct and issued, the total within the byte limit and the count within the entry limit. |
| IoStreams.FreshHandle | crates/obscura-cdp/src/io.rs:99-100 | The next handle belongs to no stored stream. |
| IoStreams.RunKeepsSound | crates/obscura-cdp/src/io.rs:77-135 | So does every run of inserts, reads and removals, which hands out consecutive handles. |
| IoStreams.HandlesNeverReused | crates/obscura-cdp/src/io.rs:99-100 | No run hands out a handle twice. |
| IoStreams.RunGoesOn | crates/obscura-cdp/src/io.rs:77-135 | A run hands out a handle for each insertion that succeeds on what the run before it left. |
| IoStreams.IoStreamStore.Insert | crates/obscura-cdp/src/io.rs:77-108 | The tables represent the new abstract store: the longest suffix with room plus the new stream; too large a body or an exhausted counter is an error. `order` lists the live handles once each and `totalBytes` is the sum of their lengths. |
| IoStreams.IoStreamStore.EvictFor | crates/obscura-cdp/src/io.rs:85-97 | The eviction loop leaves exactly the suffix that `KeptIsLongest` describes. |
| IoStreams.IoStreamStore.Read | crates/obscura-cdp/src/io.rs:111-127 | Returns the encoded bytes of the span and whether it reaches the end, and moves that stream's cursor only. |
| IoStreams.IoStreamStore.Remove | crates/obscura-cdp/src/io.rs:130-135 | Removes that stream from all three tables, and an unknown handle changes nothing. |
| PortableIo.IoState.Insert | crates/obscura-cdp/src/portable_io.rs:35-41 | Owners of evicted streams go and the new stream is its inserter's; a failing insert leaves the owners. |
| PortableIo.IoState.CloseConnection | crates/obscura-cdp/src/portable_io.rs:43-53 | The loop frees exactly the connection's streams. |
| PortableIo.IoState.Dispatch | crates/obscura-cdp/src/portable_io.rs:64-131 | Reply and new state for every request: other commands, missing handle, wrong owner, zero size, offset out of range, chunk, end of stream. |
| PortableIoRuns.CommandOnEntry | crates/obscura-cdp/src/portable_io.rs:64-131 | A command moves or frees a stream only for its owner, and frees it in both tables. |
| PortableIoRuns.StrangersAreIsolated | crates/obscura-cdp/src/portable_io.rs:73-85 | A command or disconnect of a connection that does not own a stream neither reads, moves nor frees it. |
| PortableIoRuns.OwnedStep | crates/obscura-cdp/src/portable_io.rs:35-131 | Every step keeps each live stream owned. |
| PortableIoRuns.OwnedRun | crates/obscura-cdp/src/portable_io.rs:35-131 | No run leaves a live stream without an owner. |
| PortableIoRuns.OwnersMatchStreams | crates/obscura-cdp/src/portable_io.rs:35-41 | A step keeps owner keys equal to stream keys if and only if it is not an insertion that must evict with the handle counter exhausted. |
| PortableIoRuns.RunStaysExact | crates/obscura-cdp/src/portable_io.rs:35-131 | A run keeps the owner table exact in every state if and only if none of its steps is that insertion. |
| PortableIoRuns.FewInsertionsKeepTrack | crates/obscura-cdp/src/portable_io.rs:35-41 | No run with at most as many insertions as there are handles left has such a step. |
| PortableIoRuns.TrackLost | crates/obscura-cdp/src/portable_io.rs:35-41 | A run that comes to the excepted step: after 2^64 - 1 insertions the next one evicts a stream, fails and leaves its owner behind. |
| PortableIoRuns.ChunkIsBounded | crates/obscura-cdp/src/portable_io.rs:86-130 | A chunk is the next bytes, as many as asked for up to one MiB and the end, and says eof exactly at the end. |
| PortableIoRuns.ChunksReassemble | crates/obscura-cdp/src/portable_io.rs:86-130 | In every run the offset-free reads of a stream deliver consecutive pieces of its body; once one says eof they add up to the whole body and the handle is dead, and while the stream lives none has. |
| PortableIoRuns.ReadingFinishes | crates/obscura-cdp/src/portable_io.rs:86-130 | In any run that does not take the stream away, more of its owner's offset-free reads than there are bytes left, of any positive sizes, deliver all of them, say eof and free the handle. |
| PortableIoRuns.DeadStaysDead | crates/obscura-cdp/src/portable_io.rs:122-125 | A dead handle stays dead and yields nothing more in any run. |
| PortableIoLaws.CloseFrees | crates/obscura-cdp/src/portable_io.rs:72-81 | `IO.close` is answered whoever sends it; from the owner it frees the stream in both tables and leaves all others, from anyone else it changes nothing. |
| PortableIoLaws.ClosedYieldsNothing | crates/obscura-cdp/src/portable_io.rs:72-81 | After it nothing is read of that stream in any run. |
| PortableIoLaws.ReadGives | crates/obscura-cdp/src/portable_io.rs:86-130 | A read gives the bytes from its offset, else from the cursor, as many as asked for up to one MiB and the end, and says eof exactly there. |
| PortableIoLaws.ReadLeaves | crates/obscura-cdp/src/portable_io.rs:118-131 | Afterwards the stream is freed at the end, else only its cursor has moved; all others are as they were. |
| PortableIoLaws.ReadFailsExactly | crates/obscura-cdp/src/portable_io.rs:82-121 | A read fails for another's handle, a size of zero or an offset behind the end, with the codes of each, and then changes nothing. |
| PortableIoLaws.OtherRequests | crates/obscura-cdp/src/portable_io.rs:64-71 | Other commands are left to others, and one without a handle fails; neither changes anything. |
| PortableIoLaws.InsertStores | crates/obscura-cdp/src/io.rs:77-108 | A body that fits is stored last under `stream-` and the next number and is its inserter's; what is left of the others is the longest end of the insertion order with room for it, with its owners. |
| PortableIoLaws.InsertRefused | crates/obscura-cdp/src/io.rs:77-100 | One that does not fit, or finds the handles used up, is refused and nobody owns it. |
| PortableIoLaws.DisconnectFrees | crates/obscura-cdp/src/portable_io.rs:43-53 | A disconnect frees every stream of the connection and no other. |
| Actions.ActionQueue.Reset | crates/obscura-cdp/src/action.rs:57-61 | Forgets every ready and pending action and keeps the id counter. |
| Actions.ActionQueue.Enqueue | crates/obscura-cdp/src/action.rs:63-78 | Full, too large and exhausted are told apart in that order, and only success issues an id and adds to both tables. |
| Actions.ActionQueue.Drain | crates/obscura-cdp/src/action.rs:80-83 | Takes the oldest ready actions, as many as allowed. |
| Actions.ActionQueue.Complete | crates/obscura-cdp/src/action.rs:85-96 | Uses up the pending entry even when the result is stale. |
| Actions.ActionQueue.Cancel | crates/obscura-cdp/src/action.rs:98-104 | Removes the action from both tables. |
| Actions.RunKeepsSound | crates/obscura-cdp/src/action.rs:57-104 | In every run pending entries carry the current generation, ready ids increase and `ready + pending` is at most 513. |
| Actions.LimitExceededExactly | crates/obscura-cdp/src/action.rs:63-78 | From at most 512 entries an operation leads beyond 512 if and only if it is a successful enqueue into a queue holding 511. |
| Actions.LimitExceeded | crates/obscura-cdp/src/action.rs:63-78 | A new queue reaches 513 by 256 enqueues, a drain of one and one more enqueue. |
| Actions.IssuedIdsIncrease | crates/obscura-cdp/src/action.rs:72-77 | Issued ids are consecutive, across resets. |
| Actions.DrainedInOrderOnce | crates/obscura-cdp/src/action.rs:80-83 | Over any run drained ids strictly increase, so each action is drained at most once and in order. |
| Actions.AcceptedOnce | crates/obscura-cdp/src/action.rs:85-96 | Over any run no id is accepted twice, and only ids pending or issued later are. |
| Actions.ResetForgets | crates/obscura-cdp/src/action.rs:57-61 | No id issued before a reset is accepted after it. |
| Actions.CancelIsFinal | crates/obscura-cdp/src/action.rs:95-104 | A cancelled id is neither drained nor accepted afterwards. |
| Actions.EnqueueAnswers | crates/obscura-cdp/src/action.rs:63-78 | The three refusals in their order, and on success the next id, the current generation and the last place. |
| Actions.CompletionAnswers | crates/obscura-cdp/src/action.rs:85-92 | A completion is accepted exactly when its action is pending and both carry the generation of the queue; it is unknown when not pending and stale otherwise; the entry is used up whatever the answer. |
| Actions.OtherGenerationIsStale | crates/obscura-cdp/src/action.rs:85-92 | In every sound queue a pending action's completion is stale exactly when it carries another generation than the queue. |
| Actions.DrainTakes | crates/obscura-cdp/src/action.rs:80-83 | Draining takes the first actions, as many as asked for, at most 512 and all there are. |
| Actions.CancelAndResetLeave | crates/obscura-cdp/src/action.rs:57-104 | A cancel takes a pending action from both tables and changes nothing otherwise; a reset forgets all but the next id. |
| Actions.AcceptsGoOn | crates/obscura-cdp/src/action.rs:85-92 | A run accepts exactly the completions that succeed on what the run before them left. |
| Actions.DrainsGoOn | crates/obscura-cdp/src/action.rs:80-83 | It drains, in order, what each drain takes from what the run before it left. |
| Pages.Page.SuspendJs | crates/obscura-browser/src/page.rs:3373-3386 | Document and started ids move out of the runtime, which goes. |
| Pages.Page.InitJs | crates/obscura-browser/src/page.rs:897-912 | A new realm takes the stored document and no started id. |
| Pages.Page.ResumeJs | crates/obscura-browser/src/page.rs:3388-3397 | A suspended page gets its document and those saved ids that are scripts of it. |
| Pages.Page.NavigateBlank | crates/obscura-browser/src/page.rs:2568-2577 | The runtime goes, the blank document is stored, and the saved ids stay. |
| Pages.SwitchesKeepPage | crates/obscura-browser/src/page.rs:3373-3397 | Any number of suspend and resume switches keeps a page's document and started ids. |
| Pages.RoundTripKeepsExactly | crates/obscura-js/src/runtime.rs:2279-2294 | One round trip keeps the started ids if and only if they are scripts of the document, as the restore filter demands. |
| Pages.NewDocumentInheritsNothing | crates/obscura-browser/src/page.rs:897-902 | A loaded document has no started script, whatever the page was before, and none after any switches. |
| Pages.BlankInheritsExactly | crates/obscura-browser/src/page.rs:2568-2577 | A resumed blank page has no started script if and only if no saved id is a script of the blank document. |
| CdpContexts.CdpContext.GetSessionPageMut | crates/obscura-cdp/src/dispatch.rs:316-337 | Suspends the first other live page only, resumes the target, and gives its index exactly when session and page exist; with distinct ids that page is live. |
| CdpContexts.CdpContext.CreatePageInContext | crates/obscura-cdp/src/dispatch.rs:214-231 | A known context gets a blank page with the next id; an unknown one changes nothing. |
| CdpContexts.CdpContext.RemovePage | crates/obscura-cdp/src/dispatch.rs:286-302 | The page, its loader id and every session of it go. |
| CdpContexts.CdpContext.DisposeBrowserContext | crates/obscura-cdp/src/dispatch.rs:258-276 | The default and unknown contexts are refused; otherwise the loop removes the context's pages one by one and returns their ids. |
| CdpContexts.DisposeRemovesExactly | crates/obscura-cdp/src/dispatch.rs:258-276 | Exactly the pages of that context and the sessions of those pages are gone. |
| CdpContexts.ActivationCount | crates/obscura-cdp/src/dispatch.rs:316-337 | Activating leaves as many live runtimes as there were, or one if there was none and the page exists, never more. |
| Dispatch.Run | crates/obscura-cdp/src/server.rs:1392-1440 | A dispatched request, wrapped or not, has its command's own effect on pages, sessions and contexts, followed by the uses of the page it was routed to and, for the inline navigation, of the outer session's page. |
| Dispatch.DispatchFor | crates/obscura-cdp/src/dispatch.rs:413-419 | Dispatch unwraps `Target.sendMessageToTarget` first and dispatches what it carries for the session the wrapper names. |
| Dispatch.WrappersOnlyRoute | crates/obscura-cdp/src/dispatch.rs:594-648 | However deeply wrapped, a command has the effect it has plainly, on the session that its innermost wrapper names, or else its own. |
| Dispatch.HandleCreateTarget | crates/obscura-cdp/src/domains/target.rs:63-99 | Creates the page and its session, and loads the url into it without touching any other page. |
| Dispatch.Touch | crates/obscura-cdp/src/dispatch.rs:316-337 | One use of a session's page changes, besides the switch of runtimes, that page only. |
| TargetLaws.TargetIsCreated | crates/obscura-cdp/src/domains/target.rs:63-99 | A created target is one more page, the last, with the next id, in the named context or the default one, blank or as its load left it, and with its session. |
| TargetLaws.TargetIsRefused | crates/obscura-cdp/src/domains/target.rs:68-85 | In an unknown context or for a forbidden file url nothing changes. |
| TargetLaws.TargetIsClosed | crates/obscura-cdp/src/dispatch.rs:286-302 | Closing takes the pages, the loader and the sessions of that id, and nothing else. |
| TargetLaws.SessionsChange | crates/obscura-cdp/src/domains/target.rs:139-237 | Attaching to a page adds one session with a number of its own, attaching to the browser its session, detaching takes one away; pages and other sessions stay. |
| TargetLaws.ContextIsCreated | crates/obscura-cdp/src/domains/target.rs:244-247 | A created context has a new number, and nothing else changes. |
| TargetLaws.ActivationAt | crates/obscura-cdp/src/dispatch.rs:316-337 | Page by page: when none with the session's id is live, the first other live page is suspended and the first with the id resumed; every other page stays. |
| TargetLaws.SuspendedPage | crates/obscura-browser/src/page.rs:3373-3386 | Where document and started ids of a suspended page are, with and without a document in its runtime. |
| TargetLaws.ResumedPage | crates/obscura-browser/src/page.rs:3388-3397 | A resumed page has a runtime with its document and those saved ids that are scripts of it. |
| TargetLaws.TouchedAt | crates/obscura-cdp/src/dispatch.rs:316-337 | A use of the session's page leaves what foreign code made of it under its own id and context, and touches no other page but the one suspended for it. |
| TargetLaws.WrapperRoutes | crates/obscura-cdp/src/dispatch.rs:594-648 | A wrapper hands what it carries to the session it names, else to the one the carried request names. |
| TargetLaws.UsesFollow | crates/obscura-cdp/src/server.rs:1392-1440 | The uses of the outer session's page come after the dispatch, in order. |
| LiveRuntimes.TouchedCount | crates/obscura-cdp/src/dispatch.rs:316-337 | Using a session's page never leaves more live runtimes than there were, or than one, whatever scripts do to the page. |
| LiveRuntimes.NewPageKeepsIds | crates/obscura-cdp/src/dispatch.rs:222-230 | A new page's id belongs to no page, so ids stay distinct. |
| LiveRuntimes.EffectCount | crates/obscura-cdp/src/domains/target.rs:88-97 | Only a target created with a url raises the number of live runtimes, by one when its load left a runtime; every other command, once unwrapped, leaves at most as many as there were. |
| LiveRuntimes.DispatchedCount | crates/obscura-cdp/src/server.rs:1392-1440 | A dispatched request never leaves more live runtimes than its command's own effect, or than one, whatever scripts do. |
| LiveRuntimes.DispatchKeepsOneExactly | crates/obscura-cdp/src/domains/target.rs:88-97 | From at most one live runtime a dispatched request leaves at most one for all outcomes if and only if it does not, itself or inside wrappers, create a target with a url while a page is live. |
| Connections.Processor.Process | crates/obscura-cdp/src/server.rs:838-866 | Navigations go to the navigation path, texts with `Fetch.` first to the fetch handler, everything else to dispatch. |
| Connections.Processor.StartNavigation | crates/obscura-cdp/src/server.rs:1131-1187 | The session's page is taken out and every other live page suspended; without session or page the command is dispatched plainly. |
| Connections.Processor.HandleFetchResolution | crates/obscura-cdp/src/server.rs:1078-1121 | The paused request named is released whatever the method is, and counts as resolved exactly for the three resolution methods. |
| Connections.Processor.DrainOne | crates/obscura-cdp/src/server.rs:725-731 | The oldest deferred command is processed before anything new is read. |
| Connections.Processor.Receive | crates/obscura-cdp/src/server.rs:1271-1323 | During a navigation a resolution is handled, a command is deferred, or refused when 256 wait; otherwise it is processed at once. |
| Connections.Processor.FinishNavigation | crates/obscura-cdp/src/server.rs:1252-1342 | The page comes back under its own id, behind the others. |
| Connections.Processor.Connect | crates/obscura-cdp/src/server.rs:1274-1280 | A client that connects during a navigation gets a new page and its session; at other times no page is made. |
| Connections.Processor.PauseRequest | crates/obscura-cdp/src/server.rs:1258-1273 | An intercepted request waits under its id when it can be shown to the client. |
| Connections.Processor.PumpLivePage | crates/obscura-cdp/src/server.rs:956-961 | A turn of the event loop touches the first live page only and leaves it live. |
| Connections.Processor.TakeFrame | crates/obscura-cdp/src/server.rs:1036-1046 | A screencast frame between commands uses its session's page once. |
| Connections.Processor.NavigateLive | crates/obscura-cdp/src/server.rs:778-800 | A navigation started by a script takes its page out like a commanded one. |
| ConnectionRuns.NextKeepsInv | crates/obscura-cdp/src/server.rs:729-880 | Every event keeps page ids distinct (the page out included), other runtimes suspended during a navigation, and the queue in step with the history. |
| ConnectionRuns.CommandsInOrder | crates/obscura-cdp/src/server.rs:1252-1326 | In every run each command received has exactly one fate; the accepted ones in order of arrival are those processed followed by those waiting, at most 256; one is turned away only during a navigation, as a resolution by its text or because 256 wait. |
| ConnectionRuns.NavigationRunsAlone | crates/obscura-cdp/src/server.rs:1172-1187 | In every run, while a navigation holds a page, no other page has a runtime. |
| ConnectionRuns.StepKeepsOneExactly | crates/obscura-cdp/src/server.rs:867-873 | From at most one live runtime, the page out included, a step leaves at most one for all outcomes if and only if it does not dispatch a target creation with a url, plain or wrapped, while a page is live. |
| ConnectionRuns.AtMostOneRuntime | crates/obscura-cdp/src/server.rs:729-880 | Every run without such a step keeps at most one live runtime throughout, the screencast between commands included. |
| ConnectionRuns.TwoRuntimesReachable | crates/obscura-cdp/src/domains/target.rs:88-97 | Two frames as a client sends them, a target creation and then another, plain or wrapped in `Target.sendMessageToTarget`, reach two. |
| ConnectionRuns.NavigationReturnsPage | crates/obscura-cdp/src/server.rs:1131-1342 | Whatever arrives meanwhile, a navigation ends with the page it took back under its id and context, the other pages in order, suspended with document and started scripts, plus one page per client that connected, and nothing processed in between. |
| ConnectionLaws.HandledWhenIdle | crates/obscura-cdp/src/server.rs:838-866 | A command that mentions `Fetch.` lets the paused request it names go and keeps the others; when it resolves it by one of the three methods that is all, else it is dispatched; one that does not mention it is dispatched. |
| ConnectionLaws.HandledNavigation | crates/obscura-cdp/src/server.rs:1131-1187 | A navigation takes the first page with its session's id out and leaves the others in order, suspended; without one it is dispatched plainly. |
| ConnectionLaws.ReceivedWhenBusy | crates/obscura-cdp/src/server.rs:1282-1323 | During a navigation a command that mentions one of the three resolving methods lets the request it names go at once, any other waits unless 256 wait already, and no page is touched. |
| ConnectionLaws.OtherEvents | crates/obscura-cdp/src/server.rs:1252-1342 | What a new connection, an intercepted request and the end of a navigation do. |
| ConnectionLaws.PumpReaches | crates/obscura-cdp/src/server.rs:956-961 | A turn of the event loop reaches the first live page only, which stays that page and live. |
| Base64.CollectSextets | crates/obscura-cdp/src/server.rs:1443-1453 | The values of the alphabet characters in order, everything else skipped. |
| Base64.Decode | crates/obscura-cdp/src/server.rs:1442-1465 | The chunk loop, with its 8-bit shifts, unpacks the sextets four at a time. |
| Base64.PackedTriple | crates/obscura-cdp/src/server.rs:1456-1464 | The shifts recover three bytes from their four sextets. |
| Base64.DecodeEncode | crates/obscura-cdp/src/server.rs:1442-1465 | Decoding inverts the encoder of RFC 4648, section 4, for every byte string. |
| Base64.JunkIsSkipped | crates/obscura-cdp/src/server.rs:1443-1453 | Bytes outside the alphabet, padding included, change nothing wherever they are inserted. |
| Base64.SextetIsPlace | crates/obscura-cdp/src/server.rs:1443-1453 | The value of a byte is its place in the alphabet of RFC 4648, section 4, and a byte outside it has none. |
| Base64.FitsExactly | crates/obscura-cdp/src/portable_render.rs:41-54 | The inline check holds if and only if the response with the encoded body in its envelope is within the output limit. |
| PageRanges.Parse | crates/obscura-cdp/src/portable_render.rs:116-161 | The whole parser with its limits: too long, too many parts, and the first bad part's error. |
| PageRanges.AcceptedAreValid | crates/obscura-cdp/src/portable_render.rs:126-159 | Accepted ranges are at most 512, with positive 32-bit ends, start not above end, and at least one end given. |
| PageRanges.ParsePrint | crates/obscura-cdp/src/portable_render.rs:116-161 | Parsing undoes printing for every list of at most 512 valid ranges, closed, open or single, and the printed form fits 16384 bytes. |
| PageRanges.PrintIsNormalForm | crates/obscura-cdp/src/portable_render.rs:116-161 | Printing what was parsed and parsing again gives the same ranges. |
| PageRanges.AcceptsExactly | crates/obscura-cdp/src/portable_render.rs:116-161 | A text is accepted as given ranges if and only if it is a text of those ranges: blank for none, else at most 512 parts with commas between them in 16384 bytes, each a page or two pages with one dash, one of which may be missing, not descending, with any blanks around parts and pages. |
| PageRanges.PartExactly | crates/obscura-cdp/src/portable_render.rs:124-159 | The same of one part. |
| PageRanges.SpanAnswers | crates/obscura-cdp/src/portable_render.rs:144-158 | A part with one dash between two pages is that range, or fails as a bare dash when both are missing and as descending when they descend. |
| PageRanges.TwoDashes | crates/obscura-cdp/src/portable_render.rs:144-147 | A part with two dashes fails as a bad range. |

## Left out

- URLs: a URL is its serialization, and `parse`, `join`, special schemes and canonical keys are arbitrary functions of it.
- Splitting a stylesheet into imports and rules (`split_css_imports`) is part of the network's answer.
- `media` of an inline import and the assembly of the final list of author stylesheets: settled by one branch.
- The DOM arena has child lists instead of sibling links. Of the tree code only `append_child` and `insert_before` with their guard and detaching are modelled; connectedness, the id index, style invalidation, removal and parsing are not.
- HtmlInsertion.AppendCutsExactly: like `HtmlInsertion.InsertBeforeCutsExactly` not stated when the inserted node is itself template contents, because it then has two owners; page scripts cannot insert them, since the children of a fragment are moved one by one (`crates/obscura-js/js/bootstrap.js`, line 2051).
- HtmlCycles.OuterCapExactly: arenas in which a node has two owners can reach the cap without a cycle; of those only the one direction, `HtmlCycles.CycleNeverEnds`, is stated. That the markup is the tree's is for well-formed arenas.
- Doctypes and processing instructions are printed by the model but kept out of the decoder's trees; so are comments with a `>`, which is not read back, and texts that hold `</` in a text element.
- Counters of the watchdog and of pages, contexts and sessions are unbounded; those of streams (64 bits) and actions (32 bits) are not.
- Nested values (a scope's rules inside an import map, a page inside a connection) are replaced in their owner's field rather than shared and mutated.
- `decode_base64` ends with a lossy conversion to UTF-8, which the byte-level model stops before.
- JSON: requests, and those inside wrappers, arrive parsed; whether a text parses, and its fetch substring tests, are modelled. A wrapper whose message does not parse is a command that does nothing.
- The event pump may run at any idle moment, not only when armed; a screencast frame is one use of its page; replies, events, shutdown and logging are not modelled.
- That every fetch resolution is answered: unknown request ids are dropped silently during a navigation, so nothing of the kind holds.
- Cookie merging, network-idle tracking, history, viewport, robots and MIME checks, method tables: they would add easy members only.
- V8, the HTML parser, rendering, HTTP and WebSocket: foreign code, present as arbitrary outcomes.
