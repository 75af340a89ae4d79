# Verified model of mcp-webtools

mcp-webtools gives AI agents two web tools, `fetch` and `search`, and keeps a
history of their calls. This project models, in Dafny 4.11, the parts of it
where several functions or several concurrent calls have to agree, and proves
what its documentation promises about them. `dafny verify dfyconfig.toml`
checks everything.

## What is modelled

| file | models |
|---|---|
| `Bytes.dfy`, `Utf8.dfy` | byte strings; UTF-8 after section 3 of RFC 3629: the encoder, Go's forward and backward rune decoders, validity, and the boundary cut |
| `Lru.dfy`, `MemoryCache.dfy` | the byte-budgeted LRU cache with expiry: a function on one recency sequence, and the class (map, list, counter) that refines it |
| `LruTraces.dfy` | whole histories of the cache: freshness, budget, the stack property and inclusion |
| `Pages.dfy` | cutting a document into pages, by the memory route and the stream route, and the agent's `next_offset` loop |
| `Streams.dfy` | a response body as data plus a sticky ending (clean or broken, the failure possibly delivered with the last bytes), and the readers over it |
| `Keys.dfy` | the NUL-joined cache keys |
| `Fetcher.dfy` | the fetcher: atomic steps on its two caches, and the class with the methods of the source |
| `FetchRuns.dfy`, `FetchWalks.dfy` | runs in which the steps of any number of `Fetch` calls interleave while origins fail, break off or are slow |
| `FetchCalls.dfy` | the outcome of each call and the fields of each result, stated against call and reply alone |
| `Search.dfy` | the search tool and its runs |
| `Recorder.dfy` | the preview stored in history |
| `History.dfy`, `HistoryWalks.dfy` | the history table, and page walks interleaved with inserts and sweeps |
| `HumanRepo.dfy`, `FirstLogin.dfy` | `GetOrCreateHumanActor` as statements on two tables, and their interleavings |
| `Credentials.dfy` | agent tokens over runs of issue, authenticate, revoke, revoke-all |

Each class method is proved equal to a function of the old state, and the
properties are lemmas about that function. `FetchWalks.FetchIsARun` and
`FirstLogin.AloneIsARun` tie the sequential methods to the interleaved runs.

## Where the code does less than it says

The code is modelled as it is. Four statements hold only under a condition,
which is proved to be the exact one, or come with the failing input.

* The comment of `pageFromStream`/`pageFrom` treats the two routes as one.
  They return the same page exactly when the page is truncated, lies past the
  end, or its bytes end in a decodable rune (`Pages.RoutesAgreeExactly`); a
  document ending in half a rune is the failing input
  (`Pages.RoutesPartOnBrokenTail`).
* "A snapshot must be the whole document": a body one byte over the cache
  budget, of unannounced length, is stored without its last byte when pages are
  smaller than the budget, and only then (`FetchRuns.SnapshotsAreWhole`,
  `FetchWalks.StoredBodyIsItsReply`, `Streams.CaptureExactly`). `FetchRuns.ShortSnapshotExactly` says which of its
  pages are then wrong, `FetchRuns.OneByteIsLost` shows it happening.
* The loop over `next_offset` ends exactly when every rune fits in a page
  (`Pages.WalkEndsExactly`, `Pages.StallsExactly`); 4-byte pages suffice, 3-byte
  pages do not (`Pages.SmallPagesStall`).
* The loser of a first-login race does not store its role
  (`FirstLogin.LoserWritesNothing`).

## Model

| member | source | states |
|---|---|---|
| Utf8.DecodeInvertsEncode | internal/tools/fetch/fetch.go:409 | the rune decoder recovers every Unicode scalar value from the standard's encoding, whatever bytes follow |
| Utf8.EncodeInvertsDecode | internal/tools/fetch/fetch.go:409 | whatever it accepts is the one shortest encoding of a scalar value: no overlong forms, no surrogates |
| Utf8.ValidIffEncoded | internal/tools/fetch/fetch.go:402-406 | a byte string is valid UTF-8 exactly when some sequence of scalar values encodes to it |
| Utf8.Boundary | internal/tools/fetch/fetch.go:402-406 | inside valid text a position is a rune boundary exactly when its byte is not a continuation byte |
| Utf8.DecodeLastMeaning | internal/tools/fetch/fetch.go:409-410 | the backward decoder fails exactly on text that does not end in a rune, and otherwise decodes that last rune |
| Utf8.CutToUTF8Boundary | internal/tools/fetch/fetch.go:407-417 | the loop computes the cut the next three rows characterise |
| Utf8.CutIsLongest | internal/tools/fetch/fetch.go:399-417 | for arbitrary bytes, the longest prefix that is empty or ends in a decodable rune |
| Utf8.CutOfValid | internal/tools/fetch/fetch.go:402-417 | on a prefix of valid text, the longest valid prefix, at most 3 bytes shorter |
| Utf8.CutKeepsValid | internal/tools/fetch/fetch.go:402-417 | and it is empty exactly when the first rune does not fit |
| Pages.CutPage | internal/tools/fetch/fetch.go:353-369 | the code of pageFrom computes the page the rows below are about |
| Pages.PageMeaning | internal/tools/fetch/fetch.go:351-369 | for any bytes, a page is the part of the body at its offset, within the limit; it is truncated exactly when the body goes on past the limit, and the next offset is where its bytes end |
| Pages.PageIsLongest | internal/tools/fetch/fetch.go:363-366 | the content of a truncated page is the longest part of its chunk that is empty or ends in a rune, for any bytes |
| Pages.StreamPageMeaning | internal/tools/fetch/fetch.go:311-334 | and the stream route's page is always such a cut, truncated exactly when the body goes on |
| Pages.RoutesAgreeExactly | internal/tools/fetch/fetch.go:311-334 | memory page and stream page are equal exactly when the page is truncated, past the end, or ends in a decodable rune |
| Pages.AlignedRoutesAgree | internal/tools/fetch/fetch.go:181-184 | on valid text that is the case at every rune boundary |
| Pages.RoutesPartOnBrokenTail | internal/tools/fetch/fetch.go:319 | a document ending in half a rune loses that byte on the stream route while being reported complete |
| Pages.StallsExactly | internal/tools/fetch/fetch.go:363-366 | a truncated page makes no progress exactly when no non-empty prefix of its chunk ends in a rune |
| Pages.AlignedPage | internal/tools/fetch/fetch.go:399-406 | on valid text from a boundary, every page is valid and a truncated one ends on a boundary at most 3 bytes short of the limit |
| Pages.AlignedProgress | internal/tools/fetch/fetch.go:363-366 | and it advances exactly when the next rune fits in a page |
| Pages.FinishedWalkIsLossless | internal/tools/fetch/fetch.go:52-57 | a walk that ends has returned the whole document, for any bytes |
| Pages.WalkEndsExactly | internal/tools/fetch/fetch.go:52-57 | on valid text the walk ends exactly when every remaining rune fits in a page |
| Pages.WalkPagesValid | internal/tools/fetch/fetch.go:402-406 | every page of a walk over valid text is valid UTF-8 |
| Pages.LosslessTerminatingWalk | internal/tools/fetch/fetch.go:52-57 | for every valid document and page size of at least 4: at most len/(maxBytes-3)+1 pages, all valid, together the document |
| Pages.SmallPagesStall | internal/tools/fetch/fetch.go:407-417 | with 3-byte pages a 4-byte rune is never delivered |
| Streams.BodyEnded | internal/tools/fetch/fetch.go:290-307 | true exactly when at most one byte was left before a clean end |
| Streams.ReadChunk | internal/tools/fetch/fetch.go:380-397 | skip and read over a stream that may break at any byte, including together with the last one |
| Streams.ReadIsTheDocuments | internal/tools/fetch/fetch.go:371-397 | a successful read is the document's chunk even if the stream would have failed later; only a broken stream can fail |
| Streams.CaptureRest | internal/tools/fetch/fetch.go:264-284 | nothing when the timer wins; otherwise the bytes up to the limit (possibly negative) and whether the body seemed to end |
| Streams.ReadCapture | internal/tools/fetch/fetch.go:235-247 | the reading half of captureAndPage |
| Streams.CaptureExactly | internal/tools/fetch/fetch.go:235-256 | exactly when the body is taken for whole, and that it then holds the first max(budget, maxBytes+1) bytes |
| Streams.FirstPageIndependentOfCapture | internal/tools/fetch/fetch.go:225-258 | finished, timed out, over budget or broken after the page: the page at 0 is the document's, also when budget equals page size |
| Keys.DecimalParses | internal/tools/fetch/fetch.go:147 | the decimal offset can be read back and contains no NUL |
| Keys.PairKeyParses | internal/tools/fetch/fetch.go:146 | caller and URL can be read back from a snapshot key of a NUL-free caller |
| Keys.TripleKeyParses | internal/tools/fetch/fetch.go:147 | the snapshot key and the offset can be read back from a result key, whatever the URL contains |
| Keys.TripleKeyInjective | internal/tools/fetch/fetch.go:144-148 | equal keys mean same caller, same URL or query, same number |
| Keys.NulInCallerClashes | internal/tools/fetch/fetch.go:146 | without NUL-free callers two agents can share a key |
| Lru.EvictKeepsLongestFit | internal/cache/cache.go:88-101 | eviction keeps the longest prefix that fits, for any sizes and any budget |
| Lru.PutIsLongestFit | internal/cache/cache.go:72-102 | after Put: the longest fitting prefix of "key, then the old order without key"; a fitting entry is resident, an oversized one empties the cache |
| Lru.GetSlots | internal/cache/cache.go:55-70 | reading never adds, alters or duplicates an entry |
| Lru.PutSlots | internal/cache/cache.go:74-102 | after a write every entry is the new one or an untouched one with another key |
| Cache.MemoryCache.constructor | internal/cache/cache.go:46-53 | an empty cache with its three structures in step |
| Cache.MemoryCache.Get | internal/cache/cache.go:55-70 | for every ttl, in terms of list and map: a live key's value is returned and the key moves to the front with the others in order; an expired key leaves both; a missing one changes nothing; all structures stay in step |
| Cache.MemoryCache.Put | internal/cache/cache.go:72-102 | replacement, insertion and the eviction loop refine the one-sequence form, used being the sum of resident sizes and the list holding each key once |
| Cache.MemoryCache.DeleteLocked | internal/cache/cache.go:134-142 | removes the key from all three structures |
| Cache.MemoryCache.Used | internal/cache/cache.go:106-110 | the sum of the resident sizes |
| Cache.MemoryCache.Len | internal/cache/cache.go:112-116 | the map's size is the list's length |
| LruTraces.HitIsFresh | internal/cache/cache.go:55-102 | in every history a hit is the last value written under the key, at most ttl earlier, however often it was read |
| LruTraces.RecencyOrder | internal/cache/cache.go:55-102 | in every history, for every budget and ttl, an entry nearer the front was last used later, by a write or by a read that found it |
| LruTraces.EvictsLeastRecent | internal/cache/cache.go:88-101 | whatever a write evicts was last used before everything that stays |
| LruTraces.RunWithinBudget | internal/cache/cache.go:88-101 | in every history the bytes held fit the budget |
| LruTraces.StackProperty | internal/cache/cache.go:55-102 | under demand filling the cache is always the longest fitting prefix of one budget-free stack |
| LruTraces.Inclusion | internal/cache/cache.go:55-102 | a smaller budget's order is a prefix of a larger one's: more budget never loses a hit |
| LruTraces.HitIffDepthFits | internal/cache/cache.go:55-102 | exactly which references hit: the key's stack depth in bytes fits the budget |
| Fetch.Fetcher.constructor | internal/tools/fetch/fetch.go:91-115 | 64 KiB pages, a 32 MiB budget and five minutes for non-positive settings, the budget raised to one page, both caches empty |
| Fetch.Fetcher.Fetch | internal/tools/fetch/fetch.go:125-197 | validation, the two probes and the origin's reply in this order, on both caches, with the error of each branch and whether the origin was contacted |
| Fetch.Fetcher.CaptureAndPage | internal/tools/fetch/fetch.go:235-258 | stores a snapshot exactly when the body was taken for whole and fits, and returns the page either way |
| Fetch.Fetcher.PageFromStream | internal/tools/fetch/fetch.go:311-334 | the stream route's page or its read error |
| Fetch.Fetcher.StoreInResults | internal/tools/fetch/fetch.go:199-209 | keyed calls only, sized by content |
| Fetch.Fetcher.PageResult | internal/tools/fetch/fetch.go:337-349 | the memory route's page with the document's metadata |
| FetchCalls.FetchExactly | internal/tools/fetch/fetch.go:125-197 | each refusal exactly under its own condition, in order; http and https accepted; an accepted call contacts the origin exactly when both probes miss, and then succeeds exactly on a 2xx whose page and probe byte arrive, at every offset; each failure's reason; without a cache key every accepted call contacts the origin and nothing is kept |
| FetchCalls.CapturedExactly | internal/tools/fetch/fetch.go:179-191 | both ways: which replies become a snapshot, resident with their bytes, status and type; no other reply touches the snapshots |
| FetchCalls.OnlyAcceptableCallsGoOn | internal/tools/fetch/fetch.go:126-142 | in every run, only calls for non-blank http and https URLs reach a cache or an origin or return a page |
| FetchCalls.EveryAnswerDescribesItsReply | internal/tools/fetch/fetch.go:324-349 | field by field, in every run and for any origins: a returned result carries the redacted URL, the status, type and bytes of one 2xx reply to its own caller for its own URL, at the asked offset, at most maxBytes, cut on a rune when more follows, with next_offset where its bytes end |
| FetchCalls.HeldWithinBudget | internal/tools/fetch/fetch.go:86-88 | in every run the stored documents together, and the stored pages together, fit the budget in actual bytes |
| FetchRuns.Transparency | internal/tools/fetch/fetch.go:125-197 | in every interleaved run, a success is exactly what the uncached stream route returns wherever the routes agree and the page does not reach the lost byte of the misjudged length |
| FetchRuns.AlignedTransparency | internal/tools/fetch/fetch.go:125-197 | in particular for valid UTF-8 at every rune-aligned offset |
| FetchRuns.CachingNeverFails | internal/tools/fetch/fetch.go:230-232 | a reply fails a caching call exactly when it fails the same call without a cache key, with the same error, however the capture ends |
| FetchRuns.FailsOnlyIfUncachedFails | internal/tools/fetch/fetch.go:230-232 | a call that fails would have failed the same way uncached |
| FetchRuns.SnapshotsAreWhole | internal/tools/fetch/fetch.go:260-264 | in every run a stored body is the origin's body exactly unless its length is the misjudged one, when it lacks the last byte |
| FetchRuns.ShortSnapshotExactly | internal/tools/fetch/fetch.go:286-307 | which pages of the shortened document are wrong: exactly those that reach the lost byte |
| FetchRuns.OneByteIsLost | internal/tools/fetch/fetch.go:299-306 | such a document is captured short and the next call is answered from it |
| FetchWalks.FetchIsARun | internal/tools/fetch/fetch.go:125-197 | a call alone is one schedule of the run model |
| FetchWalks.ContactLeaves | internal/tools/fetch/fetch.go:199-209 | a success is servable from a cache afterwards, a failure leaves both caches alone |
| FetchWalks.RepeatIsLocal | internal/tools/fetch/fetch.go:150-157 | an identical repeat within the ttl gets the identical answer without origin contact; after a failure it contacts the origin again |
| FetchWalks.TruncatedAnswerIsTrue | internal/tools/fetch/fetch.go:52-57 | in every run and for any bytes a truncated answer is the document's page, and truncated is said exactly when the document goes on, except on the page that ends where the misjudged length was cut |
| FetchWalks.AgentStops | internal/tools/fetch/fetch.go:52-57 | in every run an agent following next_offset through a valid document of any length, finished or not, has made at most len/(maxBytes-3)+1 successful calls |
| FetchWalks.AgentRebuildsDocument | internal/tools/fetch/fetch.go:50-57 | in every run the pages of a finished walk are together the document, for any bytes whose last page the routes agree on (valid UTF-8 always, with every page valid and the page bound); only of a document of the misjudged length can the last byte be missing, and nothing else |
| FetchWalks.HitsAreWithinTtl | internal/tools/fetch/fetch.go:88-90 | in every run, whatever origins and callers do, a cached answer goes back to a reply at most ttl old: it is that reply's answer, or a page of the document captured from it |
| FetchWalks.StoredBodyIsItsReply | internal/tools/fetch/fetch.go:260-264 | in every run each stored body comes from a reply read to a clean end and is that reply's whole body, except that one of exactly the misjudged length lacks its last byte |
| FetchWalks.ResultHitIsOwn | internal/tools/fetch/fetch.go:119-124 | in every run, with origins that may answer every caller differently each time, a result-cache answer was given before to an identical call of the same caller, at most ttl earlier |
| FetchWalks.SnapshotHitIsOwn | internal/tools/fetch/fetch.go:119-124 | and a snapshot answer, at any offset, is the page of a body captured from the origin's reply to the same caller's own first fetch of that URL, which returned that body's page 0 |
| FetchWalks.EveryAnswerIsOwnAndRecent | internal/tools/fetch/fetch.go:119-124 | end to end, for the same origins: whatever a call returns was supplied by a reply to its own caller for its own URL, at most ttl before the call finished |
| FetchWalks.CaptureIsResident | internal/tools/fetch/fetch.go:247-256 | a reported capture is resident after Put |
| FetchWalks.ContactMeansExpiredOrEvicted | internal/tools/fetch/fetch.go:159-166 | after that, a later call for the same caller and URL misses only if the snapshot outlived the ttl or another capture evicted it in between |
| FetchWalks.ContactAfterCapture | internal/tools/fetch/fetch.go:159-166 | event to event: after a capture, a later call of the same caller for the same URL goes to the origin only if the snapshot outlived the ttl or another capture evicted it in between |
| Search.SharedEntryExactly | internal/tools/search/search.go:85-97 | two calls share an entry exactly when caller, query and normalized limit are the same |
| Search.NormalLimit | internal/tools/search/search.go:85-90 | between 1 and 50: an asked size in that range is honoured, none asked gives 10, too much gives 50 |
| Search.Searcher.Search | internal/tools/search/search.go:81-159 | the statements of Search compute the call the next row characterises; the loop adds up the stored size |
| Search.SearchExactly | internal/tools/search/search.go:81-159 | which calls ask the instance; the error of each unusable reply; a decodable 200 gives its first hits, as many as the call may get; failures and calls without a cache key store nothing |
| Search.SizeIsSum | internal/tools/search/search.go:148-155 | the stored size is the bytes of title, URL and content of each hit, added up |
| Search.SearchIsARun | internal/tools/search/search.go:81-159 | a call alone is one schedule of the run model |
| Search.Searcher.constructor | internal/tools/search/search.go:61-73 | an empty cache of 1 MiB, with the given ttl or five minutes |
| Search.SameQuestionHits | internal/tools/search/search.go:92-103 | the same caller asking the same thing within the ttl gets the stored hits, also under another spelling of the limit |
| Search.SearchHitIsOwn | internal/tools/search/search.go:75-103 | in every run, whatever the instance answers to whom, a cached answer was given before to the same caller for the same query and normalized limit, at most ttl earlier |
| Search.EveryAnswerIsOwnAndRecent | internal/tools/search/search.go:58-60 | end to end: whatever a call returns is the cut of a decodable 200 reply to its own caller for its own question, at most ttl before the call finished |
| Search.SearchIsTransparent | internal/tools/search/search.go:141-143 | against an instance that answers each query from one index, each success in every run is the first min(limit, available) hits of the index, cached or not |
| Search.HeldWithinBudget | internal/tools/search/search.go:34-39 | in every run the titles, URLs and contents of all cached hits together fit 1 MiB |
| Recorder.TruncateUTF8 | internal/recorder/recorder.go:116-130 | the loop computes the preview of the next rows |
| Recorder.PreviewIsLongestValid | internal/recorder/recorder.go:113-130 | for valid output: the longest valid prefix within the limit, at most 3 bytes short when cut, flagged exactly when something was dropped |
| Recorder.PreviewOfAnyBytes | internal/recorder/recorder.go:116-130 | for any bytes: kept whole when within the limit, otherwise the longest prefix within it that ends in a rune |
| Recorder.PreviewLimit | internal/recorder/recorder.go:36-41 | always positive: the configured limit when that is, otherwise 64 KiB |
| Recorder.Record | internal/recorder/recorder.go:84-93 | Truncated holds exactly when the stored text is shorter than OutputSize, for results and for errors |
| History.OlderIsOrder | internal/storage/history_repo.go:79-83 | "older" is a strict total order on rows with distinct ids |
| History.TextLessExactly | internal/storage/history_repo.go:79-83 | ids compare as bytes: a proper prefix, or smaller at the first difference |
| History.PageMeaning | internal/storage/history_repo.go:53-92 | a page is the newest matching rows behind the cursor in descending order; an empty next cursor means nothing was left out |
| History.ListingMeaning | internal/storage/history_repo.go:53-92 | column by column: a listing returns rows with the asked actor, tool and error flag, behind the cursor's row in time and id, newest first; any other such row lies behind a full page; an unknown cursor is reported exactly when no row has it; a next cursor is given exactly for a full page |
| History.PageSize | internal/storage/history_repo.go:54-57 | between 1 and 200: an asked size in that range is honoured, any other gives 50 |
| History.HistoryTable.RecordToolCall | internal/storage/history_repo.go:33-41 | fills in id and time; a duplicate id is refused and changes nothing |
| History.HistoryTable.PruneToolCalls | internal/storage/history_repo.go:117-126 | exactly the rows at or after the cutoff survive; non-positive retention deletes nothing |
| HistoryWalks.WalkNeverRepeats | internal/storage/history_repo.go:46-52 | with arbitrary inserts and sweeps between requests, delivered rows strictly decrease, so none repeats |
| HistoryWalks.FinishedWalkIsComplete | internal/storage/history_repo.go:87-91 | a walk ending with an empty cursor has delivered every matching row present at its requests |
| HistoryWalks.SweepNeverStrands | internal/storage/history_repo.go:70-80 | a sweep that deletes the cursor row deletes every row still ahead, and the next request reports the unknown cursor |
| HistoryWalks.EndedWalkIsComplete | internal/storage/history_repo.go:117-126 | however a walk ends, every matching row that was there all along has been delivered |
| HistoryWalks.StaticWalkLength | internal/storage/history_repo.go:87-91 | on n unchanging rows exactly n/limit+1 requests, delivering the whole listing in order |
| HumanRepo.Repository.GetOrCreateHumanActor | internal/storage/human_repo.go:28-94 | probe, role update, transaction and read-backs on the two tables |
| HumanRepo.Repository.CreateOrAdopt | internal/storage/human_repo.go:47-93 | from the transaction on, with the lost-race branch reachable |
| HumanRepo.Repository.Transact | internal/storage/human_repo.go:50-71 | won, lost or rolled back; a rollback restores both tables |
| FirstLogin.RollbackExactly | internal/storage/human_repo.go:50-71 | the transaction fails exactly when the subject is new and the name is taken, and loses exactly when the subject is known |
| FirstLogin.IdentitiesAreSound | internal/storage/human_repo.go:17-27 | in every interleaving: one identity per subject, each to an existing human actor, distinct subjects to distinct actors, and no human actor without an identity |
| FirstLogin.ReturnsAgree | internal/storage/human_repo.go:76-93 | two successful calls get the same actor exactly when they are for the same subject |
| FirstLogin.OnlyOthersCauseFailure | internal/storage/human_repo.go:21-27 | without a database fault a call fails only because an agent or another subject's actor holds its name; read-backs never come up empty |
| FirstLogin.FailureLeavesNothing | internal/storage/human_repo.go:50-74 | in every interleaving a call that failed on the name index changed neither table at any of its steps |
| FirstLogin.LinksArePermanent | internal/storage/human_repo.go:50-71 | a subject keeps the actor it was first given |
| FirstLogin.EveryStatementAdvances | internal/storage/human_repo.go:28-94 | each statement of a call brings it nearer its end, at most 4 in all, whatever the others do |
| FirstLogin.AloneIsARun | internal/storage/human_repo.go:28-94 | the repository method is one schedule of the interleaved steps |
| FirstLogin.AloneMeaning | internal/storage/human_repo.go:11-15 | alone, a call returns the subject's human actor with its role stored, or fails on another's name and changes nothing |
| FirstLogin.AloneWritesOnlyItsOwn | internal/storage/human_repo.go:28-71 | a call alone leaves every other subject's identity and every existing actor as they were; of a known subject it changes the role only; for a new one it adds exactly one identity and one actor with the subject, name and role asked for |
| FirstLogin.RoleChangesAreOwn | internal/storage/human_repo.go:32-36 | in every interleaving an identity's role changes only at a statement of a call for that identity's own subject, to that call's role; subject and actor never change |
| FirstLogin.RolesWereAsked | internal/storage/human_repo.go:28-58 | in every interleaving each stored role is one some call for that very subject brought |
| FirstLogin.LoserWritesNothing | internal/storage/human_repo.go:84-93 | the loser adopts the winner's actor and its role is stored exactly when it already was |
| Credentials.CredentialStore.IssueAgentToken | internal/storage/actor_repo.go:42-60 | appends the unused, unrevoked row exactly when no row has that id or hash, otherwise changes nothing |
| Credentials.CredentialStore.AuthenticateAgentToken | internal/storage/actor_repo.go:62-82 | the answer depends only on unrevoked rows; exactly the token's unrevoked row gets the time of use, unless that update fails, which changes neither answer nor rows |
| Credentials.CredentialStore.RevokeAgentToken | internal/storage/actor_repo.go:140-147 | row by row: the unrevoked row of that id is stamped, every other row stays as it was, none comes or goes |
| Credentials.RevokeMeaning | internal/storage/actor_repo.go:140-147 | the token of that row is invalid, every other token, known or not, authenticates exactly as before, repeating it changes nothing |
| Credentials.CredentialStore.RevokeAllAgentCredentials | internal/storage/actor_repo.go:149-158 | row by row: that actor's unrevoked rows are stamped, every other row stays, and the actor holds no active row afterwards |
| Credentials.RevokeAllMeaning | internal/storage/actor_repo.go:149-158 | every token of that actor is invalid and it alone leaves the active set; every other token, known or not, authenticates exactly as before |
| Credentials.RunUniqueHashes | internal/storage/actor_repo.go:51-58 | in every run a token hash has at most one row |
| Credentials.CredentialStore.ActorsWithActiveToken | internal/storage/actor_repo.go:125-138 | exactly the actors with an unrevoked row, each mapped to true |
| Credentials.AuthenticatesExactly | internal/storage/actor_repo.go:62-82 | in every run a token authenticates as an actor exactly when issued to it, neither revoked nor bulk-revoked since, and the actor exists; the actor is not found exactly when only that is missing; in every other case the token is invalid |
| Credentials.ActiveExactly | internal/storage/actor_repo.go:123-138 | the active set says the same of every actor |
| Credentials.FirstRevocationMeaning | internal/storage/actor_repo.go:140-158 | the first revocation read off a history is the time of the earliest event revoking that issue, and there is none exactly while it is live |
| Credentials.RowsCarryFirstRevocation | internal/storage/actor_repo.go:140-158 | in every run each issue's row carries exactly that time |
| Credentials.RevocationIsFinal | internal/storage/actor_repo.go:140-158 | revocation times are never overwritten and rows never disappear |
| Credentials.RevokedStaysInvalid | internal/storage/actor_repo.go:140-158 | in every run, with any ids, tokens and hash function, a token whose row an event revoked is invalid ever after |

## Left out

- The database-backed cache: no caller constructs it, and it rests on library behaviour the files do not show.
- HTTP transport, retries, proxies, `url.Parse` and `strings.TrimSpace`: the origin is a reply value, the parser and the blank test are parameters of the model.
- Real clocks and goroutines: times are parameters, the capture timer is a free boolean, each cache or database call is one atomic step.
- Pages.CutPage: does not model the 64-bit wrap-around of offset + maxBytes or maxBytes + 1, because every sum stays in range while the page size plus the body length is below 2^63.
- Cache.MemoryCache.Get: the list is a sequence of keys, so the pointer from an entry to its list element is its position; `ExpireAllForTesting` is not modelled.
- Streams.ReadChunk: `io.ReadAll`, `io.LimitReader`, `io.CopyN` and `io.ReadFull` are taken by what they deliver; the short reads inside them are not modelled.
- FetchRuns.Transparency: callers' cache keys are taken to be NUL-free (they are actor UUIDs) and each URL to serve one fixed document; the isolation rows assume only the former, the staleness and wholeness rows neither.
- Recorder.Record: the two early exits, no database and no actor in the context, are not modelled.
- Search.Searcher.Search: the slice handed to the caller is a value here, so a caller changing the shared slice in place is not captured; slices are values in the fetcher too.
- History.PageMeaning: rows carry only the columns the filters and the order look at; ids are compared byte by byte, where a database may apply a collation.
- FirstLogin.IdentitiesAreSound: the transaction is one atomic step and UUIDs are assumed fresh; isolation levels and lock waits of the database are not modelled.
- Credentials.AuthenticatesExactly: the token hash is assumed collision-free and tokens and ids fresh; SHA-256, base64 and the random source are not modelled.
- `MarshalForHistory`: the encoded output is taken as given, valid UTF-8 where a row says so.
- OIDC, sessions, cookies, REST handlers, health, startup and the web UI: plumbing, or settled by reading one branch.
