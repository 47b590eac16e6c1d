# A verified model of the MCP proxy's core

The proxy puts many upstream MCP servers behind one endpoint. This project models the parts of it in which
branching, state and time meet, and proves what they are for. It is written in Dafny 4.11; `dafny verify
dfyconfig.toml` checks all of it.

Python strings are sequences of Unicode scalar values, clocks are reals that never run backwards, raised exceptions
are results, and what the operating system or an upstream server decides (whether a write succeeds, whether a tool is
listed, which token is drawn) is a parameter or left open. Dictionaries, queues and documents that the program changes
in place are fields of classes. Each such method is proved against a step function, and the laws are proved about
arbitrary runs of those steps.

**Composite tool names** (`ToolNames`, `ToolNameLaws`, `ToolNameGrammar`, `Utf8`). One wire string names a tool on a server in three
spellings. Encoding and decoding are inverse for every registrable server and every tool name. The key argument is
that a marker found too early leaves an underscore in what should be hexadecimal. Canonical keys are total, and
their kernel is exactly "names the same tool". A grammar says, without the decoder, which names spell which tools.

**Policy and dispatch** (`ClientPolicy`, `JsonValues`, `PaginationArgs`, `Dispatcher`). One stored entry blocks every
spelling of its tool and nothing else. A tools/call ends although it may recurse through callTool and popular
shortcuts, invokes at most one tool, and only one that the call names and that configuration, policy and the admin gate
allow; that tool gets the client's arguments. Other requests may change configuration, popular tools and session at
every await: configuration and session are a history given from outside, of which a call only sees how far it has
come, and what allowed an invocation is read off that history and not off anything the dispatcher writes.

**Login rate limiter** (`RateLimiter`, `LimiterRuns`, `LoginRuns`, `LimiterPruning`, `LimiterReference`,
`LimiterRetry`, `LimiterRejections`, `LimiterVisibility`). The sliding window, the lockout ceiling, the honesty of
Retry-After, rejected attempts that leave no trace in any run, a simulation of the limiter by one that never forgets,
and a reference that answers every attempt from the times of earlier events alone.

**Paging** (`ResponseCache`, `CacheRuns`, `Paging`, `PagingLaws`, `PagingRuns`). The LRU cache with time to live and owner, and the
reassembly of a text by a client that follows its pages while others use the cache.

**Configuration** (`JsonFileCache`, `ConfigRecords`, `ConfigStore`). A parse cache against a file that outsiders
replace between its stat and its read, and a store whose records are objects that callers keep and change.

**News server** (`Fencing`, `FencingLaws`, `FencedPrompt`, `FeedMigrations`, `MigrationLaws`, `FeedStores`,
`FeedRuns`, `FeedLaws`, `Dedupe`, `DedupeLaws`, `DedupeCoverage`, `DedupeExactness`, `DedupePlain`). Prompts that parse
back, migrations that run once, and duplicates removed without losing a story.

**Call statistics** (`CallStats`, `CallStatsRuns`). A capped table of counts that is written behind.

`Wrappers`, `Text` and `IntSets` hold Option, Result, Python's string operations and a counting lemma.

## What the code does where it differs from what it says

- `tool_names.py:8-10` and the comment at 58-64 speak of names that even the hexadecimal form cannot represent. For every
  registrable server id there are none (`RoundTrip`), so the slash form and the raise are reached only through ids with an
  underscore, a slash or blanks (`EncodeForms`, `EncodeRaisesExactly`).
- `rate_limit.py:87` continues a streak exactly `streak_reset_s` old, and line 116 prunes it. That boundary is the only
  way in which pruning shows (`FailureSimulatesExactly`, `PruningInvisible`), and with the default parameters it does show
  (`InvisibleExactly`, `DefaultPruningShows`).
- A lockout at least as long as the window makes one honoured Retry-After enough only if `lockout_max_s` is as long too
  (`OneWaitExactly`).
- `json_file_cache.py` gives every missing file the same signature, so a file created between stat and read and then
  deleted is still served (`DeletedFileIsStillServed`). `LinearizesExactly` says when the cache is indistinguishable from
  re-reading.
- `dedupe.py` can drop an item although nothing kept has its URL or its title: its URL's best item carries another title
  that a newer item shares (`DirectRepresentationCanFail`, `DirectlyExactly`). Something always stands for it
  (`EveryItemIsRepresented`).
- `llm_curator.py:20` speaks of C1 control characters, but the pattern at 24-27 keeps them, and so does the model
  (`C1ControlsSurvive`).
- `tool_call_stats.py` breaks ties in opposite ways when it caps and when it ranks (`TiesAreBrokenBothWays`), and at the
  limit a new tool may never be counted (`NewKeyIsAdmittedExactly`, `NewcomersStarve`).

## Model

| member | source | states |
|---|---|---|
| ToolNames.DecodeProxyToolName | src/mcp_proxy/tool_names.py:74-100 | the overlapping marker scan finds what the first-valid-split definition of decoding says, errors included |
| ToolNameGrammar.DecodeExactly | src/mcp_proxy/tool_names.py:74-100 | a wire name decodes to a tool exactly when it spells it, said without the decoder: by its first slash; else by the first marker whose right part is the UTF-8 of the name in hexadecimal digits of either case; else by its first double underscore, whatever characters follow |
| ToolNameGrammar.EncodeExactly | src/mcp_proxy/tool_names.py:48-71 | encoding takes the first of the three spellings that is open to the name and spells this very pair, which characters are open to the first one written out |
| ToolNameLaws.RoundTrip | src/mcp_proxy/tool_names.py:48-71 | for every slug server id and every tool name, encoding succeeds in the descriptive or hexadecimal form, uses only letters, digits and underscores, and decodes to the same pair |
| ToolNameLaws.EarlierMarkersAreNotHex | src/mcp_proxy/tool_names.py:82-95 | no marker that starts before the real one has a valid hexadecimal right part |
| ToolNameLaws.HexFormDecodes | src/mcp_proxy/tool_names.py:54-57 | the hexadecimal form decodes exactly for every tool name, the empty one included |
| ToolNameLaws.EncodeInjective | src/mcp_proxy/tool_names.py:48-71 | different pairs never share a wire name |
| ToolNameLaws.EncodeRaisesExactly | src/mcp_proxy/tool_names.py:65-71 | encoding raises exactly on the pairs that no wire name decodes to, and these are described without the decoder |
| ToolNameLaws.EncodeForms | src/mcp_proxy/tool_names.py:48-67 | the slash form is chosen exactly for servers with an underscore, the descriptive form only for safe tool names |
| ToolNameLaws.PlainNamesStayReadable | src/mcp_proxy/tool_names.py:49-53 | ordinary names keep the descriptive spelling |
| ToolNameLaws.DecodedIsEncodable | src/mcp_proxy/tool_names.py:74-100 | whatever decodes, decodes to a pair that can be encoded |
| ToolNameLaws.UnderscoreNeedsSlash | src/mcp_proxy/tool_names.py:94-99 | a server name with an underscore comes only from a spelling with a slash |
| ToolNameLaws.CanonicalKeyIsTotal | src/mcp_proxy/tool_names.py:103-116 | the canonical key never raises and decodes as its argument does |
| ToolNameLaws.KeyIdempotent | src/mcp_proxy/tool_names.py:103-116 | the key of a key is that key |
| ToolNameLaws.KeyKernel | src/mcp_proxy/tool_names.py:103-116 | two names share a key exactly when they decode to the same pair, or neither decodes and they are equal |
| ToolNameLaws.EncodingIsStripped | src/mcp_proxy/tool_names.py:48-75 | encodings are non-empty and stripping does not change them |
| Utf8.DecodeEncode | src/mcp_proxy/tool_names.py:34-38 | strict UTF-8 decoding undoes encoding on every string of scalar values (section 3 of RFC 3629) |
| Utf8.EncodeDecode | src/mcp_proxy/tool_names.py:34-38 | bytes that decode are the encoding of what they decode to, so overlong forms and surrogates are refused |
| Utf8.FromHexToHex | src/mcp_proxy/tool_names.py:54-55 | reading back the hexadecimal spelling of bytes gives the bytes |
| Text.SpacesExactly | src/mcp_proxy/tool_names.py:75-75 | the characters that stripping takes away, one by one |
| Utf8.HexDigitsExactly | src/mcp_proxy/tool_names.py:32-32 | the hexadecimal digits, in either case |
| Text.StripExactly | src/mcp_proxy/tool_names.py:75-75 | stripping takes away the spaces at both ends, all of them and nothing else |
| Utf8.ToHexFromHex | src/mcp_proxy/tool_names.py:37-45 | spelling the bytes of hexadecimal digits again gives the digits in lower case |
| Utf8.EncodeCharExactly | src/mcp_proxy/tool_names.py:54-55 | length, leading and following bytes of every scalar value, as in section 3 of RFC 3629 |
| ClientPolicy.PolicyExact | src/mcp_proxy/client_policy.py:32-44 | a wire name is blocked exactly when a stored entry names the same tool; the raw membership test decides nothing on its own |
| ClientPolicy.NormalizeDisabledTools | src/mcp_proxy/client_store.py:69-85 | the loop computes the stored names in order of first appearance |
| ClientPolicy.NormalizedHolds | src/mcp_proxy/client_store.py:69-85 | the normalized list holds exactly the canonical keys of the non-blank entries |
| ClientPolicy.NormalizedDistinct | src/mcp_proxy/client_store.py:81-84 | no name is stored twice |
| ClientPolicy.NormalizedGrows | src/mcp_proxy/client_store.py:71-85 | further entries only add names at the end, so the list is in order of first appearance |
| ClientPolicy.NormalizedIsCanonical | src/mcp_proxy/client_store.py:75-80 | every stored name is its own stored name and its own canonical key |
| ClientPolicy.NormalizeIdempotent | src/mcp_proxy/client_store.py:69-85 | normalizing twice is normalizing once |
| ClientPolicy.NormalizePreservesPolicy | src/mcp_proxy/client_store.py:69-85 | the normalized list blocks exactly the tools that the non-blank entries name |
| RateLimiter.LoginRateLimiter.Hit | src/mcp_proxy/rate_limit.py:50-74 | the new dictionaries and the answer are those of the step function |
| RateLimiter.LoginRateLimiter.HitWindow | src/mcp_proxy/rate_limit.py:64-74 | the same of the part after the lockout test, with pruning only for keys without a queue |
| RateLimiter.LoginRateLimiter.ExpireQueue | src/mcp_proxy/rate_limit.py:66-67 | the pop loop drops exactly the front entries that have left the window |
| RateLimiter.ExpireShape | src/mcp_proxy/rate_limit.py:66-67 | what is left of a queue is a suffix that starts inside the window; everything dropped is outside |
| RateLimiter.LoginRateLimiter.RecordFailure | src/mcp_proxy/rate_limit.py:76-94 | streak, decay, penalty and lockout of the step function |
| RateLimiter.LoginRateLimiter.RecordSuccess | src/mcp_proxy/rate_limit.py:96-101 | all state of the key is gone, that of others unchanged |
| RateLimiter.LoginRateLimiter.PruneLocked | src/mcp_proxy/rate_limit.py:105-110 | the three dictionaries lose exactly their stale entries |
| RateLimiter.LoginRateLimiter.PruneAttemptsLocked | src/mcp_proxy/rate_limit.py:106-107 | empty and expired queues are dropped, others kept |
| RateLimiter.LoginRateLimiter.PruneLockoutsLocked | src/mcp_proxy/rate_limit.py:108-109 | lockouts that are over are dropped, others kept |
| RateLimiter.LoginRateLimiter.PruneStreaksLocked | src/mcp_proxy/rate_limit.py:112-118 | streaks as old as the reset time are dropped, others kept |
| LimiterRuns.RunKeepsQueueInv | src/mcp_proxy/rate_limit.py:50-118 | in every run a key's queue is the live end of the attempts accepted since its last success |
| LimiterRuns.SlidingWindow | src/mcp_proxy/rate_limit.py:50-74 | in every run at most max_attempts attempts accepted since the last success lie in any half-open interval of the window's length |
| LimiterRuns.HitExactly | src/mcp_proxy/rate_limit.py:57-74 | the answer of every attempt in terms of the run: lockout, full window, or accepted |
| LoginRuns.AuthLogin | src/mcp_proxy/api/auth.py:33-56 | one login as an atomic step: a failure is recorded only after an accepted hit, the admin flag is set only on success |
| LoginRuns.RunKeepsStreak | src/mcp_proxy/rate_limit.py:57-94 | a streak past the threshold got there by sitting out a lockout that fits in the reset time |
| LoginRuns.ImposedExactly | src/mcp_proxy/rate_limit.py:84-94 | a login changes no lockout but that of its own key, and that to the penalty of its failure |
| LoginRuns.LockoutCeiling | src/mcp_proxy/rate_limit.py:84-94 | in every run of logins no lockout is longer than max(lockout_base_s, 2 * streak_reset_s), whatever lockout_max_s is |
| LoginRuns.DefaultCeiling | src/mcp_proxy/rate_limit.py:26-30 | with the default parameters no streak passes 9 and no penalty passes 960 seconds |
| LimiterPruning.HitSimulates | src/mcp_proxy/rate_limit.py:70-73 | an attempt is answered alike by the pruning and the never-forgetting limiter and keeps them related |
| LimiterPruning.FailureSimulatesExactly | src/mcp_proxy/rate_limit.py:84-88 | a failure keeps the two related exactly when it is not at the boundary |
| LimiterPruning.PruningInvisible | src/mcp_proxy/rate_limit.py:70-118 | in every run without a failure exactly streak_reset_s after its predecessor, every attempt is answered as without pruning |
| LimiterPruning.PruneExactly | src/mcp_proxy/rate_limit.py:105-118 | what is kept: queues with an attempt in the window, streaks younger than the reset time, lockouts that are not over, all as they were |
| LimiterPruning.CrowdedHitForgets | src/mcp_proxy/rate_limit.py:65-73 | with more than 4096 keys the first attempt of a new key leaves nothing that has expired |
| LimiterPruning.CrowdedFailureForgets | src/mcp_proxy/rate_limit.py:78-93 | with more than 4096 streaks a failure leaves no streak that is over |
| LimiterReference.UnprunedFollowsReference | src/mcp_proxy/rate_limit.py:50-101 | the limiter that never forgets answers every attempt of every run as a reference without any state does |
| LimiterReference.FollowsReference | src/mcp_proxy/rate_limit.py:50-118 | so does the limiter itself in every run off the boundary: each answer is computed from the times of the failures, successes and attempts of the key alone |
| LimiterReference.StreakIsCounted | src/mcp_proxy/rate_limit.py:84-89 | the streak remembered is the number of failures since the last success or the last gap longer than streak_reset_s |
| LimiterReference.StreakLocks | src/mcp_proxy/rate_limit.py:87-94 | failure number max_attempts + j of a streak locks the key for min(lockout_base_s * 2^j, lockout_max_s) |
| LimiterVisibility.InvisibleExactly | src/mcp_proxy/rate_limit.py:70-94 | with more than one attempt allowed, some run of logins tells the two apart exactly when lockouts are felt at all: min(lockout_base_s, lockout_max_s) > 0 and streak_reset_s not negative |
| LimiterVisibility.DefaultPruningShows | src/mcp_proxy/rate_limit.py:26-30 | the default parameters are among those |
| LimiterRetry.RetryAtLeastOne | src/mcp_proxy/rate_limit.py:61-69 | every rejection asks for at least one second |
| LimiterRejections.RejectedHitsCostNothing | src/mcp_proxy/rate_limit.py:53-56 | whatever happens after a rejected attempt, every later attempt on every key is answered as if it had not been made |
| LimiterRejections.TwinsForever | src/mcp_proxy/rate_limit.py:50-118 | two limiters that differ only in expired entries and ended lockouts stay so in every run |
| LimiterRetry.WindowWait | src/mcp_proxy/rate_limit.py:66-69 | after a window rejection, waiting as told leads to acceptance, whatever other keys do |
| LimiterRetry.TwoWaits | src/mcp_proxy/rate_limit.py:57-74 | waiting as told at most twice always leads to acceptance |
| LimiterRetry.OneWaitExactly | src/mcp_proxy/rate_limit.py:57-94 | one wait is enough after every run of logins exactly when no lockout is ever felt, or min(lockout_base_s, lockout_max_s) >= window_s, or the window is at most one second |
| PaginationArgs.PeelPaginationParams | src/mcp_proxy/tool_response_pagination.py:90-114 | both results are functions of arguments and protected names alone, whatever the iteration order of the key set |
| PaginationArgs.PeelConserves | src/mcp_proxy/tool_response_pagination.py:103-114 | nothing is lost or made up: arguments left plus fields found make up all that was given, a field given under both spellings counting once, and what is left keeps its value |
| PaginationArgs.PeelNamespaced | src/mcp_proxy/tool_response_pagination.py:105-108 | the first loop moves exactly the namespaced keys |
| PaginationArgs.PeelBare | src/mcp_proxy/tool_response_pagination.py:109-113 | the second loop consumes the unprotected bare keys and lets the namespaced value win |
| PaginationArgs.RestExactly | src/mcp_proxy/tool_response_pagination.py:103-114 | what is left for the tool, with the six spellings written out |
| PaginationArgs.MergePagination | src/mcp_proxy/tool_response_pagination.py:143-157 | the four-level precedence, whatever the iteration order |
| PaginationArgs.MergeTopLevel | src/mcp_proxy/tool_response_pagination.py:151-156 | the top level of the call overrides what was nested, namespaced before bare |
| PaginationArgs.Precedence | src/mcp_proxy/tool_response_pagination.py:137-157 | which of the four spellings gives each field, with the names written out: top level over nested, namespaced over bare, declared bare names not at all |
| PaginationArgs.HotShortcutIsDirectCall | src/mcp_proxy/tool_response_pagination.py:117-157 | a wrapped popular call gives the upstream arguments and paging fields of the direct callTool |
| PaginationArgs.ParseLimit | src/mcp_proxy/tool_response_pagination.py:195-217 | an accepted limit is at least one and at most the page |
| PaginationArgs.ParseExactly | src/mcp_proxy/tool_response_pagination.py:160-219 | which fields are accepted, and the id, offset and limit they give |
| PaginationArgs.ComplaintExactly | src/mcp_proxy/tool_response_pagination.py:163-213 | the first field that is wrong decides which error is raised |
| ResponseCache.ToolResponseCache.constructor | src/mcp_proxy/tool_response_cache.py:25-29 | an empty cache for at least one entry and thirty seconds |
| ResponseCache.ToolResponseCache.Put | src/mcp_proxy/tool_response_cache.py:31-45 | purge, append as most recent, evict from the front; ids stay distinct |
| ResponseCache.ToolResponseCache.Get | src/mcp_proxy/tool_response_cache.py:47-61 | the answer by owner and age, and the new order |
| ResponseCache.ToolResponseCache.PurgeExpired | src/mcp_proxy/tool_response_cache.py:63-71 | exactly the expired entries go, the rest keep their order |
| CacheRuns.HitIsGenuine | src/mcp_proxy/tool_response_cache.py:31-61 | in every run a hit is what was last put under the id, for its owner, not older than the time to live; the cache never exceeds its size |
| CacheRuns.MissesCostNothing | src/mcp_proxy/tool_response_cache.py:50-59 | after a get that misses, by a wrong owner too, every later get of every run is answered as if it had not been made |
| CacheRuns.StillServed | src/mcp_proxy/tool_response_cache.py:31-61 | a young entry is still served if fewer than max_entries other ids were put or served since |
| CacheRuns.EvictedByFreshPuts | src/mcp_proxy/tool_response_cache.py:43-44 | after max_entries fresh puts of other ids it is gone |
| Paging.TruncateBlocks | src/mcp_proxy/tool_response_pagination.py:63-81 | text blocks are cut one by one, others kept in place |
| PagingLaws.TruncationExactly | src/mcp_proxy/tool_response_pagination.py:36-40 | a text that is too long keeps what fits before the mark, and the mark |
| PagingLaws.JoinExactly | src/mcp_proxy/tool_response_pagination.py:49-60 | joining fails exactly when some block is not text; otherwise each block stands where the lengths before it and one newline each put it, and nothing else is in the text |
| PagingLaws.JoinedIsUnique | src/mcp_proxy/tool_response_pagination.py:49-60 | there is only one such text |
| PagingLaws.PageSizeExactly | src/mcp_proxy/tool_response_pagination.py:84-87 | its own setting, or else the limit on texts |
| Paging.SameToolNameIsKeyEquality | src/mcp_proxy/tool_response_pagination.py:253-265 | comparing spellings is equality of canonical keys, on all pairs |
| Paging.PaginateCallToolResponse | src/mcp_proxy/tool_response_pagination.py:316-380 | the reply and the cache afterwards: a page of the fresh text, of the cached one, or the error |
| PagingLaws.FreshExactly | src/mcp_proxy/tool_response_pagination.py:339-380 | a joined text longer than a page is cached and its first page returned, field by field; a shorter one is returned block by block, cut only where it exceeds the limit |
| PagingLaws.MixedExactly | src/mcp_proxy/tool_response_pagination.py:361-367 | a response with a block that is no text is never cached and its texts are cut |
| PagingLaws.StoredExactly | src/mcp_proxy/tool_response_pagination.py:268-313 | both refusals, and the page field by field: as much from the offset as was asked for, the page size allows and is there |
| PagingRuns.CacheGivesPage | src/mcp_proxy/tool_response_pagination.py:268-313 | a request inside the text gets the page at its offset under every accepted spelling of the tool |
| PagingRuns.FollowReassembles | src/mcp_proxy/tool_response_pagination.py:268-313 | following the pages among other clients never passes the end nor meets another text, and gives the text in at most totalChars pages or reports the loss |
| PagingRuns.ExchangeReassembles | src/mcp_proxy/tool_response_pagination.py:355-380 | the same of a whole exchange from the fresh response on |
| PagingRuns.FollowNeverLost | src/mcp_proxy/tool_response_cache.py:47-61 | a client that is not too slow in a cache that is not too busy never loses its entry |
| PagingRuns.ExchangeCompletes | src/mcp_proxy/tool_response_pagination.py:355-380 | with enough visits such an exchange ends with the whole text |
| Dispatcher.Proxy.CallTool | src/mcp_proxy/proxy_mcp.py:1404-1425 | a tools/call ends and invokes at most one tool, with the client's arguments minus paging fields: one the call names; a server's tool only if the server was configured and enabled at that instant and no stored entry of the session's client decoded to it; an admin tool under enforcement only for an admin session, a client that may administer, or an unbound caller without authentication, and then always; a callTool that ends without its tool could be refused as it was given, found the server missing or disabled, or the admin tool not allowed |
| Dispatcher.Proxy.CallToolImpl | src/mcp_proxy/proxy_mcp.py:1427-1450 | the same at every level of the recursion; a direct admin call runs exactly when policy and gate let it at that moment |
| Dispatcher.Proxy.CallToolBranch | src/mcp_proxy/proxy_mcp.py:1637-1697 | the same of the callTool branch: an upstream tool is invoked under the policy given, one behind the built-in server under a policy read again |
| Dispatcher.Proxy.ReadCall | src/mcp_proxy/proxy_mcp.py:1638-1686 | exactly when the branch goes on, when it answers from the cache, and with which error it stops |
| Dispatcher.ReadingExactly | src/mcp_proxy/proxy_mcp.py:1638-1686 | when a callTool goes on to its tool, with which error it stops, and when it answers from the cache, in terms of its arguments |
| Dispatcher.Proxy.InvokeUpstream | src/mcp_proxy/proxy_mcp.py:1699-1734 | the upstream tool is called with the clean arguments exactly when its server is known and enabled at that moment |
| Dispatcher.Proxy.LookupToolRow | src/mcp_proxy/proxy_mcp.py:490-521 | a row is found only for a name that decodes, under that tool's listed spelling, of an enabled server or for an existing admin tool |
| Dispatcher.Proxy.MatchHotKey | src/mcp_proxy/proxy_mcp.py:533-540 | the first popular key that is the name or is listed as it, or none if there is none |
| Dispatcher.Proxy.AsHotCallToolArgs | src/mcp_proxy/proxy_mcp.py:543-584 | a rewritten call is the wrapped callTool of a verified shortcut; otherwise nothing changes |
| Dispatcher.Proxy.AdminDenied | src/mcp_proxy/proxy_mcp.py:158-207 | only admin tools are denied, only under enforcement and never to an admin session: then a bound client exactly when it may not administer, an unbound caller exactly when authentication is on |
| Dispatcher.LegitimateMeans | src/mcp_proxy/proxy_mcp.py:158-207 | what allows an invocation, in terms of servers, stored entries, admin session, client and settings |
| Dispatcher.AllowedPair | src/mcp_proxy/client_policy.py:41-57 | a wire name let through by the policy decodes to a pair that no stored entry decodes to |
| Dispatcher.InnerIsSmaller | src/mcp_proxy/proxy_mcp.py:1687-1689 | the inner call nests less deeply, or as deeply with a plainer name, so the recursion ends |
| Dispatcher.BranchTarget | src/mcp_proxy/proxy_mcp.py:1637-1712 | what the branch invokes, and with what, is what the call it came from names |
| Dispatcher.DirectCallNames | src/mcp_proxy/proxy_mcp.py:1638-1686 | what a direct callTool names: the tool its toolName decodes to, with the arguments given |
| Dispatcher.ShortcutNames | src/mcp_proxy/proxy_mcp.py:533-584 | what the canonical name of a tool names: that tool |
| Dispatcher.CoreExactly | src/mcp_proxy/tool_response_pagination.py:90-114 | the arguments that reach a target, with the six spellings of paging fields written out |
| Dispatcher.RewrittenTarget | src/mcp_proxy/proxy_mcp.py:573-584 | what a rewritten shortcut names is what the shortcut names |
| Dispatcher.CallToolHasNoListing | src/mcp_proxy/proxy_mcp.py:1442-1447 | the rewritten name "callTool" is never itself a shortcut |
| Dispatcher.ListedServer | src/mcp_proxy/proxy_mcp.py:524-530 | the listed spelling of a registered server's tool decodes, if at all, to that server |
| JsonValues.FieldIsShallower | src/mcp_proxy/proxy_mcp.py:1646-1653 | a field nests less deeply than its object |
| JsonFileCache.MtimeJsonCache.Get | src/mcp_proxy/json_file_cache.py:54-61 | stat and parse at two instants of the file's history; a parse that raises caches nothing |
| JsonFileCache.MtimeJsonCache.Invalidate | src/mcp_proxy/json_file_cache.py:63-65 | the cache is empty afterwards |
| JsonFileCache.RunKeepsInv | src/mcp_proxy/json_file_cache.py:54-65 | what is cached was parsed after its signature was taken, with both still in the past |
| JsonFileCache.LinearizesExactly | src/mcp_proxy/json_file_cache.py:54-61 | every schedule of reads over a history is indistinguishable from re-reading exactly when a returning signature brings back the same document |
| JsonFileCache.FreshLinearizes | src/mcp_proxy/json_file_cache.py:47-61 | when every replacement has a new signature, every schedule of reads is indistinguishable from re-reading |
| JsonFileCache.CorruptKeepsRaising | src/mcp_proxy/json_file_cache.py:58-58 | while the file does not parse every read raises, and no older document is served |
| JsonFileCache.UnchangedFileIsParsedOnce | src/mcp_proxy/json_file_cache.py:55-57 | after a successful read, however many reads find the same signature, none parses and all give the same document |
| JsonFileCache.DeletedFileIsStillServed | src/mcp_proxy/json_file_cache.py:50-51 | the one signature of missing files lets a deleted file be served |
| ConfigRecords.RunKeepsDistinct | src/mcp_proxy/config_store.py:50-104 | ids stay distinct in every run |
| ConfigRecords.FindAfterStep | src/mcp_proxy/config_store.py:50-104 | what every operation does to the record of every id, its own and all others |
| ConfigRecords.IdsAfterStep | src/mcp_proxy/config_store.py:50-104 | records keep their places: a new one comes last, only a removal takes one away |
| ConfigRecords.FoundIsFate | src/mcp_proxy/config_store.py:50-104 | in every run each record is what the operations on its id alone make of it |
| ConfigRecords.RemovedStaysAway | src/mcp_proxy/config_store.py:58-66 | in every run a removed record is absent until an addition of that id |
| ConfigRecords.WrittenStays | src/mcp_proxy/config_store.py:50-78 | a record accepted by add or update is there exactly as given until it is updated or removed |
| ConfigRecords.NoLostUpdate | src/mcp_proxy/config_store.py:80-104 | a field written by update_fields stays through every operation that does not write it or replace the record |
| ConfigRecords.GetThenUpdateLosesUpdates | src/mcp_proxy/config_store.py:85-90 | reading and writing back whole records does lose what was written in between |
| ConfigRecords.StepKeepsField | src/mcp_proxy/config_store.py:50-104 | an operation that does not touch a field leaves it alone |
| ConfigStore.ServerConfigStore.ReadRaw | src/mcp_proxy/config_store.py:34-37 | the cached document has the file's records and shares none with any caller |
| ConfigStore.ServerConfigStore.ListServers | src/mcp_proxy/config_store.py:39-41 | new objects with exactly the file's records |
| ConfigStore.ServerConfigStore.Get | src/mcp_proxy/config_store.py:43-48 | a new object for the record, or none |
| ConfigStore.ServerConfigStore.Add | src/mcp_proxy/config_store.py:50-56 | the file gains the record, or the id is taken and nothing changes |
| ConfigStore.ServerConfigStore.Remove | src/mcp_proxy/config_store.py:58-66 | the record is gone and the others stay in order; the answer says whether it was there |
| ConfigStore.ServerConfigStore.Update | src/mcp_proxy/config_store.py:68-78 | the record is replaced in its place, with both errors |
| ConfigStore.ServerConfigStore.UpdateFields | src/mcp_proxy/config_store.py:80-104 | an atomic read-modify-write of the current record; the object returned is the caller's alone |
| ConfigStore.ServerConfigStore.CallerChanges | src/mcp_proxy/config_store.py:35-37 | a caller that changes a record it holds disturbs neither file nor cache |
| ConfigStore.ServerConfigStore.ExternalEdit | src/mcp_proxy/json_file_cache.py:54-61 | an outside edit is what the next read sees |
| ConfigStore.ServerConfigStore.Write | src/mcp_proxy/config_store.py:106-112 | the file is replaced and the shared document forgotten |
| Fencing.SanitizeCleans | servers/mcp-news-server/src/mcp_news_server/llm_curator.py:24-34 | sanitized text has no control character and no fence token, and text is left alone exactly when it is clean |
| Fencing.SanitizeIdempotent | servers/mcp-news-server/src/mcp_news_server/llm_curator.py:32-34 | sanitizing twice is sanitizing once |
| Fencing.RemovalIsClean | servers/mcp-news-server/src/mcp_news_server/llm_curator.py:29-34 | no token is left or formed by the replacement |
| FencingLaws.TokenExactly | servers/mcp-news-server/src/mcp_news_server/llm_curator.py:29-29 | a token is matched exactly where some text of the pattern stands, and the longest is |
| FencingLaws.LeftmostGoes | servers/mcp-news-server/src/mcp_news_server/llm_curator.py:34-34 | the leftmost token is replaced, what stands before it is untouched, what follows is treated alike |
| FencingLaws.ControlsExactly | servers/mcp-news-server/src/mcp_news_server/llm_curator.py:24-27 | which characters are removed, one by one |
| Fencing.C1ControlsSurvive | servers/mcp-news-server/src/mcp_news_server/llm_curator.py:20-27 | the characters from 0x80 to 0x9F are not removed |
| Fencing.OtherOrderJoins | servers/mcp-news-server/src/mcp_news_server/llm_curator.py:34-34 | removing tokens before controls would join any two clean pieces that a control keeps apart |
| Fencing.OtherOrderFormsTokens | servers/mcp-news-server/src/mcp_news_server/llm_curator.py:34-34 | and two such pieces can make a token |
| FencedPrompt.HeadlineLine | servers/mcp-news-server/src/mcp_news_server/llm_curator.py:129-139 | one block: number, source, title and summary between the item's fences |
| FencedPrompt.HeadlineLines | servers/mcp-news-server/src/mcp_news_server/llm_curator.py:123-140 | one block for each of the first items, numbered from 1 |
| FencedPrompt.BitExactly | servers/mcp-news-server/src/mcp_news_server/llm_curator.py:129-138 | the body of an item: number, source if there is one, title or a stand-in, summary if there is one |
| FencedPrompt.UptoExactly | servers/mcp-news-server/src/mcp_news_server/llm_curator.py:128-128 | how many items are shown for every limit |
| FencedPrompt.BodiesAreNumbered | servers/mcp-news-server/src/mcp_news_server/llm_curator.py:128-139 | the number in a body is the number on its fences |
| FencedPrompt.BitIsClean | servers/mcp-news-server/src/mcp_news_server/llm_curator.py:129-138 | no body contains a fence token, whatever the feed says |
| FencedPrompt.OneFenceEach | servers/mcp-news-server/src/mcp_news_server/llm_curator.py:139-139 | a block has one opening token, at its start, one closing token, at its end, and no other |
| FencedPrompt.BlockParses | servers/mcp-news-server/src/mcp_news_server/llm_curator.py:139-139 | a block reads back as its number and body, whatever follows |
| FencedPrompt.PromptParses | servers/mcp-news-server/src/mcp_news_server/llm_curator.py:123-140 | the newline-joined blocks of any items parse back to exactly their numbers and bodies |
| FencedPrompt.DecimalIsInjective | servers/mcp-news-server/src/mcp_news_server/llm_curator.py:128-139 | the number on a fence tells the item |
| FencedPrompt.DecimalSpells | servers/mcp-news-server/src/mcp_news_server/llm_curator.py:128-139 | the digits on a fence spell the number of the item, without leading zeros |
| FeedMigrations.MigrateFeeds | servers/mcp-news-server/src/mcp_news_server/feed_migrations.py:55-105 | both loops compute the fold of the migration steps: list, newly recorded ids, and whether anything changed |
| MigrationLaws.MigratedKeeps | servers/mcp-news-server/src/mcp_news_server/feed_migrations.py:65-105 | recorded ids are new and distinct, urls are listed once, every supplemental id is recorded |
| MigrationLaws.OneShotIsSettled | servers/mcp-news-server/src/mcp_news_server/feed_migrations.py:55-105 | running on the output changes and records nothing exactly when every entry listed is stripped and has nothing pending |
| MigrationLaws.OneShotExactly | servers/mcp-news-server/src/mcp_news_server/feed_migrations.py:55-105 | migrations are one-shot on every list and history exactly for tables in which no target is another key and no supplemental is in a table |
| MigrationLaws.ReleaseIsWellFormed | servers/mcp-news-server/src/mcp_news_server/feed_migrations.py:15-52 | the tables of this release are such tables |
| FeedStores.FeedStore.Load | servers/mcp-news-server/src/mcp_news_server/store.py:47-75 | the list and the file after a load, with the ids recorded on disk |
| FeedStores.FeedStore.ReadRows | servers/mcp-news-server/src/mcp_news_server/store.py:55-63 | the rows with a url, stripped |
| FeedStores.FeedStore.NotYet | servers/mcp-news-server/src/mcp_news_server/store.py:70-72 | the recorded ids that are not on disk, in order |
| FeedStores.NewIsUnapplied | servers/mcp-news-server/src/mcp_news_server/store.py:70-72 | the filter keeps everything exactly when nothing recorded is on disk, as is always the case |
| FeedStores.FeedStore.Save | servers/mcp-news-server/src/mcp_news_server/store.py:117-134 | the file holds this list and the ids this object knows |
| FeedStores.FeedStore.Add | servers/mcp-news-server/src/mcp_news_server/store.py:136-147 | the feed is appended unless one of the same url is known |
| FeedStores.FeedStore.Remove | servers/mcp-news-server/src/mcp_news_server/store.py:149-159 | exactly the feeds that the url means are gone |
| FeedLaws.CleanedExactly | servers/mcp-news-server/src/mcp_news_server/store.py:55-63 | rows with a url, stripped, in their order |
| FeedLaws.AddExactly | servers/mcp-news-server/src/mcp_news_server/store.py:136-147 | an enabled feed is appended unless the loaded list has one of the same canonical url or spelling |
| FeedLaws.RemoveExactly | servers/mcp-news-server/src/mcp_news_server/store.py:149-159 | exactly the feeds of that canonical url or spelling are gone from list and file |
| FeedLaws.WithoutKeepsOrder | servers/mcp-news-server/src/mcp_news_server/store.py:152-157 | the feeds that stay keep their order |
| FeedLaws.ReplacedFeedMoves | servers/mcp-news-server/src/mcp_news_server/feed_migrations.py:79-97 | a feed whose url a release replaces is listed under the new url with its caption and its state |
| FeedLaws.ExtraIsListed | servers/mcp-news-server/src/mcp_news_server/feed_migrations.py:99-103 | a feed that a release adds is listed as the release has it, unless its url is listed already |
| FeedLaws.ChangedMeans | servers/mcp-news-server/src/mcp_news_server/feed_migrations.py:75-105 | unless something changed every entry listed is as it was; what changed is recorded |
| FeedLaws.DisabledStaysUnchanged | servers/mcp-news-server/src/mcp_news_server/feed_migrations.py:87-90 | disabling what is disabled already is no change |
| FeedRuns.AppliedGrows | servers/mcp-news-server/src/mcp_news_server/store.py:64-74 | in every run recorded ids are only appended, none twice |
| FeedRuns.LoadFirst | servers/mcp-news-server/src/mcp_news_server/feed_migrations.py:79-103 | under each url a load lists the first entry that lands there, disabled if that is pending |
| FeedRuns.DeadFeedIsDisabledOnce | servers/mcp-news-server/src/mcp_news_server/feed_migrations.py:87-90 | the first load that sees a dead feed disables it and records so; later ones leave it as its user has it |
| FeedRuns.LoadIsStable | servers/mcp-news-server/src/mcp_news_server/store.py:47-75 | loading again gives the same list and leaves the file alone |
| FeedRuns.RemovedStaysRemoved | servers/mcp-news-server/src/mcp_news_server/store.py:149-159 | a removed supplemental feed does not return in any run of loads, additions, removals and edits that does not bring it |
| FeedRuns.ServedForGood | servers/mcp-news-server/src/mcp_news_server/store.py:47-159 | a listed feed keeps its state until it is removed or the file is edited |
| FeedRuns.ReenabledStaysEnabled | servers/mcp-news-server/src/mcp_news_server/feed_migrations.py:3-5 | a dead feed that its user enables again stays enabled |
| FeedRuns.ReleaseIsTidy | servers/mcp-news-server/src/mcp_news_server/feed_migrations.py:15-52 | these run theorems apply to the tables of this release |
| Dedupe.BestByUrl | servers/mcp-news-server/src/mcp_news_server/dedupe.py:92-99 | the insertion-ordered dictionary holds what keeping item after item keeps |
| Dedupe.DedupeNewsItems | servers/mcp-news-server/src/mcp_news_server/dedupe.py:82-114 | the loops compute the three passes |
| DedupeLaws.PreferIsOutranks | servers/mcp-news-server/src/mcp_news_server/dedupe.py:70-79 | the comparison is the lexicographic preference: dated, then later, then longer |
| DedupeLaws.BestIsMaximal | servers/mcp-news-server/src/mcp_news_server/dedupe.py:92-99 | each url is kept once, by an item of the input that no other item of that url outranks |
| DedupeLaws.BestIsInOrder | servers/mcp-news-server/src/mcp_news_server/dedupe.py:92-99 | the kept urls stand in the order in which the input first names them |
| DedupeLaws.NewestFirstSorts | servers/mcp-news-server/src/mcp_news_server/dedupe.py:101-101 | the sort is a rearrangement, newest first, that keeps the order of items of equal date |
| DedupeLaws.StableSortIsUnique | servers/mcp-news-server/src/mcp_news_server/dedupe.py:101-101 | and there is only one such |
| DedupeCoverage.TitlePassCovers | servers/mcp-news-server/src/mcp_news_server/dedupe.py:105-114 | every item is kept, or one kept and at least as new has its long fingerprint |
| DedupeExactness.KeptExactly | servers/mcp-news-server/src/mcp_news_server/dedupe.py:105-114 | the title pass drops exactly the items whose story an earlier one tells and keeps the others in order, on every list |
| DedupeExactness.RepIsBest | servers/mcp-news-server/src/mcp_news_server/dedupe.py:92-99 | what is kept for a url is its best item: outranked by none, and outranking those before it |
| DedupeExactness.ShadowedExactly | servers/mcp-news-server/src/mcp_news_server/dedupe.py:101-113 | a url's best item is dropped exactly when another one that is newer, or as new and named first, tells its story |
| DedupeCoverage.ResultIsClean | servers/mcp-news-server/src/mcp_news_server/dedupe.py:82-114 | the result is sorted, comes from the input, and repeats neither url nor story |
| DedupePlain.UrlsDiffer | servers/mcp-news-server/src/mcp_news_server/dedupe.py:88-99 | no two outputs have the same canonical url, or the same spelling where there is none |
| DedupePlain.UrlIsKept | servers/mcp-news-server/src/mcp_news_server/dedupe.py:88-99 | compared by url alone, every item with a url has an output of its canonical url that is dated if it is, no earlier, and no shorter |
| DedupePlain.StoriesDiffer | servers/mcp-news-server/src/mcp_news_server/dedupe.py:103-113 | outputs share a fingerprint only if it is too short |
| DedupePlain.ShortTitlesStay | servers/mcp-news-server/src/mcp_news_server/dedupe.py:103-113 | an item with a short fingerprint is never dropped for its title |
| DedupePlain.NothingElseIsDropped | servers/mcp-news-server/src/mcp_news_server/dedupe.py:82-114 | with both comparisons off the result is a rearrangement of the items with a url |
| DedupePlain.DatesFall | servers/mcp-news-server/src/mcp_news_server/dedupe.py:101-101 | no output is followed by a later one, nor an undated by a dated one |
| DedupeCoverage.FixedExactly | servers/mcp-news-server/src/mcp_news_server/dedupe.py:82-114 | a list is left alone exactly when it is sorted, has urls, and repeats nothing |
| DedupeCoverage.DedupedIsIdempotent | servers/mcp-news-server/src/mcp_news_server/dedupe.py:82-114 | doing it twice is doing it once |
| DedupeCoverage.EveryItemIsRepresented | servers/mcp-news-server/src/mcp_news_server/dedupe.py:82-114 | every item with a url has an output as new as itself: its url's best item, or one that tells that item's story |
| DedupeExactness.DirectlyExactly | servers/mcp-news-server/src/mcp_news_server/dedupe.py:82-114 | an item's own url or own story is in the output exactly when its url's best item tells no story told before it or some url's best item tells the item's own story as late |
| DedupeExactness.OneComparisonRepresentsDirectly | servers/mcp-news-server/src/mcp_news_server/dedupe.py:85-103 | with one of the comparisons off it always is |
| DedupeExactness.DirectRepresentationCanFail | servers/mcp-news-server/src/mcp_news_server/dedupe.py:105-114 | three items of which the first is in the output neither by url nor by title |
| CallStats.ToolCallStatsStore.constructor | src/mcp_proxy/tool_call_stats.py:27-66 | the counts read from the file, capped |
| CallStats.ToolCallStatsStore.CapUnlocked | src/mcp_proxy/tool_call_stats.py:68-76 | deleting key after key in sorted order leaves the cap of the table |
| CallStats.CappedIsCap | src/mcp_proxy/tool_call_stats.py:68-76 | nothing is dropped without need, and what is dropped ranks below all that is kept |
| CallStats.CapIsUnique | src/mcp_proxy/tool_call_stats.py:68-76 | only one table is that |
| CallStats.KeptOutranks | src/mcp_proxy/tool_call_stats.py:68-76 | what is dropped was called less often than all that is kept, or as often under a name that sorts first |
| CallStats.CompositeExactly | src/mcp_proxy/tool_call_stats.py:115-124 | which names are counted: with a slash, with a hexadecimal marker, or with something on both sides of the first double underscore |
| CallStats.LoadedExactly | src/mcp_proxy/tool_call_stats.py:44-66 | loading takes the positive numbers of the table, all of them if the limit allows |
| Text.LessIsLexicographic | src/mcp_proxy/tool_call_stats.py:73-75 | names are compared where they first differ |
| CallStats.ToolCallStatsStore.RecordSuccess | src/mcp_proxy/tool_call_stats.py:114-129 | names that are not composite are ignored; others count, cap, and are due to be written, as CallsAreCounted says of runs |
| CallStats.ToolCallStatsStore.Remove | src/mcp_proxy/tool_call_stats.py:131-142 | the key is gone and due to be written, or was not there |
| CallStats.ToolCallStatsStore.FlushDirtyUnlocked | src/mcp_proxy/tool_call_stats.py:98-107 | the file has the counts, or writing failed and they stay due |
| CallStats.ToolCallStatsStore.TimerFlush | src/mcp_proxy/tool_call_stats.py:93-96 | the timer is spent before the write |
| CallStats.ToolCallStatsStore.Flush | src/mcp_proxy/tool_call_stats.py:109-112 | a forced write |
| CallStats.ToolCallStatsStore.RankedKeys | src/mcp_proxy/tool_call_stats.py:144-152 | exactly the keys, most called first, ties by name; what is unwritten has a timer afterwards |
| CallStats.ToolCallStatsStore.TopKeys | src/mcp_proxy/tool_call_stats.py:154-155 | as many as asked for, each ahead of all that are left out |
| CallStats.WrittenLoads | src/mcp_proxy/tool_call_stats.py:44-83 | a written table reads back as it is |
| CallStatsRuns.RunIsCoherent | src/mcp_proxy/tool_call_stats.py:44-152 | in every run: not dirty means that a reload gives the counts in memory; dirty without a timer means that the last write failed |
| CallStatsRuns.CallsAreCounted | src/mcp_proxy/tool_call_stats.py:114-142 | in every run without a lossy restart, while the cap does not drop the key: its count is that of the start, or nothing after the last removal, plus one for every call since, counted from the operations alone |
| CallStatsRuns.RoomDropsNothing | src/mcp_proxy/tool_call_stats.py:125-127 | with room in the table, or for a key that is in it, a call drops nothing |
| CallStatsRuns.UnwrittenIsTimed | src/mcp_proxy/tool_call_stats.py:85-152 | in every run in which no write fails, whatever is unwritten has a timer |
| CallStatsRuns.RestartsAreInvisible | src/mcp_proxy/tool_call_stats.py:44-142 | when no restart finds unwritten counts, the counts are those of a table that is never written nor read |
| CallStatsRuns.RestartLosesExactly | src/mcp_proxy/tool_call_stats.py:44-112 | a restart goes back to the counts of the moment when nothing was last unwritten, and loses nothing exactly when the calls and removals since then add up to the same counts |
| CallStatsRuns.FlushedRestartLosesNothing | src/mcp_proxy/tool_call_stats.py:98-112 | after a flush that succeeds a restart loses nothing |
| CallStatsRuns.NewKeyIsAdmittedExactly | src/mcp_proxy/tool_call_stats.py:125-127 | at the limit a new key is counted exactly when some key has one call and a name that sorts before it |
| CallStatsRuns.NewcomersStarve | src/mcp_proxy/tool_call_stats.py:125-127 | a tool called any number of times is never counted while every key kept has two calls or more |
| CallStatsRuns.TiesAreBrokenBothWays | src/mcp_proxy/tool_call_stats.py:73-151 | in every table and for every limit: of two keys with as many calls the one ranked ahead is never kept when the other is dropped |
| CallStatsRuns.DecodableIsCounted | src/mcp_proxy/tool_call_stats.py:115-124 | every name that decodes to a tool passes the filter |

## Left out

- HTTP, stdio and SSE transports, subprocesses and their timeouts; the admin UI, its routes other than the login, middleware and settings parsing.
- Installers, the URL guard, HTML conversion and feed fetching; the upstream tool-list cache, the live-call tracker, the digest cache and secret masking.
- Lone surrogates in tool names, rounding of clock readings, and the rendering of payloads as JSON text.
- Tokens drawn for cache ids: paging assumes that nobody else puts a response under a client's id.
- A limiter with max_attempts below 1, which fails on an empty queue at rate_limit.py:69.
- Corrupt or unreadable feeds.yaml and rows that are no mappings; the crash safety of write-then-replace.
- `canonical_url`, `title_fingerprint`, `_plain_summary` and Python's `int` are parameters, so what is proved holds for whatever they compute.
- Which characters beyond ASCII are decimal digits depends on the Unicode version; fencing is proved for every such choice.
- Dispatcher.Proxy.CallTool: does not say what is replied, because lookups, cached pages and upstream failures are left open; the popular tools are an arbitrary list at every await. An upstream tool counts as invoked when its server is looked up, just before the connection is made.
- Dispatcher.Proxy.LookupToolRow: whether an upstream lists a tool, and with which parameters, is left open.
- PaginationArgs.ParseLimit: Python's `int` on JSON values is a parameter, and the messages of the errors are not modelled.
- LimiterVisibility.InvisibleExactly: leaves out limiters that allow a single attempt; PruningInvisible and FailureSimulatesExactly cover them.
- LimiterPruning.PruningInvisible: whole runs are covered one way; at the boundary the exact statement is FailureSimulatesExactly, step by step.
- ResponseCache.ToolResponseCache.PurgeExpired: keeps the survivors in one pass, where the source collects the expired ids and deletes them.
- ConfigStore.ServerConfigStore.Write: a write that fails is not modelled; the document is edited before the write, so memory and file would then differ.
- FeedStores.FeedStore.Save: by an object that has not loaded it would write an empty list of ids; nothing in the source does so, and runs contain saves only after loads.
- FeedRuns.ReenabledStaysEnabled: edits of the file after the one that enables the feed are excluded.
- CallStats.ToolCallStatsStore.FlushDirtyUnlocked: a failed write leaves the file as it was; the time between flushes is not modelled, and no other process writes the file.
- FeedMigrations.MigrateFeeds: the label of a feed is called `caption`, since `label` is a reserved word in Dafny.
