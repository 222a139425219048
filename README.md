# NoShitProxy core, modelled in Dafny

NoShitProxy is an intercepting HTTP proxy with a browser UI. A mitmproxy
add-on (the bridge) decides which intercepted flows are in scope, serialises
them to a compact record and posts them to a FastAPI backend. The backend
keeps a bounded SQLite history, pushes live summaries to viewers over
server-sent events, and can replay or repeat captured requests.

This project models the logic of that core, one Dafny module per concern:

- `Base`, `Text`, `Headers` and `Json` hold shared pieces. These are options and results, Python's string helpers (`strip`, `lower`, `upper`, `splitlines`, `join`), header-list filtering by lower-cased name, and the JSON values the program reads back.
- `Models` holds the frozen records of `models.py`.
- `Replay` is the backend's TTL-pruned replay cache, as a class over a `map` from token to entry.
- `Urls` covers the browser URL carrying `__nsp=<token>` and the bridge's removal of it.
- `Upstream` filters hop-by-hop headers and the replayed response's raw headers.
- `Charset` extracts the `charset` parameter (section 8.3.2 of RFC 9110).
- `Html` injects `<base href>` and derives the base href.
- `EventBus` is the subscriber registry of bounded FIFO queues and the server-sent-events framing. It includes a reading of the stream under the event-stream interpretation rules of section 9.2 of the WHATWG HTML Living Standard.
- `FlowStore` models the `flows` table as a sequence of rows in rowid order, inside a `Store` class. It covers upsert, pruning of the oldest rows, the two lookups and the header helpers.
- `FlowQueries` and `FlowListing` build the filter clauses and parameters, the `ORDER BY` text and the listing statement. They come with a row-comparison model of what the ordering means.
- `Scope` covers scope patterns (substring or `fnmatch` glob), `_in_scope` and pattern normalisation.
- `Bridge` holds the add-on's scope state, replay-spec validation and the request/response hook decisions.
- `Serialize` is `flow_ingest`: the cookie collapse (section 5.4 of RFC 6265), previews, and the size caps for base64 bodies (section 4 of RFC 4648).
- `Repeater` is the repeater's text-header parser and printer and the `RepeatResponse` fields.
- `App` holds the backend endpoints that tie these together: `ingest`, `set_scope`, `replay_get_spec` and `replay_get`.

Some things are library code, outside the program:

- base64;
- charset decoding and encoding;
- `json.loads`/`dumps`;
- `urlsplit`/`urlunsplit`/`urljoin`;
- the HTTP client;
- the random token;
- the clock.

These are passed in as function values or plain parameters. Where a property depends on such a function, the lemma states the hypothesis it needs, for example that `split` inverts `unsplit`.

## Model

| member | source | states |
|---|---|---|
| Base.Prefix | noshitproxy/backend/repeater.py:40-45 | slicing `data[:limit]` yields a prefix of the input whose length is the smaller of the input length and the limit |
| Models.DefaultFlowQuery | noshitproxy/models.py:41-56 | the default query has limit 200, offset 0, and every filter, sort and order absent |
| Models.Summarize | noshitproxy/backend/app.py:348-360 | a summary carries `seq` and exactly the scalar fields of the flow |
| Models.SummaryIgnoresBodies | noshitproxy/models.py:26-38 | two flows that differ only in headers, bodies or previews have the same summary |
| Text.UpperIdempotent | noshitproxy/backend/app.py:473 | upper-casing an upper-cased method changes nothing |
| Text.TrimIdempotent | noshitproxy/backend/repeater.py:25 | trimming twice equals trimming once |
| Text.TrimAllDropped | noshitproxy/proxy/serialize.py:30 | a string made only of stripped characters, such as a blank value, strips to nothing |
| Text.StripIdempotent | noshitproxy/backend/app.py:414-415 | `strip()` twice equals `strip()` once |
| Text.StripNoop | noshitproxy/backend/app.py:414-415 | a string without surrounding whitespace is left alone by `strip()` |
| Text.TrimKeepsAbsent | noshitproxy/backend/app.py:203 | trimming never introduces a character the input lacked, such as `;` |
| Text.FindFrom | noshitproxy/backend/app.py:208 | the search returns the first position at or after `from` where the substring occurs, or none if it occurs nowhere there |
| Text.FindChar | noshitproxy/backend/repeater.py:28 | returns the first index of the character at or after `from`, or none if it does not occur |
| Text.FindLineBreak | noshitproxy/backend/repeater.py:24 | returns the first index of a line boundary character as `splitlines` recognises them, or none |
| Text.SplitJoinedLines | noshitproxy/backend/repeater.py:22-37 | `splitlines` undoes the `"\n"` join of non-empty lines without line breaks |
| Headers.RemoveNamed | noshitproxy/backend/app.py:176-182 | no kept header's lower-cased name is in the set, and the result is no longer than the input |
| Headers.RemoveNamedMembers | noshitproxy/backend/app.py:176-182 | a pair is kept if and only if it is in the input and its lower-cased name is not in the set |
| Headers.RemoveNamedAppend | noshitproxy/backend/app.py:176-182 | filtering respects concatenation, so the kept pairs stay in input order |
| Headers.RemoveNamedNothing | noshitproxy/backend/app.py:176-182 | a list with no named header passes through unchanged |
| Headers.RemoveNamedIdempotent | noshitproxy/backend/app.py:176-182 | filtering twice equals filtering once |
| Json.StringPairs | noshitproxy/proxy/bridge_addon.py:262-271 | keeps only the items that are two-string lists; never longer than the input |
| Json.StringPairsMembers | noshitproxy/proxy/bridge_addon.py:262-271 | a pair is kept if and only if it came from a well-formed item |
| Json.StringPairsAppend | noshitproxy/proxy/bridge_addon.py:262-271 | pair extraction respects concatenation, so item order is kept |
| Json.StringPairsOfHeaders | noshitproxy/backend/app.py:504-508 | headers written as JSON pairs are read back unchanged |
| Replay.Pruned | noshitproxy/backend/app.py:166-173 | an entry survives iff its age is at most 60 s (exactly 60 s survives), and survivors are unchanged |
| Replay.ExpiredIsAbsent | noshitproxy/backend/app.py:496-502 | after pruning, an expired entry cannot be told apart from an absent one |
| Replay.ResolveAgain | noshitproxy/backend/app.py:496-502 | repeated resolves within the TTL find the same entry: reading never removes it |
| Replay.ReplayCache.constructor | noshitproxy/backend/app.py:62 | the cache starts empty |
| Replay.ReplayCache.Prune | noshitproxy/backend/app.py:166-173 | `_prune_replay` deletes in place exactly the expired entries |
| Replay.ReplayCache.Open | noshitproxy/backend/app.py:462-491 | see below |
| Replay.ReplayCache.Resolve | noshitproxy/backend/app.py:496-502 | prunes, then returns the entry iff the token is present and fresh, without removing it |
| Urls.BrowserRecord | noshitproxy/backend/app.py:185-192 | the browser URL keeps scheme, host, path, fragment and every query pair, and appends `(__nsp, token)` last |
| Urls.WithoutReplayParam | noshitproxy/proxy/bridge_addon.py:69-73 | the rebuilt query holds no `__nsp` pair |
| Urls.LastReplayIndex | noshitproxy/proxy/bridge_addon.py:69-72 | gives the position of the last `__nsp` pair, or none when there is no such pair |
| Urls.LastReplayToken | noshitproxy/proxy/bridge_addon.py:67-76 | the token is the value of an `__nsp` pair, and is absent exactly when there is none |
| Urls.StripReplayParam | noshitproxy/proxy/bridge_addon.py:63-81 | the accumulator loop computes the last token and the rebuilt URL, which are both present or both absent |
| Urls.WithoutReplayParamNoop | noshitproxy/proxy/bridge_addon.py:69-73 | a query without `__nsp` comes back unchanged |
| Urls.StripBrowserUrl | noshitproxy/proxy/bridge_addon.py:63-81 | stripping `_make_browser_url(u, t)` yields `t` and the URL with `u`'s own query, given a URL codec that round-trips and a `u` without `__nsp` |
| Upstream.FilterUpstreamHeaders | noshitproxy/backend/app.py:176-182 | the loop drops exactly the 9 hop-by-hop names, case-insensitively (including `content-encoding`), keeping the rest in order |
| Upstream.JoinLocations | noshitproxy/backend/app.py:246-248 | every `location` value is resolved against the request URL; names and other values are unchanged (the reference the raw-header pass is proved against) |
| Upstream.FilteredRawHeaders | noshitproxy/backend/app.py:234-251 | the loop computes the raw-header specification |
| Upstream.RawHeadersIsFilterThenJoin | noshitproxy/backend/app.py:234-251 | the raw-header pass equals hop-by-hop filtering followed by resolving `location` |
| Charset.SearchFrom | noshitproxy/backend/app.py:199 | finds the first case-insensitive `charset=` followed by a non-`;` character, as the regular expression search does |
| Charset.GroupAt | noshitproxy/backend/app.py:44 | the captured group is the text after `charset=` up to the next `;` or the end: non-empty, `;`-free, and followed by `;` or nothing |
| Charset.CharsetFromContentType | noshitproxy/backend/app.py:195-204 | the charset is never empty and holds no `;`; it is `utf-8` without a content type or without a match |
| Charset.CleanValueNoSemicolon | noshitproxy/proxy/serialize.py:30 | stripping whitespace and quotes keeps `;` out |
| Charset.SearchFindsKey | noshitproxy/proxy/serialize.py:26 | in a content type whose only `charset=` follows a prefix, the search lands right after that prefix |
| Charset.KeyMatchesAt | noshitproxy/proxy/serialize.py:19 | `charset=` followed by a character other than `;` is a match, whatever the case of the key |
| Charset.GroupOfPlainValue | noshitproxy/proxy/serialize.py:19 | the group is the value up to the next `;` |
| Charset.CharsetOfParameter | noshitproxy/proxy/serialize.py:22-31 | for any content type whose first match is `charset=v` with `v` running to the next `;` or the end, the charset is `v` stripped of whitespace, then `"`, then `'`, or `utf-8` when nothing is left |
| Charset.CharsetOfPlainParameter | noshitproxy/proxy/serialize.py:22-31 | a content type `p; charset=v; …` with a plain `v` yields exactly `v` |
| Charset.BlankCharsetDefaults | noshitproxy/proxy/serialize.py:30-31 | a blank value such as `charset= ;` gives `utf-8` |
| Charset.QuotedCharset | noshitproxy/proxy/serialize.py:30 | `charset="v"` gives `v` without the quotes |
| Charset.TrimQuotes | noshitproxy/proxy/serialize.py:30 | `strip('"')` removes the surrounding double quotes of a quoted value |
| Charset.CleanValueNoop | noshitproxy/proxy/serialize.py:30 | a value with no surrounding whitespace or quotes is returned as it is |
| Html.BaseTag | noshitproxy/backend/app.py:211 | the tag starts with `<base`, which is what makes injection idempotent |
| Html.SearchHeadOpen | noshitproxy/backend/app.py:213 | finds the first case-insensitive `<head` whose tag is closed by a `>` |
| Html.SearchHeadClose | noshitproxy/backend/app.py:218 | finds the first case-insensitive `</head>` |
| Html.InsertionPoint | noshitproxy/backend/app.py:213-223 | the tag goes after the first `<head…>`, else before `</head>`, else at the start |
| Html.InjectBaseHref | noshitproxy/backend/app.py:207-223 | input containing `<base` is unchanged; otherwise the tag is inserted once at the insertion point, and deleting it gives back the input |
| Html.InjectIdempotent | noshitproxy/backend/app.py:207-223 | injecting twice equals injecting once |
| Html.BeforeLastSlash | noshitproxy/backend/app.py:230 | `rsplit("/", 1)[0]`: the prefix before the last `/`, or the whole path when there is none |
| Html.DirPath | noshitproxy/backend/app.py:228-230 | the directory path always ends in `/`; an empty path becomes `/`; a path ending in `/` is kept; a path with a `/` is cut after its last `/`; a path without one gets `/` appended |
| Html.BaseHrefComponents | noshitproxy/backend/app.py:226-231 | when the URL library reads back what it builds, the base href has the request's scheme and host, no query, no fragment, and the directory path of the request's path, ending in `/` |
| EventBus.OfferAllKeepsPrefix | noshitproxy/backend/app.py:254-261 | offering payloads in turn appends as many as fit under capacity 500, in order, behind the queued ones |
| EventBus.Bus.constructor | noshitproxy/backend/app.py:46 | the registry starts with no subscribers |
| EventBus.Bus.Subscribe | noshitproxy/backend/app.py:264-271 | a new subscriber gets a fresh empty queue, and its stream opens with `retry: 1000` |
| EventBus.Bus.Publish | noshitproxy/backend/app.py:254-261 | the subscriber set is unchanged; each queue below 500 gets the payload at its tail, and full queues are untouched |
| EventBus.Bus.Next | noshitproxy/backend/app.py:272-277 | the stream yields the queue head as a `data:` frame (FIFO), or a keep-alive comment when the queue is empty |
| EventBus.Bus.Unsubscribe | noshitproxy/backend/app.py:278-280 | a closed stream removes only its own queue |
| EventBus.FindSseBreak | noshitproxy/backend/app.py:271-277 | finds the first line boundary (CR or LF) of the event stream |
| EventBus.SseLinesAppend | noshitproxy/backend/app.py:271-277 | the stream splits into lines frame by frame |
| EventBus.DataFrameMessage | noshitproxy/backend/app.py:275 | a `data:` frame is read as exactly one message carrying the payload, provided the payload has no line break |
| EventBus.KeepAliveSilent | noshitproxy/backend/app.py:277 | a keep-alive frame is read as nothing |
| EventBus.RetryLines | noshitproxy/backend/app.py:271 | the opening frame is read as a reconnection time of 1000 ms |
| EventBus.FramesDeliverPayloads | noshitproxy/backend/app.py:272-277 | any run of data and keep-alive frames is read as the data payloads, in order |
| EventBus.StreamDelivers | noshitproxy/backend/app.py:264-280 | a whole stream is read as the 1000 ms reconnection time followed by every queued payload in order |
| FlowStore.FindId | noshitproxy/backend/store.py:136 | finds the row with the id, or none when no row has it |
| FlowStore.StoredMethod | noshitproxy/backend/store.py:117 | the stored method is never empty: an empty method is stored as `GET`, any other as given |
| FlowStore.NextRowid | noshitproxy/backend/store.py:89 | a new row's rowid exceeds every existing rowid |
| FlowStore.UpsertReplacesRow | noshitproxy/backend/store.py:79-139 | see below |
| FlowStore.OldestIndex | noshitproxy/backend/store.py:160-161 | returns the first row with the smallest `ts` |
| FlowStore.PruneOldest | noshitproxy/backend/store.py:144-167 | does nothing at or under `max_rows`; otherwise exactly `max_rows` rows remain, all from the table |
| FlowStore.PruneEvictsOldest | noshitproxy/backend/store.py:155-166 | every evicted row is at least as old as every kept row |
| FlowStore.PruneWellFormed | noshitproxy/backend/store.py:144-167 | pruning keeps ids unique and rowids increasing |
| FlowStore.EvictedOnArrival | noshitproxy/backend/store.py:136-141 | the rowid is read before pruning, so a new flow older than every row of a full table gets a `seq` and is evicted by the same upsert |
| FlowStore.DecodeHeadersJson | noshitproxy/backend/store.py:401-417 | null, empty or non-list input gives `[]`; otherwise the loop keeps, in order, exactly the two-string items |
| FlowStore.DecodeStoredHeaders | noshitproxy/backend/store.py:123-124 | headers stored as JSON decode back unchanged |
| FlowStore.FirstValue | noshitproxy/backend/store.py:390-395 | gives a value whose header name matches case-insensitively, or none when no name matches |
| FlowStore.HeaderValue | noshitproxy/backend/store.py:390-395 | the early-return loop finds the first header whose lower-cased name matches |
| FlowStore.RespBodyIn | noshitproxy/backend/store.py:209-232 | a missing row gives nothing; for a present row, nothing iff its body is null or empty, and otherwise that body |
| FlowStore.FlowIn | noshitproxy/backend/store.py:234-268 | a flow is found iff its row exists, and it carries the requested id |
| FlowStore.UpsertThenRead | noshitproxy/backend/store.py:79-268 | see below |
| FlowStore.Store.constructor | noshitproxy/backend/store.py:12-14 | the table starts empty with the configured `max_rows` |
| FlowStore.Store.OldestRow | noshitproxy/backend/store.py:160-162 | the scan returns the first row with the smallest `ts` |
| FlowStore.Store.PruneIfNeeded | noshitproxy/backend/store.py:144-167 | the table becomes the pruned table and stays well formed |
| FlowStore.Store.UpsertFlow | noshitproxy/backend/store.py:79-142 | the table becomes the upserted-then-pruned table; `seq` is the rowid the id had right after the upsert |
| FlowStore.Store.GetRespBody | noshitproxy/backend/store.py:209-232 | a returned body is never empty |
| FlowStore.Store.GetFlow | noshitproxy/backend/store.py:234-268 | a returned flow carries the requested id |
| FlowQueries.ColumnName | noshitproxy/backend/store.py:315-342 | column names contain no `?` |
| FlowQueries.OpText | noshitproxy/backend/store.py:285-305 | comparison operators contain no `?` |
| FlowQueries.DefaultQueryFiltersNothing | noshitproxy/backend/store.py:309-344 | the default query adds no clause |
| FlowQueries.InActiveFilters | noshitproxy/backend/store.py:309-344 | a filter is active iff one of the eight filter groups contributes it |
| FlowQueries.EqualityFilters | noshitproxy/backend/store.py:313-328 | see below |
| FlowQueries.SearchFilterCases | noshitproxy/backend/store.py:330-336 | see below |
| FlowQueries.RangeFilterCases | noshitproxy/backend/store.py:277-306 | see below |
| FlowQueries.ClauseBalanced | noshitproxy/backend/store.py:271-336 | each clause has as many `?` as the parameters it adds |
| FlowQueries.FiltersBalanced | noshitproxy/backend/store.py:309-344 | over any list of filters, the total `?` count equals the parameter count |
| FlowQueries.FilterBuilder.constructor | noshitproxy/backend/store.py:310-311 | the `where` and `params` lists start empty |
| FlowQueries.FilterBuilder.Emit | noshitproxy/backend/store.py:318-336 | appends one filter's clause and parameters, keeping `?` count and parameter count equal |
| FlowQueries.FilterBuilder.AddLike | noshitproxy/backend/store.py:271-274 | appends the clause and the needle wrapped in `%` |
| FlowQueries.FilterBuilder.AddNullableRange | noshitproxy/backend/store.py:277-290 | appends a minimum and/or maximum clause, each guarded by `IS NOT NULL` |
| FlowQueries.FilterBuilder.AddRange | noshitproxy/backend/store.py:293-306 | appends a minimum and/or maximum clause without a null guard |
| FlowQueries.BuildFlowFilters | noshitproxy/backend/store.py:309-344 | the clauses and parameters are those of the active filters, in source order, and the `?` count equals `len(params)` |
| FlowListing.DirectionOf | noshitproxy/backend/store.py:348 | the direction is ascending iff `order == "asc"` |
| FlowListing.OrderSpec | noshitproxy/backend/store.py:347-372 | every ordering has at least one term |
| FlowListing.CompareRowsAntisymmetric | noshitproxy/backend/store.py:347-372 | the row comparison an `ORDER BY` denotes is antisymmetric |
| FlowListing.TieDefers | noshitproxy/backend/store.py:364-370 | rows tied on the first key are ordered by the remaining keys |
| FlowListing.DefaultNewestFirst | noshitproxy/backend/store.py:356-357 | no sort key, or an unknown one, orders newest first |
| FlowListing.NumByRowid | noshitproxy/backend/store.py:359-360 | `num` orders by rowid alone, in the requested direction |
| FlowListing.ColumnKeyTies | noshitproxy/backend/store.py:350-364 | for `url`, `method` and `size` (which is `resp_size`), equal keys are broken newest first |
| FlowListing.NullsLast | noshitproxy/backend/store.py:366-370 | for `status` and `time`, a row with a value sorts before a row with NULL, in either direction |
| FlowListing.NullableKeyTies | noshitproxy/backend/store.py:366-370 | for `status` and `time`, equal keys are broken newest first |
| FlowListing.DefaultOrderText | noshitproxy/backend/store.py:357 | with no sort key the clause is `ORDER BY ts DESC` |
| FlowListing.StatementBalanced | noshitproxy/backend/store.py:174-186 | the statement has two `?` more than its `WHERE` clauses |
| FlowListing.AssembleStatement | noshitproxy/backend/store.py:174-186 | joins the select, optional `WHERE … AND …`, order and `LIMIT ? OFFSET ?` lines; the `?` count is the clauses' plus two |
| FlowListing.ListFlowsStatement | noshitproxy/backend/store.py:169-186 | the parameters are the filter parameters followed by limit and offset, and the statement's `?` count equals the parameter count |
| Scope.ClassEnd | noshitproxy/proxy/bridge_addon.py:39 | gives the position of the `]` that closes a `[` class, at least one character further on |
| Scope.CompileScopePattern | noshitproxy/proxy/bridge_addon.py:34-39 | a pattern is a substring test iff it has none of `*`, `?`, `[`; otherwise it is a glob over its tokens |
| Scope.CompileAll | noshitproxy/proxy/bridge_addon.py:170-171 | compiles every pattern, in order |
| Scope.AnyMatches | noshitproxy/proxy/bridge_addon.py:192-198 | true iff some compiled pattern matches |
| Scope.InScope | noshitproxy/proxy/bridge_addon.py:184-199 | true for an empty include list; otherwise true iff some include matches and no exclude matches |
| Scope.PlainPatternIsSubstring | noshitproxy/proxy/bridge_addon.py:36-37 | a wildcard-free pattern matches iff it occurs in the URL |
| Scope.LiteralsMatch | noshitproxy/proxy/bridge_addon.py:39-43 | literal glob characters must match the URL's leading characters exactly, case-sensitively |
| Scope.StarMatchesAll | noshitproxy/proxy/bridge_addon.py:39 | `*` matches any string |
| Scope.StarSplits | noshitproxy/proxy/bridge_addon.py:39 | a leading `*` matches iff the rest matches some suffix |
| Scope.EverythingMatchesStar | noshitproxy/proxy/bridge_addon.py:92-95 | the pattern `*` matches every URL |
| Scope.PrefixPattern | noshitproxy/proxy/bridge_addon.py:39-43 | `p*`, with `p` wildcard-free, matches exactly the URLs starting with `p` |
| Scope.QuestionMarkIsOneChar | noshitproxy/proxy/bridge_addon.py:39-43 | `?` matches exactly the one-character URLs, since glob matching is whole-string |
| Scope.NegatedClass | noshitproxy/proxy/bridge_addon.py:39 | `[!…]` matches a character iff `[…]` does not |
| Scope.InitialScopeAcceptsAll | noshitproxy/proxy/bridge_addon.py:90-97 | the initial scope puts every URL in scope |
| Scope.ExcludeWins | noshitproxy/proxy/bridge_addon.py:197-199 | a matching exclude puts a URL out of scope whatever the includes |
| Scope.StrippedNonBlank | noshitproxy/proxy/bridge_addon.py:137-141 | keeps the stripped pattern iff it is not blank |
| Scope.CleanPatterns | noshitproxy/backend/app.py:414-415 | every kept pattern is stripped and non-blank |
| Scope.CleanPatternsAppend | noshitproxy/backend/app.py:414-415 | normalisation respects concatenation, so pattern order is kept |
| Scope.CleanPatternsNoop | noshitproxy/backend/app.py:414-415 | already-normalised patterns are unchanged |
| Scope.CleanPatternsIdempotent | noshitproxy/backend/app.py:414-415 | normalising twice equals normalising once |
| Scope.IncludeOrAll | noshitproxy/backend/app.py:414 | the include list is never empty: the cleaned patterns, or `["*"]` when none remain |
| Bridge.Get | noshitproxy/proxy/bridge_addon.py:128-133 | `dict.get`: a value iff the key is present |
| Bridge.StringItems | noshitproxy/proxy/bridge_addon.py:136-141 | keeps exactly the string items |
| Bridge.ScopeFromJson | noshitproxy/proxy/bridge_addon.py:124-157 | a non-object gives nothing; otherwise includes are never empty, excludes are stripped, and drop holds iff the document's `drop` is JSON `true` |
| Bridge.PolledIncludesTrimmed | noshitproxy/proxy/bridge_addon.py:136-154 | polled includes are `["*"]` or all stripped and non-blank |
| Bridge.IncludeOverridesLegacy | noshitproxy/proxy/bridge_addon.py:130-131 | a present, non-null `include` makes `patterns` irrelevant |
| Bridge.LegacyPatternsFallback | noshitproxy/proxy/bridge_addon.py:130-131 | with `include` missing or null, `patterns` acts as `include` |
| Bridge.NoIncludesMeansAll | noshitproxy/proxy/bridge_addon.py:135-154 | with no usable include, the scope is `["*"]` |
| Bridge.FetchReplaySpec | noshitproxy/proxy/bridge_addon.py:237-280 | a spec exists iff the answer is 200 with an object of string `method`, `url`, `body` and list `headers`; its method is upper-case |
| Bridge.ReplayRewrite | noshitproxy/proxy/bridge_addon.py:201-214 | see below |
| Bridge.Enqueue | noshitproxy/proxy/bridge_addon.py:234-235 | `put_nowait` appends below capacity 10000; a full queue drops the payload silently |
| Bridge.HttpFlow.constructor | noshitproxy/proxy/bridge_addon.py:201-202 | a fresh flow is unmarked and alive |
| Bridge.BridgeAddon.constructor | noshitproxy/proxy/bridge_addon.py:85-97 | starts with include `["*"]`, exclude `[]`, drop false and an empty queue |
| Bridge.BridgeAddon.SetScope | noshitproxy/proxy/bridge_addon.py:163-178 | replaces the lists, drop and compiled patterns together; the queue is untouched |
| Bridge.BridgeAddon.PollScope | noshitproxy/proxy/bridge_addon.py:118-161 | an OK answer with an object replaces the scope with its normalisation; anything else leaves it unchanged |
| Bridge.BridgeAddon.Request | noshitproxy/proxy/bridge_addon.py:201-221 | see below |
| Bridge.BridgeAddon.Response | noshitproxy/proxy/bridge_addon.py:223-235 | see below |
| Bridge.InitialScopeAll | noshitproxy/proxy/bridge_addon.py:90-97 | every URL starts in scope |
| Bridge.NoTokenNoRewrite | noshitproxy/proxy/bridge_addon.py:202-203 | a URL without `__nsp` is never rewritten |
| Bridge.EnqueueIsFifo | noshitproxy/proxy/bridge_addon.py:234-235 | enqueueing appends at the tail or changes nothing, and never exceeds capacity |
| Serialize.CookieSlot | noshitproxy/proxy/serialize.py:54-56 | gives the first cookie header's position, or none when there is no cookie header |
| Serialize.NonEmpty | noshitproxy/proxy/serialize.py:63 | keeps exactly the non-empty parts, in order |
| Serialize.SlotWithinKept | noshitproxy/proxy/serialize.py:54-65 | the recorded index `len(out)` is a valid insertion point in the kept list |
| Serialize.HeadersToList | noshitproxy/proxy/serialize.py:40-67 | the loop with `out.insert` returns the input when collapsing is off, and the collapsed list when it is on |
| Serialize.NoCookieUnchanged | noshitproxy/proxy/serialize.py:40-67 | a list without cookies passes through unchanged |
| Serialize.CollapseKeepsOthers | noshitproxy/proxy/serialize.py:50-60 | non-cookie headers keep their order and their duplicates |
| Serialize.InsertedCookieRemoved | noshitproxy/proxy/serialize.py:65 | the inserted header is the only cookie header the result has beyond the kept ones |
| Serialize.CollapsedCookieHeader | noshitproxy/proxy/serialize.py:54-65 | see below |
| Serialize.InsertedCookieIsOnly | noshitproxy/proxy/serialize.py:65 | a cookie header inserted among headers without cookies is the only cookie header |
| Serialize.SafeDecode | noshitproxy/proxy/serialize.py:34-37 | gives nothing iff the data is empty, and otherwise decodes at most `limit` leading bytes (an unknown charset raises; `Serialize.PreviewText`, its only caller, carries that case) |
| Serialize.PreviewText | noshitproxy/proxy/serialize.py:70-88 | see below |
| Serialize.FlowIngest | noshitproxy/proxy/serialize.py:91-149 | see below |
| Serialize.PreviewsFollowBodies | noshitproxy/proxy/serialize.py:143-146 | in a produced record, each side has a preview iff its decoded body is non-empty |
| Serialize.JsonFailureRaises | noshitproxy/proxy/serialize.py:80-85 | a small non-empty JSON response in a known charset whose `json.loads` or `json.dumps` raises something other than `JSONDecodeError` (deep nesting, an over-long integer) yields no record |
| Serialize.UnknownResponseCharsetRaises | noshitproxy/proxy/serialize.py:144-146 | a non-empty response declaring `charset=v`, with `v` unknown to Python, yields no record |
| Repeater.SplitAtFirstColon | noshitproxy/backend/repeater.py:25-32 | see below |
| Repeater.ParseLine | noshitproxy/backend/repeater.py:25-32 | a parsed line gives a clean header: key without `:` and not dropped, key and value stripped |
| Repeater.ParsedHeadersClean | noshitproxy/backend/repeater.py:22-33 | every parsed header is clean |
| Repeater.ParsedHeadersAppend | noshitproxy/backend/repeater.py:24-33 | parsing respects concatenation of lines, so output follows line order and keeps duplicates |
| Repeater.ParseHeadersText | noshitproxy/backend/repeater.py:22-33 | the loop over `splitlines()` computes the line-by-line parse |
| Repeater.FormatLines | noshitproxy/backend/repeater.py:37 | gives one `key: value` line per header, in order |
| Repeater.HeadersText | noshitproxy/backend/repeater.py:36-37 | the text is empty iff there are no headers; it starts with the first key and `: ` and ends with the last value, so there is no trailing newline |
| Repeater.ParseFormatted | noshitproxy/backend/repeater.py:22-37 | a printed line of a printable header parses back to it, unless its name is dropped |
| Repeater.ParseFormattedLines | noshitproxy/backend/repeater.py:22-37 | the printed lines of printable headers parse back to the non-dropped headers |
| Repeater.HeadersTextParsesBack | noshitproxy/backend/repeater.py:22-37 | see below |
| Repeater.HeadersTextRoundTrip | noshitproxy/backend/repeater.py:22-37 | `parse_headers_text(headers_list_to_text(hs)) == hs` for printable, non-dropped headers |
| Repeater.PrepareRepeat | noshitproxy/backend/repeater.py:55-63 | the repeated request has the upper-cased method, the URL, the parsed headers (none of them dropped) and the encoded body |
| Repeater.MakeRepeatResponse | noshitproxy/backend/repeater.py:66-74 | see below |
| Repeater.ReplySummaryIgnoresTail | noshitproxy/backend/repeater.py:71-72 | bytes beyond the first 65536 change only `bytes` |
| Repeater.ReplyHeadersParseBack | noshitproxy/backend/repeater.py:70 | printed response headers parse back as the non-dropped printable headers |
| App.NormalizedScope | noshitproxy/backend/app.py:413-415 | saved includes are `["*"]` or stripped and non-blank, never empty; excludes are stripped and non-blank |
| App.StringItemsOfStrings | noshitproxy/backend/app.py:417-419 | a list of strings written as JSON reads back unchanged |
| App.IncludeOrAllIdempotent | noshitproxy/backend/app.py:414 | normalising a saved include list again changes nothing |
| App.SavedScopeReadsBack | noshitproxy/backend/app.py:413-419 | the scope the backend saves is exactly what the bridge's poll reads back |
| App.ScopeDocumentReads | noshitproxy/proxy/bridge_addon.py:124-157 | polling any scope document gives its normalised form |
| App.RespBodyText | noshitproxy/backend/app.py:332-340 | the text body exists iff the base64 is non-empty and decodes to non-empty bytes; undecodable base64 gives none |
| App.Ingest | noshitproxy/backend/app.py:308-363 | see below |
| App.SpecDocument | noshitproxy/backend/app.py:504-510 | the spec document is one the bridge accepts, carrying the entry's method, URL and headers |
| App.ReplayGetSpec | noshitproxy/backend/app.py:494-510 | prunes; a fresh token gives its spec, and any other token gives 404 |
| App.SpecReadsBack | noshitproxy/backend/app.py:504-510 | the bridge reads the backend's spec back as the stored method (upper-cased), URL, headers and decoded body |
| App.BrowserReplayRewrites | noshitproxy/backend/app.py:488-489 | for a bodiless GET entry (the only kind given a browser URL), the bridge rewrites iff the request method upper-cases to GET, restoring the stored headers and URL |
| App.RewritePageAsWritten | noshitproxy/backend/app.py:535-544 | non-HTML content is untouched; HTML fails iff its charset is unknown to the codec library (see Findings) |
| App.UnknownCharsetFails | noshitproxy/backend/app.py:537-544 | `text/html`, parameters without `=`, then `charset=v` with `v` unknown, ends in a server error |
| App.HtmlPrefix | noshitproxy/backend/app.py:536 | a content type starting with `text/html` is HTML |
| App.PageCharset | noshitproxy/backend/app.py:537-541 | the charset is the declared one when known, and `utf-8` otherwise |
| App.RewritePage | noshitproxy/backend/app.py:535-544 | non-HTML content is untouched; HTML is decoded, has the base href injected, and is re-encoded in the page charset |
| App.RewriteAgreesOnKnownCharsets | noshitproxy/backend/app.py:535-544 | for every page the source handles, the corrected rewrite gives the same bytes |
| App.ServedPageReadsBack | noshitproxy/backend/app.py:535-544 | see below |
| App.ReplayGet | noshitproxy/backend/app.py:513-554 | see below |

The rows marked "see below" state the following.

- **Replay.ReplayCache.Open**:
  - a URL that, after stripping, is not http(s) gives 400 and leaves the cache alone;
  - so does invalid base64;
  - otherwise it prunes, then stores the entry under the token with the method stripped and upper-cased and the hop-by-hop headers removed;
  - `browser_url` is returned iff the method is `GET` and the body is empty.
- **FlowStore.UpsertReplacesRow**:
  - an existing id keeps the row count and its rowid, and has all its columns replaced;
  - a new id is appended with a fresh rowid;
  - other rows are untouched;
  - the table stays well formed.
- **FlowStore.UpsertThenRead**:
  - after upsert and prune, a surviving flow reads back as itself, with an empty method read as `GET`;
  - its response body reads back as the stored base64, the first `content-type` header and `resp_size`;
  - it always survives when the table did not overflow.
- **FlowQueries.EqualityFilters**:
  - `q`, `host` and `method` add a clause iff they are non-empty;
  - `status` adds one iff it is present, even when it is 0;
  - the method is upper-cased;
  - the `q` needle is wrapped in `%`.
- **FlowQueries.SearchFilterCases**:
  - `url_contains` adds a clause iff it is non-empty;
  - `body_contains` adds one iff both it and `url_contains` are non-empty;
  - needles are wrapped in `%`.
- **FlowQueries.RangeFilterCases**:
  - each duration bound adds a null-guarded clause iff it is present;
  - each `resp_size` bound adds an unguarded clause iff it is present.
- **Bridge.ReplayRewrite**:
  - a rewrite needs a token and a valid spec whose upper-case method equals the request's upper-cased method;
  - that method must be `GET` and the body empty;
  - it then sets the URL stripped of the token and the spec's headers, in order.
- **Bridge.BridgeAddon.Request**:
  - applies the replay rewrite, wholesale replacing the headers;
  - marks the flow with whether its final URL is in scope;
  - kills it iff it is out of scope and drop is set.
- **Bridge.BridgeAddon.Response**:
  - a flow marked out of scope is never enqueued;
  - an unmarked flow is forwarded iff it is in scope now;
  - a forwarded flow is serialised, and its encoded envelope enqueued, unless `flow_ingest` raises, in which case nothing is enqueued;
  - the scope state is untouched.
- **Serialize.CollapsedCookieHeader**:
  - the result has at most one cookie header, at the first cookie's slot;
  - its value is the `"; "`-join of the stripped, non-empty values;
  - it is absent when that value is empty.
- **Serialize.PreviewText**:
  - raises iff the body is non-empty and either declares a charset Python does not know, or is JSON of at most 256 KiB whose load or dump fails with an error other than `JSONDecodeError`;
  - otherwise gives nothing iff the body is empty;
  - a non-empty JSON body of at most 256 KiB that parses is pretty-printed, then cut to 8192 characters;
  - one that raises `JSONDecodeError` falls back to decoding its first 8192 bytes;
  - any other body has its first 8192 bytes decoded.
- **Serialize.FlowIngest**:
  - gives no record (it raises) iff the request's or the response's preview raises, as `Serialize.PreviewText` states, and otherwise gives a record in which:
  - `req_body_b64` is present iff the raw request is non-empty and at most 256 KiB;
  - `resp_body_b64` is present iff the decoded response is non-empty and at most 2 MiB;
  - sizes are the raw byte lengths;
  - without a response, status, duration and preview are absent and `resp_headers` is `[]`;
  - request cookies are collapsed;
  - a duration is never negative.
- **Repeater.SplitAtFirstColon**:
  - a line without `:` gives nothing;
  - otherwise it splits at the first `:` and strips both halves, so values may contain `:`;
  - dropped names give nothing.
- **Repeater.HeadersTextParsesBack**:
  - printing and parsing printable headers gives them back without the 8 dropped names;
  - `content-encoding` is kept.
- **Repeater.MakeRepeatResponse**:
  - gives the status and `bytes = len(raw)`;
  - the headers are printed as text;
  - the preview is the decoding of the first `min(len, 8192)` bytes;
  - the base64 covers the first `min(len, 65536)` bytes.
- **App.Ingest**:
  - a payload type other than `flow` gives 400 and changes nothing;
  - otherwise the flow is upserted (and the table pruned);
  - its summary, with the returned `seq`, is offered to every subscriber queue.
- **App.ServedPageReadsBack**:
  - given a codec that round-trips on known charsets, the served page decodes in its charset to the decoded upstream page with the base href injected.
- **App.ReplayGet**:
  - prunes; a stale or unknown token, and only that, gives 404;
  - a live token whose upstream HTML declares a charset Python does not know gives a server error, as the code is written;
  - otherwise the response has the upstream status;
  - its headers are the raw headers without hop-by-hop names and with `location` resolved;
  - its body is the page as the code rewrites it, which equals the corrected rewrite `App.RewritePage`.

## Left out

- Network I/O is left out. This covers:
  - the upstream `httpx` calls in `replay_get` and `repeat_request`: the upstream answer is a function parameter;
  - the bridge's POST worker `_run` and the network side of `_fetch_replay_spec` and `_poll_scope`: a backend answer is an `Option` parameter, with `None` for a network error;
  - the polling loop and its sleeps.
- The `/api/repeat` endpoint (`noshitproxy/backend/app.py:442-459`) is not modelled. Its URL check is the same as `replay_open`'s, which `Replay.ReplayCache.Open` models. The rest of it is the network call plus error mapping (502). `Repeater.PrepareRepeat` and `Repeater.MakeRepeatResponse` model what `repeat_request` computes around the call.
- SQLite mechanics are abstracted: schema, PRAGMAs, `open`/`close`, `_ensure_column`, commits and SQL execution. The table is a sequence of rows in rowid order. The listing's `LIMIT`/`OFFSET` execution and `LIKE` matching are not interpreted: the model produces the clauses, parameters and statement text, and states what the ordering means as a row comparison.
- `count_flows`, `match_flow_ids`, `clear_flows`, `get_scope`, `set_scope` and a `where=` query field are called from `app.py` but defined in neither `store.py` nor `models.py`. They are not part of this model. `App.SavedScopeReadsBack` therefore states what the bridge reads back from the normalised scope document, not what a store returns.
- NULL columns are not modelled. `resp_size`, `req_headers_json` and `resp_headers_json` are always written by `upsert_flow`, so `get_resp_body`'s `row[2] or 0` fallback is never exercised in the model.
- Concurrency is left out: asyncio and threading locks, daemon threads and `wait_for`. Every operation is atomic and sequential. The 15-second keep-alive timeout is the empty-queue case of `EventBus.Bus.Next`.
- Floating point is left out. Timestamps are `real`, and duration rounding to 3 decimals (`noshitproxy/proxy/serialize.py:115`) is not modelled.
- `Serialize.SafeDecode` takes decoding as a total function. The `LookupError` that `bytes.decode` raises for an unknown charset is modelled one level up, in `Serialize.PreviewText`, its only caller, which fails in exactly that case.
- `Serialize.PreviewText`: `json.loads` and `json.dumps` are parameters. The model says which of three outcomes they have (formatted text, `JSONDecodeError`, any other error), not when each occurs.
- `Serialize.FlowIngest`: the duration is not rounded. `ts` is the flow's start time, and the `time.time()` fallback is left to the caller.
- Library code comes in as function parameters with no properties assumed beyond the stated lemma hypotheses. This covers:
  - base64 encoding and decoding;
  - charset decoding/encoding with `replace`;
  - `json.loads`/`dumps`, including the envelope of `_event_to_json` and `_encode_payload`;
  - `urlsplit`/`urlunsplit`/`parse_qsl`/`urlencode`/`urljoin`;
  - mitmproxy's `pretty_url`, `get_content` and header lookup.
- `secrets.token_urlsafe` and `time.time()` are parameters.
- `Text.Upper` upper-cases ASCII letters only; Python's `str.upper` is full Unicode.
- `Text.Lower` handles ASCII plus the Kelvin sign, which Python lower-cases to `k`. Case-insensitive regular expressions additionally fold the long s. Other non-ASCII case mappings are not modelled.
- `Scope`: `fnmatch` globbing is modelled for `*`, `?`, `[…]` and `[!…]`. Reversed ranges, an unterminated `[` read as a literal, and the regular-expression engine itself are not modelled beyond the matcher's semantics.
- `EventBus`: the reading of the event stream covers the `retry`, `data` and comment lines the server emits. Other fields (`event`, `id`) are not modelled. `EventBus.DataFrameMessage` assumes a payload without line breaks, which `json.dumps` guarantees.
- Framework and UI are not part of this model: FastAPI routing, pydantic validation, static files, the index page and mitmproxy object internals.
- `Bridge.BridgeAddon.Request`: the flow's `metadata` dictionary is a single `inScopeMark` field, and `flow.kill()` is a `killed` flag.
- `FlowStore.PruneOldest`: among rows with equal `ts`, SQLite's deletion order is unspecified. The model removes the first such row in rowid order, and its lemmas state only what holds for any tie order.

## Findings

| source | as written | input that shows it | evidently intended | confidence | as-written member | corrected member |
|---|---|---|---|---|---|---|
| noshitproxy/backend/app.py:535-544 | `replay_get` catches `LookupError` for an unknown charset when decoding, but re-encodes with the same unknown charset outside the `try`, so the encode raises and the request fails with a server error | an upstream HTML response with `Content-Type: text/html; charset=x-unknown` | fall back to `utf-8` for both decoding and re-encoding | not executed | App.RewritePageAsWritten, App.UnknownCharsetFails, App.ReplayGet | App.RewritePage, App.ServedPageReadsBack, App.RewriteAgreesOnKnownCharsets |
