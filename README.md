# Agent memory, web cleaning and test tool — a Dafny model

This project models the memory tool of an agent framework together with two
small neighbouring tools:

- **Memory** (`interpreter/tools/memory.py`). `MemoryStorage` keeps a
  short-term cache of at most 100 recent memories in process. Behind it is
  a long-term PostgreSQL store. It offers four actions:
  - `store` appends the memory to the cache, evicting the oldest entry when
    full, then inserts it into the database;
  - `recall` filters the cache by query substring and tags and ranks the hits
    by a recency/frequency score. When the cache falls short of `limit`, it
    asks the database for the shortfall. It then touches the database
    memories it returns and formats them;
  - `forget` works by id or by age in days and counts what left both tiers;
  - `summarize` counts the memory–tag rows of the last `days` days.

  `MemoryTool.__call__` dispatches action names to these four.
- **Web** (`interpreter/tools/web.py`). A URL without an http or https
  scheme gets `https://`. Page text is cleaned by
  `re.sub(r'\n\s*\n', '\n\n', …)` followed by `strip()`.
- **Test tool** (`interpreter/tools/test.py`). It returns three canned
  answers chosen by function name.

Modules follow the program: `Base`, `Text` (Python string built-ins),
`Scoring`, `Ranking`, `ShortTerm`, `Persistent`, `Memory`, `Web`, `TestTool`.

How the model represents the source:

- **Memory records.** A memory dict is a `ShortTerm.Record` object. Its only
  mutable field is `score`. `_search_short_term` makes a shallow copy of the
  cache, so the scores it writes land in the cache's own records. The model
  keeps that aliasing.
- **The database.** It is a `Persistent.Database` object. Its rows fold
  `memories` and `memory_tags` into one `Row` per memory. Ids come from a
  SERIAL counter, and every statement fails as a whole when the server is
  unreachable.
- **Time, errors and scores.**
  - Time is whole seconds, and the current time is a parameter.
  - An exception becomes the error result that carries `str(e)`.
  - Scores are `real`.
- **The code is followed where its documentation differs:**
  - `forget(older_than_days=0)` forgets nothing, because `0` is falsy.
  - A `forget` with neither selector returns "Forgot 0 memories." instead
    of being rejected.
  - A negative `limit` is modelled exactly as Python slicing behaves;
    nothing requires it to be non-negative.
  - A score division by zero, for a memory stamped exactly 24 hours in the
    future, is a recall error.

## Model

| member | source | states |
|---|---|---|
| Scoring.DecayBounds | interpreter/tools/memory.py:224-225 | `1/(1+x)` lies in (0, 1], is 1 at 0 and strictly decreases for non-negative `x` |
| Scoring.RecencyDefinedIff | interpreter/tools/memory.py:224-225 | the recency division is defined exactly when the age is not minus 24 hours |
| Scoring.RecencyBounds | interpreter/tools/memory.py:224-225 | the recency of a non-negative age lies in (0, 1] and is 1 for a brand-new memory |
| Scoring.RecencyStrictlyDecreasing | interpreter/tools/memory.py:224-225 | an older memory has strictly lower recency |
| Scoring.FrequencyBounds | interpreter/tools/memory.py:228-229 | the frequency score lies in (0, 1] and caps at 1 from ten accesses |
| Scoring.FrequencyMonotone | interpreter/tools/memory.py:228-229 | more accesses never lower the frequency score, strictly so up to ten |
| Scoring.ShortTermScoreBounds | interpreter/tools/memory.py:220-233 | the combined 0.7/0.3 score of a past memory lies in (0.03, 1] and is 1 when new and accessed ten times |
| Scoring.ShortTermScoreMonotone | interpreter/tools/memory.py:220-233 | at equal access counts the older memory scores strictly lower; at equal age more accesses never score lower |
| Scoring.LongTermRecencyBounds | interpreter/tools/memory.py:251-253 | the SQL recency term (30-day half-life over `last_accessed`) lies in (0, 1] and strictly decreases with age |
| Ranking.Insert | interpreter/tools/memory.py:236 | inserting into a list sorted by descending score keeps it sorted and adds exactly the one element |
| Ranking.SortByScore | interpreter/tools/memory.py:236 | `sort(key=score, reverse=True)` returns a permutation sorted by non-increasing score |
| Ranking.InsertStable | interpreter/tools/memory.py:236 | after inserting `x`, the elements of any score `k` are `x` (when its score is `k`) followed by those of the list, in their order: the new element lands in front of its equal scores. SortByScore inserts each element into the already sorted rest, so the sort keeps input order among equal scores |
| Ranking.SortStable | interpreter/tools/memory.py:236 | the sort is stable: elements of each score keep their input order |
| Ranking.InsertKeepsItems | interpreter/tools/memory.py:236 | insertion keeps the multiset of items and adds the new one |
| Ranking.SortKeepsItems | interpreter/tools/memory.py:236 | sorting keeps the multiset of items |
| Ranking.TakeNonIncreasing | interpreter/tools/memory.py:282-283 | a LIMIT prefix of a ranked answer is still ranked |
| Ranking.TakeDominates | interpreter/tools/memory.py:282-283 | a candidate a LIMIT prefix of a ranked answer leaves out scores no higher than any candidate it keeps |
| Persistent.MatchingRows | interpreter/tools/memory.py:263-277 | a row is kept exactly when it matches the ILIKE query and, with tags, has one of them |
| Persistent.RankedQueryMeets | interpreter/tools/memory.py:246-287 | the query fails exactly on a negative LIMIT or an unscorable matching row; otherwise it answers `min(limit, #matches)` matching rows with their scores in descending order, and no matching row left out scores above a returned one |
| Persistent.Touched | interpreter/tools/memory.py:179-183 | exactly the rows whose id is listed gain one access and `last_accessed = now`; nothing else changes |
| Persistent.WithoutRowId | interpreter/tools/memory.py:333 | `DELETE … WHERE id = $1` keeps exactly the rows with another id |
| Persistent.CreatedNotBefore | interpreter/tools/memory.py:349 | `DELETE … WHERE created_at < $1` keeps exactly the rows created at or after the cutoff |
| Persistent.DeleteByIdCount | interpreter/tools/memory.py:333-335 | with SERIAL ids, deleting by id reports 1 when the id exists and 0 otherwise |
| Persistent.DeleteKeepsIdsIncreasing | interpreter/tools/memory.py:57 | deleting by id preserves the increasing SERIAL ids |
| Persistent.PruneKeepsIdsIncreasing | interpreter/tools/memory.py:57 | deleting by creation time preserves the increasing SERIAL ids |
| Persistent.TagsIn | interpreter/tools/memory.py:270-273 | `mt.tag = ANY($n)` keeps exactly the memory's tags that were asked for |
| Persistent.SummaryCountZeroIff | interpreter/tools/memory.py:374-393 | the summary count is zero exactly when no memory lies in the window and passes the tag filter |
| Persistent.ReportedTags | interpreter/tools/memory.py:294 | the corrected aggregate (see Findings): exactly the memory's tags that pass the filter, with no NULL for a memory without tags |
| Persistent.JoinTagsAsWritten | interpreter/tools/memory.py:192-193 | `', '.join` fails exactly when an entry is NULL |
| Persistent.UntaggedRowBreaksJoinAsWritten | interpreter/tools/memory.py:246-256 | as written, an untagged memory aggregates to `[NULL]` and its tags cannot be joined |
| Persistent.ReportedTagsDropNulls | interpreter/tools/memory.py:289-294 | the corrected tags are the as-written aggregate without NULLs, and they always join |
| Persistent.Database.EnsureSchema | interpreter/tools/memory.py:53-77 | the schema exists afterwards when the server is reachable, and success is reported exactly then |
| Persistent.Database.Query | interpreter/tools/memory.py:287 | the fetch answers the ranked query, or fails when the server is down |
| Persistent.Database.CountRecent | interpreter/tools/memory.py:390 | the aggregate answers the summary count, or fails when the server is down |
| Persistent.Database.Insert | interpreter/tools/memory.py:119-132 | a reachable server appends the row with the next SERIAL id and returns that id; otherwise nothing changes |
| Persistent.Database.TouchMany | interpreter/tools/memory.py:178-183 | the UPDATE touches exactly the listed ids, or fails and changes nothing |
| Persistent.Database.DeleteById | interpreter/tools/memory.py:332-335 | the DELETE removes the id and reports how many rows went, or fails and changes nothing |
| Persistent.Database.DeleteOlderThan | interpreter/tools/memory.py:348-351 | the DELETE removes rows older than the cutoff and reports how many went, or fails and changes nothing |
| ShortTerm.WithQuery | interpreter/tools/memory.py:211-213 | keeps exactly the entries whose content contains the query, case-insensitively |
| ShortTerm.WithAnyTag | interpreter/tools/memory.py:216-218 | keeps exactly the entries carrying at least one of the tags |
| ShortTerm.Hits | interpreter/tools/memory.py:205-218 | the cache entries passing both filters, each from the cache, none twice |
| ShortTerm.ScorableIff | interpreter/tools/memory.py:224-225 | a memory can be scored exactly when it was not created 24 hours after `now` |
| ShortTerm.SearchFailsIff | interpreter/tools/memory.py:220-233 | the short-term search raises exactly when a selected entry has that one unscorable age |
| ShortTerm.SearchSelectsExactly | interpreter/tools/memory.py:203-237 | the search returns exactly the selected cache entries, as a permutation of the hits, none twice |
| ShortTerm.SearchRankedByScore | interpreter/tools/memory.py:235-237 | the search result is ordered by non-increasing score |
| ShortTerm.SearchStable | interpreter/tools/memory.py:236 | hits of equal score keep their cache (insertion) order |
| ShortTerm.CacheSearchNewestFirst | interpreter/tools/memory.py:220-236 | for cache entries (one access, not in the future) the ranking is newest first |
| ShortTerm.OlderScoresLower | interpreter/tools/memory.py:224-233 | of two memories with equal access counts, the older one never scores higher |
| ShortTerm.Append | interpreter/tools/memory.py:112-116 | the new memory is last; below capacity nothing else changes, at capacity the oldest entry is evicted |
| ShortTerm.AppendKeepsCache | interpreter/tools/memory.py:103-116 | appending a fresh memory keeps the cache within 100 entries, without duplicates, all unidentified |
| ShortTerm.AppendAllKeepsNewest | interpreter/tools/memory.py:112-116 | after any sequence of stores the cache holds exactly the newest `min(100, n)` memories in order |
| ShortTerm.WithoutId | interpreter/tools/memory.py:328-329 | the cache keeps exactly the entries whose id differs |
| ShortTerm.WithoutIdKeepsUnidentified | interpreter/tools/memory.py:326-329 | forgetting by id never changes a cache whose entries carry no id |
| ShortTerm.CreatedAfter | interpreter/tools/memory.py:343-344 | the cache keeps exactly the entries created strictly after the cutoff |
| ShortTerm.CreatedAfterKeepsCache | interpreter/tools/memory.py:342-345 | forgetting by age keeps the cache well formed |
| ShortTerm.PyPrefix | interpreter/tools/memory.py:165 | `s[:k]` with Python's meaning for negative `k` |
| ShortTerm.LongTermLimit | interpreter/tools/memory.py:164-170 | the database is asked exactly when the cache falls short of the limit and long-term lookup is on, and then for the whole shortfall |
| ShortTerm.Recalled | interpreter/tools/memory.py:163-173 | the three merge cases; with a non-negative limit at most `limit` results, the short-term hits first |
| ShortTerm.TouchIds | interpreter/tools/memory.py:176 | the touched ids are exactly the truthy ids among the results |
| ShortTerm.TouchIdsSkipCache | interpreter/tools/memory.py:176-177 | cache entries are never touched; every long-term result with an id is |
| ShortTerm.FormatEntries | interpreter/tools/memory.py:189-196 | one line per result, line `i` being result `i` numbered `first + i` with its content and, when it has tags, its joined tags |
| ShortTerm.RecallText | interpreter/tools/memory.py:185-198 | "No memories found…" exactly when nothing was found, otherwise a header with the count |
| Memory.LongTermAnswerBounded | interpreter/tools/memory.py:239-306 | the long-term answer has at most `limit` rows, ranked, each a stored memory that matches |
| Memory.RecallBounded | interpreter/tools/memory.py:163-173 | a recall never returns more than `limit` memories, and the short-term hits come first |
| Memory.CutoffAsymmetry | interpreter/tools/memory.py:339-349 | for any cache and table, a cache entry and a row created at the same time are treated differently by the age filters exactly when that time is the cutoff, where the cache drops the entry and the database keeps the row |
| Memory.MemoryStorage.constructor | interpreter/tools/memory.py:33-36 | an empty cache, no pool, not initialized |
| Memory.MemoryStorage.Initialize | interpreter/tools/memory.py:38-83 | once initialized nothing happens; otherwise the pool and schema exist exactly when the server is reachable, with the matching result |
| Memory.MemoryStorage.EnsureInitialized | interpreter/tools/memory.py:97-98 | initialization is attempted when needed and touches neither tier's memories |
| Memory.MemoryStorage.Store | interpreter/tools/memory.py:85-137 | the new memory enters the cache (with eviction) even when the database write then fails; the row gets the next id; the result covers no pool, an unreachable server and success |
| Memory.MemoryStorage.SearchShortTerm | interpreter/tools/memory.py:203-237 | the answer is the short-term search; every selected entry gets its score written in place and unselected ones keep theirs |
| Memory.MemoryStorage.SearchLongTerm | interpreter/tools/memory.py:239-306 | one fresh result per fetched row carrying its fields, corrected tags and score; nothing without a pool or on failure |
| Memory.MemoryStorage.PresentRows | interpreter/tools/memory.py:289-302 | the loop builds exactly one new record per fetched row, in order, with its id, content, corrected tags, metadata, timestamps, access count and score |
| Memory.MemoryStorage.Recall | interpreter/tools/memory.py:139-201 | the division-by-zero error; otherwise the merge, the in-place scores, the touch of exactly the truthy ids and the formatted answer or touch failure |
| Memory.MemoryStorage.MergeAndTouch | interpreter/tools/memory.py:160-198 | after the short-term search: the merged results, the touch of exactly their truthy ids when a pool exists, and the formatted answer or the touch failure |
| Memory.MemoryStorage.MergeTiers | interpreter/tools/memory.py:160-173 | the three merge cases, the database asked only for the shortfall |
| Memory.MemoryStorage.TouchAndFormat | interpreter/tools/memory.py:175-198 | the batched touch happens only for non-empty ids with a pool; its failure is the result, otherwise the formatted text |
| Memory.MemoryStorage.Forget | interpreter/tools/memory.py:308-356 | an id takes precedence over an age; each branch's effect on both tiers and its count; neither selector forgets nothing |
| Memory.MemoryStorage.ForgetById | interpreter/tools/memory.py:326-335 | the cache is unchanged and the count is the database's 0 or 1 |
| Memory.MemoryStorage.ForgetOlderThan | interpreter/tools/memory.py:338-351 | the cache keeps newer entries, the database keeps entries not older, and the count adds both removals |
| Memory.MemoryStorage.Summarize | interpreter/tools/memory.py:358-393 | for the evidently intended window query: "No memories found in the past N days." exactly when nothing lies in the window, else the summary header with the count; errors for no pool or a down server; neither tier changes |
| Memory.Dispatch | interpreter/tools/memory.py:458-472 | each action name selects its operation with its arguments; `store` needs non-empty content; anything else is rejected listing the valid actions |
| Memory.MemoryTool.Call | interpreter/tools/memory.py:434-472 | the effect of the operation the action selects, as its own member states it: a store of the content and tags with empty metadata, a recall, a forget or a summarize with the forwarded arguments; a rejected action answers the error and changes neither tier |
| Memory.MemoryTool.Serve | interpreter/tools/memory.py:453-472 | initialization on first use, then for each request kind exactly the effect its operation states (StoreEffect, RecallEffect, ForgetEffect, SummarizeEffect); a rejected request answers its message and changes neither tier |
| Web.NormalizeUrl | interpreter/tools/web.py:40-41 | a URL with an http or https scheme is unchanged, and exactly those are; any other URL becomes `"https://" + url` |
| Web.NormalizeUrlIdempotent | interpreter/tools/web.py:40-41 | normalising twice is normalising once |
| Web.CollapseKeepsNonSpace | interpreter/tools/web.py:107 | the blank-line substitution never adds, drops or reorders a non-whitespace character |
| Web.CollapseByStretches | interpreter/tools/web.py:107 | the left-to-right regex substitution equals the per-stretch reference: in each whitespace run, first to last newline become two newlines |
| Web.CollapseWithoutBlankLine | interpreter/tools/web.py:107 | text with no two newlines separated only by whitespace is unchanged |
| Web.Strip | interpreter/tools/web.py:109 | the result is a slice of the text with only whitespace cut off before and after it, and it neither starts nor ends with whitespace |
| Web.CleanContent | interpreter/tools/web.py:104-110 | the cleaned page has no surrounding whitespace and exactly the page's non-whitespace characters, in order |
| Web.CleanContentOnlyStrips | interpreter/tools/web.py:104-110 | a page without blank-line runs is only stripped |
| Web.Call | interpreter/tools/web.py:40-49 | the normalised URL is visited; success yields the cleaned text, failure an error naming that URL |
| TestTool.Greeted | interpreter/tools/test.py:26 | the given name when it is truthy, else `user` |
| TestTool.Call | interpreter/tools/test.py:14-31 | every call succeeds; test1 answers "hello world", test2 greets the chosen name and test3 answers "goodbye"; "Unknown function: " starts the output exactly for an unknown name, which it then reports |
| TestTool.DefaultCallGreetsWorld | interpreter/tools/test.py:14-24 | the call without arguments answers "hello world" |
| TestTool.HelloWorldSources | interpreter/tools/test.py:23-27 | "hello world" comes from test1, or from test2 exactly for the user "world" |
| TestTool.UnknownNamesDistinguished | interpreter/tools/test.py:30-31 | different unknown names give different answers |

## Left out

- Connections, `async`, logging and the pool credentials are left out. The database is a value the methods update. An unreachable server stands for any connection or statement failure, and its error text is a constant.
- ILIKE is modelled as a case-insensitive substring test, and the `%` and `_` wildcards inside a query are not modelled.
- Case folding covers ASCII letters only, both for ILIKE and for `str.lower()` in the short-term search (ShortTerm.WithQuery).
- The SQL plan of the long-term search is fixed. Rows are filtered first and then ranked by a stable sort. SQL leaves the order of equal scores and of `array_agg` unspecified; the model keeps table order.
- The " (Relevance: …)" suffix of recall lines is left out. It needs float formatting to two digits.
- Memory.MemoryStorage.Summarize: stops after its first decision. The "Time span" line, the top-tags query and their lines are left out. `earliest` and `latest` are not modelled.
- Memory.MemoryStorage.Summarize: models the evidently intended statement, with the window `now - days·86400`. As written, the statement cannot run. Its `$1` sits inside the string literal `INTERVAL '$1 days'`, which is not valid interval input, so the server rejects the statement when asyncpg prepares it, with or without tags. Every summarize on a reachable server therefore answers "Failed to summarize memories: …", and neither the "No memories found" answer nor the header is reached.
- Memory.MemoryStorage.Store: the tag insert is folded into the row insert. A failure between the two statements is not modelled.
- Memory.MemoryStorage.Initialize: folds pool creation and schema creation into one outcome. A server that accepts the pool but then fails the schema is not modelled.
- One `now` stands for both the process clock and the server's CURRENT_TIMESTAMP; skew between them and time passing between statements are not modelled.
- `datetime.timedelta` overflow for huge day counts is not modelled.
- Memory.MemoryStorage.SearchLongTerm: the results built from database rows carry the corrected tags (Persistent.ReportedTags), with no NULL for a memory without tags. The as-written `[NULL]` and the TypeError it causes are modelled only by Persistent.UntaggedRowBreaksJoinAsWritten (see Findings).
- Memory.MemoryStorage.PresentRows: builds each record with the corrected tags (Persistent.ReportedTags), not the as-written `[NULL]` of a memory without tags.
- Memory.MemoryStorage.Recall: for an untagged long-term memory it answers the formatted list, where the program as written fails with "Failed to recall memories: …"; that failure is modelled only by Persistent.UntaggedRowBreaksJoinAsWritten.
- Memory.MemoryTool.Serve: initializes only a rejected request itself. Each of the four operations begins with the same check, and a second attempt after a failed one changes nothing, so the outcome is the same.
- Memory.MemoryStorage.Recall: on the division-by-zero path the model promises nothing about which scores were already written. Only the error result is stated.
- The in-place `list.sort` is modelled as a function on the hit sequence, because the sort creates no new records. Its result is the sequence it would leave.
- `to_params` of all three tools, `interpreter/tools/__init__.py`, `random_number.py` and the test script `test_tool.py` are not part of this model.
- The Playwright session of the web tool is the parameter `visit`: browser launch, selectors, waiting and JavaScript are not modelled.
- Python's `\s` and `str.isspace` are modelled as the same fixed set of code points.

## Findings

| source | as written | input that shows it | evidently intended | confidence | as-written member | corrected member |
|---|---|---|---|---|---|---|
| interpreter/tools/memory.py:248 | `array_agg(mt.tag)` over `LEFT JOIN memory_tags` yields `[NULL]` for a memory stored without tags. `row["tags"] or []` keeps that truthy list, and `', '.join` at line 193 raises TypeError. | store "x" with no tags, then recall with the defaults: the single cache hit is below the limit of 5, so the row is fetched from the database as well, and the answer is "Failed to recall memories: sequence item 0: …" | untagged memories report no tags (NULLs dropped from the aggregate) | not executed | Persistent.UntaggedRowBreaksJoinAsWritten | Persistent.ReportedTagsDropNulls |
