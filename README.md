# incident-alert, modelled in Dafny

incident-alert collects short user reports of incidents. The real reports go into a small
backend database. A generation worker produces simulated look-alike posts from a seed
report. An incident watcher polls the backend for unprocessed real posts, asks a language
model whether each post describes a real, human-caused incident, files a confirmed incident
for a confident "Yes", and marks the post processed.

This project models four parts of the code:

- The backend's store (`backend/crud.py`).
- The generation worker embedded in the backend (`backend/worker.py`).
- The standalone generation script (`scg_worker.py`).
- The watcher (`incident_watcher.py`).

It proves what these parts promise about the data they read and write.

| file | module | models |
|---|---|---|
| `wrappers.dfy` | `Wrappers` | `Option` for `None`, `Result`/`Outcome` for a value or a raised exception |
| `text.dfy` | `Text` | `str.strip`, `str.strip(chars)`, `str.split`, `str.split(sep, 1)` and `sep.join`, with their round trips |
| `dicts.dfy` | `Dicts` | insertion-ordered dictionaries: `d[k] = v`, `dict(pairs)` with last-wins duplicates, `sum(d.values())`, and what `json.loads` hands the parsers |
| `config_text.dfy` | `ConfigText` | the comma-separated `key<sep>value` text both workers read, and the text form of a weight table |
| `crud.dfy` | `Crud` | the `user_posts` and `confirmed_incidents` tables as values (`Db`), the insert, mark and query functions, and a `Store` class whose methods update the tables in place |
| `generation.dfy` | `Generation` | what both workers share: the persona catalog (a class, since the source mutates a module-level dictionary), the exponential wait schedule, the hashtag draw and the `hashtags` column |
| `backend_worker.dfy` | `BackendWorker` | `_normalize_weights`, `sample_by_weights`, the three parsers, `_generate`'s post-processing, and the `SCGWorker` object: queue, run flag, `start`/`stop`, `_loop` and `_run_for_seed` as methods on a `Worker` class, each proved against a pure job function |
| `scg_worker.dfy` | `ScgWorker` | the lenient parsers, `weighted_choice` and the language draw (both loops as methods), `generate_text_from_seed`'s post-processing, and one scheduled post (`one`) |
| `incident_watcher.dfy` | `IncidentWatcher` | schema validation of the classifier's reply, the alert decision (threshold 80), the alert's location line, the report payload, `handle_single_post` on the store, and `poll_loop` as a sequence of rounds |

Randomness, the clock, the language model and every HTTP request are parameters:

- A random draw is a number passed in.
- A remote call is an answer that either carries a value or says the call raised.
- `created_at` is a logical clock that the store advances on every insert, so rows are created at strictly increasing times. The column itself is filled by the database's `now()` when a row is inserted; see "## Left out" for what this abstraction assumes.

## Model

| member | source | states |
|---|---|---|
| `Text.StripChars` | scg_worker.py:93 | `s.strip(cs)` neither starts nor ends with a character of `cs` and is no longer than `s` |
| `Text.StripCharsIdempotent` | scg_worker.py:93 | stripping a stripped string changes nothing |
| `Text.StripCharsTrimmed` | scg_worker.py:93 | a string that neither starts nor ends with a character of `cs` is its own strip |
| `Text.Split` | backend/worker.py:46 | `s.split(sep)` has at least one piece and no piece holds a separator |
| `Text.SplitJoin` | backend/worker.py:46 | splitting separator-free pieces joined by a separator gives the pieces back |
| `Text.JoinSplit` | backend/worker.py:82 | joining the pieces of a split with the same separator gives the string back |
| `Text.SplitOnce` | backend/worker.py:48 | `s.split(sep, 1)` on a string holding `sep` is the text before its first occurrence and the rest, and they glue back to `s` |
| `Text.SplitOnceGlue` | scg_worker.py:70 | `split(sep, 1)` undoes gluing two strings around `sep` when the first holds no `sep` |
| `Text.KeyValue` | backend/worker.py:47-49 | a chunk yields a (key, value) pair exactly when it holds the separator |
| `Text.KeyValueGlue` | scg_worker.py:131-133 | a stripped key without the separator, glued to a stripped value, reads back as that key and value |
| `Dicts.Assign` | backend/worker.py:49 | `d[k] = v`: an existing key keeps its place and gets the new value, a new key goes to the end, other entries are untouched and keys stay distinct |
| `Dicts.FromPairs` | backend/worker.py:42 | `dict(pairs)` has distinct keys, exactly the keys of the pairs |
| `Dicts.FromPairsDistinct` | backend/worker.py:42 | pairs with distinct keys become a dictionary holding exactly those pairs, in order |
| `Dicts.FromPairsLastWins` | scg_worker.py:72 | in `dict(pairs)` every key holds the value of its last pair |
| `Dicts.SumScale` | scg_worker.py:78 | dividing every weight by `t` divides the total by `t` |
| `Dicts.AllNumbers` | backend/worker.py:42 | converting an object's values fails exactly when one value is rejected; otherwise the same keys in the same order with the converted values |
| `ConfigText.NonEmptyStripped` | scg_worker.py:66 | `[x.strip() for x in items if x.strip()]` holds only non-empty stripped items, no more than there were |
| `ConfigText.NonEmptyStrippedKeeps` | backend/worker.py:78 | items that are already stripped and non-empty pass through unchanged |
| `Crud.InsertPostAppends` | backend/crud.py:4-16 | `create_post` appends one row and keeps every earlier row and every incident; the row is unprocessed and carries the payload's fields, `is_simulated` as `bool()` of the payload's flag |
| `Crud.InsertPostWellFormed` | backend/crud.py:4-16 | inserting a post keeps keys and timestamps increasing and gives the new row an id no other row has |
| `Crud.InsertIncident` | backend/crud.py:41-53 | `create_confirmed_incident` appends one row holding the payload's six fields and keeps everything else |
| `Crud.InsertIncidentWellFormed` | backend/crud.py:41-53 | inserting an incident keeps the tables well formed |
| `Crud.PostIndex` | backend/crud.py:33 | `filter(id == post_id).first()`: `None` exactly when no row has that id, otherwise the first row that has it |
| `Crud.FindPost` | backend/crud.py:33-35 | the row found, if any, is in the table and has the id; `None` exactly when no row has it |
| `Crud.FindPostUnique` | backend/crud.py:33 | in a well-formed table the row found is the only row with that id |
| `Crud.MarkProcessed` | backend/crud.py:32-39 | marking keeps the table's length |
| `Crud.MarkProcessedOnlyThatPost` | backend/crud.py:32-39 | marking sets `processed` on the first row with the id and changes no other row; with no such row the table is unchanged |
| `Crud.MarkProcessedSetsFlag` | backend/crud.py:36 | after marking, the post with the id is processed and no flag goes back to false |
| `Crud.MarkProcessedIdempotent` | backend/crud.py:32-39 | marking the same id twice is marking it once |
| `Crud.MarkProcessedById` | backend/crud.py:32-39 | in a well-formed table, row `k` after marking is row `k` with `processed` set exactly when it was set or the row has the id |
| `Crud.MarkProcessedWellFormed` | backend/crud.py:32-39 | marking keeps the table well formed |
| `Crud.EligiblePosts` | backend/crud.py:27-29 | the filter keeps exactly the unprocessed rows, and only real ones unless simulated rows are included |
| `Crud.EligibleAscending` | backend/crud.py:27-30 | the filtered rows of a table in creation order are in creation order |
| `Crud.Take` | backend/crud.py:30 | `LIMIT n` is the first `min(n, len)` rows |
| `Crud.UnprocessedPosts` | backend/crud.py:26-30 | `get_unprocessed_posts` returns at most `limit` unprocessed rows of the table, none simulated unless asked; when fewer than `limit` come back, every eligible row is among them |
| `Crud.UnprocessedOldestFirst` | backend/crud.py:30 | the result is oldest first, and every eligible row left out is newer than every row returned |
| `Crud.TakeOldest` | backend/crud.py:30 | of rows in creation order, `LIMIT` keeps rows older than every row it drops |
| `Crud.Reverse` | backend/crud.py:21 | descending creation order over a table kept in creation order is the table reversed |
| `Crud.ReverseTakeNewest` | backend/crud.py:18-24 | newest-first with a limit is strictly descending, `min(limit, len)` long, and every row left out is older than every row returned |
| `Crud.RecentPostsNewestFirst` | backend/crud.py:18-24 | `get_recent_posts` is newest first, `min(limit, len)` long, and holds the newest posts |
| `Crud.RecentIncidentsNewestFirst` | backend/crud.py:56-62 | `get_recent_incidents` is newest first, `min(limit, len)` long, and holds the newest incidents |
| `Crud.LatestRealPost` | backend/crud.py:64-70 | `get_latest_real_post` is `None` exactly when every row is simulated, otherwise a real row of the table |
| `Crud.LatestRealPostIsNewest` | backend/crud.py:64-70 | no real post is newer than the one returned |
| `Crud.Store.constructor` | backend/models.py:4-30 | a new database holds two empty tables |
| `Crud.Store.CreatePost` | backend/crud.py:4-16 | the session's state becomes `InsertPost` of the old state; the returned row is the appended row, with a fresh id |
| `Crud.Store.MarkPostProcessed` | backend/crud.py:32-39 | the state becomes the old one with the post marked; the result is `None` exactly when no row had the id (nothing changes then), otherwise the row with `processed` set |
| `Crud.Store.CreateConfirmedIncident` | backend/crud.py:41-53 | the state becomes `InsertIncident` of the old state; the returned row carries the payload's fields |
| `Generation.PersonaCatalog.constructor` | backend/worker.py:101-108 | the catalog starts with the six personas and their styles |
| `Generation.PersonaCatalog.StyleOf` | backend/worker.py:222 | a known persona's style, the default style for an unknown one |
| `Generation.PersonaCatalog.RegisterPersona` | backend/worker.py:202-203 | the persona becomes known; a new one gets the default style; nothing else changes |
| `Generation.CatalogExtendsTransitive` | backend/worker.py:202-203 | two extensions of the catalog in a row are one extension |
| `Generation.RegisterExtends` | scg_worker.py:290-291 | registering extends the catalog by at most the given persona, which is known afterwards |
| `Generation.Rate` | backend/worker.py:91-95 | the rate is positive; `ppm / 60` when `ppm` is given and positive, otherwise the inverse of the floored window mean |
| `Generation.ScheduleIntervals` | backend/worker.py:85-96 | `n` waits (none for `n <= 0`), each a unit exponential draw divided by the rate, non-negative for non-negative draws |
| `Generation.MeanWait` | scg_worker.py:225-236 | every wait is its unit draw times `60 / ppm` in rate mode, times `max(minutes * 60 / max(n, 1), 0.001)` otherwise |
| `Generation.SamplePool` | backend/worker.py:239 | `random.sample(pool, k)` picks `k` items, a sub-multiset of the pool (no item twice) |
| `Generation.BackendTagCount` | backend/worker.py:238 | with a non-empty pool the tag count is 1 or 2 and at most the pool size |
| `Generation.ScgTagCount` | scg_worker.py:218 | with a non-empty pool the tag count is 1 or 2 and at most the pool size |
| `Generation.TagCountsAgree` | scg_worker.py:218 | both ways of bounding the tag count give the same count for every draw |
| `Generation.AppendTags` | backend/worker.py:237-240 | the text is unchanged unless the pool is non-empty and the coin is below 0.6; then it gets a space and `count` distinct pool tags joined by spaces |
| `Generation.HashtagField` | backend/worker.py:216 | the `hashtags` column is `None` exactly when there are no tags, otherwise every tag joined by spaces |
| `BackendWorker.Clamped` | backend/worker.py:16-23 | each weight becomes `max(0, float(v))`, a rejected value 0, keys and order kept |
| `BackendWorker.NormalizeWeights` | backend/worker.py:15-29 | same keys in the same order; every probability non-negative; proportional to the clamped weights when their sum is positive, uniform otherwise |
| `BackendWorker.NormalizeSumsToOne` | backend/worker.py:24-29 | the probabilities of a non-empty mapping add up to one |
| `BackendWorker.ProportionalSumsToOne` | backend/worker.py:29 | proportional probabilities add up to one |
| `BackendWorker.UniformSumsToOne` | backend/worker.py:27-28 | uniform probabilities add up to one |
| `BackendWorker.Bisect` | backend/worker.py:34 | the position `bisect` finds has every earlier running total at or below the draw and the next one above it |
| `BackendWorker.SampleIndex` | backend/worker.py:33-34 | the drawn position is a position of the mapping |
| `BackendWorker.SampleByWeights` | backend/worker.py:31-34 | fails exactly on an empty mapping (the empty `zip` cannot be unpacked); otherwise returns one of its keys |
| `BackendWorker.SampledIndexHasPositiveProbability` | backend/worker.py:31-34 | for a draw in [0, 1) the drawn key has positive probability |
| `BackendWorker.SampledKeyHasPositiveWeight` | backend/worker.py:31-34 | when some weight is positive, a key whose weight is missing, zero or negative is never drawn |
| `BackendWorker.StrictPairs` | backend/worker.py:46-49 | a successful parse is empty exactly when no chunk holds the separator |
| `BackendWorker.StrictPairsFails` | backend/worker.py:46-49 | the parse raises exactly when some chunk holds the separator and a value `float()` rejects |
| `BackendWorker.StrictPairsAllRead` | backend/worker.py:46-49 | chunks that each read one pair give exactly those pairs, in order |
| `BackendWorker.BackendParseWeights` | backend/worker.py:36-70 | an empty string gives the default; an object of numbers is taken as is; only a rejected number raises; keys are distinct; an empty table comes only from the JSON `{}` |
| `BackendWorker.WeightsRoundTrip` | backend/worker.py:45-50 | a table written out as `key<sep>value,…` parses back to itself |
| `BackendWorker.BackendParseTags` | backend/worker.py:72-83 | an empty string gives the default pool; every tag is non-empty and stripped; a tag of the text form holds no comma or semicolon |
| `BackendWorker.TagsRoundTrip` | backend/worker.py:81-83 | stripped tags free of `,` and `;` joined by commas parse back to the same tags |
| `BackendWorker.GenerateText` | backend/worker.py:236-241 | the stripped completion, followed, when the pool is non-empty and the coin is below 0.6, by a space and one or two distinct pool tags |
| `BackendWorker.StoredItemProperties` | backend/worker.py:200-218 | a stored item's language and persona are keys of the configured mappings, its text starts with the stripped completion, and `hashtags` is set exactly when tags are configured |
| `BackendWorker.ItemPersona` | backend/worker.py:200-203 | a persona is registered exactly when both mappings are non-empty, and it is a key of the persona mapping |
| `BackendWorker.ItemPost` | backend/worker.py:200-218 | an item raises at its first failing step: empty language mapping, empty persona mapping, failed completion, failed commit; a stored payload carries the registered persona |
| `BackendWorker.ItemPostStored` | backend/worker.py:207-218 | the row an item stores, whatever key and time it gets, is a simulated unprocessed post of the seed with the sampled language, persona and generated text |
| `BackendWorker.FirstStop` | backend/worker.py:195-196 | the first item at which the run flag is found cleared, or the number of items |
| `BackendWorker.RunJob` | backend/worker.py:193-218 | a job ends finished, stopped or aborted, having created between the start and the number of items |
| `BackendWorker.RunJobAppends` | backend/worker.py:207-218 | a job only appends posts, one per created item, keeps the incidents and keeps the tables well formed |
| `BackendWorker.RunJobRows` | backend/worker.py:207-218 | the appended posts are the items' rows with consecutive keys and timestamps |
| `BackendWorker.NewRowsAt` | backend/worker.py:207-218 | the `k`-th appended row is the row of item `i + k` with key `id + k` |
| `BackendWorker.NewRowStored` | backend/worker.py:207-218 | an appended row is the row `StoredItem` describes for its item, with the item's persona |
| `BackendWorker.RunJobCatalog` | backend/worker.py:202-203 | a job only adds personas with the default style, and every created item's persona is in the catalog |
| `BackendWorker.RunJobFlag` | backend/worker.py:195-196 | a job never sets the run flag; one that starts with it clear creates nothing; a stopped job leaves it clear; a job that ran out of waits or raised leaves it as it was |
| `BackendWorker.RunJobFirstStop` | backend/worker.py:194-196 | a job never gets past the first item at which the flag is cleared, and a stopped job that started running stops exactly there |
| `BackendWorker.RunJobAborted` | backend/worker.py:174-177 | an aborted job raised at the item whose step failed, with that step's error; every earlier item was stored |
| `BackendWorker.SeedJobFlag` | backend/worker.py:180-218 | a seed's job never sets the run flag, and with the flag set it stays set exactly when the job did not stop: a missing seed, a finished job and a job that raised keep it |
| `BackendWorker.SeedJobAppends` | backend/worker.py:180-218 | a seed's job, found or not, only appends posts, only extends the catalog and keeps the tables well formed |
| `BackendWorker.LoopRunSeeds` | backend/worker.py:168-173 | the loop takes seeds from the front of the queue, in queue order |
| `BackendWorker.LoopRunFlag` | backend/worker.py:168-177 | with the flag clear nothing is taken; the flag stays set only when the queue is drained; it is cleared only by `stop()`, seen between jobs or by the last job; no job but the last stopped |
| `BackendWorker.LoopRunAppends` | backend/worker.py:168-177 | the loop only appends posts, only extends the catalog and keeps the tables well formed |
| `BackendWorker.LoopOutcome` | backend/worker.py:168-177 | a whole run: the queue is the handled seeds followed by those left; the run ends drained or stopped by `stop()`; posts appended, catalog extended |
| `BackendWorker.JobRowsStored` | backend/worker.py:180-218 | every post a job on a seed appends is that seed's simulated row for its item, and its persona is in the catalog |
| `BackendWorker.Worker.constructor` | backend/worker.py:138-147 | a new worker has its configuration, an empty queue, a clear run flag and no thread |
| `BackendWorker.Worker.Enqueue` | backend/worker.py:150-151 | the seed goes to the back of the queue; nothing else changes |
| `BackendWorker.Worker.Start` | backend/worker.py:154-159 | nothing while the thread is alive; otherwise the run flag is set and a thread runs; the queue is kept |
| `BackendWorker.Worker.Stop` | backend/worker.py:162-165 | the run flag is cleared; the thread is gone if it was joined in time; the queue is kept |
| `BackendWorker.Worker.RunItem` | backend/worker.py:200-218 | one item registers its persona and either stores `ItemPost`'s row or raises its error with the database unchanged |
| `BackendWorker.Worker.Tick` | backend/worker.py:194-218 | one pass of the loop body either ends the job as `RunJob` says or leaves the state from which `RunJob` continues at the next item |
| `BackendWorker.Worker.RunItems` | backend/worker.py:193-218 | the loop over the waits leaves exactly the state and outcome of `RunJob` |
| `BackendWorker.Worker.RunForSeed` | backend/worker.py:180-218 | a missing seed changes nothing; otherwise the job runs as `RunJob` says, so the new state and outcome are `SeedJob`'s; the catalog is only extended and posts are only appended |
| `BackendWorker.Worker.TakeNext` | backend/worker.py:169-177 | the oldest queued seed leaves the queue; the new state and the outcome are `SeedJob`'s from the old state; a missing seed changes nothing; with the flag set, it stays set unless the job stopped; posts are only appended and the catalog only extended |
| `BackendWorker.Worker.Drain` | backend/worker.py:168-177 | the state left and the seeds taken with their outcomes are `LoopRun`'s, each job running from the state the previous one left; the seeds not taken stay queued |
| `BackendWorker.Worker.Loop` | backend/worker.py:168-177 | the state left and the outcomes are `LoopRun`'s; the handled seeds are the front of the queue in order; only the last job can have stopped; with the flag set, no `stop()` and no stopped job, the flag stays set and the queue is drained, so a job that raised is followed by the next seed; a cleared flag ends the thread; posts only appended, catalog only extended |
| `ScgWorker.TotalOrOne` | scg_worker.py:77 | `sum(...) or 1.0` is never zero |
| `ScgWorker.Normalize` | scg_worker.py:77-78 | same keys in the same order, distinct keys kept; a table summing to zero is left as it is |
| `ScgWorker.NormalizeSumsToOne` | scg_worker.py:60-61 | a table whose total is not zero is normalised to a total of one |
| `ScgWorker.NormalizeTotal` | scg_worker.py:119-120 | a normalised table sums to one or to zero |
| `ScgWorker.Readable` | scg_worker.py:66-74 | the lenient loop reads at most one pair per chunk |
| `ScgWorker.ReadableSkips` | scg_worker.py:67-74 | a chunk without the separator or with a rejected value is skipped as if absent |
| `ScgWorker.ReadableAllRead` | scg_worker.py:65-74 | chunks that each read one pair give exactly those pairs, in order |
| `ScgWorker.JsonNumbersKeys` | scg_worker.py:61 | the JSON branch keeps the object's keys |
| `ScgWorker.ParseLangs` | scg_worker.py:52-78 | an empty string or nothing readable gives the default mix; a JSON object of numbers gives its own keys; otherwise the readable chunks' keys; keys are distinct; an empty mix comes only from `{}` |
| `ScgWorker.ParseLangsTotal` | scg_worker.py:75-78 | the parsed mix sums to one or to zero, never to anything else |
| `ScgWorker.LangsRoundTrip` | scg_worker.py:64-78 | a mix written out as `key=value,…` parses back to its normalisation |
| `ScgWorker.Convertible` | scg_worker.py:113-117 | the JSON branch keeps only values `float()` accepts, no more than there were |
| `ScgWorker.ConvertibleEmpty` | scg_worker.py:118 | the JSON branch is skipped exactly when no value converts |
| `ScgWorker.StrippedChunks` | scg_worker.py:125-126 | each chunk is the stripped piece between commas |
| `ScgWorker.ParsePersonaWeights` | scg_worker.py:94-139 | `None` or empty gives the default; an object with a convertible value gives those keys; otherwise the readable chunks' keys, or the default when none is readable; never empty; keys distinct |
| `ScgWorker.ParsePersonaWeightsTotal` | scg_worker.py:118-139 | the parsed weights sum to one or to zero, never to anything else |
| `ScgWorker.PersonasRoundTrip` | scg_worker.py:123-139 | weights written out as `name:value,…` parse back to their normalisation |
| `ScgWorker.EncodedPersonaFields` | scg_worker.py:124-135 | the `name:value` loop reads an encoded table back entry by entry |
| `ScgWorker.Unquoted` | scg_worker.py:93 | stripping blanks and quotes from the parts yields no more items than parts |
| `ScgWorker.UnquotedStripped` | scg_worker.py:93 | no unquoted tag starts or ends with a quote |
| `ScgWorker.NonEmpty` | scg_worker.py:93 | the filter keeps only non-empty items of the input |
| `ScgWorker.TagParts` | scg_worker.py:90-92 | no piece of the split holds a comma or whitespace |
| `ScgWorker.ParseTagsAsWritten` | scg_worker.py:80-93 | as written: an empty string gives the default pool; a tag of the text form holds no comma or whitespace |
| `ScgWorker.ParseTagsKeepsEmptyTag` | scg_worker.py:93 | as written, a quotes-only piece between two tags yields an empty tag, which the corrected parser drops |
| `ScgWorker.ParseTags` | scg_worker.py:80-93 | corrected: an empty string gives the default pool; every tag is non-empty; a tag of the text form holds no comma, whitespace or edge quote |
| `ScgWorker.ParseTagsDropsOnlyEmpty` | scg_worker.py:87 | the corrected parser is the as-written one with the empty tags removed |
| `ScgWorker.UnquotedKeeps` | scg_worker.py:93 | bare tags pass through unquoting unchanged |
| `ScgWorker.JoinedTagParts` | scg_worker.py:90-92 | separator-free pieces joined by commas split back into the pieces when the text does not start or end with a bracket or quote |
| `ScgWorker.TagsRoundTrip` | scg_worker.py:80-93 | tags free of separators and edge quotes, joined by commas, parse back to the same tags |
| `ScgWorker.Reach` | scg_worker.py:144-148 | the first position at which the running total reaches the draw; no earlier one does; `None` when none does |
| `ScgWorker.FirstReaching` | scg_worker.py:144-148 | the accumulating loop returns exactly `Reach` |
| `ScgWorker.Choice` | scg_worker.py:142-149 | `None` exactly for an empty mapping (the fallback raises then); otherwise one of its keys |
| `ScgWorker.WeightedChoice` | scg_worker.py:142-149 | the loop and its fallback return exactly `Choice` |
| `ScgWorker.ChoiceReaches` | scg_worker.py:149 | the fallback is only taken when the draw exceeds the total |
| `ScgWorker.ChosenWeightPositive` | scg_worker.py:145-148 | for a positive draw the chosen key has a positive weight |
| `ScgWorker.LanguageChoice` | scg_worker.py:280-286 | `None` exactly for an empty mix; otherwise a key of the mix; an empty language only when the last key is empty |
| `ScgWorker.SampleLanguage` | scg_worker.py:280-286 | the loop with its `if not lang` fallback returns exactly `LanguageChoice` |
| `ScgWorker.LanguageChoiceIsChoice` | scg_worker.py:285-286 | when no language is the empty string, the language draw is `weighted_choice` |
| `ScgWorker.ScgGenerateText` | scg_worker.py:213-220 | the stripped completion, followed, when the pool is non-empty and the coin is below 0.6, by a space and one or two distinct pool tags |
| `ScgWorker.SameTextAsBackend` | scg_worker.py:217-219 | for the same completion and draws the script and the backend worker produce the same text |
| `ScgWorker.OnePersona` | scg_worker.py:289-291 | a persona is registered exactly when both draws succeed, and it is a key of the persona weights |
| `ScgWorker.OnePost` | scg_worker.py:276-295 | `one` raises at its first failing step; a posted payload is a simulated post of the seed with a configured language and persona, the generated text and every tag |
| `ScgWorker.RunOne` | scg_worker.py:276-295 | one post registers its persona and either stores `OnePost`'s payload or raises its error with the database unchanged |
| `ScgWorker.OnePostStored` | scg_worker.py:177-190 | the stored row is appended after every existing row, unprocessed and simulated, of the seed, with a configured language and persona |
| `IncidentWatcher.Validate` | incident_watcher.py:80-87 | a reply passes the schema exactly when `is_incident` is "Yes" or "No" and the confidence lies in 0..100, and then it is kept field for field |
| `IncidentWatcher.ValidateDump` | incident_watcher.py:217 | every classification passes the schema and comes back unchanged |
| `IncidentWatcher.ReportBoundary` | incident_watcher.py:222 | the threshold is inclusive: "Yes" at 80 reports, at 79 it does not, and "No" never reports |
| `IncidentWatcher.LocationBits` | incident_watcher.py:229-233 | at most two bits, none of them empty |
| `IncidentWatcher.LocationLine` | incident_watcher.py:226-234 | no location line exactly when there is no location or it names neither a country nor an area |
| `IncidentWatcher.LocationLineParts` | incident_watcher.py:229-234 | the line is "country, area", the country alone or the area alone, whichever parts are present |
| `IncidentWatcher.Payload` | incident_watcher.py:292-305 | the report carries the post id, type, summary and confidence, and the location's country and area or nothing |
| `IncidentWatcher.Reported` | incident_watcher.py:222-237 | an incident is filed only for a valid confident "Yes" whose report succeeded |
| `IncidentWatcher.HandleWellFormed` | incident_watcher.py:199-248 | handling a post keeps the database well formed |
| `IncidentWatcher.HandleMarks` | incident_watcher.py:244-245 | handling marks the post, and only when every call succeeded; no other row changes |
| `IncidentWatcher.HandleFiles` | incident_watcher.py:236-238 | handling files exactly the reported incident, if any, after the existing ones |
| `IncidentWatcher.HandlePasses` | incident_watcher.py:199-248 | a post is handled to the end exactly when the reply is valid, the mark succeeds and a required report succeeds |
| `IncidentWatcher.HandleOutcomeIgnoresDb` | incident_watcher.py:206-245 | how handling ends depends on the answers only, not on the database |
| `IncidentWatcher.HandleSinglePost` | incident_watcher.py:199-248 | the store ends in the state `Handle` gives, with `Handle`'s outcome |
| `IncidentWatcher.Fetch` | backend/main.py:62-69 | a round sees at most 50 unprocessed real posts of the table, and none when the fetch failed |
| `IncidentWatcher.RunBatch` | incident_watcher.py:274-279 | a batch gives one outcome per post |
| `IncidentWatcher.ReportedPayloads` | incident_watcher.py:274-279 | a batch files at most one incident per post |
| `IncidentWatcher.BatchIsolation` | incident_watcher.py:274-279 | a failure on one post does not stop the batch: each outcome is the one handling that post alone gives |
| `IncidentWatcher.BatchWellFormed` | incident_watcher.py:274-279 | a batch keeps the database well formed |
| `IncidentWatcher.BatchMarks` | incident_watcher.py:274-279 | after a batch each row is processed exactly when it was before or a batch post with its id was handled to the end |
| `IncidentWatcher.BatchFiles` | incident_watcher.py:274-279 | after a batch the incidents are the old ones followed by the batch's reports, in batch order |
| `IncidentWatcher.PollOnce` | incident_watcher.py:263-279 | one round fetches (nothing when the fetch raises) and leaves the state and outcomes `RunBatch` gives |
| `IncidentWatcher.RoundsKeep` | incident_watcher.py:263-282 | rounds keep the database well formed, drop and change no incident, and add and remove no post |
| `IncidentWatcher.Watch` | incident_watcher.py:251-282 | the store after the rounds is `AfterRounds` of the old store |
| `IncidentWatcher.FailedPostRefetched` | incident_watcher.py:274-279 | a post whose handling failed stays unprocessed, and the next full-size fetch that has room returns it again |
| `IncidentWatcher.PassedPostDone` | incident_watcher.py:244-245 | a post handled to the end is not returned by the next fetch |
| `IncidentWatcher.ProcessedNotFetched` | backend/crud.py:27 | no fetch returns a post with the id of a processed one |
| `IncidentWatcher.BatchIdsDistinct` | backend/crud.py:26-30 | the posts of one fetch carry distinct ids |

## Left out

- Concurrency: the backend worker's thread and `threading.Event`, the queue's one-second `get` timeout, `asyncio.gather` in `scg_worker.py`, and `asyncio.to_thread`. The worker's loop runs sequentially, and `stop()` from another thread is an event injected before a job or an item. The script's scheduled posts are modelled one at a time (`RunOne`), not interleaved.
- `time.sleep`, `asyncio.sleep` and `WATCH_INTERVAL_SEC`. Waits are computed (`ScheduleIntervals`) but not slept. The watcher's interval defaults to 10 seconds although its comment speaks of 5 minutes.
- `poll_loop` never ends. `Watch` runs as many rounds as its input lists.
- Floating point: weights, sums and the wait schedule are exact reals. A float normalisation whose sum is not exactly 1.0 is not captured.
- `random`: every draw is a parameter, and `random.expovariate` is a unit exponential draw divided by the rate.
- The language model (both generators' chat completions and the watcher's classifier) is an answer that is either a text or reply or a failure. The prompts and `SYSTEM_PROMPT` are not modelled.
- HTTP: a request that raises is an injected failure that stores nothing.
  - The backend endpoints are the `Crud` store operations.
  - `backend/main.py` has no route for `/api/mark_processed/{id}` or `/api/incidents`, which `incident_watcher.py` calls. The model treats them as `mark_post_processed` and `create_confirmed_incident`.
  - The admin-token check of `/api/user_posts` is not modelled.
- `fetch_seed_text_by_id`, `fetch_latest_real_seed` and the argument parsing of `scg_worker.py`'s `__main__`. The seed's text plays no part once the completion is an input.
- `WorkerConfig.__post_init__` reads environment variables. The model takes the parsed configuration as a value.
- `print` and every log line, including the alert banner. The alert's location line is modelled as a value (`LocationLine`).
- `json.loads`: its result is an input (`Json`). Duplicate JSON keys and non-string keys are not modelled, and `float()` is an injected partial conversion.
- `latitude` and `longitude` of `IncidentLocation` are carried along, but nothing reads them.
- The ORM session (`add`, `commit`, `refresh`) is one atomic update of the tables.
- Timestamp ties. `created_at` is `server_default=func.now()` (backend/models.py:9), and the default database is SQLite (backend/database.py:9), which stores it to the second. Rows inserted within one second share a timestamp, and `ORDER BY created_at` leaves their relative order unspecified. The model's logical clock gives every row its own time, so the orders stated by the members on the next lines are strict only in the model.
- Crud.EligibleAscending: the filtered rows are strictly ascending in time; with ties they are only non-decreasing.
- Crud.UnprocessedOldestFirst: the oldest-first order among rows created in the same second is not modelled.
- Crud.Reverse: with ties, newest-first need not be the insertion order reversed.
- Crud.ReverseTakeNewest: with ties, rows left out may share the time of rows returned.
- Crud.RecentPostsNewestFirst: the newest-first order among rows created in the same second is not modelled.
- Crud.RecentIncidentsNewestFirst: the newest-first order among rows created in the same second is not modelled.
- Crud.LatestRealPostIsNewest: with ties, which of the newest real posts is returned is not modelled.
- `backend/models.py` and `backend/schemas.py` as shipped declare fewer columns than `crud.py` writes. Neither has `is_simulated`, `persona`, `seed_post_id`, `lang` or `hashtags`. The model follows the columns `crud.py` writes.
- `db_manager.py` and `backend/database.py` are not part of this model.

## Error paths in the code

The model follows these behaviours of the code:

- In `handle_single_post`, a classifier or report error skips `mark_post_processed`, so the post stays unprocessed and is fetched again next round (`FailedPostRefetched`). A post whose report succeeded but whose mark failed is reported again next round.
- A classifier reply that fails schema validation raises, and the post is skipped (`Validate`, `Handle`).
- The alert threshold is the constant 80 (`AlertThreshold`).
- The watcher handles posts one after another and has no cancellation.
- In the backend worker, an exception in one seed's job is caught by `_loop`, and the next queued seed is taken while the run flag is set (`LoopRunFlag`, `Worker.Loop`).

## Findings

| source | as written | input that shows it | evidently intended | confidence | as-written member | corrected member |
|---|---|---|---|---|---|---|
| scg_worker.py:93 | the emptiness test `if p.strip()` runs before `.strip('\'"')`, so a piece made only of quotes becomes an empty tag | `parse_tags("a,'',b")` gives `["a", "", "b"]` | `["a", "b"]`: no empty tags, as the JSON branch (line 87) and the backend's parser (backend/worker.py:83) ensure | not executed | `ScgWorker.ParseTagsKeepsEmptyTag` | `ScgWorker.ParseTags` |
