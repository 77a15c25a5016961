# Material news monitor — a Dafny model of its decision logic

The monitor (`trend.py`) watches news about a manufacturer's raw materials.
For every material it expands the material name into search queries, asks Google
News (RSS) and GDELT for articles, cleans and summarises the text, and scores each
article for relevance with fuzzy string matching. Articles below a relevance floor
of 60 are dropped. It then adds a few always-watched "pinned" pages with score 100,
removes duplicates, converts the timestamps to the local zone (Africa/Kampala), and
sorts the table by material, relevance and date.

This project models those pure steps in Dafny and proves what they guarantee. The
modules follow the program's stages:

| module | file | models |
|---|---|---|
| `Wrappers` | wrappers.dfy | `Option` |
| `Seqs` | seqs.dfy | `list(dict.fromkeys(...))`, subsequences, flattening |
| `Text` | text.dfy | `clean_text`, `summarize_text`, string helpers |
| `Queries` | queries.dfy | `expand_queries`, the Google News query string, the GDELT query list |
| `Items` | items.dfy | the row dictionaries |
| `Adapters` | adapters.dfy | row construction in `fetch_google_news` / `fetch_gdelt` |
| `Scoring` | scoring.dfy | `relevance_score` |
| `Dedup` | dedup.dfy | `hash_id`, `deduplicate` |
| `Retry` | retry.dfy | `safe_get`, `backoff_sleep` |
| `Dates` | dates.dfy | `normalize_date`, civil date-time arithmetic |
| `Ranking` | ranking.dfy | the output records and their sort order |
| `Pipeline` | pipeline.dfy | the assembly in `main` |

Foreign code is passed in as function-valued parameters, never implemented:

- the fuzzy matchers `token_set_ratio` and `partial_ratio` (`Scoring.Matchers`) are functions into the reals 0 to 100;
- SHA-256 truncated to 16 hex digits (`Dedup.Hasher`) is a function from the hashed string;
- `html.unescape` and BeautifulSoup's `get_text` (`Text.HtmlTools`), and the Google News redirect unwrapping (`Adapters.NewsTools`);
- the feed and GDELT searches (`Adapters.NewsLoop`, `Adapters.GdeltLoop`), and `fetch_page_meta` (`Pipeline.Env.pageMeta`);
- the RSS-date and ISO-`Z` parsers (`Dates.Parsers`);
- the outcome of each HTTP request and each `random.random()` draw (`Retry.SafeGet`);
- the clock (`Pipeline.Env.now`) and the zone, which is a fixed UTC offset in minutes (180 for Kampala).

Behaviours of the code that a reader may not expect, modelled as written:

- The score has no lower clamp. `int(min(100, …))` ranges over −12..100, not 0..100 (`Scoring.RelevanceScore`).
- Pinned rows are not exempt from de-duplication. One whose url and title match a fetched row is dropped (`Pipeline.PinnedDroppedAsDuplicate`).
- The exact-duplicate test does not compare url and title as a pair. It compares the hash of their concatenation without a separator (`Dedup.SplitKeyCollision`).
- The pinned rows' timestamp is not the run time; see Findings.

## Model

| member | source | states |
|---|---|---|
| Seqs.Unique | trend.py:177 | `list(dict.fromkeys(xs))` has no duplicates, contains exactly the elements of `xs`, is no longer than `xs`, and starts with `xs[0]` |
| Seqs.UniqueKeepsFirstOccurrenceOrder | trend.py:177 | kept elements appear in the order of their first occurrence in the input |
| Seqs.UniqueOfNoDup | trend.py:177 | a duplicate-free list is returned unchanged |
| Seqs.UniquePrefix | trend.py:235 | de-duplicating `a + b` keeps the de-duplication of `a` as a prefix |
| Seqs.UniqueAfterTwo | trend.py:235 | de-duplicating a duplicate-free list followed by two different values appends each value not already present, in order |
| Seqs.SubseqMembers | trend.py:299-314 | every element of an order-preserving subsequence occurs in the sequence |
| Text.Squash | trend.py:149 | `re.sub(r"\s+", " ", x).strip()` equals `" ".join(x.split())`, and the result is tidy: no leading or trailing whitespace, only plain spaces, never two in a row |
| Text.StripCollapseIsJoinedWords | trend.py:149 | the collapse-then-strip equals joining the whitespace-separated words with single spaces |
| Text.WordsAreWords | trend.py:149 | every piece of `x.split()` is non-empty and contains no whitespace |
| Text.WordsOfJoin | trend.py:149 | splitting a single-space join of words gives back the words |
| Text.SquashIdempotent | trend.py:149 | collapsing whitespace twice is the same as once |
| Text.CleanText | trend.py:145-150 | the empty string stays empty; otherwise the result is the unescaped text's words joined by single spaces, and tidy |
| Text.Summarize | trend.py:155-165 | text that fits is returned unchanged; longer text gives the ellipsis fallback or a non-empty result of at most `max_chars` characters |
| Text.AccumulateGreedy | trend.py:157-164 | on tidy text the accumulation loop keeps exactly the text up to the last sentence end that leaves room for the trailing space, or nothing |
| Text.SummarizeWholeSentences | trend.py:157-165 | on tidy text longer than `max_chars`: either `text[:max_chars] + "…"` (length `max_chars + 1`) when no sentence ends before `max_chars`, or the longest whole-sentence prefix shorter than `max_chars` |
| Text.SummarizeText | trend.py:152-165 | the cleaned extracted text is returned whole if it fits, else the longest whole-sentence prefix, else the cut with an ellipsis |
| Text.StrLessTotal | trend.py:429 | string order is total |
| Text.StrLessTransitive | trend.py:429 | string order is transitive |
| Queries.ExpandQueries | trend.py:173-177 | the queries start with the material, contain every synonym, contain nothing else, have no duplicates and number at most 1 + synonyms |
| Queries.ExpandQueriesFirstOccurrenceOrder | trend.py:173-177 | the queries keep first-occurrence order of material and synonyms |
| Queries.ExpandQueriesOfDistinct | trend.py:173-177 | distinct synonyms different from the material are all kept, in order |
| Queries.ExpandQueriesCaseSensitive | trend.py:173-177 | "BEHENTRIMONIUM CHLORIDE" and "behentrimonium chloride" both survive |
| Queries.QuotedJoin | trend.py:203 | joining with `'" OR "'` inside outer quotes equals quoting each word and joining with ` OR ` |
| Queries.WithContextShape | trend.py:203 | the query is the quoted term followed by a parenthesised OR-list of the quoted context words |
| Queries.NewsQueryShape | trend.py:200-203 | the Google News query has that shape for the fourteen context words |
| Queries.GdeltQueries | trend.py:229-235 | the GDELT list starts with the expanded queries, then has the supply context query unless already present, then the price context query unless already present; it contains both, nothing else, and no duplicates |
| Queries.AppendNew | trend.py:235 | `dict.fromkeys` over distinct queries plus two different context queries keeps the queries in front and appends each new context query in its original order |
| Queries.GdeltExtrasDistinct | trend.py:231-234 | the two context queries are never the same string |
| Adapters.NewsRow | trend.py:206-220 | a Google News row carries the material, the query and the source tag, a tidy title and a summary of at most 281 characters |
| Adapters.NewsRowsOf | trend.py:206-220 | one search yields exactly min(len(entries), 12) rows, the i-th built from the i-th entry, each tagged with the material, the query and the source |
| Adapters.NewsLoop | trend.py:202-221 | every row of the loop is tagged with the material, the source and one of the queries, with a tidy title; at most 12 rows per query |
| Adapters.NewsLoopBlocks | trend.py:202-221 | the loop's rows are exactly the rows of each query's own search (`NewsHits`), joined in query order |
| Adapters.NewsLoopSnoc | trend.py:202-221 | one more query appends exactly the rows of its own search |
| Adapters.NewsRows | trend.py:196-222 | `fetch_google_news` returns the rows of the searches for the expanded queries, concatenated in query order, each tagged with the material, the source and its query; at most 12 per query |
| Adapters.GdeltRow | trend.py:251-263 | a GDELT row carries the material, the query and the source tag, and tidy title and summary |
| Adapters.GdeltRowsOf | trend.py:242-263 | a failed request or undecodable answer yields no rows; a decoded answer yields exactly min(len(articles), 12) rows, the i-th built from the i-th article |
| Adapters.GdeltLoop | trend.py:235-264 | every row of the loop is tagged with the material, the source and one of the queries, with a tidy title; at most 12 rows per query |
| Adapters.GdeltLoopBlocks | trend.py:235-264 | the loop's rows are exactly the rows of each query's own search (`GdeltHits`), joined in query order |
| Adapters.GdeltRows | trend.py:224-265 | `fetch_gdelt` returns the rows of the searches for the GDELT queries, concatenated in query order, each tagged with the material, the source and its query; at most 12 per query |
| Adapters.GdeltLoopSkipsFailure | trend.py:242-245 | a query whose search fails adds nothing and leaves the other queries' rows unchanged |
| Adapters.FetchMaterial | trend.py:381-383 | the rows for a material are the Google News rows of every expanded query followed by the GDELT rows of every GDELT query, all carrying the material; at most 12 per query |
| Scoring.MaxFrom | trend.py:273-275 | the running `max` is at least the start value and every value, and equals one of them |
| Scoring.MaxFromBound | trend.py:273-290 | the running `max` never exceeds the start value or a common bound of the values |
| Scoring.BestMatch | trend.py:273-290 | each component is the largest weighted similarity over its keyword list (0 if none), between 0 and 100 times its weight |
| Scoring.ScoreParts | trend.py:268-294 | base lies in 0..100, the boosts in 0..60, 0..35 and 0..35, and the penalty is 0 or 12 |
| Scoring.TruncateTowardZero | trend.py:296 | `int(x)` drops the fraction toward zero for either sign |
| Scoring.RelevanceScore | trend.py:268-297 | the score lies in −12..100 |
| Scoring.BaseCoversMaterial | trend.py:273-275 | base is at least the token-set similarity of the material name itself |
| Scoring.BaseCoversSynonyms | trend.py:273-275 | base is at least the similarity of every synonym |
| Scoring.GlobalCoversHintsAndPorts | trend.py:288-290 | the global boost covers both the supply hints and the port names |
| Scoring.PenaltyIff | trend.py:292-294 | the penalty is 12 exactly when one of the five off-topic words is a substring of the lower-cased title and summary |
| Scoring.PenaltyEffect | trend.py:294-296 | with the similarity parts fixed, the penalty never raises the score and lowers it by at most 12 |
| Scoring.CapitalisedWordPenalised | trend.py:270-294 | "Football" in a title is penalised because the text is lower-cased first |
| Dedup.RowKeyConcat | trend.py:167-171 | `hash_id(url, title)` hashes `url + title` |
| Dedup.RowKeyOfSameConcat | trend.py:167-171 | rows whose url and title concatenate to the same string share a fingerprint |
| Dedup.Seen | trend.py:300-312 | `seen` holds exactly the fingerprints of the kept rows |
| Dedup.DedupSnoc | trend.py:299-314 | the pass over `rows + [x]` is the pass over `rows`, then `x` is appended unless a kept row shares its fingerprint or is a near duplicate of it |
| Dedup.DeduplicateSound | trend.py:299-314 | the output is an order-preserving subsequence of the input, starting with the first row; no two kept rows share a fingerprint; no kept title scores 92 or more against an earlier kept title (new title first); every dropped row is ruled out by a kept row |
| Dedup.DedupSubseq | trend.py:299-314 | the output is an order-preserving subsequence of the input that keeps the first row, with no shared fingerprint and no near-duplicate title among the kept rows |
| Dedup.DedupCovers | trend.py:299-314 | every input row is either kept or ruled out by a kept row, by fingerprint or by title similarity |
| Dedup.DedupPrefix | trend.py:299-314 | the output over a prefix of the rows is a prefix of the output: the first-seen row wins |
| Dedup.DedupOfAdmissible | trend.py:299-314 | rows that already satisfy both tests pass through unchanged |
| Dedup.DedupIdempotent | trend.py:299-314 | de-duplicating the output again changes nothing |
| Dedup.SplitKeyCollision | trend.py:167-171 | url "ab" with title "c" and url "a" with title "bc" collide, so the second row is dropped |
| Retry.BackoffDelay | trend.py:179-181 | the sleep after attempt k lasts at least 1.2·k and less than 2.0·k seconds |
| Retry.SafeGet | trend.py:184-194 | between 1 and 3 requests; the result is the first status-200 response, `None` exactly when no attempt answered 200 (exceptions and other statuses alike), after all 3; one sleep after every attempt but the last, in the backoff range for its attempt number |
| Retry.TotalSleepBound | trend.py:185-193 | the sleeps of one call add up to less than 6 seconds |
| Dates.NextDay | trend.py:332 | the following day is a valid date one ordinal later, same time of day |
| Dates.PrevDay | trend.py:332 | the previous day is valid, one ordinal earlier, and undone by `NextDay` |
| Dates.Shift | trend.py:331-332 | the zone shift gives a valid date-time, or fails only near the ends of the calendar |
| Dates.ShiftSeconds | trend.py:331-332 | the shift adds the offset to the time line, and fails exactly when the result leaves 0001-01-01 .. 9999-12-31 |
| Dates.ShiftRoundTrip | trend.py:331-332 | shifting back by the same offset restores the original |
| Dates.ShiftAcrossYear | trend.py:331-332 | at +03:00, 2023-12-31 22:30 becomes 2024-01-01 01:30 |
| Dates.ShiftIntoLeapDay | trend.py:331-332 | at +03:00, 2024-02-28 23:15 becomes 2024-02-29 02:15 |
| Dates.ShiftPastLastYear | trend.py:331-334 | a shift past 9999-12-31 fails |
| Dates.YearStep | trend.py:332 | the closed-form count of days before a year agrees with adding up year lengths (365, or 366 in a leap year) |
| Dates.ParseFormatCompact | trend.py:325 | a written 14-digit timestamp reads back as the same date-time |
| Dates.FormatParseCompact | trend.py:325 | a 14-digit timestamp that reads is the written form of its value |
| Dates.ParseFormatSql | trend.py:327 | a `%Y-%m-%d %H:%M:%S` timestamp written by the program reads back as the same date-time |
| Dates.FormatParseSql | trend.py:327 | a `%Y-%m-%d %H:%M:%S` timestamp that reads is the written form of its value, up to the kind of whitespace in the gap |
| Dates.TryFormats | trend.py:329-335 | the result is defined exactly when some format reads the string and shifts; it is the shift of the first such format, and every earlier format failed |
| Dates.NormalizeDate | trend.py:316-335 | empty input gives `None`; otherwise the first format that reads and shifts wins; any result is a valid date-time |
| Dates.CompactExample | trend.py:316-335 | "20230102100000" at +03:00 gives 2023-01-02 13:00:00 |
| Dates.RssExample | trend.py:316-335 | "Mon, 02 Jan 2023 10:00:00 GMT" read as 10:00 gives 13:00 at +03:00 |
| Ranking.RecordLeTotal | trend.py:429 | any two records can be ordered |
| Ranking.RecordLeTransitive | trend.py:429 | the sort order is transitive |
| Ranking.Insert | trend.py:429 | inserting adds exactly one copy of the record |
| Ranking.InsertSorted | trend.py:429 | inserting into a sorted table keeps it sorted |
| Ranking.SortRecords | trend.py:429 | the sorted table is a permutation of the records, ordered by material ascending, relevance descending, date descending |
| Ranking.SortedByRelevanceWithinMaterial | trend.py:429 | within a material, relevance never increases down the table |
| Ranking.SortedByMaterial | trend.py:429 | materials never go backwards down the table |
| Pipeline.Passing | trend.py:384-386 | exactly the rows scoring at least 60 are kept, with their scores, and no more rows than came in |
| Pipeline.PassingSnoc | trend.py:384-386 | filtering one more row appends it with its score exactly when it scores at least 60: the filter keeps the fetch order |
| Pipeline.Collect | trend.py:379-389 | every collected row scores at least 60, carries its own score, and was fetched for a material whose fetch succeeded |
| Pipeline.CollectAppend | trend.py:379-389 | collecting two runs of materials concatenates their rows |
| Pipeline.CollectSingle | trend.py:380-389 | one material contributes its passing rows, or nothing when its fetching failed |
| Pipeline.CollectComplete | trend.py:380-389 | every row scoring at least 60 of a material whose fetch succeeded is collected with its score |
| Pipeline.CollectSkipsFailure | trend.py:380-389 | a failed material contributes nothing and does not change the other materials' rows |
| Pipeline.PinnedRow | trend.py:393-404 | a pinned row has score 100, material "MULTI / GLOBAL", source "Pinned", its url, and its page title or the fallback title |
| Pipeline.PinnedRows | trend.py:392-405 | one pinned row per pinned url, in order |
| Pipeline.PinnedDroppedAsDuplicate | trend.py:405-408 | a pinned row whose url and title match a collected row is removed by de-duplication |
| Pipeline.NormalizeSqlForm | trend.py:316-335 | a `%Y-%m-%d %H:%M:%S` timestamp normalises to its shift by the offset |
| Pipeline.StampAsWrittenShiftedTwice | trend.py:400 | the pinned timestamp, local time read as UTC, comes out `offset` minutes after the run time |
| Pipeline.StampAsWrittenExample | trend.py:400 | at +03:00 a pinned row stamped 09:00 is dated 12:00 |
| Pipeline.StampCorrectedNormalizes | trend.py:400 | writing the run time in UTC makes `normalize_date` return the run time |
| Pipeline.ToRecord | trend.py:416-427 | a record carries the row's material, query, source, title, summary, url and score; its date is what `normalize_date` returns for the row's timestamp, or the run time when it returns nothing |
| Pipeline.Records | trend.py:415-427 | one record per kept row, in order |
| Pipeline.ScoredProvenance | trend.py:379-405 | every row entering de-duplication scores at least 60 and is a fetched row with its own score or a pinned page |
| Pipeline.CollectedProvenance | trend.py:379-389 | a collected row scores at least 60 and its record is that of a fetched row with its own score |
| Pipeline.PinnedProvenance | trend.py:392-405 | a pinned row scores at least 60 and its record is tagged "MULTI / GLOBAL", "Pinned", score 100, with a pinned url |
| Pipeline.RunProvenance | trend.py:379-427 | every record of a kept row is a pinned page or a fetched row, with relevance at least 60, whatever the pinned rows' timestamp |
| Pipeline.TableProvenance | trend.py:415-429 | any reordering of the kept rows' records, in particular the sorted table, has relevance at least 60 in every row and only pinned pages or fetched rows, whatever the pinned rows' timestamp |
| Pipeline.Run | trend.py:379-429 | `main` as written, pinned rows stamped with the local time: the table is sorted and is a permutation of the records of the de-duplicated rows; every record has relevance at least 60 and is a pinned page or a fetched row |
| Pipeline.Assemble | trend.py:379-429 | for any pinned timestamp, the table is sorted, is a permutation of the kept rows' records, and each record reaches 60 and is a pinned page or a fetched row |
| Pipeline.RunCorrected | trend.py:379-429 | the same guarantees for the table built with the corrected stamp |

## Findings

| source | as written | input that shows it | evidently intended | confidence | as-written member | corrected member |
|---|---|---|---|---|---|---|
| trend.py:400 | a pinned row's `published` is the local wall-clock time formatted without a zone; line 417 passes it to `normalize_date`, which reads it as UTC and adds the zone offset again | a run at 2024-05-01 09:00 Kampala time dates the pinned row 2024-05-01 12:00 | the pinned row is dated at the run time | high (not executed) | Pipeline.StampAsWrittenShiftedTwice | Pipeline.StampCorrectedNormalizes |

`Pipeline.Run` builds the table as the program does, with the as-written stamp. `Pipeline.RunCorrected` builds it with the corrected stamp (`Pipeline.StampCorrected`, the run time written in UTC). Both go through `Pipeline.Assemble`, whose guarantees hold for any stamp.

## Left out

- Network and file I/O: HTTP requests, feed parsing, GDELT JSON decoding, `fetch_page_meta`'s HTML scraping, Excel/CSV output, `format_alert`, `post_webhook` and console output. Their results are parameters or are not modelled.
- The internals of rapidfuzz, SHA-256, `html.unescape`, BeautifulSoup and the Google News redirect regex. These are uninterpreted parameters. Collisions of the 16-hex-digit hash prefix between different strings are not modelled.
- The configuration tables (materials, synonyms, keyword lists, pinned urls) are parameters. Only the constants the logic depends on are fixed: thresholds, weights, caps, the five off-topic words and the context words.
- Scoring.RelevanceScore: uses exact reals for the weights 0.6 and 0.35. Python's float rounding is not modelled.
- Text.Lower: lower-cases ASCII letters only. Python's `str.lower` also maps non-ASCII letters, and can change a string's length.
- Dates.ParseCompact: reads only the zero-padded 14-digit spelling of ASCII digits. `strptime` also accepts some shorter, unpadded spellings, a space in place of a leading zero (`%d` accepts `" 1"`, so `"202301 1100000"` reads as 2023-01-01 10:00), and other Unicode decimal digits. The model rejects these, and the row falls back to the run time.
- Dates.ParseSql: reads only the zero-padded 19-character spelling with one whitespace character between date and time. `strptime` also accepts unpadded fields, a space in place of a leading zero in the day, and longer whitespace runs.
- Dates.FormatSql: writes years with four digits. Some C libraries write years below 1000 without padding.
- The RSS (`%a, %d %b %Y %H:%M:%S %Z`) and ISO-`Z` formats are abstract parsers (`Dates.Parsers`); their name tables and case rules are not modelled.
- The zone is a fixed UTC offset, not the tz database with its historical offsets.
- Pipeline.ToRecord: the run-time fallback for an unreadable date is a whole-second `DateTime`. The program's `today_local()` carries microseconds, which the model drops.
- Pipeline.Run: reads the clock once. The program calls `today_local()` separately for each pinned row and each missing date.
- Ranking.SortRecords: orders rows with equal keys deterministically, but no claim is made that this matches pandas' order for such rows.
- `time.sleep` is represented only by the list of sleep durations `Retry.SafeGet` returns.
- Exceptions other than a failed request are modelled only where the program catches them: a failing material (`None` in `Pipeline.Collect`), a failed GDELT search, and a date format that does not read or overflows.
