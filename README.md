# Alma TV scheduling core in Dafny

Alma TV is a small home "TV channel" for a child. A media library of cartoon
episodes (files named `Series_SxxEyy_Title.ext`) is scanned into a database.
Every evening at a configured start time a lineup is drawn for the day:

- episodes that were not played recently, or that belong to a requested series;
- weighted by the feedback the child gave (LIKED raises the weight, NEVER
  excludes the episode);
- boosted by three for each request naming the series;
- filled until the runtime target is met.

The lineup is then played in slot order between an intro and an outro. The
child's ratings come back through a feedback service, and reports aggregate
them. A small web layer streams files with HTTP byte ranges and keeps the
playback state.

This project models that core as Dafny modules, one per source file:

| module | models |
|---|---|
| `Models` | the entities: videos, sessions, play history, feedback, requests; the `Rating` and `SessionStatus` enumerations |
| `Store` | the database as a class of tables with primary-key and uniqueness invariants |
| `Settings` | the configuration validators |
| `Weights` | the feedback weighting |
| `Parser` | the natural-language request parser |
| `Lineup` | the lineup generator |
| `Library` | the library queries |
| `Scanner` | the file-name grammar, the scan decision, the path-keyed upsert and the scan counters |
| `FeedbackApi` | the feedback store rules |
| `Reporting` and `Reporter` | the two report services |
| `Stream` | range parsing and chunked reads |
| `WebState` | the playback state machine |
| `Orchestrator` | the start-time test and the playback sequence |

`Common` and `Sorting` model the parts of the Python built-ins the code relies
on: `int()` over ASCII digits, `str.split`, `str.strip`, `str.lower` for the
ASCII and Latin-1 capitals, a stable `sorted` and slicing. "## Left out" says
what these leave out.

Things outside the program become parameters:

- the clock (`now`);
- the weight decay `0.5 ** (d / 7)` (`decay`, assumed positive and at most 1);
- the fuzzy matcher `get_close_matches` (`fuzzy`, returning none or one string);
- the random choices (`:|`, any element of positive weight);
- ffprobe durations and file hashes (data of a `FileEntry`);
- file existence and the media player's outcome (`Environment`).

The database is in memory. Each table is a sequence in primary-key order, and
query results come back in table order.

## Model

| member | source | states |
|---|---|---|
| Models.RatingFromValue | src/alma_tv/database/models.py:98-103 | `Rating(s)` succeeds exactly for the three stored strings and yields the member whose value is `s` |
| Models.RatingHasThreeMembers | src/alma_tv/database/models.py:98-103 | the rating enumeration has three members with distinct values, and value/lookup are inverse |
| Models.NewPlay | src/alma_tv/database/models.py:74-85 | a new play row is not completed and has no start or end time |
| Models.FeedbackForVideo | src/alma_tv/scheduler/weights.py:71-76 | the feedback joined to the plays of a video: exactly the rows whose play is of that video, in table order |
| Store.Database.constructor | src/alma_tv/database/models.py:17-135 | an empty database satisfies the key invariants |
| Store.Database.AddSession | src/alma_tv/scheduler/lineup.py:357-365 | inserting a session appends one row with a fresh id and changes nothing else |
| Store.Database.AddPlay | src/alma_tv/scheduler/lineup.py:368-375 | inserting a play appends one uncompleted row with a fresh id and changes nothing else |
| Store.Database.CompletePlay | src/alma_tv/playback/orchestrator.py:174-178 | the rows with that id get the start and end times and `completed`; every other row and table is unchanged |
| Store.Database.SetSessionStatus | src/alma_tv/playback/orchestrator.py:134-136 | the session with that id gets the new status; every other row and table is unchanged |
| Store.Database.AddFeedback | src/alma_tv/feedback/api.py:64-70 | a new feedback row is added for a play without one, which keeps `play_history_id` unique |
| Store.Database.AddVideo | src/alma_tv/library/scanner.py:193-197 | a video with a new path is appended with a fresh id, which keeps `path` unique |
| Settings.ValidateTimeFormat | src/alma_tv/config/settings.py:113-127 | an accepted value is returned unchanged, has exactly one colon, and has hour 0..23 and minute 0..59 |
| Settings.TimeOfDigits | src/alma_tv/config/settings.py:113-127 | two digit runs around a colon are accepted exactly when the hour is at most 23 and the minute at most 59 |
| Settings.PaddedTimesAccepted | src/alma_tv/config/settings.py:113-127 | every zero-padded `HH:MM` time of day is accepted |
| Settings.NegativeHourRejected | src/alma_tv/config/settings.py:113-127 | a negative hour such as `-1:00` is rejected |
| Settings.FieldErrors | src/alma_tv/config/settings.py:37-101 | no field fails exactly when the start time is valid, the duration is 15..60, the cooldown and clock interval are at least 1, the timeout at least 30, the port 1024..65535, and log level and player are in their literal sets |
| Settings.Failing | src/alma_tv/config/settings.py:37-101 | the failing fields among those checked, each once |
| Settings.Validate | src/alma_tv/config/settings.py:12-127 | validation succeeds exactly when every field constraint holds, returning the record unchanged; a failure names exactly the failing fields, in declaration order, at least one |
| Settings.DefaultsValid | src/alma_tv/config/settings.py:22-111 | the default values pass every constraint |
| Weights.LastCompletedStart | src/alma_tv/scheduler/weights.py:91-97 | the latest start time among the completed plays of the video that have a start time, or none when there is no such play |
| Weights.CalculateWeight | src/alma_tv/scheduler/weights.py:36-107 | the accumulating loop computes the specified weight: NEVER check, LIKED bonuses, freshness boost |
| Weights.LikedBonusSumNonNegative | src/alma_tv/scheduler/weights.py:79-88 | the LIKED bonuses are non-negative and sum to zero exactly when there is no LIKED row |
| Weights.LikedBonusSumAtMost | src/alma_tv/scheduler/weights.py:79-88 | each LIKED row adds at most 0.5 when no feedback is dated after `as_of` |
| Weights.FreshnessBoostRange | src/alma_tv/scheduler/weights.py:99-105 | the boost lies in 0..0.5 and is positive exactly when the last completed play is more than 14 whole days old |
| Weights.Weight | src/alma_tv/scheduler/weights.py:54-107 | a NEVER rating on any play gives weight 0; with a positive decay the weight is never negative and is 0 for no other reason |
| Weights.WeightAtLeastBaseline | src/alma_tv/scheduler/weights.py:54-107 | without NEVER the weight is at least 1.0, and exactly 1.0 when there is no LIKED row and no stale completed play |
| Weights.WeightAtMost | src/alma_tv/scheduler/weights.py:54-107 | the weight is at most 1.0 + 0.5 per LIKED row + 0.5 |
| Weights.CalculateWeightsBatch | src/alma_tv/scheduler/weights.py:109-127 | the dictionary has exactly the given ids as keys, each mapped to its own weight |
| Weights.Distinct | src/alma_tv/scheduler/weights.py:124-127 | the dictionary's keys: the same ids, each once |
| Weights.WeightList | src/alma_tv/scheduler/weights.py:156-157 | the weights of the ids, position by position |
| Weights.SumOfAtLeast | src/alma_tv/scheduler/weights.py:165-167 | n times the minimum is at most the sum |
| Weights.SumOfAtMost | src/alma_tv/scheduler/weights.py:165-167 | the sum is at most n times the maximum |
| Weights.DistributionOrdered | src/alma_tv/scheduler/weights.py:164-169 | every weight lies between min and max, and so does the mean |
| Weights.GetWeightDistribution | src/alma_tv/scheduler/weights.py:143-169 | no ids give all zeros; otherwise every weight lies between min and max, min and max are weights of some id, and the mean is the sum of the per-id weights over the number of distinct ids |
| Weights.HeavierFirstIsTotalPreorder | src/alma_tv/scheduler/weights.py:196 | the sort key "weight, descending" is a total preorder |
| Weights.EnabledIds | src/alma_tv/scheduler/weights.py:187-188 | exactly the ids of enabled videos |
| Weights.WeightedAtLeast | src/alma_tv/scheduler/weights.py:193-195 | exactly the (id, weight) pairs whose weight reaches `min_weight` |
| Weights.TopWeightedProperties | src/alma_tv/scheduler/weights.py:171-198 | heaviest first; each entry an enabled video with its own weight of at least `min_weight` |
| Weights.TopWeightedComplete | src/alma_tv/scheduler/weights.py:193-198 | no qualifying video left out is heavier than one listed |
| Weights.TopWeighted | src/alma_tv/scheduler/weights.py:171-198 | for a non-negative limit exactly min(limit, qualifying videos) entries, for a negative one all but the last |limit| |
| Parser.ExtractDayOffset | src/alma_tv/scheduler/parser.py:48-58 | the offset is 1 exactly when the lowered text contains "tomorrow" and, once every "tomorrow" is removed, no "today"; otherwise 0 |
| Parser.ExtractDay | src/alma_tv/scheduler/parser.py:48-58 | the offset is 0 or 1, and removing the day words never lengthens the text |
| Parser.SeparatorAt | src/alma_tv/scheduler/parser.py:61 | the separator found at a position is nothing, a comma, or " and " |
| Parser.SplitClausesNoComma | src/alma_tv/scheduler/parser.py:61 | no clause left by the split holds a comma |
| Parser.SplitFromNoSeparator | src/alma_tv/scheduler/parser.py:61 | text without a separator is one clause |
| Parser.SplitClauses | src/alma_tv/scheduler/parser.py:61 | the split always yields at least one clause |
| Parser.AllSeries | src/alma_tv/scheduler/parser.py:100-102 | the distinct series names of the library |
| Parser.FirstLowerMatch | src/alma_tv/scheduler/parser.py:104-106 | a name whose lowered form is the key, in its original case, or none when no name matches |
| Parser.FirstLowerMatchIsFirst | src/alma_tv/scheduler/parser.py:104-106 | the name returned is the first matching one |
| Parser.ResolveSeries | src/alma_tv/scheduler/parser.py:89-116 | keyword map first, then a case-insensitive exact match, then the fuzzy match mapped back to the original case; a result is always a map value or a library series |
| Parser.NumberWord | src/alma_tv/scheduler/parser.py:20-31 | the count words give 1..10 |
| Parser.CountAndKeyword | src/alma_tv/scheduler/parser.py:68-78 | the count taken from a clause is never negative |
| Parser.CountAndKeywordOfWords | src/alma_tv/scheduler/parser.py:68-78 | a leading count word or digit run gives the count and the rest is the keyword; otherwise the count is 1 and the whole clause is the keyword |
| Parser.ClauseRequest | src/alma_tv/scheduler/parser.py:63-85 | for a non-blank clause there is a request exactly when the keyword resolves to a non-empty series, and then it carries that series and the clause's count; a request always names a keyword-map value or a library series |
| Parser.ClauseRequestsBound | src/alma_tv/scheduler/parser.py:63-87 | at most one request per non-blank clause, each naming a non-empty series |
| Parser.ClauseRequestsAppend | src/alma_tv/scheduler/parser.py:63-87 | requests follow clause order: the requests of two runs of clauses concatenate |
| Parser.Parse | src/alma_tv/scheduler/parser.py:33-87 | the loop returns the day offset and the requests of the clauses, in order |
| Lineup.NormalizePayload | src/alma_tv/scheduler/lineup.py:93-105 | `requests` wins; a legacy `series` gives one request with its count or 3; anything else gives none |
| Lineup.AvailableDuration | src/alma_tv/scheduler/lineup.py:69-75 | the available time plus intro and outro is the target in seconds |
| Lineup.RequestedSeries | src/alma_tv/scheduler/lineup.py:197 | exactly the series named by some request |
| Lineup.PoolFilter | src/alma_tv/scheduler/lineup.py:199-206 | exactly the episodes that are requested or off cooldown, in order |
| Lineup.PoolFilterSorted | src/alma_tv/scheduler/lineup.py:199-206 | filtering keeps the (series, season, episode) order |
| Lineup.BuildCandidatePool | src/alma_tv/scheduler/lineup.py:155-209 | the appending loop yields the enabled episodes in episode order, filtered by request or cooldown |
| Lineup.CandidatePoolContents | src/alma_tv/scheduler/lineup.py:172-209 | the pool holds exactly the enabled videos that are requested or have no completed play since the cooldown cutoff, sorted |
| Lineup.BoostSeries | src/alma_tv/scheduler/lineup.py:123-126 | one request multiplies by 3 the weight of each candidate of the series, once per matching row; keys unchanged |
| Lineup.ApplyRequestBoost | src/alma_tv/scheduler/lineup.py:122-126 | every weight is tripled once per (request, candidate) hit; keys unchanged |
| Lineup.HitsOfDistinct | src/alma_tv/scheduler/lineup.py:122-126 | with one candidate row per id, a weight is tripled once per request naming its series |
| Lineup.TripledKeepsSign | src/alma_tv/scheduler/lineup.py:122-126 | a zero (NEVER) weight stays zero, a positive one does not decrease |
| Lineup.RemoveFirst | src/alma_tv/scheduler/lineup.py:269 | `list.remove` drops one occurrence of a present element and leaves the list alone otherwise |
| Lineup.PositiveWeighted | src/alma_tv/scheduler/lineup.py:239 | exactly the candidates of positive weight, a sub-multiset of the candidates |
| Lineup.CountSeriesRemove | src/alma_tv/scheduler/lineup.py:269-270 | removing a pick lowers its series' count by one |
| Lineup.FulfillRequest | src/alma_tv/scheduler/lineup.py:243-272 | one request picks `min(count, episodes of the series in the pool)` episodes, all of that series; picks and rest together are the pool |
| Lineup.FulfillRequests | src/alma_tv/scheduler/lineup.py:242-272 | for every series the request phase picks min(total count requested for it, its episodes in the pool), all of requested series; picks and rest together are the pool |
| Lineup.DemandAtMostSum | src/alma_tv/scheduler/lineup.py:242-245 | the count requested for one series is at most the total count, and positive only for a requested series |
| Lineup.CountSeriesAppend | src/alma_tv/scheduler/lineup.py:248 | counting the episodes of a series distributes over concatenation |
| Lineup.Diverse | src/alma_tv/scheduler/lineup.py:280-284 | exactly the candidates of an unused (series, season) |
| Lineup.Draw | src/alma_tv/scheduler/lineup.py:280-300 | a draw comes from the pool and repeats a used (series, season) only below `min_episodes`; no draw means every remaining episode is of a used season, and below `min_episodes` that the pool is empty |
| Lineup.MoveDrawn | src/alma_tv/scheduler/lineup.py:302-321 | a draw leaves the pool for the picked or the dropped list, conserving the multiset |
| Lineup.KeepDrawn | src/alma_tv/scheduler/lineup.py:302-310 | keeping a draw that fits in `available + 60` preserves the fill invariant |
| Lineup.DropDrawn | src/alma_tv/scheduler/lineup.py:316-321 | dropping a draw that does not fit preserves the fill invariant |
| Lineup.SettleDrawn | src/alma_tv/scheduler/lineup.py:302-325 | after a draw every dropped episode overshoots `available + 60`, and the loop stops exactly when the kept draw reaches `min_episodes` within 60 s of the target |
| Lineup.FillStep | src/alma_tv/scheduler/lineup.py:280-325 | one loop pass keeps the fill invariant and either shrinks the pool or stops |
| Lineup.PassedOverAtExit | src/alma_tv/scheduler/lineup.py:274-325 | with non-negative durations, when the loop ends the target is met within 60 s or every pool episode not picked was passed over: it repeats a used season with `min_episodes` reached, or overshoots `available + 60` |
| Lineup.FillSlots | src/alma_tv/scheduler/lineup.py:274-325 | picks extend the requested ones, come from the pool, stay within `available + 60` and `max_episodes`, and repeat a (series, season) only below `min_episodes`; the loop ends at `max_episodes`, on meeting the target within 60 s with `min_episodes` picked, or (for non-negative durations) when every episode left in the pool is passed over |
| Lineup.SelectEpisodes | src/alma_tv/scheduler/lineup.py:211-332 | the picks are a sub-multiset of the candidates, all of positive weight, at most max(requested total, `max_episodes`); they begin with, for every series, min(count requested, positive candidates of the series) picks of requested series; then the fill phase ends at `max_episodes`, on the target, or with every positive candidate not picked passed over; without requests the picks stay within `available + 60` and repeat a (series, season) only below `min_episodes` |
| Lineup.LeftOver | src/alma_tv/scheduler/lineup.py:239-325 | the candidates not picked in either phase are those the fill phase left in its pool |
| Lineup.DrawnFromPool | src/alma_tv/scheduler/lineup.py:239-325 | picks of both phases together are a sub-multiset of the valid candidates |
| Lineup.PositivelyWeighted | src/alma_tv/scheduler/lineup.py:239 | whatever is drawn from the positive candidates has positive weight |
| Lineup.SessionOn | src/alma_tv/scheduler/lineup.py:83-88 | the first session of the day, or none when the day has none |
| Lineup.SessionPlays | src/alma_tv/scheduler/lineup.py:368-375 | slot k+1 holds the k-th selected video, uncompleted |
| Lineup.CreateSession | src/alma_tv/scheduler/lineup.py:334-378 | one PLANNED session whose total is the sum of the durations, then slots 1..N in selection order; foreign keys kept |
| Lineup.WritePlays | src/alma_tv/scheduler/lineup.py:368-375 | the insert loop appends exactly the slot rows |
| Lineup.SessionPlaysExist | src/alma_tv/scheduler/lineup.py:368-375 | slot rows for library videos keep every play pointing at an existing video |
| Lineup.DrawLineup | src/alma_tv/scheduler/lineup.py:93-140 | every episode drawn is a library video; with non-negative durations and `max_episodes >= 1`, nothing is drawn only when every drawable episode (enabled, in the pool, positive weight) is longer than `available + 60` |
| Lineup.NothingFits | src/alma_tv/scheduler/lineup.py:113-140 | an empty selection after the fill phase means no drawable episode fits in `available + 60` |
| Lineup.GenerateLineup | src/alma_tv/scheduler/lineup.py:44-153 | an existing session of the day is returned and nothing is written; no result means nothing is written, and for a new day (non-negative durations, `max_episodes >= 1`) that no drawable episode fits the available time; otherwise one new PLANNED session for the day with at least one play row; videos and feedback unchanged and every play still names an existing video |
| Library.Enabled | src/alma_tv/library/service.py:39 | exactly the enabled videos |
| Library.Groups | src/alma_tv/library/service.py:33-42 | one row per distinct series with its count and duration sum |
| Library.GroupsPartition | src/alma_tv/library/service.py:33-51 | the group counts add up to the rows and the totals to the durations |
| Library.ListSeries | src/alma_tv/library/service.py:25-51 | one row per series of enabled videos, with that series' count and total |
| Library.ListSeriesPartition | src/alma_tv/library/service.py:25-51 | every enabled video is counted exactly once |
| Library.ListSeriesCovers | src/alma_tv/library/service.py:25-51 | every series with an enabled video has a row |
| Library.EpisodeOrderIsTotalPreorder | src/alma_tv/library/service.py:82 | `ORDER BY series, season, episode_code` is a total preorder |
| Library.FilterEpisodes | src/alma_tv/library/service.py:70-80 | exactly the videos passing the disabled, series and season filters |
| Library.ListEpisodes | src/alma_tv/library/service.py:53-85 | exactly the matching videos, sorted by (series, season, episode code) |
| Library.GetVideoById | src/alma_tv/library/service.py:87-101 | a video with that id, or none when no video has it |
| Library.GetVideoByPath | src/alma_tv/library/service.py:103-117 | the first video with that path, or none when no video has it |
| Library.RandomEpisode | src/alma_tv/library/service.py:119-184 | none exactly when no video passes every filter; otherwise a video passing all of them |
| Library.RandomEpisodes | src/alma_tv/library/service.py:186-238 | at most `count` playable videos with distinct ids; with diversity, no two of one season; fewer than `count` only when every playable video is excluded: already picked or, with diversity, of a picked season |
| Library.SameSeasonIds | src/alma_tv/library/service.py:229-236 | every video of the season is excluded |
| Library.ExcludedMeaning | src/alma_tv/library/service.py:212-236 | with distinct ids a video is excluded exactly when it was picked or, with diversity, shares a picked season |
| Library.InsertSeason | src/alma_tv/library/service.py:262-269 | inserting keeps the season list strictly increasing with the right members |
| Library.SortedSeasons | src/alma_tv/library/service.py:262-269 | the distinct seasons, ascending |
| Library.SeriesEpisodes | src/alma_tv/library/service.py:252-257 | exactly the enabled episodes of the series |
| Library.GetSeriesStats | src/alma_tv/library/service.py:240-272 | none exactly when the series has no enabled episode; otherwise the count, the distinct sorted seasons, the floor average and the total |
| Library.SeriesStatsAverageBounds | src/alma_tv/library/service.py:270 | the average lies between the shortest and the longest episode |
| Library.SumDurationsBounds | src/alma_tv/library/service.py:270-271 | n times the shortest <= total <= n times the longest |
| Library.WithDisabled | src/alma_tv/library/service.py:310-312 | only the flag of rows with that id changes |
| Library.WithDisabledKeepsKeys | src/alma_tv/library/service.py:310-312 | paths and ids are untouched |
| Library.SetDisabled | src/alma_tv/library/service.py:298-340 | the flag is set on that video only; found exactly when the id exists |
| Library.DisableVideo | src/alma_tv/library/service.py:298-318 | disables that video only; False when the id is unknown |
| Library.EnableVideo | src/alma_tv/library/service.py:320-340 | enables that video only; False when the id is unknown |
| Library.DisableEnableRoundTrip | src/alma_tv/library/service.py:298-340 | a disabled video leaves the enabled queries, and enabling restores the table |
| Scanner.NameStart | src/alma_tv/library/scanner.py:57 | the final path component holds no '/' |
| Scanner.LastDot | src/alma_tv/library/scanner.py:57 | the last '.' of a name, or none |
| Scanner.DigitRun | src/alma_tv/library/scanner.py:30 | `\d+` takes the maximal digit run |
| Scanner.LineRun | src/alma_tv/library/scanner.py:30 | `.+` takes the maximal run without a line break |
| Scanner.FirstMatch | src/alma_tv/library/scanner.py:30 | the lazy series group ends at the first position where the rest matches |
| Scanner.ParseStem | src/alma_tv/library/scanner.py:58-70 | a stem parses exactly when `_S<digits>E<digits>` (either case) follows a non-empty series without a line break, and the code is `S` and `E` with the numbers |
| Scanner.ParseFilename | src/alma_tv/library/scanner.py:57-70 | a file name parses exactly when its stem does |
| Scanner.ParseStemNone | src/alma_tv/library/scanner.py:58-62 | a stem yields nothing exactly when no `_S<digits>E<digits>` follows a non-empty series |
| Scanner.NoUnderscoreNoMatch | src/alma_tv/library/scanner.py:58-62 | a stem without an underscore never matches |
| Scanner.ParseStemRoundTrip | src/alma_tv/library/scanner.py:29-70 | formatting a name by the grammar (either case of S and E, underscores allowed in the series) and parsing it gives the cleaned series, the season, the upper-case zero-padded code and the title, provided no earlier `_S<digits>E<digits>` occurs inside the series |
| Scanner.ParseStemRoundTripPlain | src/alma_tv/library/scanner.py:29-70 | the round trip for a series without underscores |
| Scanner.ScanFile | src/alma_tv/library/scanner.py:126-166 | metadata exactly for a supported existing file whose name parses and whose duration is known, carrying the parsed name, absolute path, duration and hash |
| Scanner.IndexOfPath | src/alma_tv/library/scanner.py:181 | the first row with that path, or none |
| Scanner.Upsert | src/alma_tv/library/scanner.py:178-199 | the table grows by at most one row; no change is reported exactly when the first row with the path already has the hash, and then the table is unchanged |
| Scanner.UpsertKeyedByPath | src/alma_tv/library/scanner.py:178-199 | paths stay unique, a row with the path carries the new hash, and rows with other paths are unchanged |
| Scanner.UpsertCases | src/alma_tv/library/scanner.py:183-199 | a new path is appended as a new video and reported as a change; an existing row with the same hash is reported as no change; an existing row with another hash is overwritten in place with the metadata, keeping id and `added_at`, `disabled` cleared; no change always means the table is unchanged |
| Scanner.UpsertIdempotent | src/alma_tv/library/scanner.py:183-199 | upserting the same metadata twice: the second call changes nothing and reports False |
| Scanner.UpsertVideo | src/alma_tv/library/scanner.py:168-203 | the table and the change flag are those of the upsert, the id counter advances only for a new row, and the other tables are unchanged |
| Scanner.Tally | src/alma_tv/library/scanner.py:218-229 | failures never exceed scanned files, and `updated` stays 0 |
| Scanner.ScanEntry | src/alma_tv/library/scanner.py:221-229 | the table and the added flag are those of scanning and upserting the file when it is considered and scans, and the table is unchanged otherwise; other tables unchanged |
| Scanner.ScanDirectory | src/alma_tv/library/scanner.py:205-236 | `scanned` counts supported files, `failed` the scans that give nothing, `updated == 0`; the table and `added` are those of upserting every scanned file in order, `added` counting the upserts that changed a row; other tables unchanged |
| Scanner.ScanAllKeyed | src/alma_tv/library/scanner.py:205-236 | after a scan paths are still unique, every earlier path is kept, and every file that scanned has a row at its absolute path |
| Scanner.UpsertKeepsPaths | src/alma_tv/library/scanner.py:221-229 | one scanned file keeps paths unique and earlier paths present, and adds its own |
| Scanner.OnFileEvent | src/alma_tv/library/scanner.py:272-290 | directories and unsupported or unparseable files leave the table alone; otherwise the metadata is upserted |
| FeedbackApi.FeedbackIndex | src/alma_tv/feedback/api.py:55-57 | the first feedback row of the play, or none |
| FeedbackApi.Rated | src/alma_tv/feedback/api.py:59-71 | rating adds a row (and advances the id) exactly when the play had none, and otherwise keeps the table size |
| FeedbackApi.RatedContents | src/alma_tv/feedback/api.py:59-71 | after rating, the play's first row has the new rating and time, and rows of other plays are kept |
| FeedbackApi.RatedTwice | src/alma_tv/feedback/api.py:59-71 | rating twice equals rating once with the later rating: one row per play |
| FeedbackApi.SubmitFeedback | src/alma_tv/feedback/api.py:21-80 | True exactly for a valid rating of an existing play, which is stored; otherwise nothing changes |
| FeedbackApi.PlaysOfSession | src/alma_tv/feedback/api.py:100-104 | exactly the plays of the session |
| FeedbackApi.SlotResultsContents | src/alma_tv/feedback/api.py:106-112 | one result per rated slot of the session, true exactly for a valid rating |
| FeedbackApi.SubmitSlot | src/alma_tv/feedback/api.py:107-110 | one slot's rating is submitted as `submit_feedback` would |
| FeedbackApi.SubmitSessionFeedback | src/alma_tv/feedback/api.py:82-112 | the results and the feedback table are those of rating the session's plays in order; videos, sessions and plays unchanged |
| FeedbackApi.RateSessionStored | src/alma_tv/feedback/api.py:82-112 | with distinct play ids every valid slot rating ends up stored |
| FeedbackApi.RatedKeeps | src/alma_tv/feedback/api.py:59-71 | rating one play keeps every row of other plays |
| FeedbackApi.GetEpisodeFeedback | src/alma_tv/feedback/api.py:114-139 | one entry per feedback row of the video's plays, carrying that row's rating, time and play |
| FeedbackApi.EpisodeFeedbackOfVideo | src/alma_tv/feedback/api.py:114-139 | every entry rates a play of that video |
| FeedbackApi.SlotMapKeys | src/alma_tv/feedback/api.py:158-173 | one key per slot order of the session |
| FeedbackApi.SlotMapEntries | src/alma_tv/feedback/api.py:158-173 | each key holds the video of a play of that slot, with `has_feedback` true exactly when a row exists |
| FeedbackApi.GetSessionFeedback | src/alma_tv/feedback/api.py:141-173 | the loop builds the slot map of the session's plays |
| FeedbackApi.UnratedMembers | src/alma_tv/feedback/api.py:196-200 | the unrated plays are exactly those without a feedback row |
| FeedbackApi.AppendOkayContents | src/alma_tv/feedback/api.py:200-207 | the table is kept as a prefix, followed by one OKAY row per unrated play |
| FeedbackApi.MarkSlot | src/alma_tv/feedback/api.py:194-207 | one play gets an OKAY row exactly when it has none |
| FeedbackApi.MarkAsOkayTimeout | src/alma_tv/feedback/api.py:175-210 | the count is the number of rows added, and the table is the play-by-play timeout |
| FeedbackApi.MarkSessionIs | src/alma_tv/feedback/api.py:185-210 | with distinct ids the timeout appends one OKAY row per unrated play |
| FeedbackApi.MarkAsOkayTimeoutCovers | src/alma_tv/feedback/api.py:185-210 | afterwards every play has feedback; the count is zero exactly when all had feedback, so a second call adds nothing |
| Reporting.JoinRowsMembers | src/alma_tv/feedback/reporting.py:170-174 | the join holds exactly the rows meeting the join condition |
| Reporting.Recent | src/alma_tv/feedback/reporting.py:38-42 | exactly the feedback submitted at or after the cutoff |
| Reporting.CountRatingsSum | src/alma_tv/feedback/reporting.py:44-47 | liked + okay + never == total |
| Reporting.PercentagesSum | src/alma_tv/feedback/reporting.py:55-57 | the three percentages of a positive total add up to 100 |
| Reporting.PercentageBounds | src/alma_tv/feedback/reporting.py:55-57 | a percentage of a part lies in 0..100 |
| Reporting.GetRecentSummary | src/alma_tv/feedback/reporting.py:25-58 | each count is the number of recent rows of that rating, the counts split the total; each percentage is its count over the total times 100, and all are 0 for no feedback |
| Reporting.CountVideoRatingPositive | src/alma_tv/feedback/reporting.py:67-75 | a video's count is positive exactly when it has a joined row of that rating |
| Reporting.EpisodeCountsMembers | src/alma_tv/feedback/reporting.py:68-75 | the groups are exactly the videos with a positive count, each with its count |
| Reporting.EpisodeCountsDistinct | src/alma_tv/feedback/reporting.py:73 | one entry per video |
| Reporting.NeverAgainProperties | src/alma_tv/feedback/reporting.py:60-87 | every entry has a positive NEVER count, and a video has an entry exactly when it was rated NEVER |
| Reporting.GetNeverAgainEpisodes | src/alma_tv/feedback/reporting.py:60-87 | at most one entry per library video |
| Reporting.MoreFirstIsTotalPreorder | src/alma_tv/feedback/reporting.py:106 | "count descending" is a total preorder |
| Reporting.TopLikedProperties | src/alma_tv/feedback/reporting.py:89-121 | exactly min(`limit`, liked videos) entries (all for a negative limit), most liked first, each a liked video with its like count, none left out that beats an entry |
| Reporting.GetTopLikedEpisodes | src/alma_tv/feedback/reporting.py:89-121 | at most one entry per library video and at most `limit` |
| Reporting.CountSeriesSplits | src/alma_tv/feedback/reporting.py:152-154 | a series' three rating counts add up to its rows |
| Reporting.SeriesRatingPairs | src/alma_tv/feedback/reporting.py:139 | exactly the (series, rating) pairs present |
| Reporting.SeriesGroups | src/alma_tv/feedback/reporting.py:131-141 | one group per pair present, with its count |
| Reporting.SetCount | src/alma_tv/feedback/reporting.py:149 | sets one rating's count and keeps the others |
| Reporting.TallyLookup | src/alma_tv/feedback/reporting.py:145-149 | a series is tallied exactly when a group names it, with the last count of each rating |
| Reporting.TallyKeys | src/alma_tv/feedback/reporting.py:143-149 | a series is tallied exactly when a joined row belongs to it |
| Reporting.TallyCount | src/alma_tv/feedback/reporting.py:143-149 | a tallied count is the number of joined rows of that series and rating |
| Reporting.TallyOfGroups | src/alma_tv/feedback/reporting.py:131-149 | tallying the grouped query gives each present series its own counts |
| Reporting.TallyGroups | src/alma_tv/feedback/reporting.py:143-149 | the first loop builds the tally |
| Reporting.AddTotals | src/alma_tv/feedback/reporting.py:151-155 | the second loop adds the total and liked percentage to every series |
| Reporting.GetSeriesFeedbackSummary | src/alma_tv/feedback/reporting.py:123-157 | exactly the series with feedback, each with its counts, total and liked percentage |
| Reporting.SeriesStatsProperties | src/alma_tv/feedback/reporting.py:152-155 | total = liked + okay + never > 0, and the liked percentage lies in 0..100 |
| Reporting.ExportRowsMembers | src/alma_tv/feedback/reporting.py:169-180 | the export holds the joined rows, restricted to the period when `days` is set and non-zero |
| Reporting.JoinRowsOnePerFeedback | src/alma_tv/feedback/reporting.py:170-180 | with distinct ids the join has exactly one row per joinable feedback, in table order |
| Reporting.ExportToCsv | src/alma_tv/feedback/reporting.py:159-210 | the header first, then exactly one record per exported row, in order |
| Reporting.ExportToJson | src/alma_tv/feedback/reporting.py:212-248 | one object per exported row, in order |
| Reporting.CsvReadsBack | src/alma_tv/feedback/reporting.py:198-208 | the id, rating, season and video id fields parse back to the row's values |
| Reporter.GetRecentSummary | src/alma_tv/feedback/reporter.py:21-74 | for no recent feedback every figure is 0; otherwise each count is the number of recent rows of that rating and each percentage is its count over the total times 100 |
| Reporter.SummariesAgree | src/alma_tv/feedback/reporter.py:21-74 | the two report services give the same recent summary |
| Reporter.Briefs | src/alma_tv/feedback/reporter.py:91-99 | one short record per grouped entry |
| Reporter.TopLikedProperties | src/alma_tv/feedback/reporter.py:76-99 | exactly min(`limit`, liked videos) entries (all for a negative limit), most liked first, each the short record of a liked video with its like count |
| Reporter.TopLikedComplete | src/alma_tv/feedback/reporter.py:76-99 | no liked video left out has more likes than one listed |
| Reporter.GetTopLikedEpisodes | src/alma_tv/feedback/reporter.py:76-99 | at most one entry per library video and at most `limit` |
| Reporter.NeverAgainSound | src/alma_tv/feedback/reporter.py:101-122 | every entry has a positive count and belongs to a video rated NEVER |
| Reporter.NeverAgainComplete | src/alma_tv/feedback/reporter.py:101-122 | with distinct video ids, every video rated NEVER has an entry |
| Reporter.GetNeverAgainEpisodes | src/alma_tv/feedback/reporter.py:101-122 | at most one entry per library video |
| Reporter.NewerFirstIsTotalPreorder | src/alma_tv/feedback/reporter.py:139 | "submitted at, descending" is a total preorder |
| Reporter.ExportRowsNewestFirst | src/alma_tv/feedback/reporter.py:132-141 | the export is newest first and is a permutation of the recent joined rows |
| Reporter.ExportToJson | src/alma_tv/feedback/reporter.py:153-178 | one object per exported row, in the export's order |
| Reporter.RecordRatingReadsBack | src/alma_tv/feedback/reporter.py:168-176 | the rating field reads back as the row's rating |
| Reporter.ExportToCsv | src/alma_tv/feedback/reporter.py:124-151 | the header `Date,Series,Episode,Rating`, then the JSON export's records as lines, in the same order |
| Stream.RangeSpecFirstNonNegative | src/alma_tv/web/routes/stream.py:21-22 | a parsed start is never negative |
| Stream.GetRangeHeader | src/alma_tv/web/routes/stream.py:11-27 | the corrected parse: a missing or empty header gives the whole file; the start is never negative; a non-zero start never lies after the end unless the end is the file's last byte |
| Stream.GetRangeHeaderCorrectsOnlyInverted | src/alma_tv/web/routes/stream.py:21-25 | the corrected parse differs from the code only on an inverted `first-last` range |
| Stream.CorrectedRangeOrdered | src/alma_tv/web/routes/stream.py:60-66 | with the corrected parse, a 206 range is ordered and inside the file |
| Stream.ParseBytesHeader | src/alma_tv/web/routes/stream.py:17-19 | a `bytes=` header splits into the unit and the ranges text |
| Stream.ParseFirstLast | src/alma_tv/web/routes/stream.py:21-25 | `bytes=a-b` parses to (a, b) |
| Stream.ParseFirstOnly | src/alma_tv/web/routes/stream.py:21-25 | `bytes=a-` parses to (a, open end) |
| Stream.ParseSuffix | src/alma_tv/web/routes/stream.py:21-27 | a suffix range `bytes=-n` is a parse failure |
| Stream.RangeHeaderForms | src/alma_tv/web/routes/stream.py:11-27 | `bytes=a-b` gives (a, b), `bytes=a-` gives (a, size-1), a suffix range gives the whole file, as written and corrected |
| Stream.InvertedRangeAsWritten | src/alma_tv/web/routes/stream.py:21-25 | as written, an inverted range passes the 416 test with a Content-Length of zero or less |
| Stream.GetRangeHeaderAsWritten | src/alma_tv/web/routes/stream.py:11-27 | as written, a missing or empty header gives the whole file |
| Stream.Read | src/alma_tv/web/routes/stream.py:36 | `f.read(n)` returns a slice of the file at the position, at most n bytes, non-empty before the end |
| Stream.FileChunks | src/alma_tv/web/routes/stream.py:30-40 | non-empty chunks of at most `chunk_size` bytes whose concatenation is bytes start..end clipped to the file |
| Stream.StreamVideo | src/alma_tv/web/routes/stream.py:43-79 | 404 for a missing file; 416 with `bytes */size` past the end (always for an empty file); otherwise 206 whose body is exactly the range and whose Content-Length is its length |
| WebState.AppState.constructor | src/alma_tv/web/state.py:35-48 | idle, no session, an empty playlist, position 0, no countdown |
| WebState.AppState.SetStatus | src/alma_tv/web/state.py:52-56 | only the status and the activity time change, so the position invariant holds afterwards exactly when it held before |
| WebState.AppState.StartSession | src/alma_tv/web/state.py:58-67 | the new session and playlist, position 0, PLAYING; the countdown is kept |
| WebState.AppState.NextVideo | src/alma_tv/web/state.py:69-82 | before the end returns the current entry and advances; at the end returns none and switches to FEEDBACK; 0 <= position <= length holds |
| WebState.AppState.Reset | src/alma_tv/web/state.py:84-89 | no session, an empty playlist, position 0, IDLE; the countdown is kept |
| Orchestrator.StartOffset | src/alma_tv/playback/orchestrator.py:74 | a valid start time lies within the day |
| Orchestrator.ShouldPlayNow | src/alma_tv/playback/orchestrator.py:63-80 | true exactly when the time of day is less than 60 seconds away from the start time, on either side |
| Orchestrator.NoWrapAtMidnight | src/alma_tv/playback/orchestrator.py:77-80 | with a 00:00 start, 30 seconds before midnight is not within the minute: no wrap across midnight |
| Orchestrator.PlayFile | src/alma_tv/playback/orchestrator.py:193-223 | a missing file fails without the player; otherwise the player's outcome |
| Orchestrator.Bumper | src/alma_tv/playback/orchestrator.py:154-157 | the intro or outro is played exactly when its path is set, non-empty and exists |
| Orchestrator.Ordered | src/alma_tv/playback/orchestrator.py:160 | exactly the session's rows |
| Orchestrator.Attempted | src/alma_tv/playback/orchestrator.py:160-170 | exactly the rows whose file exists and so reaches the player |
| Orchestrator.AfterPlay | src/alma_tv/playback/orchestrator.py:168-183 | a row of the session whose episode played gets its times and `completed`; every other row is unchanged |
| Orchestrator.ScheduleOrder | src/alma_tv/playback/orchestrator.py:160-170 | the episodes handed to the player are the session's rows with an existing file, in ascending slot order |
| Orchestrator.AttemptedSorted | src/alma_tv/playback/orchestrator.py:160 | filtering keeps the slot order |
| Orchestrator.StampedIsAfterPlay | src/alma_tv/playback/orchestrator.py:160-183 | once every row of the session was processed the table is the specified one |
| Orchestrator.StampStep | src/alma_tv/playback/orchestrator.py:174-178 | updating by id touches exactly the processed row |
| Orchestrator.PlayEpisode | src/alma_tv/playback/orchestrator.py:161-183 | one slot: the file goes to the player when it exists, and the row is completed only on success |
| Orchestrator.PlaySessionSequence | src/alma_tv/playback/orchestrator.py:143-191 | always True; plays the intro, the session's attempted episodes in slot order and the outro; each row of the session is completed exactly when its episode played, and nothing else changes |
| Orchestrator.SessionOnRestatus | src/alma_tv/playback/orchestrator.py:134-136 | changing a status keeps the day's session, with the new status |
| Orchestrator.SessionOnAppend | src/alma_tv/playback/orchestrator.py:117-123 | a generated session is found as the day's session |
| Orchestrator.PlaySession | src/alma_tv/playback/orchestrator.py:94-141 | an existing session always plays; failure to generate returns False and changes nothing, and happens only when no drawable episode fits the available time; a non-dry run ends with the session COMPLETED; a dry run plays nothing |
| Orchestrator.PlaySessionAsWritten | src/alma_tv/playback/orchestrator.py:107-127 | as written, every path that holds a session (found or generated) raises on the detached row before playing; only a failed generation returns, with False |
| Orchestrator.PlaysOfSessionExist | src/alma_tv/playback/orchestrator.py:160-161 | the rows of one session point at existing videos |
| Common.SplitOnJoin | src/alma_tv/config/settings.py:117 | joining the pieces of `str.split` with the separator gives the input back |
| Common.SplitOnCount | src/alma_tv/config/settings.py:117-118 | `split` gives one more piece than there are separators |
| Common.ParseIntOfNatToString | src/alma_tv/config/settings.py:122 | `int(str(n)) == n` |
| Common.ParseIntOfIntToString | src/alma_tv/scheduler/parser.py:77 | `int(str(i)) == i`, negative values included |
| Common.WordsOfJoin | src/alma_tv/scheduler/parser.py:72-78 | `" ".join(words).split()` gives back whitespace-free words |
| Common.LowerIdempotent | src/alma_tv/scheduler/parser.py:48 | lowering twice equals lowering once |
| Common.StripIsSlice | src/alma_tv/scheduler/parser.py:64 | `strip()` returns a contiguous slice of its input |
| Sorting.SortSorted | src/alma_tv/scheduler/weights.py:196 | the sort used for `sort(key=..., reverse=True)` and `ORDER BY` is sorted and a permutation |
| Sorting.InsertTied | src/alma_tv/scheduler/weights.py:196 | inserting puts the element before those level with it and keeps every tie class in order |
| Sorting.SortStable | src/alma_tv/feedback/reporter.py:139 | the sort is stable: elements level under the key keep their input order |
| Sorting.Take | src/alma_tv/scheduler/weights.py:198 | `xs[:n]` is a prefix of length n, or the whole list, and counts from the end for negative n |
| Sorting.Limit | src/alma_tv/feedback/reporting.py:107 | `LIMIT n` is a prefix of length min(n, size), and no bound for a negative n |

## Left out

- Database plumbing: sessions, commits and rollbacks are left out. Each `get_db()` block is modelled as one atomic update of the in-memory tables. An exception inside an update, which the source catches and turns into `False`, is not modelled. Rows used after their block has closed are treated as detached, as the Findings row on `play_session` describes; the rest of the model uses them as plain values.
- Row order: query results without `ORDER BY` come back in table (primary-key) order.
- Floating point: weights and percentages are exact reals. `0.5 ** (d / 7)` is the `decay` parameter, assumed positive and at most 1 for non-negative ages.
- `statistics.stdev` in `get_weight_distribution` is not modelled; only min, max and mean are.
- `update_weight_for_feedback` only logs, so it is not modelled. The call from `submit_feedback` changes nothing.
- Randomness: `random.choices`, `random.choice` and seeding are a nondeterministic choice among the elements of positive weight. Draw probabilities and determinism under a seed are not modelled.
- Lineup.DrawLineup: the contract states that every drawn episode is a library video and when nothing is drawn. The pool, weighting and selection are stated by the contracts of the members it calls.
- Lineup.GenerateLineup: a freshly generated session is stated as one new PLANNED session for the day with at least one slot. The slot rows themselves are stated by `CreateSession`.
- Lineup.FillSlots, Lineup.SelectEpisodes, Lineup.DrawLineup, Lineup.GenerateLineup and Orchestrator.PlaySession: the guarantee that the fill loop passed over every remaining episode is stated only for non-negative durations. With a negative duration a later pick can lower the total, so a dropped episode might fit after all.
- The legacy strict-filter branch of `_build_candidate_pool` is not modelled. `generate_lineup` always passes the normalised request list, so the branch is unreachable from it.
- A NEVER-rated episode keeps weight 0 even when its series is requested, because 0 × 3 = 0. The model follows the code; the design description says a request overrides the exclusion.
- `_log_kpis` and all logging are not modelled.
- Weights.CalculateWeight requires `LastPlayDefined`. Suppose a video has completed plays but none of them has a start time. The query then returns a row with a missing `started_at`, because SQLite sorts NULL last in descending order, and the subtraction raises. That exception path is excluded rather than modelled. The same precondition is carried by `Weights.CalculateWeightsBatch`, `Lineup.DrawLineup`, `Lineup.GenerateLineup` and `Orchestrator.PlaySession`, which reach it.
- `_get_file_duration`: the intro and outro durations are parameters, 0 when the file is missing.
- Parser: `settings.keyword_map` is a parameter. The settings class defines no such field, so the source expects the caller to provide it.
- Parser: `difflib.get_close_matches` is the `fuzzy` parameter, returning none or one candidate.
- Scanner: `get_duration` (ffprobe with retries) and `compute_file_hash` (SHA-256) are data of each `FileEntry`. So are `rglob`, `Path.absolute()` and file existence.
- Scanner: `_emit_change_log`, the watchdog `Observer` and `watch_directory` are not modelled.
- Library: `get_recently_played`, `clear_cache` and the `lru_cache` on `get_series_stats` are not modelled.
- Settings: reading the environment and `.env`, `expand_path`, `ensure_directories` and the cached `get_settings` are not modelled. The model validates a record of raw values.
- Reporting.ExportToCsv and Reporter.ExportToCsv: the result is the table of fields. CSV quoting and line endings are not modelled, and neither is the `json.dumps` text of the JSON exports.
- Common.LowerChar: `str.lower()` is modelled for the ASCII capitals and the Latin-1 capitals U+00C0 to U+00DE (except U+00D7). Other Unicode case pairs, such as the Latin Extended-A letters, and multi-character lowerings are left unchanged. A series or request using them is compared case-sensitively.
- Common.IsDigit: only the ASCII digits count. Python's `\d` in the episode pattern (src/alma_tv/library/scanner.py:30) and `str.isdigit()` in the count parser (src/alma_tv/scheduler/parser.py:76) also accept other Unicode decimal digits, which the model rejects.
- Common.ParseInt: `int()` is modelled over ASCII digits only. Python also accepts other Unicode decimal digits, which the model treats as a parse failure.
- `isoformat()` of timestamps is the `isoformat` parameter.
- Stream.FileChunks: the contract on the concatenated bytes and on the chunk size covers only a positive chunk size. `stream_video` always uses 8192.
- Stream.StreamVideo: the response uses the corrected range parse (see Findings). The as-written parse is `Stream.GetRangeHeaderAsWritten`.
- Stream: the file is a byte sequence. `Path.exists`, `stat` and `open` are not modelled.
- WebState: the `AppState` singleton with its lock is not modelled, and neither is `datetime.now()`, which is the `now` parameter.
- Orchestrator.ShouldPlayNow: `now` is local wall-clock time in whole seconds, so sub-second differences are not modelled.
- Orchestrator: the player's outcome depends only on the file path (the `Environment`), and start and end times are functions of the play id. Real timing, `perf_counter` gaps and player exceptions are not modelled.
- Orchestrator.PlaySession: a dry run is modelled as returning True and playing nothing. The log lines of `_dry_run_session` are not modelled.
- Orchestrator.PlaySession: for a freshly generated session the contract states the outcome and the final status, not the play rows.
- `play_today_session` is `PlaySession` with today's day number as `targetDay`.
- `stop()` and the `run_daemon` loop are not modelled.

## Findings

| source | as written | input that shows it | evidently intended | confidence | as-written member | corrected member |
|---|---|---|---|---|---|---|
| src/alma_tv/playback/orchestrator.py:107-127 | `play_session` loads the session inside `with get_db()` and uses it after the block. Leaving the block commits, which expires the instance (`sessionmaker` keeps `expire_on_commit=True`, src/alma_tv/database/session.py:29), and closes, which detaches it (src/alma_tv/database/session.py:47-54) | any day with a session, found or generated: the first read of `session.intro_path`, in the dry run or in `_play_session_sequence`, raises `DetachedInstanceError`, and nothing is played | the session is played and marked COMPLETED | not executed; high | Orchestrator.PlaySessionAsWritten | Orchestrator.PlaySession |
| src/alma_tv/web/routes/stream.py:21-25 | `get_range_header` returns an inverted `first-last` range unchanged. `stream_video` only tests each end against the size, so it answers 206 | `Range: bytes=10-5` on a 100-byte file gives 206 with `Content-Range: bytes 10-5/100`, `Content-Length: -4` and an empty body | an invalid byte-range-spec (last before first, section 2.1 of RFC 7233) is ignored, and the whole file is served | not executed; high | Stream.InvertedRangeAsWritten | Stream.CorrectedRangeOrdered |
