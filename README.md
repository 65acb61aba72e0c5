# RSS ingestion, deduplication and scheduling engine of `bucket`

This project models the core of `bucket`, a personal reading pipeline. The
model covers:

- how its RSS manager pulls feed entries into an article store;
- how it detects duplicates, both on ingestion and in a later clean-up sweep;
- how it assembles the briefing of recent articles;
- how its interval scheduler decides which named schedules are due, runs them
  and notifies their callbacks;
- the pure helpers of the Hugo read-later report (slug, truncation, content
  cleaning, the front-matter tag set, grouping, the per-feed cap);
- the feed-list builder that flattens a nested catalogue of feed URLs into
  numbered records.

The modules follow the program's structure:

| file | module | models |
|---|---|---|
| models.dfy | `Models` | the article and feed records of bucket/models.py, `Option`, Python truthiness |
| text.dfy | `Text` | `str.split`, `' '.join`, `lower`, `title`, `strip` and substring search on `seq<char>` |
| seqs.dfy | `Seqs` | list comprehensions, insertion-ordered grouping, `s[:n]`, a stable `sort(reverse=True)` |
| dicts.dfy | `Dicts` | Python's insertion-ordered `dict` (keys in order beside a map) |
| store.dfy | `Store` | the `Database` queries the core uses, and a `Database` class whose methods update its rows in place |
| dedup.dfy | `Dedup` | `_titles_similar`, `_get_content_hash`, `_is_duplicate_article` |
| ingest.dfy | `Ingest` | `fetch_feed_articles` and `fetch_all_feeds` as functions of the store |
| briefing.dfy | `Briefing` | `generate_rss_briefing` as a function of the store |
| cleanup.dfy | `Cleanup` | `cleanup_duplicates`: the newest-first scan, the counts and the removals |
| rss_manager.dfy | `Manager` | the `RSSManager` class; each method is proved equal to the function above that specifies it |
| scheduler.dfy | `Scheduler` | `ScheduleConfig` and the `RSSScheduler` class: the table, the tick, execution, callbacks, status |
| hugo.dfy | `Hugo` | the helpers of `HugoContentGenerator` and `process_feeds_for_read_later` |
| update_feeds.dfy | `FeedList` | `flatten_feeds` and the feed list and tag count of `main` |

Conventions:

- Time is whole seconds. The clock is a `now` parameter, never read.
- MD5 is a parameter `md5: string -> HexDigest`, a 32-character string, so a
  digest is never empty. Only its inputs are modelled: the UTF-8 encoding of
  the first 1000 characters.
- The fetcher is a parameter that returns the entries of a feed, or `None`
  when the fetch raised.
- A store operation that raises is named explicitly, by the position of the
  entry it raises on (`StoreFaults`). Each fault leads to the `except` branch
  the source takes.
- The Jaccard test `|A ∩ B| / |A ∪ B| >= 0.8` is the integer comparison
  `5·|A ∩ B| >= 4·|A ∪ B|`.
- In the scheduler, callbacks and the HTTP endpoint are parameters. Each only
  says whether it raised, or which status it answered.

Two behaviours are modelled exactly as written:

- The briefing sort (`reverse=True` on the rank urgent 0 … low 3) puts
  **low** priority first (`Briefing.UrgentLast`).
- A similar title counts as a duplicate only when **both** published dates
  exist (`Dedup.UndatedCandidateIgnoresTitles`).

## Model

| member | source | states |
|---|---|---|
| Text.NormalizeIdempotent | bucket/rss_manager.py:306-307 | normalising a title (lower-case, split on whitespace, join with single spaces) twice gives the same as once |
| Text.WordsOfJoin | bucket/hugo_integration.py:103 | splitting a single-space join of words gives back exactly those words |
| Text.Strip | bucket/hugo_integration.py:95 | the stripped text is a slice `s[i..j]` with only whitespace before `i` and after `j`, and it is empty or starts and ends with a non-whitespace character |
| Dedup.TitlesSimilarIff | bucket/rss_manager.py:300-329 | two titles are similar iff both are non-empty and, after normalising, one contains the other or both word sets are non-empty with 5·\|A∩B\| ≥ 4·\|A∪B\| |
| Dedup.TitlesSimilarSymmetric | bucket/rss_manager.py:300-329 | the similarity decision does not depend on the order of the two titles |
| Dedup.TitlesSimilarReflexive | bucket/rss_manager.py:302-311 | a title is similar to itself exactly when it is non-empty |
| Dedup.SameWordsSimilar | bucket/rss_manager.py:317-329 | non-empty titles with the same non-empty set of distinct words, in any order and case, are similar |
| Dedup.NormalizedKeyInvariant | bucket/rss_manager.py:400-402 | passing cleanup's pre-normalised `title_key` instead of the title gives the same decision, provided it normalises to a non-empty string |
| Dedup.WhitespaceTitleQuirk | bucket/rss_manager.py:302-315 | a whitespace-only title is similar to every non-empty title, since "" is a substring of everything, but its normalised key "" is similar to none |
| Dedup.ContentHash | bucket/rss_manager.py:331-342 | a content hash exists exactly when the content is present and non-empty |
| Dedup.ContentHashPrefix | bucket/rss_manager.py:338-340 | contents that agree on their first 1000 characters have the same hash |
| Dedup.DatesCloseNeedsBoth | bucket/rss_manager.py:278-279 | dates are never close when either published date is missing |
| Dedup.DuplicateMonotone | bucket/rss_manager.py:262-298 | adding rows to the store never turns a duplicate into a non-duplicate |
| Dedup.StoredUrlIsDuplicate | bucket/rss_manager.py:265-268 | a stored row with the candidate's exact URL makes it a duplicate, whatever its title, dates and content |
| Dedup.UndatedCandidateIgnoresTitles | bucket/rss_manager.py:270-291 | without a published date on the candidate, it is a duplicate iff its URL is stored or some row of its source has the same content hash |
| Manager.RSSManager.IsDuplicateArticle | bucket/rss_manager.py:262-298 | the answer is the three-tier test (URL, then similar title with both dates less than 86400 s apart, then content hash), and true when a store read raises; the method modifies nothing |
| Manager.TitleTier | bucket/rss_manager.py:271-280 | the loop over the source's rows finds a row with a similar title and close dates exactly when one exists |
| Manager.HashTier | bucket/rss_manager.py:283-291 | the loop over the source's rows finds a row whose content hashes like the candidate's exactly when one exists |
| Store.ArticlesBySourceMembers | bucket/database.py:359-370 | `get_articles_by_source` returns exactly the stored rows of that source, newest first |
| Store.ArticlesSinceSpec | bucket/database.py:341-352 | `get_articles_since` returns at most `limit` stored rows created at or after the cutoff, newest first: all of them when there are no more than `limit`, otherwise exactly `limit`, a sub-multiset of the qualifying rows with no row left out newer than a row returned |
| Store.FeedIndex | bucket/database.py:415-428 | `get_feed` finds a row with that id, or none exists |
| Store.ActiveFeeds | bucket/database.py:292-307 | `get_feeds()` (by default only active feeds) returns exactly the stored active feeds |
| Store.UpdateFeedAt | bucket/database.py:430-455 | `update_feed` changes the row with the id and leaves every other row alone |
| Store.FindFeedByShape | bucket/database.py:415-428 | two feed lists with the same ids and active flags give the same lookup answer |
| Store.Database.SaveArticle | bucket/database.py:207-219 | the article is appended with the next fresh id, which is returned |
| Store.Database.UpdateFeed | bucket/database.py:430-455 | the feeds become `UpdateFeedAt` of the old feeds; the result is the updated row, or `None` when no row has the id |
| Store.Database.DeleteArticle | bucket/rss_manager.py:466-474 | finds a row iff one has the id, and afterwards no row has it, the others kept in order |
| Store.WithoutIdKeepsValid | bucket/rss_manager.py:470-472 | deleting rows keeps the stored ids present and strictly increasing |
| Ingest.IngestedStamped | bucket/rss_manager.py:91-99 | every survivor is a stamped copy of an entry (source is the feed's name, a copy of the feed's tags, FETCHED, MEDIUM) with consecutive fresh ids |
| Ingest.IngestedInOrder | bucket/rss_manager.py:84-99 | survivors come in fetch order |
| Ingest.IngestedFresh | bucket/rss_manager.py:85-103 | no survivor's URL was stored before, and the survivors' URLs are pairwise distinct, because each is saved before the next entry is checked |
| Ingest.IngestedCoversEntries | bucket/rss_manager.py:85-99 | after a fault-free run, every entry is a duplicate of the store |
| Ingest.IngestTwiceSavesNothing | bucket/rss_manager.py:84-99 | fetching the same entries again right after a fault-free run saves nothing |
| Ingest.FetchFeedReturns | bucket/rss_manager.py:77-108 | the list returned holds at most `max_articles` entries, in fetch order, with fresh and distinct URLs, each stamped and stored |
| Ingest.FetchFailureChangesNothing | bucket/rss_manager.py:110-112 | a failing fetch returns `[]` and leaves the store, `last_fetched` included, as it was |
| Ingest.FetchFeedKeepsShape | bucket/rss_manager.py:105-106 | a fetch changes no feed's id or active flag |
| Ingest.FetchAllPairs | bucket/rss_manager.py:114-134 | one (name, articles) pair per active feed, in feed order, each list within the per-feed cap |
| Ingest.FetchAllKeepsShape | bucket/rss_manager.py:114-134 | fetching all feeds changes no feed's id or active flag |
| Ingest.DictOf | bucket/rss_manager.py:125-132 | the result dict has exactly the names of the pairs as keys |
| Ingest.FetchAllResults | bucket/rss_manager.py:114-134 | the `results` dict is keyed by exactly the names of the fetched feeds, and each list is within the per-feed cap |
| Ingest.DictOfValues | bucket/rss_manager.py:125-132 | each name maps to the list of the last pair carrying it, so every value is the list of some pair of that name |
| Manager.RSSManager.SaveUnlessDuplicate | bucket/rss_manager.py:85-103 | one entry is skipped (as a duplicate or on a failed save) or stamped and stored with the next id, as `Survivor` says |
| Manager.RSSManager.SaveEntries | bucket/rss_manager.py:83-103 | the loop stores exactly the survivors `Ingested` gives and returns them |
| Manager.RSSManager.FetchFeedArticles | bucket/rss_manager.py:77-112 | the new store and the returned list are those of `FetchFeed`, whose properties are the `Ingest` lemmas above |
| Manager.RSSManager.FetchAllFeeds | bucket/rss_manager.py:114-134 | every active feed is fetched in turn; the store and the result dict are those of `FetchAll` |
| Manager.ToggleSpec | bucket/rss_manager.py:68-75 | `None` iff no feed has the id; otherwise the feed gets the given flag, or the flipped one when none is given, and keeps every other field; no other feed changes |
| Manager.ToggleTwiceRestores | bucket/rss_manager.py:74 | flipping a feed twice restores the feed list |
| Manager.SetActiveIdempotent | bucket/rss_manager.py:74 | setting the flag explicitly twice is setting it once |
| Manager.RSSManager.ToggleFeed | bucket/rss_manager.py:68-75 | the new feeds and the result are those of `ToggleOf` |
| Manager.RefreshSpec | bucket/rss_manager.py:228-246 | "Feed not found" iff the id is missing; "Feed is not active" iff the feed is inactive; on either error nothing changes; otherwise `new_articles` counts the returned articles, at most `max_articles`, each stored under the feed's name |
| Manager.RSSManager.RefreshFeed | bucket/rss_manager.py:228-246 | the new store and the result are those of `RefreshOf` |
| Manager.SearchSpec | bucket/rss_manager.py:248-260 | the matching feeds are exactly the active feeds whose name, non-empty description or a tag contains the lowered query, in feed order |
| Manager.EmptyQueryMatchesAll | bucket/rss_manager.py:251-257 | the empty query matches every active feed |
| Manager.SearchIgnoresQueryCase | bucket/rss_manager.py:251 | the query's case does not matter |
| Manager.MatchesQuery | bucket/rss_manager.py:255-257 | the loop over a feed's tags answers the match test |
| Manager.RSSManager.SearchFeeds | bucket/rss_manager.py:248-260 | returns `SearchOf` of the stored feeds |
| Briefing.BriefingArticles | bucket/rss_manager.py:142-164 | every listed article is stored, has a source and was created within `days_back` days; with grouping, it sits under its own source and each list is capped per feed; no list exceeds `max_total_articles` |
| Briefing.FeedGroupSpec | bucket/rss_manager.py:152-173 | a feed's list is a permutation of its first `max_articles_per_feed` articles, sorted when asked, with ties in query order |
| Briefing.ArrangePermutes | bucket/rss_manager.py:166-173 | the optional sort only reorders, and when on leaves keys non-increasing |
| Briefing.UrgentLast | bucket/rss_manager.py:168-173 | after the `reverse=True` sort, low-priority articles lead each list and urgent ones trail it |
| Briefing.BriefingNames | bucket/rss_manager.py:152-158 | the feed names are distinct and are exactly the keys; with grouping every recent sourced article's source is among them; "Unknown" only appears for a real source of that name |
| Briefing.BriefingStatsSpec | bucket/rss_manager.py:175-181 | `total_articles` is at most `max_total_articles`; filtering to sourced articles keeps every copy of each; the feeds are exactly the stored active feeds, so `active_feeds` equals `total_feeds` |
| Briefing.SumsAppend | bucket/rss_manager.py:180-181 | the reading-time and word sums (missing values as 0) split over concatenation |
| Briefing.NothingDroppedBelowCaps | bucket/rss_manager.py:152-162 | with grouping and no cap reached, every recent sourced article is listed under its source |
| Seqs.SortDescSortedPermutation | bucket/rss_manager.py:170-173 | the sort with `reverse=True` gives a permutation with non-increasing keys |
| Seqs.SortDescStable | bucket/rss_manager.py:170-173 | the sort is stable: elements with equal keys keep their input order |
| Seqs.GroupBy | bucket/rss_manager.py:153-158 | the grouping loop gives the keys in order of first appearance and, per key, the elements with that key in input order |
| Seqs.GroupsPartition | bucket/rss_manager.py:365-370 | every element lands in exactly one group: the group sizes add up to the input length |
| Manager.ArrangeGroups | bucket/rss_manager.py:152-173 | the grouping, capping and sorting loops build `GroupsOf` and its key order |
| Manager.CapGroups | bucket/rss_manager.py:160-162 | each list is cut to its first `cap` articles |
| Manager.SortGroups | bucket/rss_manager.py:166-173 | each list is replaced by its sorted version |
| Manager.SumStats | bucket/rss_manager.py:180-181 | the two sums, with missing values counted as 0 |
| Manager.CountActive | bucket/rss_manager.py:179 | counts the active feeds |
| Manager.RSSManager.GenerateRssBriefing | bucket/rss_manager.py:136-191 | returns `BriefingOf` the store, whose properties are the `Briefing` lemmas above |
| Cleanup.ScanStepUrls | bucket/rss_manager.py:391-396 | every URL is remembered, and a remembered URL is always flagged |
| Cleanup.FirstOfSourceKept | bucket/rss_manager.py:387-396 | the first (newest) article of each source is never flagged |
| Cleanup.RepeatedUrlFlagged | bucket/rss_manager.py:391-394 | an article whose URL appeared earlier in its source's list is flagged |
| Cleanup.FlaggedRepeatsEarlier | bucket/rss_manager.py:387-421 | every flagged article repeats an earlier one: same URL, similar title with close dates, or same content hash |
| Cleanup.FlaggedHasNewerOriginal | bucket/rss_manager.py:379-421 | within a source, every flagged article repeats one that comes earlier in the newest-first list |
| Cleanup.DupsOverWithin | bucket/rss_manager.py:375-428 | every duplicate found is a recent article of one of the sources checked |
| Cleanup.CleanupCounts | bucket/rss_manager.py:353-437 | a report exists unless the read raised; `total_articles` counts the recent articles, `duplicates_found` the duplicates, and `sources_checked` the distinct sources (the groups of `articles_by_source`), absent when there are no recent articles; removed ≤ found ≤ total ≤ 1000 and sources ≤ total |
| Cleanup.RemoveAllSpec | bucket/rss_manager.py:426-428 | after the removals no row carries the id of a flagged article, and every other row is kept |
| Cleanup.CleanupRemovesDuplicates | bucket/rss_manager.py:344-478 | the corrected clean-up leaves the feeds and next id alone, removes every row carrying a duplicate's id, and keeps the rest |
| Cleanup.CleanupAsWrittenRemovesNothing | bucket/rss_manager.py:450-455 | as written, the store is unchanged and `duplicates_removed` is 0; the other counts are those of the corrected clean-up |
| Cleanup.AsWrittenKeepsRepeatedContent | bucket/rss_manager.py:344-478 | two stored articles of one source under different URLs with the same content: as written, the second is found by its content hash, the report says one found and none removed, and it stays in the store |
| Cleanup.CorrectedRemovesRepeatedContent | bucket/rss_manager.py:344-478 | the same two articles under the corrected removal: one found, one removed, and only the first is left |
| Manager.ScanArticle | bucket/rss_manager.py:387-421 | one step of the scan (URL, then title, then content-hash check, each updating its memory) is `ScanStep` |
| Manager.TitleSeen | bucket/rss_manager.py:399-408 | the loop over `seen_titles` finds a clash exactly when one exists |
| Manager.RSSManager.CleanupDuplicates | bucket/rss_manager.py:344-448 | the new store and the report are those of `CleanupOf` |
| Manager.RSSManager.CleanSources | bucket/rss_manager.py:375-428 | over all sources, `found` counts the duplicates, and the store and `removed` are those of removing them in order |
| Manager.RSSManager.CleanSource | bucket/rss_manager.py:383-428 | the scan of one source counts and removes exactly its flagged articles |
| Manager.RSSManager.RemoveDuplicate | bucket/rss_manager.py:422-428 | `removed` grows exactly when the row was there to delete |
| Manager.RSSManager.RemoveArticleFromDb | bucket/rss_manager.py:450-478 | corrected: true iff a row has the id, and then that row is deleted; otherwise nothing changes |
| Manager.RSSManager.RemoveArticleAsWritten | bucket/rss_manager.py:450-455 | as written: always false |
| Dicts.PutGet | bucket/rss_scheduler.py:50 | after `d[k] = v`, `k` maps to `v`, every other key keeps its value, and a new key goes last while an existing one keeps its place |
| Dicts.DeleteGet | bucket/rss_scheduler.py:58 | after `del d[k]`, `k` has no value, every other key keeps its value, and the remaining keys keep their order |
| Dicts.DeleteAfterPut | bucket/rss_scheduler.py:50-58 | adding a new key and deleting it again gives back the dict |
| Scheduler.StampedDueIff | bucket/rss_scheduler.py:174-176 | after a run at `now`, `last_run` is `now` and the schedule is due at `t` iff it is enabled and `t ≥ now + interval`, whatever its previous timing was |
| Scheduler.NotDueBeforeInterval | bucket/rss_scheduler.py:175-176 | with a positive interval, a schedule that just ran is not due again before the interval has passed |
| Scheduler.AddScheduleSpec | bucket/rss_scheduler.py:49-54 | the entry keeps its given fields, with `next_run` one interval after `last_run` if set, else after `now`; a replaced name keeps its place, a new one goes last; other entries are unchanged |
| Scheduler.AddSchedulePlans | bucket/rss_scheduler.py:49-54 | adding keeps every stored schedule planned (with a `next_run`) |
| Scheduler.RemoveScheduleSpec | bucket/rss_scheduler.py:56-62 | true iff the name was present; afterwards it is absent, other entries are unchanged and keep their order |
| Scheduler.RemoveUndoesAdd | bucket/rss_scheduler.py:49-62 | removing a schedule just added under a new name restores the table |
| Scheduler.UpdateScheduleSpec | bucket/rss_scheduler.py:64-77 | a missing name gives false and changes nothing; otherwise the settings are applied and `next_run` recomputed, and nothing else changes |
| Scheduler.UpdateSchedulePlans | bucket/rss_scheduler.py:64-77 | updating keeps every stored schedule planned |
| Scheduler.ApplyAllKeepsTarget | bucket/rss_scheduler.py:70-72 | the feed, article cap and enabled flag keep their values unless a setting names them |
| Scheduler.ApplyAllKeepsTiming | bucket/rss_scheduler.py:70-72 | the interval, `last_run` and `next_run` keep their values unless a setting names them |
| Scheduler.ApplyAllKeepsCallback | bucket/rss_scheduler.py:70-72 | the callback URL and data keep their values unless a setting names them |
| Scheduler.UnknownSettingsIgnored | bucket/rss_scheduler.py:71 | settings naming no attribute change nothing |
| Scheduler.ApplyAllLastWins | bucket/rss_scheduler.py:70-72 | the last setting of an attribute wins |
| Scheduler.ApplySettings | bucket/rss_scheduler.py:70-72 | the loop applies the settings in order |
| Scheduler.TotalNewPut | bucket/rss_scheduler.py:164 | a new name with its list adds that list's length to the total |
| Scheduler.SumNewArticles | bucket/rss_scheduler.py:164 | the loop sums the list lengths over all values of the dict |
| Scheduler.CallbackNoticesSpec | bucket/rss_scheduler.py:190-198 | every registered callback is called exactly once, in registration order, with the schedule name and result, whether or not an earlier one raised |
| Scheduler.PayloadSpec | bucket/rss_scheduler.py:209-216 | `callback_data` keys carry their own values and override `timestamp`, `result` and `config`, which are always present |
| Scheduler.ExecuteSpec | bucket/rss_scheduler.py:141-184 | a refresh error leaves the schedule as it was (so it stays due) and sends nothing; otherwise the run is stamped, every callback is called once in order, and a post is made exactly when a callback URL is set, its payload carrying the stamped configuration unless `callback_data` replaces it (the corrected post; see Findings for the encoding as written) |
| Scheduler.AllFeedsRunSucceeds | bucket/rss_scheduler.py:161-172 | a run with a falsy `feed_id` always succeeds; its results are keyed by exactly the active feeds' names, each list within `max_articles`; `feeds_processed` is the number of results and `new_articles` their total length |
| Scheduler.TickExecutesDue | bucket/rss_scheduler.py:120-132 | one pass runs exactly the enabled schedules whose `next_run` has come, in table order |
| Scheduler.TickLeavesOthers | bucket/rss_scheduler.py:127-132 | a schedule that was not due is left as it was by the pass |
| Scheduler.RunNowSpec | bucket/rss_scheduler.py:228-240 | an unknown name gives "Schedule not found" and changes nothing; a known one reports success, with its old timing when its refresh failed, else `now` and `now + interval` |
| Scheduler.StatusSpec | bucket/rss_scheduler.py:242-263 | one row per schedule, in table order; `total_schedules` is the table size; `enabled_schedules` is at most the total, and equal to it iff every schedule is enabled |
| Scheduler.RSSScheduler.constructor | bucket/rss_scheduler.py:37-44 | empty table, no callbacks, not running |
| Scheduler.RSSScheduler.AddSchedule | bucket/rss_scheduler.py:49-54 | returns the name; the table becomes `AddScheduleOf` |
| Scheduler.RSSScheduler.RemoveSchedule | bucket/rss_scheduler.py:56-62 | the table and the answer are those of `RemoveScheduleOf` |
| Scheduler.RSSScheduler.UpdateSchedule | bucket/rss_scheduler.py:64-77 | the table and the answer are those of `UpdateScheduleOf` |
| Scheduler.RSSScheduler.RegisterCallback | bucket/rss_scheduler.py:87-90 | the callback is stored under its name, replacing any of that name |
| Scheduler.RSSScheduler.Start | bucket/rss_scheduler.py:99-107 | afterwards running; it starts only when not already running |
| Scheduler.RSSScheduler.Stop | bucket/rss_scheduler.py:109-111 | afterwards not running |
| Scheduler.RSSScheduler.ExecuteCallbacks | bucket/rss_scheduler.py:186-202 | the notices are the callback calls in registration order, then the corrected HTTP post (`HttpNotices`) when a URL is set |
| Scheduler.ExecuteHttpCallback | bucket/rss_scheduler.py:204-226 | the corrected post: the merged payload is sent whatever it holds; a status of 400 or more, or an exception of the endpoint, is a failure |
| Scheduler.HttpNoticesAsWritten | bucket/rss_scheduler.py:204-226 | as written, a post that succeeds had a payload the JSON encoder accepts |
| Scheduler.AsWrittenPostNeedsOverride | bucket/rss_scheduler.py:175-219 | as written, after a run the post succeeds only if `callback_data` replaces `config` (its stamped `last_run` is a `datetime`) and also `result` unless the run saved no article, and the endpoint answers below 400; otherwise it fails whatever the endpoint does |
| Scheduler.AsWrittenAgreesWhenSerializable | bucket/rss_scheduler.py:209-226 | the as-written and corrected posts agree on every payload the encoder accepts; on any other they differ only in reporting failure |
| Scheduler.HttpNoticesDelivers | bucket/rss_scheduler.py:204-226 | the corrected post after a run goes to the URL with the stamped configuration and the result unless `callback_data` replaces them, and succeeds exactly when the endpoint answers a status below 400 |
| Scheduler.RSSScheduler.ExecuteSchedule | bucket/rss_scheduler.py:141-184 | the store, the table and the notices become those of `ExecuteOf` |
| Scheduler.RSSScheduler.Tick | bucket/rss_scheduler.py:120-132 | the loop body at `now`: the store, the table, the names run and the notices are those of `TickOf` |
| Scheduler.RSSScheduler.RunIfDue | bucket/rss_scheduler.py:127-132 | one schedule of the pass runs exactly when it is due |
| Scheduler.RSSScheduler.RunScheduleNow | bucket/rss_scheduler.py:228-240 | the store, the table, the result and the notices are those of `RunNowOf` |
| Scheduler.RSSScheduler.GetStatus | bucket/rss_scheduler.py:242-263 | returns `StatusOf` the scheduler's state |
| Hugo.KeepSlugChars | bucket/hugo_integration.py:46 | only word characters, whitespace and '-' of the input remain |
| Hugo.KeepSlugCharsFilter | bucket/hugo_integration.py:46 | the substitution is the comprehension keeping every word, whitespace and '-' character of the input, in order, and dropping the rest |
| Hugo.KeepSlugCharsMembers | bucket/hugo_integration.py:46 | a character survives iff it occurs in the input and is a word character, whitespace or '-' |
| Hugo.KeepSlugCharsAllKept | bucket/hugo_integration.py:46 | a text made only of word characters, whitespace and '-' comes back whole |
| Hugo.CollapseSepsChars | bucket/hugo_integration.py:48 | every character after collapsing is '-' or a non-separator of the input |
| Hugo.CollapseSepsNoDoubleDash | bucket/hugo_integration.py:48 | after collapsing there are no two '-' in a row |
| Hugo.CollapseSepsHead | bucket/hugo_integration.py:48 | the result starts with '-' exactly when the input starts with a separator |
| Hugo.StripDashLeft | bucket/hugo_integration.py:50 | the result is a suffix of the input and does not start with '-' |
| Hugo.StripDashRight | bucket/hugo_integration.py:50 | the result is a prefix of the input and does not end with '-' |
| Hugo.SlugifyIsSlug | bucket/hugo_integration.py:43-50 | a slug is lower-case, holds only word characters and '-', has no whitespace, no "--" and no leading or trailing '-' |
| Hugo.SlugifyOfSlug | bucket/hugo_integration.py:43-50 | slugifying a slug gives it back |
| Hugo.SlugifyIdempotent | bucket/hugo_integration.py:43-50 | slugifying twice is slugifying once |
| Hugo.TruncateSpec | bucket/hugo_integration.py:97-104 | content of at most `max_words` words comes back unchanged; longer content becomes its first `max_words` words joined by single spaces, then "..." |
| Hugo.TruncateIdempotent | bucket/hugo_integration.py:97-104 | truncating twice with the same bound is truncating once |
| Hugo.RemoveTagsPlain | bucket/hugo_integration.py:87 | text without '<' has no tag to remove |
| Hugo.CollapseBlankLinesPlain | bucket/hugo_integration.py:90 | text without a newline is left alone |
| Hugo.RemoveArtifactsPlain | bucket/hugo_integration.py:93 | text in which no artifact phrase starts, ignoring case, is left alone |
| Hugo.CleanContent | bucket/hugo_integration.py:81-95 | empty content gives ""; the result has no leading or trailing whitespace |
| Hugo.CleanPlainText | bucket/hugo_integration.py:81-95 | text with no tag opener, no newline and no artifact phrase is only stripped |
| Hugo.FrontMatterTagsSpec | bucket/hugo_integration.py:55-66 | a tag is in the front matter iff it is an article's tag, a feed's tag, a feed name lower-cased with spaces as '-', or one of "rss", "read-later", "daily-report" |
| Hugo.FrontMatterTags | bucket/hugo_integration.py:55-66 | the tag-building loops give exactly `FrontMatterTagsOf` |
| Hugo.GroupsOfSpec | bucket/hugo_integration.py:125-130 | each article is in exactly one group, keyed by its `feed_title` or "Unknown Feed", in input order; the group sizes add up to the number of articles |
| Hugo.GroupByFeedTitle | bucket/hugo_integration.py:125-130 | the grouping loop gives the feed titles in order of first appearance and `GroupsOf` |
| Hugo.CreateDailyReport | bucket/hugo_integration.py:106-173 | the report is written from its tags, groups, per-article excerpts (cleaned content cut to 150 words) and counts; the path is what writing gives, `None` on failure |
| Hugo.Annotate | bucket/hugo_integration.py:211-215 | the article's metadata gains `feed_title` and `feed_url` from its feed; every other key and field is unchanged |
| Hugo.AnnotateAll | bucket/hugo_integration.py:211-215 | the metadata loop annotates every article of the feed, in order |
| Hugo.CollectBounds | bucket/hugo_integration.py:193-223 | `feeds_processed` is at most the number of feeds, and at most `max_articles_per_feed` articles are collected per feed |
| Hugo.CollectFromFeeds | bucket/hugo_integration.py:203-217 | every collected article is one of the first `max_articles_per_feed` fetched from some feed, annotated with that feed |
| Hugo.CollectNothingFetched | bucket/hugo_integration.py:193-223 | when every fetch raises, nothing is collected and no feed counts as processed |
| Hugo.CollectArticles | bucket/hugo_integration.py:190-223 | the loop over the feeds gives `all_articles` and `feeds_processed` as `Collect` does |
| Hugo.ReadLaterSpec | bucket/hugo_integration.py:175-253 | counts are bounded by the feeds and the per-feed cap; success iff no exception reached the outer `except` and some article was collected; no feeds gives "No feeds found"; a failed run processes no article and creates no report |
| Hugo.ReadLaterNothingFetched | bucket/hugo_integration.py:225-232 | when every fetch raises, the run reports "No articles found from any feeds" with no feed processed |
| Hugo.ProcessFeedsForReadLater | bucket/hugo_integration.py:175-253 | returns `ReadLaterOf` the active stored feeds |
| FeedList.CategoryLeaves | update_feeds.py:100-102 | an all-URL dictionary gives one leaf per entry, in order, with that entry's key and URL |
| FeedList.CategoryFeeds | update_feeds.py:100-137 | the loop over an all-URL dictionary numbers one record per entry from `feed_id`, and the next id is `feed_id` plus their number |
| FeedList.Flatten | update_feeds.py:91-165 | the records are those of the catalogue's leaves, numbered from `feed_id`; the returned id is `feed_id` plus their number |
| FeedList.FlattenEntry | update_feeds.py:95-163 | one entry of the loop numbers the records of its leaves from `feed_id` |
| FeedList.LeavesUrls | update_feeds.py:95-163 | exactly one record per URL of the catalogue, with that URL, in visiting order; empty dictionaries produce nothing |
| FeedList.CategoryUrls | update_feeds.py:100-102 | the URLs of a category's records are exactly its values, in order |
| FeedList.LeavesUnderParent | update_feeds.py:96 | a record's path extends its parent path with '_' and a key |
| FeedList.NumberedSpec | update_feeds.py:127-163 | ids run consecutively from the start id and are distinct; every record is active and never fetched, with the URL, name and description rules of its leaf |
| FeedList.TagRules | update_feeds.py:107-151 | a record's tags are those of the category rules for a URL of a category and of the direct rules otherwise; among them, a path mentioning "neuroscience" gives "neuroscience" and "research", a direct URL gets only neuroscience and tech tags, and a category URL whose key mentions "reddit" gets "reddit" and "community" |
| FeedList.CategoryTagsSpec | update_feeds.py:107-125 | each of the nine rules (path mentions neuroscience, tech, pubmed, journal, ieee, arxiv, blog; name mentions reddit, fmhy) that fires adds its two tags, and no tag outside those rules is ever given |
| FeedList.CategoryTagsMember | update_feeds.py:107-125 | a tag is in a category URL's list exactly when some rule that gives it fires |
| FeedList.DirectTagsSpec | update_feeds.py:147-151 | a direct URL has the neuroscience pair exactly when its path mentions "neuroscience", the tech pair exactly when it mentions "tech", and nothing else |
| FeedList.BuildFeedList | update_feeds.py:167-173 | the list is Hacker News (id 1), then the flattened catalogue numbered from 2 |
| FeedList.FeedListSpec | update_feeds.py:167-173 | the list has one more record than the catalogue has URLs; ids run 1, 2, 3, …; the URLs after Hacker News are those of the catalogue |
| FeedList.TagCountPositive | update_feeds.py:182-186 | a tag is counted exactly when some feed carries it |
| FeedList.OccurrencesPositive | update_feeds.py:185-186 | a tag occurs a positive number of times in a list iff it is in the list |
| FeedList.CountTags | update_feeds.py:185-186 | the inner loop adds each tag's occurrences to its count |
| FeedList.CountCategories | update_feeds.py:182-186 | the keys are exactly the tags that occur, and each count is that tag's number of occurrences over all feeds |

## Left out

- Concurrency: asyncio tasks, the scheduler's task creation and cancellation, and the one-minute sleeps are not modelled. `fetch_all_feeds` awaits each fetch in turn, so it is modelled sequentially. A scheduler pass is one call of `Tick(now)`.
- Time: `datetime.utcnow()` and `datetime.now()` are a `now` parameter in whole seconds. One `now` serves a whole pass and its runs, while the source reads the clock again when it stamps `last_run`. `isoformat`/`strftime` text is not produced; a `created_at` of the feed list is a given string.
- Hashing: MD5 is an uninterpreted parameter. UTF-8 encoding is not modelled.
- Floating point: the Jaccard ratio becomes the integer cross-multiplication above.
- Network and parsing: the fetcher (HTTP, retries, feedparser, BeautifulSoup) is a parameter that gives a feed's entries or reports that it raised. The HTTP callback endpoint is also a parameter; `aiohttp` missing counts as a raise.
- Persistence backend: the SQLAlchemy layer is replaced by the `Database` class. Its queries keep their filters and orderings. `get_feeds` orders by name in the source; the model keeps stored order. In a newest-first query, rows with equal `created_at` keep storage order.
- Store.Database.SaveArticle: the unique constraint on `articles.url` (bucket/database.py:57) is not enforced, and neither is the one on `feeds.url` (bucket/database.py:109). Ingestion only saves an article whose URL is not already stored (`Dedup.IsDuplicate`), so the rows it adds never repeat a URL. A store given directly may repeat one.
- Store.Database.UpdateFeed: only the two columns the core sets (`last_fetched`, `is_active`) are modelled, not arbitrary keyword arguments.
- Timestamps the core never reads: `Feed.created_at`, `Feed.updated_at` and `Article.updated_at` (bucket/models.py) are not fields of the model, so `update_feed` setting `updated_at` to the current time is not modelled.
- Presentation: `RSSBriefingFormatter`, the markdown text and file write of `create_daily_read_later_report`, and `build_hugo_site` (the `hugo --minify` subprocess) are left out. The report's data (tags, groups, excerpts, counts) is handed to a `write` parameter, which gives the path or `None`.
- Thin pass-throughs not in the core: `add_feed`, `update_feed`, `remove_feed`, `get_feed_stats`, `get_schedule`, `list_schedules`, and the `DiscordRSSScheduler` wrapper and convenience functions at the end of bucket/rss_scheduler.py.
- Unicode: `\w`, upper/lower case and `title()` are ASCII-only. Whitespace is the set Python's `str.isspace` accepts.
- Negative counts: `max_articles`, `max_articles_per_feed`, `max_words` and the briefing caps are `nat`. Python's slicing with a negative bound (counting from the end) is not modelled.
- Aliasing: `add_schedule` stores the caller's `ScheduleConfig` object, and the article objects of `fetch_feed_articles` and `process_feeds_for_read_later` are changed in place. The model passes these by value, so a caller holding the same object does not see the change.
- Values held as strings: `callback_data` values and article `metadata` values are strings (`map<string, string>`).
- Callbacks: a registered callback is a function that answers whether it raised. Its own effects are not modelled.
- FeedList.BuildFeedList: the literal catalogue `new_feeds_data` is not transcribed. It is the `data` parameter, so the proved properties hold for every catalogue, that one included. The JSON file write and the console report are left out.
- Hugo.RemoveTags, Hugo.CollapseBlankLines, Hugo.RemoveArtifacts: each of the three substitutions is modelled by its own scanning function. Only their length bounds and their behaviour on plain text are proved. The exact output of the regular-expression engine on arbitrary input is not restated as a separate specification.

## Findings

| source | as written | input that shows it | evidently intended | confidence | as-written member | corrected member |
|---|---|---|---|---|---|---|
| bucket/rss_manager.py:453 | `_remove_article_from_db` first reads `SQLALCHEMY_AVAILABLE`. That name is defined in bucket/database.py but never imported into bucket/rss_manager.py. The `NameError` is caught and `False` is returned, so `cleanup_duplicates` never removes anything. | Two stored articles of source "feed" with different URLs and the same non-empty content, ids 1 and 2, both created at 100, cleaned at `now` = 100 with `days_back` = 30. The second is found by its content hash. The report says 1 duplicate found and 0 removed, and article 2 stays in the store. | Look the row up and delete it, returning `True` when it was there. | high; not executed | Manager.RSSManager.RemoveArticleAsWritten, Cleanup.CleanupAsWrittenRemovesNothing, Cleanup.AsWrittenKeepsRepeatedContent | Manager.RSSManager.RemoveArticleFromDb, Cleanup.CleanupRemovesDuplicates, Cleanup.CorrectedRemovesRepeatedContent |
| bucket/rss_scheduler.py:209-219 | `_execute_schedule` stamps `config.last_run` with a `datetime` (line 175) before the callbacks run. The webhook payload holds `asdict(config)` and the `update_result`, whose `articles` or `results` hold `Article` objects. `session.post(url, json=payload)` encodes the payload with the default JSON encoder, which rejects both. The `TypeError` raised before any request is caught and logged, so no webhook is ever delivered unless `callback_data` replaces `config`, and also `result` whenever the run saved an article. | A schedule with `callback_url` set and no `callback_data`, run at any time. After the run `last_run` is set, the payload's `config` entry carries it, and the post fails whatever the endpoint would answer. | Encode the datetimes (for instance as ISO strings) and the articles, and post the payload; success depends only on the endpoint's answer. | high; not executed | Scheduler.HttpNoticesAsWritten, Scheduler.AsWrittenPostNeedsOverride | Scheduler.HttpNotices, Scheduler.HttpNoticesDelivers, Scheduler.ExecuteHttpCallback |
