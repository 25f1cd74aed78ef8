# Bangumi list: cache, refresh and client logic in Dafny

This project models the logic of the bangumi-list service. The service lists
anime shows ("bangumi") by season and weekday. It also keeps three TTL caches
filled from outside providers:

- cover images from the Bangumi API;
- preview-video ids from bilibili, in two steps: season id, then the first "PV" section;
- RSS feeds from Mikan.

Server side, the model covers:

- `Cache`: the cache service, with entries, lifetimes, expiry, the three setters and the batch queries.
- `Seasons`: season arithmetic: the current and previous quarter and the "recent season" filter.
- `Adapters`: the bilibili and Bangumi fetch adapters over decoded responses.
- `MikanRss`: the Mikan RSS service:
  - the feed URL and the referrer;
  - the JavaScript-redirect page;
  - feed normalisation;
  - the retry loop with exponential backoff.
- `Orchestrator`: the refresh orchestrator:
  - the daily refresh pass over recent shows, in chunks, with per-step skip rules;
  - the failed-item list and its retry pass;
  - the per-show manual refresh;
  - enrichment of shows from the caches, and the status queries.
- `Catalog`: `process`, which assigns ids, sorts sites and builds the season index, the no-end-date list, the entity map and the site map.

Client side, the model covers:

- `BangumiUtils`: the list filters, the list sort, hoisting watched shows, broadcast times and season formatting.
- `RssParser`: parsing a release title and grouping releases.
- `Preference` and `UserStore`: the preference store and the user store.

Shared definitions live in `Common` and `Types`.

Outside calls become parameters:

- **Provider calls.** An `Oracle` gives each call's outcome: a value, nothing, or a thrown error. `Adapters.*` gives the outcome computed from a decoded response.
- **The clock.** It is a `now` parameter, with one value per pass.
- **Today's date** for the season computations.
- **The md5 hash** of a show's id text.
- **The XML parser** of the RSS service.

Each operation is a pure function or a short method, and each has a partner:

- a reference definition;
- an invariant it keeps;
- an inverse or idempotence law;
- or an agreement lemma with a neighbouring operation.

## Model

| member | source | states |
|---|---|---|
| Cache.Get | packages/server/src/services/cache.service.ts:98-100 | A lookup finds an entry exactly when the key is in the map, and returns that entry |
| Cache.ExpireTime | packages/server/src/services/cache.service.ts:52-53 | Entries live 7 days (604 800 000 ms), RSS entries 6 hours (21 600 000 ms) |
| Cache.IsExpired | packages/server/src/services/cache.service.ts:211-216 | An entry is expired exactly when more than its lifetime has passed since its timestamp |
| Cache.ExpiryBoundary | packages/server/src/services/cache.service.ts:211-216 | An entry exactly one lifetime old is still fresh; one millisecond older is expired |
| Cache.ExpiryMonotone | packages/server/src/services/cache.service.ts:211-216 | Once expired, an entry stays expired at every later time |
| Cache.IsValidCache | packages/server/src/services/cache.service.ts:218-223 | Valid means present and not older than its lifetime |
| Cache.ShouldSkipRefresh | packages/server/src/services/cache.service.ts:225-228 | A refresh is skipped exactly for a present, unexpired entry; an absent entry is never skipped |
| Cache.SkipIgnoresEmptiness | packages/server/src/services/cache.service.ts:225-228 | Skipping does not depend on the entry's value or on whether it is a negative entry |
| Cache.SetImageCache | packages/server/src/services/cache.service.ts:102-118 | Only the image entry for the key changes. No URL or the no-cover URL stores a negative entry with the no-cover URL; any other URL is stored as a real entry. The new entry is fresh at `now` |
| Cache.NegativeEntryLifetime | packages/server/src/services/cache.service.ts:102-110 | A negative image entry is marked empty and suppresses refreshes for exactly the full lifetime |
| Cache.SetPvBvidCache | packages/server/src/services/cache.service.ts:147-163 | Only the preview entry for the key changes. No bvid stores an empty negative entry; a bvid stores a real entry. The new entry is fresh |
| Cache.SetRssCache | packages/server/src/services/cache.service.ts:192-208 | Only the RSS entry for the key changes. No content stores the empty feed as a negative entry; content is stored as a real entry. The new entry is fresh under the RSS lifetime |
| Cache.MissingIds | packages/server/src/services/cache.service.ts:238-241 | Reference definition: an id is listed exactly when it was asked for and has no image entry |
| Cache.ExpiredIds | packages/server/src/services/cache.service.ts:242-243 | Reference definition: an id is listed exactly when it was asked for and its image entry is expired |
| Cache.CheckImageCacheBatch | packages/server/src/services/cache.service.ts:230-248 | The loop returns exactly the missing and the expired ids, each in request order. A valid id is in neither list |
| Cache.GetBatchCacheStatus | packages/server/src/services/cache.service.ts:250-260 | One flag per requested id. A flag is true exactly when the id has an unexpired image entry |
| Cache.BatchStatusMatchesCheck | packages/server/src/services/cache.service.ts:250-260 | A requested id's flag is true exactly when the batch check lists it as neither missing nor expired |
| Seasons.QuarterOfMonth | packages/server/src/models/bangumi.model.ts:72-74 | Moment's `Q`: the quarter is 1..4 and contains the month |
| Seasons.SeasonOfDate | packages/server/src/models/bangumi.model.ts:82-89 | A date's season has the date's year and the quarter containing its month |
| Seasons.SubtractThreeMonths | packages/server/src/models/bangumi.model.ts:77-79 | Going back three months lowers the month count (12·year + month) by exactly 3, across year boundaries |
| Seasons.PreviousSeasonRollsBack | packages/server/src/models/bangumi.model.ts:77-79 | The previous season is the quarter before the current one; Q1 rolls back to Q4 of the year before |
| Seasons.CurrentIsNotPrevious | packages/server/src/models/bangumi.model.ts:72-79 | The current and previous seasons always differ |
| Seasons.RecentIffSameOrPreviousQuarter | packages/server/src/models/bangumi.model.ts:82-89 | A show is recent exactly when it has a start date in today's quarter or in the one before |
| Seasons.GetRecentSeasonItems | packages/server/src/models/bangumi.model.ts:92-95 | The recent shows are exactly the catalogue's recent shows, in catalogue order |
| Adapters.FetchSeasonId | packages/server/src/services/bilibili.service.ts:59-80 | A season id comes back exactly for a response with code 0 and a non-zero season id. Anything else, including a failed request, gives nothing |
| Adapters.FindPvSection | packages/server/src/services/bilibili.service.ts:96-98 | `find` finds a section exactly when some section's title contains "PV" and every earlier section has a title without it; that section is the one found. `find` throws exactly when it reaches a section without a title, every earlier title lacking "PV" |
| Adapters.FirstPvShift | packages/server/src/services/bilibili.service.ts:96-98 | Skipping a leading non-PV section shifts the first PV section down by one |
| Adapters.FirstPvUnique | packages/server/src/services/bilibili.service.ts:96-98 | There is at most one first PV section |
| Adapters.FetchPvBvid | packages/server/src/services/bilibili.service.ts:82-109 | A bvid comes back exactly when the response succeeded with code 0, the first PV section exists, and its first episode has a non-empty bvid. That bvid is returned; every error gives nothing |
| Adapters.FetchImage | packages/server/src/services/bangumi.service.ts:6-35 | A URL comes back exactly for a 302 whose location is non-empty and not the no-cover URL, and it is that location. Other statuses, failures and the no-cover image give nothing |
| Orchestrator.FindSite | packages/server/src/models/bangumi.model.ts:288 | `sites.find`: the first site with the name, or none when no site has it |
| Orchestrator.SiteId | packages/server/src/models/bangumi.model.ts:287-300 | A site id is found exactly when the first site with the name has a non-empty id |
| Orchestrator.FromOption | packages/server/src/models/bangumi.model.ts:209 | An adapter's answer becomes a call outcome that never throws, with a value exactly when the adapter gave one |
| Orchestrator.AdaptersNeverThrow | packages/server/src/services/bangumi.service.ts:31-34 | Outcomes produced by the adapters never throw, and an image outcome is never the no-cover URL |
| Orchestrator.FetchBangumiImage | packages/server/src/models/bangumi.model.ts:308-313 | Exactly one image call; only the image map can change. It throws exactly when the call throws. A throw or the no-cover URL leaves the store as it was; no value stores a negative entry; a URL stores it |
| Orchestrator.FetchPvBvid | packages/server/src/models/bangumi.model.ts:316-324 | The first call asks for the season id. The store changes only after a non-zero season id and a non-empty bvid, and then only with a non-empty entry. It throws exactly when one of the two calls throws |
| Orchestrator.FetchRssContent | packages/server/src/models/bangumi.model.ts:327-332 | Exactly one feed call; only the RSS map can change. Content is stored as a fresh entry; no value or a throw changes nothing. It throws exactly when the call throws |
| Orchestrator.RefreshImage | packages/server/src/models/bangumi.model.ts:203-217 | A show without a Bangumi id, or with a fresh image entry, does nothing. Otherwise it makes exactly the image call and throws exactly when the call throws. A successful step that did not return the no-cover URL leaves a fresh entry. Other keys and maps are unchanged |
| Orchestrator.RefreshPv | packages/server/src/models/bangumi.model.ts:220-235 | A show without a bilibili id, or with a fresh preview entry, does nothing. Otherwise the first call asks for the season id, and any store change leaves a fresh, non-empty entry. Other maps are unchanged |
| Orchestrator.RefreshRss | packages/server/src/models/bangumi.model.ts:238-251 | A show without a Mikan id, or with a fresh feed entry, does nothing. Otherwise it makes exactly one feed call, keyed by the raw Mikan id. Content that arrives without a throw leaves a fresh entry |
| Orchestrator.FailedOf | packages/server/src/models/bangumi.model.ts:260-268 | A failed show is recorded as an image failure with retry count 0, the current time, its id (or "") and its three site keys |
| Orchestrator.ItemSteps | packages/server/src/models/bangumi.model.ts:201-251 | The image step's writes survive the later steps. A throwing image step ends the show: nothing is written and only image calls are made. A throwing preview step skips the feed step: no feed call, and the store is what the image step left |
| Orchestrator.ProcessItem | packages/server/src/models/bangumi.model.ts:201-269 | One show adds either nothing or exactly its own failure record to the failed list, and it adds the record exactly when its steps threw. Calls already made are kept as a prefix |
| Orchestrator.ProcessItems | packages/server/src/models/bangumi.model.ts:198-271 | Earlier failures are kept as a prefix, and at most one failure is added per show |
| Orchestrator.PassFailuresFromItems | packages/server/src/models/bangumi.model.ts:254-269 | Every failure the pass adds is the record of one of the processed shows |
| Orchestrator.PassRecordsThrown | packages/server/src/models/bangumi.model.ts:198-271 | The failures of a pass are the earlier ones followed by one record per show whose steps threw (against the store reached by then), in show order. A show that threw always has its record |
| Orchestrator.ProcessItemsConcat | packages/server/src/models/bangumi.model.ts:198-274 | Processing a + b is processing a, then b, from the resulting state |
| Orchestrator.Chunks | packages/server/src/models/bangumi.model.ts:186-190 | Chunks of size 2 concatenate back to the input. Every chunk is non-empty and no larger than the size, and all but the last are full |
| Orchestrator.ProcessChunksFlatten | packages/server/src/models/bangumi.model.ts:198-274 | Processing chunk by chunk equals processing the flattened list, so chunking changes nothing but timing |
| Orchestrator.RefreshAllCaches | packages/server/src/models/bangumi.model.ts:167-284 | A refresh already running returns at once. Otherwise the pass runs over exactly the recent shows and the flag is cleared afterwards. The failed list is replaced by this pass's failures: at most one per show, each a record of one of them. A retry is pending exactly when there are failures or one was already pending. The failures are the records of exactly the recent shows whose steps threw, in order |
| Orchestrator.NoThrowNoFailures | packages/server/src/models/bangumi.model.ts:254-269 | When no call throws, the pass records no failure |
| Orchestrator.AdapterPassHasNoFailures | packages/server/src/models/bangumi.model.ts:276-280 | With the adapters' catch-all error handling, a pass leaves the failed list empty and schedules no retry |
| Orchestrator.SecondImageStepSkips | packages/server/src/models/bangumi.model.ts:204-216 | After a successful image refresh, a second pass within the lifetime makes no call and changes nothing |
| Orchestrator.Bumped | packages/server/src/models/bangumi.model.ts:419-423 | A kept failure has its count raised by one and its time set to now; every other field is unchanged |
| Orchestrator.RetryOne | packages/server/src/models/bangumi.model.ts:385-444 | A failure whose kind has its key is dropped when the fetch does not throw. Otherwise it is dropped at count 5 or more and kept bumped below that. A failure without its key makes no call. A kept failure never has a count above 5. Whether it is kept depends on the providers' answers alone (`StaysFailed`), never on the store |
| Orchestrator.BumpedAll | packages/server/src/models/bangumi.model.ts:419-442 | Every failure bumped, in order |
| Orchestrator.RetryItems | packages/server/src/models/bangumi.model.ts:381-448 | The kept failures are exactly those whose fetch cannot complete (no key, or it throws) and whose count is below 5, in input order, each bumped. So they are an ordered subsequence of the bumped input, no longer than it, each with count at most 5 |
| Orchestrator.SurvivorsBounds | packages/server/src/models/bangumi.model.ts:381-448 | The survivors of a list are no more than it, an ordered subsequence of it bumped, none above count 5 |
| Orchestrator.RetryFailedItems | packages/server/src/models/bangumi.model.ts:373-466 | An empty list returns at once and clears the pending flag. Otherwise the list becomes exactly the survivors: the failures that stay failed, in order, bumped. That is a subsequence of the bumped failures, each with count at most 5. Another retry is pending exactly when some remain. The refresh flag is untouched |
| Orchestrator.RetryAbandonment | packages/server/src/models/bangumi.model.ts:412-424 | A failure that keeps failing is still listed after n ≤ 5 retries, with count n and the same kind and keys; after the 6th it is dropped |
| Orchestrator.RetryRoundsDrain | packages/server/src/models/bangumi.model.ts:373-466 | Whatever the providers answer, after n firings of the retry timer every remaining failure has been retried at least n more times and none is above 5. After 6 firings the list is empty and no retry is pending |
| Orchestrator.RetryConverges | packages/server/src/models/bangumi.model.ts:385-410 | When every failure has its key and no call throws, one retry pass clears the list |
| Orchestrator.GetFailedItemsStatus | packages/server/src/models/bangumi.model.ts:688-693 | The count is the list's length and the list is the current failed list |
| Orchestrator.RefreshItemCache | packages/server/src/models/bangumi.model.ts:479-520 | Never throws, and calls each provider for which the show has a key. A kind without a key leaves its map unchanged |
| Orchestrator.ManualRefreshImage | packages/server/src/models/bangumi.model.ts:487-495 | With a subject id, the image map ends as the image fetch alone leaves it; a throwing image fetch leaves it unchanged |
| Orchestrator.ManualRefreshPv | packages/server/src/models/bangumi.model.ts:497-505 | With a media id, the preview map ends as the preview fetch alone, on the original store, leaves it, whatever the image step did; a throwing preview fetch leaves it unchanged |
| Orchestrator.ManualRefreshFeed | packages/server/src/models/bangumi.model.ts:507-515 | With a feed id, the feed map ends as the feed fetch alone, on the original store, leaves it, whatever the earlier steps did; a throwing feed fetch leaves it unchanged |
| Orchestrator.EnrichItemsWithImages | packages/server/src/models/bangumi.model.ts:98-131 | Same length. Only image, embed link and feed content change, each overlaid from an unexpired cache entry of the show's key |
| Orchestrator.EnrichedIdempotent | packages/server/src/models/bangumi.model.ts:98-131 | Enriching an enriched show changes nothing |
| Orchestrator.EnrichIdempotent | packages/server/src/models/bangumi.model.ts:98-131 | Enriching a list twice is enriching it once |
| Orchestrator.EnrichWithoutEntries | packages/server/src/models/bangumi.model.ts:98-131 | Shows with no cache entries come back unchanged |
| Orchestrator.RefreshThenEnrich | packages/server/src/models/bangumi.model.ts:203-235 | A show refreshed with a cover and a preview and then enriched carries exactly that cover URL and the player link of that bvid. No failure is recorded |
| Orchestrator.StatusAgreesWithEnrichment | packages/server/src/models/bangumi.model.ts:595-670 | A kind the item status reports as cached carries the reported value after enrichment; a kind not cached keeps the show's own value |
| Orchestrator.CountWorkingSet | packages/server/src/models/bangumi.model.ts:523-592 | The loop's counters are the counts of current-season, previous-season and cached shows; the two season counts add up to the total |
| Orchestrator.GetRecentSeasonsCacheStatus | packages/server/src/models/bangumi.model.ts:523-592 | The status names both seasons and counts the recent shows. The season counts add up to the total, and each cached count is the number of recent shows with an unexpired entry, at most the total |
| Catalog.YearText | packages/server/src/models/bangumi.model.ts:804-805 | Moment's `YYYY` gives four digits whose value is the year, for years 0..9999 |
| Catalog.NatToStringBounds | packages/server/src/models/bangumi.model.ts:804-805 | A number below 10^w prints in at most w digits that read back as the number |
| Catalog.LeadingZeros | packages/server/src/models/bangumi.model.ts:804-805 | Padding with zeros keeps a digit string's value |
| Catalog.PadNatExact | packages/server/src/models/bangumi.model.ts:804-805 | A zero-padded field has exactly its width and reads back as the number |
| Catalog.IdInputInjective | packages/server/src/models/bangumi.model.ts:802-807 | The hashed text `YYYY-MM` + title determines the start month and the title, so distinct shows have distinct hash inputs |
| Catalog.SiteSortCompare | packages/server/src/models/bangumi.model.ts:809-811 | The comparator answers -1 exactly when the first name sorts strictly before the second, and 1 otherwise; it never answers 0 |
| Catalog.InsertSite | packages/server/src/models/bangumi.model.ts:733 | Inserting into a sorted site list keeps it sorted and adds exactly that one site |
| Catalog.SortSites | packages/server/src/models/bangumi.model.ts:733 | Sorting a show's sites gives a sorted permutation of them |
| Catalog.SortedCompare | packages/server/src/models/bangumi.model.ts:809-811 | On a sorted list the comparator puts every later site after every earlier one |
| Catalog.ProcessedItemSpec | packages/server/src/models/bangumi.model.ts:727-735 | A processed show gets its generated id and a sorted permutation of its sites; nothing else changes |
| Catalog.IdsOf | packages/server/src/models/bangumi.model.ts:727 | One id per show, in order |
| Catalog.SiteMap | packages/server/src/models/bangumi.model.ts:742-751 | A type is present exactly when some site has it; each site is filed under its own type with its own metadata |
| Catalog.SiteMapPartition | packages/server/src/models/bangumi.model.ts:742-751 | Every site is in the map, under one type only |
| Catalog.SeasonIdListsSpec | packages/server/src/models/bangumi.model.ts:719-732 | The season index has exactly the seasons of the shows; each lists the ids of that season's shows, in catalogue order |
| Catalog.EntitiesSpec | packages/server/src/models/bangumi.model.ts:735 | Every show's id is in the entity map, and each id maps to the processed last show with that id |
| Catalog.BuildCatalog | packages/server/src/models/bangumi.model.ts:711-752 | The loop's output is the reference catalogue: processed shows in order, seasons in first-appearance order, the season index, the no-end-date ids, the entity map and the site map |
| Catalog.Process | packages/server/src/models/bangumi.model.ts:711-752 | `process` with md5 ids builds the reference catalogue |
| MikanRss.EnvNumberOr | packages/server/src/services/mikanrss.service.ts:8-9 | `Number(env) \|\| d`: a configured non-zero number wins; unset or 0 falls back to the default |
| MikanRss.GetMikanRssUrl | packages/server/src/services/mikanrss.service.ts:279-285 | An empty id is an error; any other id gives the Mikan feed URL with that `bangumiId` |
| MikanRss.SplitOn | packages/server/src/services/mikanrss.service.ts:70 | `split` returns at least one part, and the whole string when the separator is absent |
| MikanRss.SplitOnFirst | packages/server/src/services/mikanrss.service.ts:70 | The first part ends at the first separator |
| MikanRss.ParamGetFirst | packages/server/src/services/mikanrss.service.ts:70-71 | `URLSearchParams.get` returns the value of the first pair with the name, or nothing when there is none |
| MikanRss.FeedUrlQuery | packages/server/src/services/mikanrss.service.ts:70 | The query of a feed URL built from an id without `?` is `bangumiId=` + id |
| MikanRss.BangumiIdPair | packages/server/src/services/mikanrss.service.ts:70-71 | The pair `bangumiId=` + id has that name and that value |
| MikanRss.ReferrerOfFeedUrl | packages/server/src/services/mikanrss.service.ts:70-74 | For a show id without `?` or `&`, the referrer for the generated feed URL is the show's Mikan page |
| MikanRss.RawIdReferrer | packages/server/src/services/mikanrss.service.ts:70-74 | A bare id without a query gets the Mikan home page as referrer |
| MikanRss.OrEmpty | packages/server/src/services/mikanrss.service.ts:194-202 | `x \|\| ''`: the value when present, otherwise the empty string |
| MikanRss.ItemList | packages/server/src/services/mikanrss.service.ts:187-191 | An item array is kept, a single item becomes a one-item list, and no item an empty list |
| MikanRss.NormalizeItem | packages/server/src/services/mikanrss.service.ts:198-211 | Missing text fields become "". An empty guid is dropped. The enclosure is present exactly when the raw item has one |
| MikanRss.NormalizeChannel | packages/server/src/services/mikanrss.service.ts:193-212 | Channel fields default to "", and there is one normalised item per raw item, in order |
| MikanRss.MatchRedirectAtSpec | packages/server/src/services/mikanrss.service.ts:117-119 | At a fixed index, the matcher finds a target exactly when the redirect pattern matches there with that group |
| MikanRss.MatchRedirectAtSound | packages/server/src/services/mikanrss.service.ts:117-119 | What the matcher finds is a match of the pattern |
| MikanRss.MatchRedirectAtComplete | packages/server/src/services/mikanrss.service.ts:117-119 | Every match of the pattern is what the matcher finds |
| MikanRss.ExtractRedirectFrom | packages/server/src/services/mikanrss.service.ts:117-119 | The result is the group of the leftmost match, and none means the pattern matches nowhere |
| MikanRss.FeedBody | packages/server/src/services/mikanrss.service.ts:107-172 | A failed request fails with its status. A page without the redirect marker is the feed itself. A marker without a target fails. A substituted body comes from a received redirect and is not an HTML page |
| MikanRss.RunAttempt | packages/server/src/services/mikanrss.service.ts:174-217 | An attempt succeeds exactly when a body is obtained and parses to a channel, and then yields the normalised channel |
| MikanRss.BackoffLaws | packages/server/src/services/mikanrss.service.ts:247-250 | The first wait is the base delay and each further attempt doubles it. Rate limiting triples it, and no wait is below the base delay |
| MikanRss.DelayDuration | packages/server/src/services/mikanrss.service.ts:269-277 | A negative delay becomes 100 ms; any other is kept |
| MikanRss.RetryLoop | packages/server/src/services/mikanrss.service.ts:61-266 | Between 1 and maxRetries attempts are made, every one before the last having failed. A result is the last attempt's content. No result means every attempt failed. One wait follows each failed attempt but the last |
| MikanRss.PerformRequest | packages/server/src/services/mikanrss.service.ts:58-267 | The request loop over real attempts and waits has the retry-loop guarantees |
| MikanRss.FetchContent | packages/server/src/services/mikanrss.service.ts:31-56 | An empty URL returns nothing without a request. Content is the result of a successful attempt. No content means all attempts failed |
| BangumiUtils.SearchEmptyKeepsAll | packages/client_v2/src/lib/bangumi-utils.ts:18-22 | The empty search keeps every show |
| BangumiUtils.LowerOfUpper | packages/client_v2/src/lib/bangumi-utils.ts:20-21 | Lower-casing an upper-cased string equals lower-casing it |
| BangumiUtils.SearchIgnoresCase | packages/client_v2/src/lib/bangumi-utils.ts:18-22 | The search is insensitive to the case of the search text |
| BangumiUtils.LowerKeepsOccurrence | packages/client_v2/src/lib/bangumi-utils.ts:20-21 | An occurrence survives lower-casing both strings |
| BangumiUtils.SearchFindsTitle | packages/client_v2/src/lib/bangumi-utils.ts:18-22 | A text found in the Chinese title, or in the title when there is none, keeps the show. With a Chinese title the original title is ignored |
| BangumiUtils.WeekdayTabsPartition | packages/client_v2/src/lib/bangumi-utils.ts:24-27 | The ALL tab keeps every show, and each show is in exactly its own weekday's tab |
| BangumiUtils.NewBangumiIsCurrentSeason | packages/client_v2/src/lib/bangumi-utils.ts:29-33 | A show is new exactly when it starts in today's quarter, so every new show is a recent one |
| BangumiUtils.ItemSortAntisymmetric | packages/client_v2/src/lib/bangumi-utils.ts:40-55 | Swapping the shows flips the comparator's sign; a show compares equal to itself |
| BangumiUtils.ItemSortTransitiveWithinClass | packages/client_v2/src/lib/bangumi-utils.ts:40-55 | Among shows that all have, or all lack, a broadcast time, the comparator is transitive |
| BangumiUtils.ItemSortCycle | packages/client_v2/src/lib/bangumi-utils.ts:46-54 | Three shows on one weekday, two with broadcast times and one without, form a cycle |
| BangumiUtils.ItemSortCorrectedAgrees | packages/client_v2/src/lib/bangumi-utils.ts:40-55 | The corrected comparator gives the original's answer whenever both shows have, or both lack, a broadcast time |
| BangumiUtils.ItemSortCorrectedIsOrder | packages/client_v2/src/lib/bangumi-utils.ts:40-55 | The corrected comparator is antisymmetric, reflexive-zero and transitive on all shows |
| BangumiUtils.ItemSortCorrectedBreaksCycle | packages/client_v2/src/lib/bangumi-utils.ts:40-55 | The three shows of the cycle are put in one consistent order |
| BangumiUtils.HoistWatchingItems | packages/client_v2/src/lib/bangumi-utils.ts:58-62 | The result is a permutation of the input with every watched show before every unwatched one |
| BangumiUtils.HoistKeepsOrder | packages/client_v2/src/lib/bangumi-utils.ts:58-62 | The watched block and the unwatched block each keep the input order |
| BangumiUtils.HoistNothingWatched | packages/client_v2/src/lib/bangumi-utils.ts:58-62 | With nothing watched the list is unchanged |
| BangumiUtils.HoistIdempotent | packages/client_v2/src/lib/bangumi-utils.ts:58-62 | Hoisting twice is hoisting once |
| BangumiUtils.GetBroadcastTimeString | packages/client_v2/src/lib/bangumi-utils.ts:65-82 | The Japanese time is the show's broadcast. The Chinese time is non-empty exactly when some site's metadata has a broadcast, and it is the first such one |
| BangumiUtils.QuarterToMonth | packages/client_v2/src/lib/bangumi-utils.ts:95-98 | Quarters 1..4 give their first month, 1, 4, 7 or 10; anything else gives "" |
| BangumiUtils.FormatSeason | packages/client_v2/src/lib/bangumi-utils.ts:85-92 | Text that is not four digits, `q` and a digit is returned as is. Otherwise it becomes year + "年" + month + "月" |
| BangumiUtils.FormatSeasonOfQuarter | packages/client_v2/src/lib/bangumi-utils.ts:85-92 | The season key `process` writes for a quarter formats as its year and first month |
| BangumiUtils.FormatSeasonParts | packages/client_v2/src/lib/bangumi-utils.ts:85-92 | A well-formed key with quarter 1..4 formats to year + "年" + the quarter's first month + "月" |
| RssParser.Leftmost | packages/client_v2/src/lib/rss-parser.ts:34 | The leftmost position that matches, with none before it; none means no position matches |
| RssParser.Bracketed | packages/client_v2/src/lib/rss-parser.ts:48 | A bracket group starts at the opening bracket and runs to the first closing one |
| RssParser.BracketedExact | packages/client_v2/src/lib/rss-parser.ts:48 | A group without a closing bracket inside, between the two brackets, is what `Bracketed` returns |
| RssParser.DigitPrefix | packages/client_v2/src/lib/rss-parser.ts:37-42 | The longest run of leading digits |
| RssParser.EpisodeAtIff | packages/client_v2/src/lib/rss-parser.ts:34 | The episode pattern matches at an index exactly when a bracketed episode token starts there |
| RssParser.EpisodeToken | packages/client_v2/src/lib/rss-parser.ts:34 | What is found is one or two digits with an optional `v` and digits |
| RssParser.EpisodeTokenFirst | packages/client_v2/src/lib/rss-parser.ts:34 | The first bracketed episode token in the title is the one found |
| RssParser.EpisodeTokenAbsent | packages/client_v2/src/lib/rss-parser.ts:34 | A title with no bracketed episode token gives none |
| RssParser.EpisodeNumber | packages/client_v2/src/lib/rss-parser.ts:37-43 | An episode number is below 100 |
| RssParser.EpisodeVersion | packages/client_v2/src/lib/rss-parser.ts:37-40 | A version exists exactly when the token has a `v`, and it is `v` followed by digits |
| RssParser.LeadingGroup | packages/client_v2/src/lib/rss-parser.ts:48 | A leading group is a non-empty bracket group at index 0 |
| RssParser.CornerGroup | packages/client_v2/src/lib/rss-parser.ts:49 | A corner-bracket group is non-empty and holds no closing corner bracket |
| RssParser.SubGroup | packages/client_v2/src/lib/rss-parser.ts:47-58 | The first pattern that matches wins: the leading bracket group, then the corner-bracket group. A group is never empty |
| RssParser.ResolutionAtIff | packages/client_v2/src/lib/rss-parser.ts:61 | The resolution matches at an index exactly when 3 or 4 digits and a `p` or `P` start there. The 4-digit form is preferred |
| RssParser.Resolution | packages/client_v2/src/lib/rss-parser.ts:61-64 | A resolution is 3 or 4 digits followed by an upper-case `P` |
| RssParser.Format | packages/client_v2/src/lib/rss-parser.ts:83-86 | A format is one of MP4, MKV, AVI |
| RssParser.FirstRuleValue | packages/client_v2/src/lib/rss-parser.ts:75-80 | A value is found exactly when some rule matches, and it is the value of the first rule that matches |
| RssParser.ParseRssTitle | packages/client_v2/src/lib/rss-parser.ts:19-105 | The title and the original item are kept and the link is "". The episode is found exactly when the title has an episode token; it is that token's number, below 100, and the version is that token's version. A version comes only with an episode. The group, resolution, format, language and source are the first matches of their patterns |
| RssParser.OrUnknown | packages/client_v2/src/lib/rss-parser.ts:112 | `x \|\| 'unknown'` is never empty |
| RssParser.CollectGroups | packages/client_v2/src/lib/rss-parser.ts:108-117 | The map holds the keys in first-appearance order. Each key's list is the items with that key, in input order, and every item is in exactly one list |
| RssParser.InsertByEpisodeStable | packages/client_v2/src/lib/rss-parser.ts:121 | Inserting keeps the relative order of items with equal episode numbers |
| RssParser.SortByEpisodePerm | packages/client_v2/src/lib/rss-parser.ts:121 | Sorting a group permutes it |
| RssParser.SortByEpisodeSorted | packages/client_v2/src/lib/rss-parser.ts:121 | Sorted by episode, with a missing episode counting as 0 |
| RssParser.SortByEpisodeStable | packages/client_v2/src/lib/rss-parser.ts:121 | `Array.sort` is stable: items with one episode number keep their input order |
| RssParser.SortGroups | packages/client_v2/src/lib/rss-parser.ts:119-122 | Group keys and their order are kept, and each group's items are sorted |
| RssParser.GroupRssItems | packages/client_v2/src/lib/rss-parser.ts:107-123 | Groups come in first-appearance order of their keys. Each group is that key's items, stably sorted by episode, and the groups hold all the items |
| RssParser.GroupKeysDistinct | packages/client_v2/src/lib/rss-parser.ts:107-123 | No key names two groups |
| RssParser.GroupsCover | packages/client_v2/src/lib/rss-parser.ts:107-123 | Every item lands in the group of its own key |
| Preference.SetCommon | packages/client_v2/src/stores/preference.ts:30-32 | Every field of the given preference, its version included, is copied into the store |
| Preference.SetBangumi | packages/client_v2/src/stores/preference.ts:33-35 | The watching list and its version are copied into the store |
| Preference.SetForgetsStore | packages/client_v2/src/stores/preference.ts:30-35 | After a set the earlier contents no longer matter |
| Preference.UpdateCommon | packages/client_v2/src/stores/preference.ts:36-41 | Each field the update gives is overwritten, each field it omits is kept, and the version becomes now |
| Preference.UpdateCommonLaws | packages/client_v2/src/stores/preference.ts:36-41 | An empty update moves only the version. Two updates in a row equal one merged update, and repeating an update moves only the version |
| Preference.ToggleWatching | packages/client_v2/src/stores/preference.ts:42-54 | An absent id is appended; a present one loses its first occurrence, the rest kept in order. The version always becomes now |
| Preference.AddWatching | packages/client_v2/src/stores/preference.ts:55-62 | An absent id is appended and the version becomes now. A present id changes nothing, not even the version |
| Preference.RemoveWatching | packages/client_v2/src/stores/preference.ts:63-71 | A present id loses its first occurrence, the rest kept in order, and the version becomes now. An absent id changes nothing |
| Preference.ToggleIsAddOrRemove | packages/client_v2/src/stores/preference.ts:42-71 | Toggle is remove for a watched id and add for an unwatched one |
| Preference.RemoveKeepsOthers | packages/client_v2/src/stores/preference.ts:63-71 | Removal keeps every other id, in order |
| Preference.RemoveFromDistinct | packages/client_v2/src/stores/preference.ts:63-71 | On a duplicate-free list, removal leaves no trace of the id and the list stays duplicate-free |
| Preference.AddKeepsDistinct | packages/client_v2/src/stores/preference.ts:55-62 | Adding keeps a list duplicate-free |
| Preference.AddIdempotent | packages/client_v2/src/stores/preference.ts:55-62 | Adding twice is adding once |
| Preference.RemoveUndoesAdd | packages/client_v2/src/stores/preference.ts:55-71 | Removing an id just added restores the list |
| Preference.ToggleTwiceRestores | packages/client_v2/src/stores/preference.ts:42-54 | Toggling an unwatched id twice restores the list |
| Preference.ToggleTwiceMovesToEnd | packages/client_v2/src/stores/preference.ts:42-54 | Toggling a watched id twice moves it to the end of the list |
| UserStore.Login | packages/client_v2/src/stores/user.ts:20-24 | Signed in with the user's id and email; the state is consistent |
| UserStore.Logout | packages/client_v2/src/stores/user.ts:25-29 | Signed out with no id and no email; the state is consistent |
| UserStore.LoginLogoutLaws | packages/client_v2/src/stores/user.ts:11-29 | Logout always gives the initial state. A login forgets who was signed in before, and logout after login is the initial state. The initial state is consistent |

## Left out

- File persistence of the caches and the catalogue (load, save, `read`, `update`) is left out: it is I/O. The model starts from maps and item lists.
- The daily cron schedule, the retry timer, the sleeps between chunks and retries, and `startCacheRefreshScheduler` / `stopCacheRefreshScheduler` are left out. The retry timer becomes a `retryPending` flag.
- The concurrency of one chunk (`Promise.all`) and the `activeRequests` throttle of the RSS service are left out. The shows of a chunk are processed one after another, and chunking is proved irrelevant to the result.
- `initialCacheRefresh` and `triggerCacheRefresh` are left out: they only log and call `refreshAllCaches`. So are the `isRefreshingCache` and `isLoaded` getters.
- The clock is one `now` per pass; the code reads `Date.now()` at every write. Timestamps within a pass are therefore equal in the model.
- `process` with no data loaded (`if (!this.data) return`) is left out: the catalogue is always given.
- md5 and the pinyin titles are left out. md5 is a parameter `hash`, and `generatePinyinTitltes` is not modelled.
- Moment and date-fns time zones are left out. Dates are (year, month) pairs in one zone.
- Parsing the XML, the HTTP headers, the proxy settings and the redirect limit of axios are left out. The parser and the server answers are parameters.
- `URLSearchParams` percent-decoding is left out: only `&`-separated `name=value` pairs are split.
- Size, magnet link and info hash in `parseRssTitle` are left out: they are string building from the enclosure URL.
- Case folding is ASCII only, and `localeCompare` is modelled as ordinal comparison (`StrCompare`). Unicode case folding and locale collation are outside the model.
- The client's `User` type is kept to the id and email that the store reads.
- UpdateCommon: a partial update that sets a field explicitly to `undefined` is not modelled. An absent field is `None`.
- Orchestrator.EnrichItemsWithImages: the code does not test `isEmpty`, so negative cache entries are overlaid too. A show with a negative image entry gets the no-cover URL; one with a negative preview entry gets a player link with an empty bvid.
- Orchestrator.EnrichItemsWithImages: the model returns new show values and leaves the catalogue alone. The code copies only the array and assigns the overlays onto the shared show objects, so the catalogue's shows keep the overlaid values. Such a value outlives its cache entry's expiry, and a later call falls back to it instead of the show's original field. That aliasing is not modelled.
- MikanRss.EnvNumberOr: configured values are integers. A non-integer setting such as `RSS_MAX_RETRIES=2.5` (`Number` gives 2.5) is not modelled, and neither is a non-numeric one (`NaN`, which falls back to the default like 0).
- MikanRss.RetryLoop: the number of attempts is an integer, for the same reason.
- Orchestrator.FailedOf: every failure is typed `image`, as the code writes it. A failure in the preview or feed step is therefore retried as an image fetch.
- Orchestrator.RefreshRss: the feed key passed to the RSS service is the raw Mikan id, as the code passes it, not the feed URL. The service then requests that text as a URL; MikanRss.RawIdReferrer states the referrer it builds for it.

## Findings

| source | as written | input that shows it | evidently intended | confidence | as-written member | corrected member |
|---|---|---|---|---|---|---|
| packages/client_v2/src/lib/bangumi-utils.ts:46-54 | On one weekday, two shows are compared by broadcast time only when both have one; otherwise by title. The comparator is not transitive, so `Array.sort` may order the list arbitrarily | Same weekday. a: title "z", broadcast "1". b: title "m", no broadcast. c: title "a", broadcast "2". Then a < c by broadcast, c < b by title, b < a by title | A consistent order: broadcast time among shows that have one, shows with a time before shows without, title last | not executed | BangumiUtils.ItemSortCycle | BangumiUtils.ItemSortCorrectedIsOrder |
