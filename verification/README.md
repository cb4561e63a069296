# Profile backend: verified model

This project models the stateful core of a Go HTTP backend that serves demographic profiles, and proves what
that core promises. It covers:

- the cached query pipeline: query parameters, the filter they denote, its canonical string, the
  namespace-versioned cache key, and the cached or freshly computed answer with its pagination links;
- the chunked CSV import, the CSV export, and the round trip between them;
- the sliding-window rate limiter and the two-stage limiter of the auth endpoints;
- the one-shot stores: PKCE verifiers (section 4 of RFC 7636) and rotating refresh tokens (section 6 of
  RFC 6749);
- the natural-language query parser's choice of aliases and merging of age bounds.

Objects the backend updates in place are classes whose methods are proved equal to a step function on abstract
state; loops are methods with invariants; pure cascades are functions. The main results are about those step
functions: over every run, every interleaving, every table and every filter.

| module | what it holds |
|---|---|
| `Wrappers`, `Text`, `Decimal`, `Ordering` | options and results, trimming and joining, number printing and parsing, sorting under a total order |
| `Profiles`, `Stamps` | the profiles table, selection, ordering, paging, bulk inserts; the text of `created_at` |
| `Normalize`, `Query` | canonical strings, request parsing, what sharing a key means |
| `Pagination` | links and what following them yields |
| `Cache`, `Server`, `Browsing` | the cache, whole requests against store and cache, and a client paging through it |
| `Interleaving`, `Staleness` | the same under concurrency: which stale answers can be reached, what they show, and for how long |
| `Import`, `Export` | CSV in and out |
| `Search` | alias selection and age bounds |
| `RateLimit`, `Pkce`, `Tokens`, `TokenRace` | limiter, verifier store, refresh tokens, and racing redemptions and rotations |

## Where code and documentation disagree

The model follows the code; each of these is proved as a lemma where one is named.

- Cached bodies contain the links of the request that filled the entry (handlers.go:280-311), although the
  comment at handlers.go:276-279 says links are recomputed per request. `Server.HitShowsFillersLinks` says exactly
  when the links are the requester's own; `Browsing.CachedWalkCollectsAll` says that following them is safe anyway.
- An import bumps the cache only when it completes (bulk_import.go:131-133). After one that stops early, a cached
  list is still served, and is stale exactly when one of the rows the import committed matches it:
  `Server.EarlyExitStaleIff`; `Server.ReplayIsFreshIff` says the same of every hit of every run.
- The row limit answers 413 after earlier chunks were committed (bulk_import.go:93-121), not "before any write"
  (SOLUTION.md:143): `Import.RowLimitAfterWriting` for the uploads, `Import.RowLimitWritesNothingIff` for the exact
  condition. Only well-formed records are held against the limit.
- "Admin actions are immediately visible" (SOLUTION.md:61-63) fails for a reader that overlaps a write, because
  `Set` files its body under the namespace of the moment it stores: `Staleness.OverlapIsStale`. An overlapped
  answer is still fresh exactly when no row added since its count matches, or the row deleted did not:
  `Staleness.OverlappedIsFreshIff`.
- "Up-to-5-minute staleness" (SOLUTION.md:61) fails when time passes between such a write and the `Set`, from which
  the cache counts an entry's age: `Staleness.StalerThanTtl`. `Staleness.RightWithinTtlIff` is the exact condition
  under which a served answer was right at some moment within the time to live, and
  `Staleness.BoundHoldsWithoutOverlap` its plain reading.
- `total` and `data` come from two statements without a transaction (store.go:312-347), so a write between them gives
  an answer of no single table: `Staleness.TornAnswer`, with the exact condition in `Staleness.TornIff`.
- Requests that parse to the same filter "share an entry" (SOLUTION.md:91-95) only within one endpoint: list and
  search keys have different prefixes, and `Query.KeyIdentity` says their keys never agree.
- Two thresholds that differ beyond the sixth decimal share a cache key but not an answer:
  `Query.SevenDecimalsCollide`; `Query.SharedKeySameAnswerIff` is the exact condition.
- The offset of a very large page wraps around 64 bits and shows rows that are not on that page:
  `Profiles.HugePageShowsPageOne`; `Profiles.PageIsCutIff` is the exact condition.
- Which alias wins among equally long ones depends on Go's map order: `Search.AliasTie` on the real alias table,
  `Search.OrderIndependentIff` and `Search.NameOrderIndependentIff` for the exact conditions. Each request parses anew,
  so a link of a tied search need not mean the same search: `Search.SearchLinksReadIff`, `Search.ParsesAgreeIff`.
- The two auth stages read the clock separately, and then the per-IP stage can refuse a request its path stage
  accepted, at every limit and window: `RateLimit.SeparateReadingsCanRefuse`; `RateLimit.RefusedByIpIff` is the
  exact condition, `RateLimit.OnlyStraddlersRefuse` its reading on clocks.
- `created_at` is ordered as the stored text, whose fraction has no trailing zeros, and that is not the order in
  time when one fraction begins the other: `Stamps.WholeSecondSortsLast` for the moments,
  `Stamps.TextOrderIsTimeOrderIff` for the exact condition.
- A probability of NaN passes every range check (handlers.go:539-548, bulk_import.go:244-258). As a threshold it
  selects nothing; in an import the row is skipped and reported as a duplicate name:
  `Export.UploadedNaNIsReportedDuplicate` for such a row, `Import.DuplicatesReported` for the exact condition under
  which the number of duplicate names is right.
- A refresh token is read and revoked by separate statements (users.go:148-165), so it is redeemed twice exactly when
  another redeemer has read it by the time one updates it, and updates later: `TokenRace.TwiceIffRace`. A login's
  chain then has a live token more for each late update (`TokenRace.LiveTokensOfChain`), and a logout in between does
  not end the session (`TokenRace.LogoutCanBeOutrun`); a session that is over stays so exactly as long as no such late
  update follows (`TokenRace.DeadStaysDeadIff`).

## Model

| member | source | states |
|---|---|---|
| Decimal.Uint64ToString | cache.go:78-90 | the 20-byte buffer is never underflowed for any 64-bit value, and the result is the decimal numeral |
| Decimal.FormatNatRoundTrip | cache.go:78-90 | a printed number parses back to itself and has no leading zero |
| Decimal.TwentyDigitsSuffice | cache.go:82 | every 64-bit value is below 10^20, which is why 20 bytes are enough |
| Decimal.AtoiFormatInt | pagination.go:29-30 | every 64-bit integer a link prints is read back as the same integer |
| Decimal.AtoiReads | handlers.go:493 | digits with at most one sign, leading zeros included, are read as their number exactly when it fits in 64 bits |
| Decimal.AtoiRefuses | handlers.go:493 | an empty text, a lone sign, and any text with a character out of place are refused |
| Decimal.LeadingZerosRead | handlers.go:493 | any number of leading zeros changes nothing |
| Decimal.MicrosIsNearest | normalize.go:88 | the six printed decimals are the nearest ones, of two equally near ones the even one |
| Decimal.FormatIntInjective | normalize.go:32-37 | distinct ages, pages and limits print differently |
| Decimal.TrimMicrosShape | normalize.go:87-95 | a trimmed number of millionths is a whole part, or a whole part, a dot and a fraction that does not end in 0 |
| Decimal.TrimMicrosInjective | normalize.go:87-95 | trimming trailing zeros and dot loses nothing: distinct millionths print differently |
| Decimal.TrimPlacesInjective | normalize.go:87-95 | the same for all that is printed, the signed zero and NaN included |
| Decimal.TrimFloatInjective | normalize.go:87-95 | two probabilities print alike exactly when they agree to six decimals |
| Cache.VersionedInjective | cache.go:39-43 | distinct (key, namespace) pairs have distinct lookup keys, whatever characters the keys hold |
| Cache.QueryCache.Get | cache.go:45-58 | returns exactly the entry under the current namespace's key |
| Cache.QueryCache.Set | cache.go:60-67 | stores under the namespace of the moment it stores and changes nothing else |
| Cache.QueryCache.Bump | cache.go:71-76 | adds one to the namespace modulo 2^64 and touches no entry |
| Profiles.BuildWhere | store.go:275-307 | the clauses appended for a filter hold of a profile exactly when the filter matches it |
| Profiles.MatchingIsFilter | store.go:275-307 | the selection holds each matching row as often as the table does, and nothing else |
| Profiles.RowOrderIsTotal | store.go:344 | ordering by a column in either direction and then by id is a total order on any table with unique ids |
| Profiles.AllMatchingIsSortedSelection | store.go:364-406 | the full answer is sorted, holds every matching profile once, and no other |
| Profiles.TotalIsMatches | store.go:312-319 | the total is the number of rows in the table that match |
| Profiles.ListedByAge | store.go:321-344 | sorted by age, an earlier row is never older unless "desc" is asked for in whatever case, then never younger; rows of one age stand in id order both ways |
| Profiles.ListedByProbability | store.go:321-344 | the same by gender probability |
| Profiles.ListedByCreation | store.go:321-344 | the same by creation text, which also serves when no known column is asked for |
| Profiles.ReachesIff | store.go:298-305 | a probability passes a threshold exactly when it is at least as large; NaN passes none and is passed by none |
| Profiles.AnswerIgnoresStorageOrder | store.go:309-406 | the answer depends on which rows the table holds, not on the order it stores them in |
| Profiles.PageIsCutIff | store.go:330-345 | a page is the slice its number promises exactly when its offset fits in 64 bits, or the wrapped offset lies past the end too, or nothing matches |
| Profiles.HugePageShowsPageOne | store.go:338 | the last representable page with two rows a page wraps and shows the first row |
| Profiles.PageLength | store.go:338-345 | every page before the last is full, the last is not empty, every later one is empty |
| Profiles.PagesPartition | pagination.go:15-18 | pages 1 to total_pages concatenated are the whole answer |
| Profiles.FirstRowOfEachNameWins | store.go:187-213 | with fresh ids, inserting a list row by row adds exactly the first storable row of each name the table lacks |
| Profiles.NothingAddedIff | store.go:187-213 | inserting a list changes nothing exactly when each of its profiles was already taken |
| Profiles.SkippedSplit | store.go:187-217 | with fresh ids, the inserts skipped are those whose name was taken when their turn came and those that cannot be stored with a name still free |
| Profiles.InsertAllAppend | store.go:174-178 | splitting a list of inserts at any point makes no difference to the table |
| Profiles.InsertAllKeepsTable | store.go:56-68 | inserts keep ids and names unique and the old rows in place |
| Profiles.WithoutIdKeepsTable | store.go:232-245 | deletion keeps the constraints and removes the rows with that id and only those |
| Profiles.Store.Insert | store.go:221-230 | inserts exactly when neither id nor name is taken, else changes nothing |
| Profiles.Store.BulkInsertIgnore | store.go:179-219 | a committed transaction has the effect of one insert-or-ignore per row with exact inserted and duplicate counts; a failed one leaves the table as it was |
| Profiles.Store.Delete | store.go:232-245 | reports not found exactly when the id is absent; the table is the old one without that id |
| Profiles.Store.List | store.go:309-362 | returns the filter's page and the number of all matching rows |
| Profiles.Store.ListAll | store.go:364-406 | returns all matching rows in order, and their number |
| Normalize.AppendParts | normalize.go:23-67 | the parts appended one by one are those of the normal form, present exactly when their value is |
| Normalize.CanonicalFilter | normalize.go:20-74 | the string built step by step is the rendering of the filter's normal form under the prefix |
| Normalize.PartsInOrder | normalize.go:69-73 | the canonical string is the prefix, a colon, and the rendered fields joined in alphabetical order |
| Normalize.PartsSayPaging | normalize.go:62-67 | page, limit, sort column and direction are always among them, under their names |
| Normalize.PartsSayTexts | normalize.go:23-31 | gender, country and age group are, when given |
| Normalize.PartsSayBounds | normalize.go:32-43 | and so are the age bounds and the thresholds |
| Normalize.CanonicalInjective | normalize.go:11-74 | canonical strings are equal exactly when prefixes and normal forms are, so the sorted join can be read back |
| Query.ParseSort | handlers.go:472-485 | accepts exactly the known columns and directions, trimmed, with the direction in lower case |
| Query.ParsePageLimit | handlers.go:487-510 | accepts exactly pages and limits from 1, with defaults 1 and 10 and the limit capped at 50 |
| Query.ParseListQuery | handlers.go:402-470 | accepts exactly when every parameter is acceptable on its own, and fills each field from its own parameter |
| Query.SelectionAcceptedIff | handlers.go:406-453 | exactly which selection parameters are acceptable: known words in any case, two letters, numbers from 0, probabilities in the unit range |
| Query.SortAcceptedIff | handlers.go:472-485 | exactly the three columns and, in any case, the two directions |
| Query.PagingAcceptedIff | handlers.go:487-510 | exactly the numbers from 1 on |
| Query.RequestSelects | store.go:275-307 | a row is in the full answer exactly when it is in the table and meets every parameter the request gives: words up to case, ages between the bounds, probabilities no smaller than the thresholds |
| Query.RequestPages | handlers.go:487-510 | page 1 and limit 10 unless the request says otherwise, its own numbers if it does, with limits over 50 cut to 50; its own column and direction |
| Query.AcceptedIsValidated | handlers.go:402-510 | an accepted request's filter is well formed: known words, two upper-case letters, page and limit in range |
| Query.ValidatedNormalForm | normalize.go:45-60 | normalizing a well-formed filter only fills the sort defaults and rounds the thresholds |
| Query.KeyIdentity | normalize.go:20-84 | well-formed list and search requests share a canonical string exactly when endpoint and normal form agree |
| Query.SixDecimalsSuffice | normalize.go:86-95 | with six-decimal thresholds, equal normal forms mean equal thresholds |
| Query.ReadBackSuffices | normalize.go:86-95 | so too for any float parser, when each threshold is what parsing its own printed decimals gives |
| Query.SameAnswer | store.go:275-362 | equal normal forms and thresholds give the same page, limit, total, total_pages and data on every store |
| Query.SharedKeySameAnswerIff | normalize.go:86-95 | requests that share a key have the same answer on every table exactly when their thresholds agree beyond six decimals, or the filter selects nothing (crossed age bounds, or a NaN threshold) |
| Query.SevenDecimalsCollide | normalize.go:88 | thresholds 0.5 and 0.5000001 share a key, and a profile at 0.5 tells them apart |
| Pagination.AddAll | pagination.go:25-27 | adding values one by one under a new key gives the key exactly those values in order |
| Pagination.MakeLink | pagination.go:19-32 | a link carries the request's own parameters, values in order, with only page and limit replaced |
| Pagination.BuildPagination | pagination.go:14-43 | total_pages, and next and prev exactly when there is such a page to go to |
| Pagination.LinkReparses | pagination.go:19-32 | a list link is accepted and read as the same filter with only the page changed |
| Pagination.ListReadsLinks | handlers.go:269-315 | so list requests read every link they issue as intended |
| Pagination.RelinkingKeepsParams | pagination.go:19-32 | a link made from a link is the link made from the request: other parameters never drift |
| Pagination.ResponseIsCut | pagination.go:33-42 | each page's response is its own cut of the answer, and its links lead to the neighbouring pages of the same filter |
| Pagination.LinksLeadTo | pagination.go:19-43 | the links lead to the request's own path and read as its filter at its own page, the next, and the one before; there is a next one exactly when the pages so far do not hold everything, a previous one exactly past page 1 of a non-empty answer |
| Pagination.FollowingNextVisitsEachPage | pagination.go:34-37 | from any page, following next visits each page up to the last once, in order, and stops there, for every larger number of steps allowed |
| Pagination.FollowingNextCollectsAll | pagination.go:34-37 | starting at page 1 and following next collects the full answer, each row once and in order |
| Pagination.PrevUndoesNext | pagination.go:33-41 | the prev link of the next page is the self link one came from |
| Pagination.FollowingPrevReachesOne | pagination.go:38-41 | from any page, even past the end, prev counts down page by page to page 1 when anything matches |
| Server.ApiServer.ListProfiles | handlers.go:269-316 | refines the list step: refuse, hit, or compute and remember |
| Server.ApiServer.SearchProfiles | handlers.go:318-386 | refines the search step, under its own key prefix |
| Server.ApiServer.CreateProfile | handlers.go:159-229 | refines the create step: refused on a taken name, ignoring case, else inserted and bumped |
| Server.CreateReply | handlers.go:159-228 | a create is written exactly when no row has the name in whatever case, the id is new and nothing is missing; then the table has that one row more and a new namespace, else nothing changes |
| Server.ApiServer.DeleteProfile | handlers.go:253-267 | refines the delete step: bumped exactly when a row was deleted |
| Server.DeleteReply | handlers.go:253-267 | a delete is written exactly when a row has the id; then exactly that row is gone and the namespace is new |
| Server.ApiServer.ImportProfiles | bulk_import.go:60-135 | refines the import step: bumped exactly when completed with new rows |
| Server.ImportReply | bulk_import.go:60-135 | refused at once without the required columns; otherwise the table is what its rows make, and the namespace is new exactly when it completed and the table grew |
| Server.ListIsWellFormed | handlers.go:402-470 | every list request meets the hypothesis of the results on hits |
| Server.SearchIsWellFormed | handlers.go:325-346 | and so does every search request as ParseNL parsed it |
| Server.KeyMeansFilter | cache.go:39-43 | requests that meet in one cache slot have one namespace, endpoint and normal form, and the same answer on every table exactly when their thresholds agree or they select nothing |
| Server.StepKeepsInv | handlers.go:128-386 | every request keeps the invariant: table constraints, no entry under a later namespace, every reachable entry a replay of an earlier reply |
| Server.ReadReply | handlers.go:280-315 | an accepted list or search request is either a hit or answered with exactly the body an uncached server sends, and leaves the table alone |
| Server.AnsweredIff | handlers.go:269-346 | exactly which requests are answered at all |
| Server.OthersAreNotAnswered | handlers.go:269-340 | every other list or search request is refused and changes nothing |
| Server.HitsAreReplays | handlers.go:280-311 | in every run, whatever its thresholds, a hit is what an uncached server would send an earlier request of the same normal form, on the table as it was at some moment since the last bump |
| Server.AppendedRowsChangeAnswerIff | store.go:309-362 | rows appended to a table change a filter's answer exactly when one of them matches |
| Server.DeletedRowChangesAnswerIff | store.go:232-245 | deleting a row changes a filter's answer exactly when the row matched |
| Server.ReplayIsFreshIff | handlers.go:280-311 | such a hit is current exactly when no row committed since matches, and then shows the requester's own links exactly when the other parameters agree |
| Server.HitsAreFresh | handlers.go:280-311 | in every run, with entries vanishing at any time, a hit answers as an uncached query would now, when the requests for its key agree on thresholds and no row committed without a bump matches |
| Server.QueriesShow | handlers.go:295-304 | an uncached answer carries the page and limit asked for, the number of matching rows as total, as many pages as they fill, and, while its offset fits in 64 bits, the rows of that page |
| Server.RepliesShow | handlers.go:269-386 | over every run, hit or miss, on both endpoints: page, limit, total, total_pages and data are those of the table as it is now, under the same conditions, and the links are made for a request of the same normal form, the requester itself on a miss |
| Server.NextLinkAsksOn | pagination.go:31-36 | a next link exists exactly when rows remain, and is routed to the same endpoint, which reads it as the same filter at the next page |
| Server.OnlyEarlyExitsUnsettle | bulk_import.go:101-128 | only an import that stopped early commits rows without a bump; it leaves entries and namespace alone |
| Server.CleanRunsAreFresh | bulk_import.go:131-133 | in runs whose refused requests commit nothing and whose thresholds read back, every hit is fresh |
| Server.EarlyExitStaleIff | bulk_import.go:101-128 | a list just cached is still a hit after an import that stopped early, and is fresh exactly when no row the import committed matches it |
| Server.SecondFlushFailureIsStale | bulk_import.go:114-119 | every upload with more than 500 valid rows whose second flush fails leaves a stale empty list, when its first row can be stored and matches |
| Server.LinksAgreeIff | pagination.go:19-43 | links made for one page agree exactly when both requests agree on all parameters but page and limit |
| Server.HitShowsFillersLinks | handlers.go:276-286 | a list that hits another's entry gets a fresh answer, and its own links exactly when the two agree on all parameters but page and limit |
| Server.ForeignParamGetsForeignLinks | handlers.go:280-311 | whoever adds an unknown parameter to a list just cached gets the right answer with links that drop it |
| Browsing.AnyReplyIsPage | handlers.go:269-316 | hit or miss, a list request gets its own page of the list, and a next link that leads to the following page of the same list |
| Browsing.CachedWalkCollectsAll | handlers.go:269-316 | after any run with nothing unsettled, following next from page 1 through the cache, entries vanishing meanwhile, collects the full answer once and in order |
| Interleaving.StepKeepsInv | cache.go:39-76 | every step of every reader and writer, with the two queries of a read apart, keeps the invariant about entries, readers and pending bumps |
| Interleaving.StaleOnlyByOverlap | handlers.go:280-311 | in any interleaving, a reachable answer is the current one for a filter of the same normal form, or some mutation was written after its count; each such mutation is still unbumped or was written and bumped between that count and its Set |
| Interleaving.NoOverlapMeansFresh | handlers.go:280-311 | an answer is fresh as soon as every mutation it missed was bumped, and none before its Set; mutations it already shows do not matter |
| Staleness.EntriesAreSnapshots | store.go:312-347 | in every interleaving each total and each page, cached or on its way, is that of the table at the moment of its own query |
| Staleness.TornIff | store.go:312-347 | an answer whose rows were written between count and select is that of the later table exactly when none of them matches, and that of the earlier one exactly when they leave the page alone |
| Staleness.TornAnswer | store.go:312-347 | a first matching row written between the two queries yields total 0 with a page of one row |
| Staleness.OverlappedIsFreshIff | handlers.go:289-311 | an answer whose table was since appended to is current exactly when no new row matches, and one whose table lost a row exactly when that row does not |
| Staleness.RightWithinTtlIff | cache.go:25-37 | with rows only appended, a served answer was right at some moment within ttl exactly when no row added between its count and the first such moment matches and the page was that moment's; the second half is implied once the page was selected by then |
| Staleness.BoundHoldsWithoutOverlap | cache.go:25-37 | so an unexpired entry was right within ttl whenever no write falls between its count and its Set |
| Staleness.OverlapIsStale | cache.go:60-67 | from any state with a reader that missed, count, select, Write, Bump, Set leaves a stale answer in reach |
| Staleness.StalerThanTtl | cache.go:60-67 | if time passes between that Write and that Set, the answer served at an age of exactly ttl differs from the uncached one at every moment within ttl |
| Staleness.PendingBumpIsStale | handlers.go:213-227 | so does a Write whose bump is still to come leave a stale answer in reach |
| Import.BuildHeaderIndex | bulk_import.go:193-208 | accepts exactly the headers with all required columns and maps each column to its last position; an error names a missing one |
| Import.IndexedColumnsExist | bulk_import.go:193-198 | a column is indexed exactly when the header names it, up to case and white space |
| Import.ParsedRowsAreValid | bulk_import.go:213-280 | every row that passes the checks is a well-formed profile |
| Import.ReasonIff | bulk_import.go:222-263 | exactly which cells give which reason, in the order of the checks |
| Import.RowPassesIff | bulk_import.go:213-280 | exactly which rows pass, and which value of the profile comes from which column, the default probability, the country name and the age group included |
| Import.VerdictIgnoresCase | bulk_import.go:226-241 | the case of the gender and country cells makes no difference |
| Import.VerdictIgnoresSpace | bulk_import.go:214-220 | nor does white space around any cell |
| Import.SpoiledCell | bulk_import.go:213-280 | spoiling one cell of an accepted row has it rejected for that cell's own reason; spoiling an unknown column changes nothing |
| Import.AgeGroupIsRange | classify.go:3-14 | on imported profiles, asking for an age group selects the rows that asking for its ages selects |
| Import.FlushChunk | bulk_import.go:139-150 | a flush adds its inserted and duplicate counts to the summary, or changes neither table nor summary when the transaction fails |
| Import.TakeRecord | bulk_import.go:89-113 | one record's effect: stop at the limit, count one reason, or buffer the profile |
| Import.StreamRecords | bulk_import.go:85-129 | the chunked loop, whose invariant keeps less than one chunk buffered, ends with whole chunks stored and counters that match the records read, for every chunk size |
| Import.ImportRecords | bulk_import.go:85-135 | the chunked import has the effect of the row-by-row reference, on every input and every pattern of failures |
| Import.CompletedIsRowByRow | bulk_import.go:85-129 | whatever the chunk size, a completed import leaves the table one insert per valid row leaves: the old rows, then the first row of each new name |
| Import.FaultlessCompletesIff | bulk_import.go:99-105 | without storage failures an import completes exactly when no readable record lies past the row limit |
| Import.RowLimitExact | bulk_import.go:99-105 | an upload of readable rows without storage failures goes through exactly up to 500,000 of them |
| Import.ChunkSizeIrrelevant | bulk_import.go:18-22 | imports that complete with different chunk sizes leave the same table and report the same summary |
| Import.RecordsPartition | bulk_import.go:107-113 | every record is valid or rejected for exactly one reason |
| Import.CompletedCounts | bulk_import.go:88-150 | total_rows is inserted plus skipped, skipped is the sum of the reasons, each reason's count is exact, inserted is the growth of the table and at most 500,000 |
| Import.EarlyExitKeepsWholeChunks | bulk_import.go:99-128 | an early exit leaves exactly the valid rows of the first k chunks inserted, k counting all full chunks at the row limit and the flushes before the failed one otherwise; the table is unchanged exactly when all those rows were taken |
| Import.RowLimitWritesNothingIff | bulk_import.go:100-105 | an upload refused at the row limit wrote nothing exactly when every valid row of its full chunks was already taken |
| Import.RowLimitAfterWriting | bulk_import.go:93-121 | any upload with a readable record past the limit, a full chunk of valid rows before it and a new first row is refused after that row was committed |
| Import.UnstorableIffNaN | bulk_import.go:243-258 | a row that passes the checks cannot be stored exactly when a probability cell reads as NaN |
| Import.NotANumberCountsAsDuplicate | bulk_import.go:243-258 | such a row is never stored and is reported as a duplicate name, whatever the table holds |
| Import.DuplicatesReported | bulk_import.go:139-148 | a completed import reports as duplicate names the rows whose name was taken in their turn plus those that cannot be stored with a name still free; the report is right exactly when there are none of the latter |
| Import.ReimportAddsNothing | store.go:187-213 | importing the lines of a completed import again, with new ids and times, inserts nothing and leaves the table as it is |
| Import.SecondFlushFails | bulk_import.go:114-119 | when the second flush fails, exactly the first chunk of valid rows is stored |
| Import.ImportKeepsTable | store.go:56-68 | however it ends, an import keeps the constraints and every old row |
| Import.ImportAppends | store.go:187-213 | however it ends, an import only appends |
| Import.NothingInserted | bulk_import.go:131-133 | a completed import that inserted nothing left the table unchanged, so skipping the bump is safe |
| Export.ExportProfiles | export.go:11-46 | writes the header and one row per matching profile in the order asked for, or refuses |
| Export.CellsUnderHeader | export.go:35-45 | each cell stands under the header's own name for its value |
| Export.HeaderIsComplete | export.go:35 | the header has each of the ten columns once |
| Export.LastPositionWins | bulk_import.go:194-198 | a column is read at the last position its name stands at |
| Export.SameVerdictAfterReorder | bulk_import.go:213-280 | permuting header and cells alike changes no row's verdict |
| Export.ColumnOrderIrrelevant | bulk_import.go:29-31 | nor the import's table, outcome and summary |
| Export.ExportedRowParses | export.go:35-45 | an exported row of an import-valid profile passes the checks and gives back its data |
| Export.UploadedNaNIsReportedDuplicate | export.go:35-45 | any exported row with NaN written for its gender probability is accepted by the import, not stored, and reported as a duplicate name, even into an empty table |
| Export.RoundTrip | export.go:35-45 | exporting a whole store of at most 500,000 import-valid profiles and importing into an empty one with fresh ids and no storage failure inserts every row, skips none, and reproduces name, gender, age, age group, country and both probabilities |
| Export.RoundTripInAnyColumnOrder | export.go:35-45 | the same when the exported file's columns are permuted before the import |
| Search.MoveDown | search.go:210-212 | the inner loop moves one string down past everything shorter, by swaps in place |
| Search.SortByLenDesc | search.go:208-215 | the array ends as the stable insertion sort of its old contents |
| Search.SortedByLenIsStableSort | search.go:208-215 | that is a permutation, longest first, with equal lengths in their old order |
| Search.FindFirst | search.go:91-98 | the scan returns the first string that occurs |
| Search.ChoiceIsLongest | search.go:90-98 | sorting and taking the first match chooses a longest match, and one whenever anything matches |
| Search.AnyLongestCanBeChosen | search.go:200-206 | each longest match is chosen under some enumeration order |
| Search.OrderIndependentIff | search.go:155-178 | the target is the same for every enumeration order exactly when all longest matches lead to one target |
| Search.EveryOrderChooses | search.go:90-98 | every map order chooses the value of a longest occurring key |
| Search.SomeOrderChooses | search.go:200-206 | and each such value is chosen under some map order, from any order to start with |
| Search.AliasTie | search.go:24-40 | with just "kids" and "teen" in the text, some map order chooses child and another teenager |
| Search.Lookup | search.go:156-162 | the value found is the one the map order at hand chooses, that of a longest occurring key |
| Search.LookupName | search.go:164-178 | the code found is the one the walk over the codes chooses: the last code met of the longest occurring name |
| Search.EveryWalkChooses | search.go:164-178 | every walk chooses a code that bears a longest occurring name |
| Search.SomeWalkChooses | search.go:164-178 | and each such code is chosen by some walk, repeated names included |
| Search.NameOrderIndependentIff | search.go:164-178 | the country named is the same for every walk exactly when at most one code bears a longest occurring name |
| Search.FindCountry | search.go:155-185 | an alias wins over a name, a name over a two-letter code |
| Search.MergeAges | search.go:100-153 | the assignments amount to: explicit limits over ranges, "young" and "old" fill gaps, an exact age only when nothing else was said |
| Search.ParseNL | search.go:68-196 | the result is the interpretation of the found phrases under a longest alias and country, or none when the bounds cross |
| Search.LimitsSetBounds | search.go:120-131 | "above n" makes n the minimum age and "below n" the maximum, whatever else the text says |
| Search.RangeSetsBounds | search.go:100-118 | a range sets the bounds no explicit limit sets, the smaller number as the minimum |
| Search.WordsFillGaps | search.go:133-145 | "young" is 16 to 24 and "old" from 60, each only where nothing before set the bound |
| Search.ExactAgeAlone | search.go:147-153 | an exact age sets both bounds when no other age phrase was found; with none at all there are no bounds |
| Search.CrossedLimits | search.go:191-193 | an upper limit under the lower one gives the empty, unmatched result |
| Search.GenderAsked | search.go:77-88 | one gender named gives that gender, both or none give none |
| Search.MatchedIff | search.go:68-196 | a text is understood exactly when it is not blank, its bounds do not cross, and some phrase of it was found |
| Search.GroupAndCountryAsked | search.go:90-98 | the age group is that of a longest alias in the text, and none without one; no threshold is set |
| Search.AliasDecidesCountry | search.go:155-162 | with a country alias in the text, the country is that of one at least as long |
| Search.NameDecidesCountry | search.go:163-178 | without one, a country whose name is in the text and no shorter than any other there |
| Search.CodeDecidesCountry | search.go:179-185 | without either, the two-letter code when it is a known one, else none |
| Search.BoundsNeverCross | search.go:191-193 | a parsed filter's age bounds never cross |
| Search.RangeOrderIgnored | search.go:100-108 | the ends of a range may be given in either order |
| Search.YoungMeansRange | handlers.go:348-349 | "young" and the range 16-24 give the same canonical string, other phrases being equal |
| Search.SearchIsValidated | handlers.go:331-346 | a search request's filter is as well formed as a list request's, with nothing lost in rounding |
| Search.SearchSelects | handlers.go:331-346 | a search is paged and sorted by its own parameters, and selects exactly the rows of the table that have what the text was understood to ask for |
| Search.ParsesAgreeIff | search.go:90-98 | a text has one parse whatever the order of Go's maps exactly when it is not interpreted at all or no tie leads to two age groups or two countries |
| Search.SearchLinksReadIff | handlers.go:318-372 | each request parsing anew, every link of a search means the same search at the link's page exactly when its text has one parse |
| Search.SearchReadsLinks | handlers.go:318-372 | for any fixed choice among tied parses, search requests read every link they issue as the same filter at the link's page |
| RateLimit.RateLimiter.Allow | middleware.go:129-149 | decides and updates one key as the pruning step does, other keys untouched |
| RateLimit.RunIsSound | middleware.go:129-149 | in any run with a nondecreasing clock, kept hits are a suffix of the sorted full log and what was pruned is out of the window |
| RateLimit.DecisionsCountTheLog | middleware.go:129-149 | a request is accepted exactly when fewer than limit accepted requests of its key lie in the window, counted in the full log |
| RateLimit.DecisionByPlace | middleware.go:129-149 | without counting: a request is accepted exactly when the one accepted limit places back, if any, is a window old |
| RateLimit.AtMostLimitInAnyWindow | middleware.go:118-149 | at every instant, for every key, at most limit requests were accepted in the window before it |
| RateLimit.AuthRateLimit | middleware.go:168-186 | refines the two-stage step: path first, then IP and path, nothing recorded for the IP when the path refuses |
| RateLimit.AdmittedIff | middleware.go:168-186 | over every run: admitted exactly when the path's log has room at the first reading and the source's at the second, refused by path exactly when the path's log is full |
| RateLimit.AdmittedBelowLimit | middleware.go:168-186 | as long as fewer than limit requests came before, everyone is admitted |
| RateLimit.FlattenRuns | middleware.go:168-186 | a run of auth requests is a run of the plain limiter |
| RateLimit.AtMostLimitPerPath | middleware.go:172-177 | at most limit requests for a path are admitted in any window over all source IPs together |
| RateLimit.RefusedByIpIff | middleware.go:168-186 | the per-IP stage refuses what the path stage let through exactly when the path's log has room at the first reading and the source's log is full at the second |
| RateLimit.OnlyStraddlersRefuse | middleware.go:172-183 | it never does unless an earlier request of that source and path is outside the window at the first reading and inside it at the second |
| RateLimit.IpStageNeverRefuses | middleware.go:178-183 | so with one clock reading per request the per-IP stage never refuses what the path stage accepted |
| RateLimit.SeparateReadingsCanRefuse | middleware.go:132 | with two readings it can, for every limit and window: a burst of limit requests, the first read on either side of a tick, and one more a window later |
| Pkce.PkceStore.Set | pkce.go:26-35 | stores the verifier, removes what the sweep finds expired, and leaves no entry expired at its start |
| Pkce.PkceStore.PopVerifier | pkce.go:37-49 | returns the verifier exactly when present and unexpired, and always removes the state |
| Pkce.SweepIsInvisible | pkce.go:30-34 | what the sweep removed is expired for good |
| Pkce.ObservablyUnswept | pkce.go:26-49 | at every moment of every run, every pop gives what a store that never sweeps gives |
| Pkce.PopFollowsHistory | pkce.go:37-49 | a pop succeeds exactly when the last call for its state was a Set at most ttl before, with that Set's verifier |
| Pkce.EachSetRedeemedOnce | pkce.go:44 | between two pops of a state, the second successful, there is a Set |
| Tokens.TokenStore.StoreRefreshToken | users.go:133-142 | adds an unrevoked row, refused only when the hash is taken |
| Tokens.TokenStore.FindRedeemable | users.go:144-161 | the read finds the user exactly for a known, unrevoked, unexpired token |
| Tokens.TokenStore.MarkRevoked | users.go:162-166 | the update revokes the row with the hash, revoked already or not, and no other |
| Tokens.TokenStore.ValidateAndRevokeRefreshToken | users.go:144-167 | with nothing between the two, succeeds exactly for a known, unrevoked, unexpired token and then revokes it; otherwise nothing changes |
| Tokens.TokenStore.RevokeRefreshToken | users.go:169-174 | revokes a known unrevoked token and nothing else |
| Tokens.Auth.IssueTokens | auth.go:300-332 | stores the new token with the short or the long lifetime |
| Tokens.Auth.Refresh | auth.go:334-374 | revoke, look the user up, issue, each at its own clock reading: the old token is spent even when the user is refused |
| Tokens.RefreshIff | auth.go:334-374 | succeeds exactly with a known, unrevoked, unexpired token of an active user and a new next token; then the old one is revoked and the next one lives five minutes; no other row changes |
| Tokens.Auth.Logout | auth.go:376-392 | revokes the presented token, if any |
| Tokens.LogoutRevokes | users.go:169-174 | the token named is revoked, at its first revocation time, and no other row changes |
| Tokens.StepOnlyRevokes | users.go:133-174 | rows are never removed; a row changes only by being revoked, once |
| Tokens.RunsAreSound | auth.go:300-392 | in every run each login's chain has at most one unrevoked token, all for one user; each token is redeemed at most once and never after expiry |
| Tokens.RedeemableUntilExpiry | users.go:144-161 | in every run an issued token can be redeemed up to its expiry and not after, unless a refresh or a logout with it came first |
| Tokens.RevokedStaysRevoked | users.go:153-162 | a revoked token stays revoked, at its first revocation time |
| Tokens.SpentTokensAreRefused | users.go:153-155 | after redemption or logout every later attempt is refused and changes nothing |
| Tokens.RotationKeepsChain | auth.go:349-368 | a successful refresh leaves the new token as the chain's only unrevoked one, for the same user |
| Tokens.RefusedUserEndsChain | auth.go:354-362 | a refresh refused for the user's sake leaves the chain with no unrevoked token |
| TokenRace.RunsAreSound | users.go:148-165 | with read and update apart, any two redemptions of one token overlap: the later one's read came before the earlier one's update |
| TokenRace.TwiceIffRace | users.go:148-165 | a token is redeemed twice in a run exactly when at some redeemer's update another redeemer is pending on the same token and updates later |
| TokenRace.BothSucceed | users.go:148-165 | two redeemers that both read before either updates both succeed, from every state |
| TokenRace.ChainsBalance | auth.go:349-363 | in every interleaving, a chain's live tokens, tokens owed and tokens lost add up to one for the login and one for each update that met a revoked row |
| TokenRace.LiveTokensOfChain | auth.go:349-363 | a chain has at most one live token more than its late updates, at most one without any, and exactly one more for each when nothing is owed or lost |
| TokenRace.RaceForksChain | auth.go:349-363 | two redeemers racing on one token leave two live tokens in its chain, from every state |
| TokenRace.LogoutCanBeOutrun | auth.go:376-388 | a logout between a redeemer's read and its update leaves the chain with a live token |
| TokenRace.DeadStaysDeadIff | auth.go:376-388 | a chain with nothing live and nothing owed, as after a logout, stays so exactly as long as no late update on it follows |
| TokenRace.RevokedTokensAreSpent | users.go:153-174 | no interleaving redeems a token that was read after a logout or another redemption revoked it |
| Stamps.FieldsOrder | store.go:162 | padded calendar fields are ordered as text like the fields themselves |
| Stamps.TextOrderIsTimeOrderIff | store.go:344 | ordering by the stored text agrees with time exactly when the two moments are not in one second with one fraction a proper prefix of the other |
| Stamps.WholeSecondSortsLast | store.go:344 | a whole second precedes each fraction of it in time and follows it in the table |

## Left out

- HTTP, cookies, CORS, JSON and URL encoding, status codes and messages: links are a path with its parameters, replies say hit, miss, refused or written.
- The CSV reader and writer (section 2 of RFC 4180): an upload is a sequence of records or malformed markers, an export a sequence of rows; a reader that keeps failing forever is not modelled.
- Floating point: probabilities are reals, a signed zero or NaN, without rounding; parsing and shortest printing of floats are parameters.
- Export.RoundTrip: assumes that the shortest printed form of a probability parses back to it, as the Go library promises; country name and creation time are assigned anew by the import and not compared.
- Import.NotANumberCountsAsDuplicate: that a bound NaN is a NULL, which no comparison and no NOT NULL column accepts, is SQLite's rule; SQLite is not part of this model.
- SHA-256 truncated to 8 bytes (normalize.go:80-84): a digest parameter; the freshness results assume it has no collisions.
- Server.HitsAreReplays: assumes fewer than 2^64 requests, so that the namespace counter does not come around.
- Interleaving.StaleOnlyByOverlap: the namespace counts bumps without wrapping, and each query and each transaction is one step.
- Browsing.CachedWalkCollectsAll: the table does not change while the client pages, and only list requests are walked, since a search link is parsed anew.
- Stamps.TextOrderIsTimeOrderIff: moments are given by their UTC calendar fields, with years of four digits; leap seconds and calendars are not modelled.
- Pagination.FollowingNextCollectsAll: assumes that the number of matching rows fits in a 64-bit integer.
- Strings are sequences of characters with case mapping and white space as in ASCII; Unicode folding is not modelled.
- Search.ParseNL: what the regular expressions and word-boundary matches find in the text is an input.
- Eviction and expiry of cache entries: any set of entries may vanish at any time; capacity and age limits are not modelled.
- Byte-slice copies in the cache's Get and Set, and a cache that is absent: values are immutable here.
- Tokens.RunsAreSound: redeems a token in one step, as when requests do not overlap; TokenRace has the read, the update and the insert as steps of their own.
- Tokens.Auth.Refresh: access tokens, the user lookup and random generation are inputs; a new token whose hash is already taken makes the insert fail.
- SQL text, indexes, pragmas, migrations and foreign keys: a table is a sequence of rows with its two uniqueness constraints; reads of the table do not fail.
- Server.ApiServer.CreateProfile: the profile assembled from the outside services is an input, and their failures are not modelled.
- RateLimit.IpStageNeverRefuses: assumes route paths without the separator `|`, which the per-IP key does not escape.
- The choice of the client IP, the per-user API limiter, role, version and CSRF guards, seeding, user upserts, single-profile reads and fallback logins: they would only add easy members.
- Multipart bodies and content types of uploads: the records are the input.
