# Verified model of the listing tracker

The repository scrapes real-estate listings, ingests the scraped files into Postgres, and serves
listings, price histories and a feed of price changes. This project models its hardest parts in
Dafny and proves what they promise. `dafny verify dfyconfig.toml` checks all of it.

## Ingestion

An at-least-once queue delivers messages; a message names raw objects; a worker takes each object
version through a ledger (`processed_files`) and a retry counter (`processing_attempts`), commits its
records in one transaction, archives three vault objects, enters the ledger row and drops the counter.
Every call can fail, and a worker can crash between any two calls.

* `Decision`, `Objects`, `Tables`: the three gates, object versions and vault keys, and the tables as
  values: upsert, conflict-free insert, latest-row query, and the loop of `writeToDB` with its cache.
  `ORDER BY observed_at DESC LIMIT 1` leaves ties open, so the row that the query returns is a parameter,
  a `Planner`; every theorem holds for every planner.
* `Database`, `Processor`: the tables and the worker as classes updated in place, method by method, with
  a fault for every call. The methods are proved against functions: those of `Tables`, and those of
  `Delivery`, which give the outcome of a delivery for every choice of faults. `DeliveryFacts` says what
  a delivery keeps and what a failed one costs.
* `TableFacts`, `InOrderStreams`, `AnyOrderStreams`: what whole streams of files do to the tables. For
  streams in time order the history is a lossless compression of the stream, and the cut into files is
  irrelevant. In any order the tables stay sound, and it is said exactly when a replay changes nothing.
  *In order* means that for each property times never decrease and equal times carry equal hashes, also
  against rows already stored: a whole scrape carries one time
  (`services/scraper/internal/app/scrape.go:56`), so ties are real.
* `LateObservations`: for whole files, in any order and on any tables, exactly when the loop keeps the
  history event-only.
* `Protocol`, `ProtocolSafety`, `ProtocolRetries`: a state machine with any number of workers. One step
  is one call, which works, fails, or takes effect without the worker hearing of it; workers crash
  between calls, and messages are redelivered at any time. Invariants of every run give ledger
  soundness, no silent loss, bounded history and the retry bound, which is also shown to be reached.
* `IdempotentRuns`: repeated commits leave the tables as if each version had been committed once.
* `Refinement`: every delivery of the worker class is a run of the state machine, call by call, so that
  whatever holds in all runs holds of the class.

The README of the repository promises event-only history without a condition (`README.md:30-32`). The
code keeps it for streams in order; `LateObservations` has the exact condition for the others, and two
concrete streams for which it fails.

## Canonical encodings

* `Normalize`: the string passes behind `property_key` and `snapshot_hash`; a normal form for texts and
  unique decoding for both encodings. The digest is a parameter, taken as injective where a theorem
  says so.
* `CanonicalTexts`: the same said on characters, with readers that take both encodings apart again.
* `Lines`, `LineFields`: from the lines of a raw object to records and rejects, and what each field of a
  line becomes.

## Reading

* `PriceStats`, `ChangeFeed`: statistics of one price series, and the window query behind the change
  feed as a log of every property's prices.
* `Scoring`: `percent_rank` over comps groups and its join back to the listings.
* `Patterns`, `Filters`: LIKE and ILIKE, and the builder that compiles a filter to a clause with
  numbered arguments, under three-valued logic.
* `ListingQuery`, `ListingsPager`: the six sort orders, the page query, the paging parameters with
  64-bit arithmetic, and the client's page state.
* `JsonCapture`: the choice among captured JSON bodies, whose objects are walked in any order.
* `Sorting`, `Sequences`, `Options`: shared helpers.

## Model

| member | source | states |
|---|---|---|
| InOrderStreams.HistoryIsLossless | services/parser/internal/processor/processor.go:412-442 | However an in-order stream is cut into files, forward-filling a property's stored rows at the time of any observation returns that observation's hash, adjacent rows differ, times go forward, and there is one row more than there are hash changes |
| InOrderStreams.CacheAgreesWithQuery | services/parser/internal/processor/processor.go:412-442 | On in-order streams every cached hash is what the latest-row query would return then, so the loop with the cache and the loop that always queries leave the same tables |
| InOrderStreams.BatchingIsIrrelevant | services/parser/internal/processor/processor.go:399-448 | Every cut of an in-order stream into transactions leaves the tables of the uncut stream, listings included |
| InOrderStreams.NewestIsLastWritten | services/parser/internal/db/db.go:129-145 | After an in-order insert, whichever of the newest rows the query picks carries the hash just written |
| TableFacts.PropertiesAreIndependent | services/parser/internal/processor/processor.go:412-442 | What a file does to the rows and the cache entry of one property depends only on that property's rows and observations |
| TableFacts.RowsAreObservations | services/parser/internal/processor/processor.go:434-438 | Every history row after a file was there before or is an observation of the file |
| TableFacts.HistoryIsAppendOnly | services/parser/internal/db/db.go:137-141 | The history before a file is a prefix of the history after it |
| AnyOrderStreams.TablesAreSound | services/parser/internal/db/db.go:102-141 | After any sequence of files in any order: no two rows agree on key, time and hash, every row is an observation, listings and history have the same keys, a listing shows the last observation applied, and first_seen_at is the least time applied |
| AnyOrderStreams.HistoryIsBounded | db/migrations/002_event_only_history.sql:16-19 | In sound tables history has at most one row for each distinct observation applied, however often each was applied |
| AnyOrderStreams.SeenTimesAreOrdered | services/parser/internal/db/db.go:123-125 | first_seen_at never exceeds last_seen_at |
| AnyOrderStreams.ReplayIsIdempotentExactly | services/parser/internal/processor/processor.go:399-448 | From any tables, writing a file again right after its commit changes nothing if and only if the first observation of each of its properties is then in force or stored |
| AnyOrderStreams.OneHashReplays | services/parser/internal/processor/processor.go:243-267 | A file with one snapshot hash for each property can be written again on any tables, with any times, and nothing changes |
| AnyOrderStreams.ReplayCanGrowHistory | services/parser/internal/processor/processor.go:434-441 | A file with two snapshots of one property whose replay adds a row: the condition on hashes is needed |
| LateObservations.EventOnlyIsKeptExactly | services/parser/internal/decision/decision.go:11-13 | An observation at any time, compared with any hash, cached or queried, keeps a property's event-only history event-only if and only if it equals that hash, or is stored, or differs from its neighbours in time |
| LateObservations.KeyKeepsEventOnlyExactly | services/parser/internal/processor/processor.go:422-441 | All observations of a property in a file: its history is event-only after each of them if and only if it was before and each one fits, the first against the newest stored hash, every other one against its predecessor in the file |
| LateObservations.FileKeepsEventOnlyExactly | services/parser/internal/processor/processor.go:413-442 | A whole file on any tables: the history is event-only before it and after each record if and only if it was before and each record fits, against the cache or the query, when it comes |
| LateObservations.LateObservationBreaksEventOnly | services/parser/internal/processor/processor.go:422-438 | Three files, the last one late, after which a row equals its predecessor: the condition on order is needed |
| LateObservations.CacheBreaksEventOnly | services/parser/internal/processor/processor.go:422-441 | A file whose second record carries the hash of the newest row and is stored just in front of it all the same, because the cache holds the hash of the first record: inside a file the query's answer does not decide |
| Database.Db.WriteToDb | services/parser/internal/processor/processor.go:399-448 | The method with its mutable cache commits exactly the tables of the specification, or leaves both tables as they were; it commits if and only if none of the calls up to the commit fails |
| Database.Db.WriteNext | services/parser/internal/processor/processor.go:413-442 | One round goes through if and only if none of the calls it makes fails, two at most behind the upsert, and then leaves the tables and the cache of the specification |
| Database.Db.UpsertListing | services/parser/internal/db/db.go:102-125 | The row shows the record, with the lesser of the stored and the new first_seen_at |
| Database.Db.LatestSnapshotHash | services/parser/internal/db/db.go:129-133 | Finds a row exactly when the property has history, and returns the hash of one of its newest rows |
| Database.Db.InsertPriceHistory | services/parser/internal/db/db.go:137-141 | Appends the row unless one with the same key, time and hash is stored |
| Database.Db.EnsureAttempt | services/parser/internal/db/db.go:161-171 | Creates a counter at 0 if absent, keeps it otherwise, and returns it; a failed read still leaves the row |
| Database.Db.IncrementAttempt | services/parser/internal/db/db.go:173-198 | Adds one to the counter, also when its row has vanished; a failure changes nothing |
| Database.Db.DeleteAttempt | services/parser/internal/db/db.go:200-203 | Removes the counter of this version alone |
| Database.Db.InsertProcessed | db/migrations/004_processed_files_etag.sql:17-20 | Succeeds exactly when the version has no ledger row, and adds it |
| Processor.Processor.HandleFailure | services/parser/internal/processor/processor.go:457-496 | Writes the errors artifact if that works, and counts one attempt of this version unless its etag is empty or the increment fails; no other counter and no other object changes |
| Processor.Processor.Ingest | services/parser/internal/processor/processor.go:200-265 | Database and vault after the calls from the GET to the ledger row, for every choice of faults; without a failing call it succeeds exactly where the version has no ledger row |
| Processor.Processor.ProcessRecord | services/parser/internal/processor/processor.go:167-271 | Database, vault and result are those of the specified delivery of one record, for every choice of faults; without a failing call it succeeds, and an unsettled version is ingested: file committed, three vault objects, ledger row, counter gone |
| DeliveryFacts.RecordSucceedsExactly | services/parser/internal/processor/processor.go:167-271 | A record is handled without an error if and only if the calls it needs work: all of them up to the ledger row where it is tried, and only the lookups where it is in the ledger or has used up its attempts |
| DeliveryFacts.RecordOutcome | services/parser/internal/processor/processor.go:200-271 | For every choice of faults, what one delivery changes: the tables by the whole file exactly where the transaction commits, the vault call by call, the ledger exactly where all calls work, and the counter; a failed try leaves the errors artifact and counts once, as far as these calls work |
| DeliveryFacts.FairRecordIsIngested | services/parser/internal/processor/processor.go:167-271 | Without a failing call an unsettled version is ingested, and a settled one leaves tables, vault and ledger alone |
| DeliveryFacts.FairDeliveryIngests | services/parser/internal/processor/processor.go:149-165 | Without a failing call a message gets through: its unsettled versions, each once and in order, are committed, archived and entered, and their counters are gone |
| DeliveryFacts.RecordIsHandled | services/parser/internal/processor/processor.go:243-267 | Handling a record adds at most its own ledger row, and only after its records are committed and its three vault objects exist; the tables change by the whole file or not at all; other versions keep their counters |
| DeliveryFacts.RecordSettles | services/parser/internal/processor/processor.go:178-194 | Success settles the version; a settled version is left alone; a failure with working lookups and increments uses up one attempt |
| DeliveryFacts.RecordsSettle | services/parser/internal/processor/processor.go:149-165 | A delivery that gets through has settled every version it handled; one that stops has spent an attempt of the record it stopped at; no version is unsettled or gets attempts back |
| DeliveryFacts.BudgetShrinks | services/parser/internal/processor/processor.go:489-493 | The failures left to a message become fewer when one of its versions loses an attempt and none gains any |
| Processor.Processor.HandleMessage | services/parser/internal/processor/processor.go:149-165 | Handles the records in order up to the first error, asks for deletion exactly when there is none, and leaves the database and vault that the specified delivery leaves; without a failing call it asks for deletion, and each version is then in the ledger unless its attempts were used up before |
| Processor.Processor.HandleRecords | services/parser/internal/processor/processor.go:157-162 | The loop over the records leaves what the specified rounds leave, up to the first error |
| Processor.Processor.Deliver | services/parser/internal/processor/processor.go:123-136 | A delivery settles every version of the message or makes its remaining budget of failures smaller, and without a failing call it deletes the message |
| Processor.Processor.DeliverUntilDeleted | services/parser/internal/processor/processor.go:187-194 | Liveness: with working lookups and increments and non-empty etags, redelivery ends, after at most n times MaxRetries failed deliveries of n records, and then every version is settled |
| Processor.Processor.DeliverInterleaved | services/parser/internal/processor/processor.go:122-136 | In any interleaving of deliveries of several messages, each message by itself fails at most as often as it has records times MaxRetries, is deleted if it is delivered more often, and stays settled from then on |
| Refinement.RecordLeads | services/parser/internal/processor/processor.go:167-271 | For every choice of faults the specified delivery of one record is a run of the state machine, call by call |
| Refinement.RecordsLead | services/parser/internal/processor/processor.go:157-162 | The same for a whole message, up to the first error |
| Refinement.DeliveryIsReachable | services/parser/internal/processor/processor.go:122-136 | From the store at the end of a run, a delivery of any versions with any faults leads to the store at the end of a longer run |
| Refinement.Deliver | services/parser/internal/processor/processor.go:122-136 | A worker object that stands at the end of a run stands at the end of a run after every delivery, with a ledger that is unique and archived |
| Refinement.NewWorker | services/parser/internal/processor/processor.go:66-80 | A new worker over a new database stands at the end of a run, so the first delivery meets what every delivery asks for |
| Refinement.DeliverAll | services/parser/internal/processor/processor.go:104-139 | So do all later ones: after any deliveries of any messages with any faults the worker stands at the end of a run |
| Refinement.ReachableIsArchived | services/parser/internal/processor/processor.go:243-267 | At the end of every run ledger rows are unique and their three vault objects exist |
| ProtocolSafety.RunsKeepInvariant | services/parser/internal/processor/processor.go:149-271 | Any steps of any workers, crashes and lost acknowledgements included, keep the invariant: the tables are those of the commits in order, ledger rows and deletions are earned, each worker has achieved what its stage requires |
| ProtocolSafety.LedgerRowsStandForIngestion | services/parser/internal/processor/processor.go:243-267 | In every reachable state a ledger row is unique, its records were committed, and its three vault objects exist |
| ProtocolSafety.DeletedMessagesAreSettled | services/parser/internal/processor/processor.go:122-194 | No silent loss: once a message is deleted, each of its records has a version in the ledger or with its attempts used up, then and in every later state |
| ProtocolSafety.RunsOnlyAppend | services/parser/internal/db/db.go:137-141 | No later step of a run removes or changes a history row, a commit or a ledger row |
| ProtocolSafety.HistoryIsSafe | README.md:26-28 | In every reachable state the tables are sound for the committed records, and history has at most as many rows as the committed versions have distinct observations |
| IdempotentRuns.IdleFileIsLocal | services/parser/internal/processor/processor.go:412-442 | Whether a file changes nothing depends only on what the tables say about its properties |
| IdempotentRuns.RepeatsChangeNothing | README.md:26-28 | When each file has one hash for each property, the tables after any commits are those of the commits without repeats, a repeat being a version committed before with only other properties written since |
| IdempotentRuns.RunsAreIdempotent | README.md:26-28 | The same in every reachable state; and if every repeated commit is such a repeat, what is left is each committed version once |
| ProtocolRetries.CallAccount | services/parser/internal/processor/processor.go:187-194 | Count plus attempt in flight never rises over a call, except by an admission while the count is below the limit |
| ProtocolRetries.RunsKeepBound | services/parser/internal/db/db.go:161-203 | In every reachable state, through deletion and re-creation of counters, count plus attempts in flight stays within MaxRetries - 1 + W |
| ProtocolRetries.AttemptsAreBounded | services/parser/internal/processor/processor.go:187-194 | With W workers no version's count exceeds MaxRetries + W - 1, and with one worker it does not exceed MaxRetries |
| ProtocolRetries.CapIsReached | services/parser/internal/processor/processor.go:489-493 | There is a run in which the count reaches MaxRetries + W - 1 |
| Normalize.NormalizeTextIsWords | services/parser/internal/normalize/normalize.go:18-26 | The passes equal: split at white space, keep lower-case letters and digits of each lower-cased word, drop empty words, join by one space; the result is normal, normalizing is idempotent, and the texts it leaves alone are exactly the normal ones |
| Normalize.NormalizePostalIsCore | services/parser/internal/normalize/normalize.go:28-33 | A normalized code is the upper-cased letters and digits of the code in order, and normalizing is idempotent |
| Normalize.IdentityDecodes | services/parser/internal/normalize/normalize.go:35-43 | Two identity strings are equal exactly when the normalized address, postal code and unit are |
| Normalize.SnapshotDecodes | services/parser/internal/normalize/normalize.go:45-50 | Equal payloads have equal fields, all six, even when the listing id contains separators and tags |
| CanonicalTexts.NormalTextsExactly | services/parser/internal/normalize/normalize.go:18-26 | Said on characters: the texts that normalization leaves alone are those of lower-case letters and digits, with single blanks between two of them |
| CanonicalTexts.AlikeTextsAreEqual | services/parser/internal/normalize/normalize.go:19-22 | Texts that differ only in case and in the kind of white space normalize alike |
| CanonicalTexts.OthersAreDropped | services/parser/internal/normalize/normalize.go:23 | A character that is no letter, digit or white space is dropped wherever it stands |
| CanonicalTexts.SpareBlanksAreDropped | services/parser/internal/normalize/normalize.go:24-25 | Blanks beside blanks and at the ends do not matter |
| CanonicalTexts.PostalCodesAppend | services/parser/internal/normalize/normalize.go:28-33 | Postal codes are normalized character by character |
| CanonicalTexts.PostalCharacters | services/parser/internal/normalize/normalize.go:28-33 | Letters are raised, digits kept, other characters dropped |
| CanonicalTexts.IdentityReadsBack | services/parser/internal/normalize/normalize.go:35-37 | A reader that cuts at the two bars gets the normalized address, postal code and unit |
| CanonicalTexts.SnapshotReadsBack | services/parser/internal/normalize/normalize.go:45-47 | A reader of the tagged fields gets all six back, whatever text the listing id is |
| Lines.ParseJsonl | services/parser/internal/processor/processor.go:273-307 | Up to the first line that cannot be written, the two writers hold the normalized records and the rejects of the lines, in line order; the records are returned if and only if no line and no scan fails |
| Lines.RejectsNameTheirLines | services/parser/internal/processor/processor.go:279-287 | Every reject names by its 1-based number a line that was rejected for that reason, and numbers increase |
| Lines.LinesAreConserved | services/parser/internal/processor/processor.go:273-307 | Records and rejects together are as many as the lines; an accepted line has its record behind those of the accepted lines in front of it, a rejected line has its reject |
| LineFields.SamePropertyExactly | services/parser/internal/processor/processor.go:362-370 | Two accepted lines have the same key exactly when normalized address, postal code and unit agree, where a unit field counts only if the address has no prefix of digits and a hyphen; the prefix is said on the characters of the address |
| LineFields.RecordKey | services/parser/internal/processor/processor.go:362-370 | The key is the digest of address, postal code and unit field, the unit field left out where the address has such a prefix |
| LineFields.UnitFieldMattersExactly | services/parser/internal/processor/processor.go:362-370 | Another unit field gives the same key if and only if the address has a prefix or the two normalize alike |
| LineFields.SplitUnitExactly | services/parser/internal/normalize/normalize.go:111-122 | An address is split if and only if it is digits, a hyphen and a text that is not blank and has no line break, with white space where the pattern allows it; it is split into these digits and the trimmed text |
| LineFields.RejectedExactly | services/parser/internal/processor/processor.go:309-336 | Which lines are accepted, and which of the four reasons each other line gets, said on its fields |
| LineFields.TrackedColumns | services/parser/internal/processor/processor.go:333-395 | Which field of the line the time, each tracked column and each part of the hash come from; the listing id falls back to the second field exactly where the first is blank |
| LineFields.OtherColumns | services/parser/internal/processor/processor.go:344-394 | Address, unit, postal code, place and url of an accepted line; a prefix is taken off the address, and fills a blank unit |
| Lines.SameHashExactly | services/parser/internal/processor/processor.go:371-378 | Two accepted lines have the same hash exactly when their six tracked columns agree |
| Lines.ListingShowsNewestRow | services/parser/internal/db/db.go:102-141 | After in-order files of parsed lines, a property's newest history row carries the hash and the tracked columns that its listing shows |
| PriceStats.ScanSeries | services/readapi/internal/httpapi/price_history.go:28-56 | The loop computes the specified fold over the series |
| PriceStats.ScanIsRight | services/readapi/internal/httpapi/price_history.go:28-56 | That fold is the least and the greatest price, the number and the last time of the changes, and the deepest fall from a running peak |
| PriceStats.PercentExactly | services/readapi/internal/httpapi/price_history.go:20-55 | A percentage p of a non-zero whole is the one with p * whole == 100 * part |
| PriceStats.ComputePriceHistoryStats | services/readapi/internal/httpapi/price_history.go:9-66 | All statistics of any series, the empty one included |
| PriceStats.DrawdownIsOverAllPairsExactly | services/readapi/internal/httpapi/price_history.go:48-55 | For every series the one-pass drawdown is the deepest percentage fall over all pairs if and only if no price below zero stands behind a positive one, or a deepest fall below zero starts at the only positive price seen so far; it exceeds 100 exactly when a price below zero stands behind a positive one, and is 0 exactly when no price falls from a positive one |
| PriceStats.PeakFallIsDeepestExactly | services/readapi/internal/httpapi/price_history.go:48-55 | At one position the fall from the running peak is the deepest from any positive price if and only if it does not end below zero or all positive prices so far are the peak |
| PriceStats.DrawdownIsOverAllPairs | services/readapi/internal/httpapi/price_history.go:48-55 | For non-negative prices the one-pass drawdown is the deepest percentage fall over all pairs of an earlier positive and a later price, lies in 0 to 100, and is 0 exactly when the series never falls |
| PriceStats.NegativePriceFallsDeeper | services/readapi/internal/httpapi/price_history.go:48-55 | A series with a negative price whose one-pass drawdown is not the deepest fall over all pairs |
| ChangeFeed.FeedIsLog | services/readapi/internal/store/postgres/store.go:294-336 | With distinct times for each key, the feed restricted to a key is, in order, one entry for each point not before the cut-off that differs from its predecessor |
| ChangeFeed.FeedRunsInOrder | services/readapi/internal/store/postgres/store.go:308 | Across properties the feed runs by time, and at equal times by property key; no two entries share both |
| ChangeFeed.FeedIsTheOnly | services/readapi/internal/store/postgres/store.go:294-308 | No other list in this order has for each property the entries of its log |
| ChangeFeed.ReplayIsFaithful | services/readapi/internal/store/postgres/store.go:294-308 | Replaying a key's entries from the price in force before the cut-off gives the price in force at every later time |
| ChangeFeed.EntriesChain | services/readapi/internal/store/postgres/store.go:302-307 | Each old price is the new price of the entry before, the first is the price in force before the cut-off, the last new price is the last price |
| ChangeFeed.LogAgreesWithStats | services/readapi/internal/httpapi/price_history.go:23-46 | Without a cut-off a key has NumPriceChanges entries and their deltas sum to AbsChange |
| Scoring.JoinKeepsListings | services/readapi/internal/store/postgres/store.go:91-113 | The left join returns each listing once, in place, with the rank of its own price per square foot among its own comps |
| Scoring.GroupsExactly | services/readapi/internal/store/postgres/store.go:75-84 | Two listings are ranked together if and only if their types agree and their beds are both absent, both at most one, both two, both three, or both at least four |
| Scoring.ScoredColumns | services/readapi/internal/store/postgres/store.go:85-113 | Score and percentile exist exactly where price and area do and the area is not 0; the comps count is the number of such listings of the same type and beds |
| Scoring.ScoresAreInRange | services/readapi/internal/store/postgres/store.go:98-111 | A score exists exactly where a price per square foot does; then percentile and score lie in 0 to 100 and add up to 100 or 100.01 |
| Scoring.ScoresAreFair | services/readapi/internal/store/postgres/store.go:91-111 | Within a group the cheaper listing scores no lower after rounding, and equal prices per square foot score equal |
| Scoring.ScoresExactly | services/readapi/internal/store/postgres/store.go:91-111 | For every listing with price and area: the percentile is the share of the other comps whose price divided by area is less, in percent, the score is what is left to 100, each rounded to two decimals, and a single comp has percentile 0 |
| Scoring.CheaperScoresHigher | services/readapi/internal/store/postgres/store.go:85-111 | For two comps, price_i * sqft_j <= price_j * sqft_i implies that i scores no lower and stands no higher in percent, and equal products give equal scores |
| Scoring.ScoresReachTheEnds | services/readapi/internal/store/postgres/store.go:94-110 | The cheapest comps score 100, and a single dearest one 0 |
| Scoring.CheapestScores100 | services/readapi/internal/store/postgres/store.go:85-110 | Where no comp costs less for its area, products of columns compared, the score is 100 |
| Scoring.DearestScores0 | services/readapi/internal/store/postgres/store.go:85-110 | Where all other comps cost less for their area the score is 0 |
| Scoring.FullScoreExactly | services/readapi/internal/store/postgres/store.go:103-110 | A listing scores 100 after rounding exactly when at most one in 20000 of the other comps is cheaper |
| Patterns.PrefixPattern | services/readapi/internal/store/postgres/store.go:367-369 | A plain prefix followed by a percent sign matches exactly the texts that begin with it |
| Patterns.CityPatternExactly | services/readapi/internal/store/postgres/store.go:370-372 | The city filter is equality up to case, for all texts, if and only if the city has no pattern character |
| Patterns.QueryPatternExactly | services/readapi/internal/store/postgres/store.go:373-375 | The address filter is containment up to case, for all texts, if and only if the query has no pattern character |
| Patterns.UnderscoreIsAnyCharacter | services/readapi/internal/store/postgres/store.go:370-375 | In a pattern without percent sign and backslash an underscore stands for any one character, and every other one for itself |
| Patterns.EscapedIsEquality | services/readapi/internal/store/postgres/store.go:370-375 | With a backslash in front of every character a text matches itself alone |
| Filters.FilterBuilder.Add | services/readapi/internal/store/postgres/store.go:380-383 | Keeps clause i naming argument i, and adds one bound |
| Filters.NewListingFilterBuilder | services/readapi/internal/store/postgres/store.go:343-378 | Compiles one bound for each part of the filter that is set, in order, each naming its own argument |
| Filters.ClauseMeansBounds | services/readapi/internal/store/postgres/store.go:380-390 | A compiled clause is true exactly where each bound is true, names only its own arguments, and is not changed by arguments appended behind them |
| Filters.ClauseMeansFilter | services/readapi/internal/store/postgres/store.go:343-390 | Under three-valued logic the generated clause is true of exactly the rows on which every bound that is set holds |
| Filters.PlainFilterExactly | services/readapi/internal/store/postgres/store.go:343-378 | A filter without pattern characters keeps exactly the rows with numbers within its bounds (a missing one is within none), its type, a postal code that begins with its prefix, its city up to case, and an address that contains its query up to case |
| Filters.NormalizePostalPrefix | services/readapi/internal/httpapi/query.go:200-210 | The loop computes the same normal form as the parser's postal normalization |
| Filters.PostalFilterIsSound | services/readapi/internal/store/postgres/store.go:367-369 | A row is kept exactly when the normalized prefix begins its stored code, and then it begins the normalized code too |
| Filters.PostalFilterMissesExactly | services/readapi/internal/store/postgres/store.go:367-369 | A code whose normal form begins with the prefix is found if and only if its first characters, as many as the prefix has, are upper-case letters and digits |
| ListingQuery.SortsAreTotal | services/readapi/internal/store/postgres/store.go:392-407 | Each of the six sorts is a total preorder in which only rows with the same key tie |
| ListingQuery.SortMeans | services/readapi/internal/store/postgres/store.go:392-407 | What a row in front of another means for each sort: the named column ascends or descends, rows without it stand last, and ties stand by last-seen time, latest first, and then by key |
| ListingQuery.BrowseIsSorted | services/readapi/internal/store/postgres/store.go:392-407 | The rows behind the pages stand in this order, for every table, filter and sort |
| Sorting.TextLeqExactly | services/readapi/internal/store/postgres/store.go:392-407 | The order of keys: one begins the other, or has the smaller character where they first differ |
| ListingQuery.OrderIsDetermined | services/readapi/internal/store/postgres/store.go:392-407 | Whatever sort algorithm the database uses, its result over a table is the one that the pages are cut from |
| ListingQuery.BrowseShowsMatches | services/readapi/internal/store/postgres/store.go:38-75 | The rows behind the pages are exactly the listings that pass the filter, each once, sorted, and as many as the count says |
| ListingQuery.ListListings | services/readapi/internal/store/postgres/store.go:34-161 | The builder's clause, count, limit and offset placeholders return the requested slice of the ordered matching rows and their number, in the order that the name of the sort says, or fail exactly for a negative limit or offset |
| ListingQuery.GetListingFinds | services/readapi/internal/store/postgres/store.go:163-263 | A listing is found under its key with its score among all listings, and not-found is reported exactly when no listing has the key |
| ListingQuery.RowIsKeptExactly | services/readapi/internal/store/postgres/store.go:54-113 | The list shows a listing with the score and the comps count of its detail view if and only if the filter keeps all comps of its group |
| ListingQuery.RankIsKeptExactly | services/readapi/internal/store/postgres/store.go:91-97 | The unrounded rank alone stays if and only if the cheaper ones have the same share among the other kept comps as among all other comps |
| ListingQuery.SplitGroupsChangeScores | services/readapi/internal/store/postgres/store.go:54-113 | A filter that splits a group changes scores: a listing with 0 in the detail view and 100 in the list |
| ListingQuery.ParsePaging | services/readapi/internal/httpapi/query.go:40-83 | Which paging or which error code the four parameters give, defaults, limits and wrap-around included |
| ListingQuery.RefusedExactly | services/readapi/internal/httpapi/query.go:50-83 | Each of the four error codes is given if and only if its parameter is the first of its form that is given and no number in range; the page form is taken exactly when one of its two parameters is given |
| ListingQuery.PagingIsExact | services/readapi/internal/httpapi/query.go:50-83 | Page and size, or offset and limit, are those given or their defaults. The offset is the start of the page if and only if the product fits 64 bits, and in the limit and offset form the page number holds the offset unless it does not fit |
| ListingQuery.FarPageShowsFirst | services/readapi/internal/httpapi/query.go:66 | A page number whose offset wraps around to that of the first page |
| ListingQuery.ListingsBrowse | services/readapi/internal/httpapi/handlers.go:156-184 | The handler answers with the page of the ordered matching rows that the parameters stand for, or an error |
| ListingsPager.ListingsController.Ask | apps/client/lib/src/presentation/listings/listings_controller.dart:100-115 | Up to the await the state shows what was asked for, as loading, over the old rows and total |
| ListingsPager.ListingsController.Show | apps/client/lib/src/presentation/listings/listings_controller.dart:116-138 | A page replaces the whole state, with the filters and sort of its own load; a failure keeps rows, total and page number |
| ListingsPager.ListingsController.Load | apps/client/lib/src/presentation/listings/listings_controller.dart:100-138 | A load whose answer comes before the next one begins: what was asked for stays, also where it failed |
| ListingsPager.ListingsController.ApplyFilters | apps/client/lib/src/presentation/listings/listings_controller.dart:140-176 | The first of the three number inputs that has text and does not parse is reported over a state that else stays; otherwise page 1 is loaded for the filters of the form and the sort |
| ListingsPager.FormMeans | apps/client/lib/src/presentation/listings/listings_controller.dart:163-173 | A readable form filters by each input that has text in it, trimmed and parsed, and by nothing else |
| ListingsPager.FilteredLoadShows | apps/client/lib/src/presentation/listings/listings_controller.dart:175 | Over the server, such a load shows the first page of the rows that the new filters and the new sort stand for, whatever the state was before |
| ListingsPager.FirstLoadShows | apps/client/lib/src/presentation/listings/listings_controller.dart:55-96 | A new controller shows the first 20 of all listings, the last seen in front, and their number |
| ListingsPager.LastAnswerIsShown | apps/client/lib/src/presentation/listings/listings_controller.dart:105-134 | Of two loads under way at once, the page that arrives last is shown, with its own filters and sort, whichever was asked for last |
| ListingsPager.ListingsController.NextPage | apps/client/lib/src/presentation/listings/listings_controller.dart:178-183 | Loads the page behind, and does nothing where there is none |
| ListingsPager.ListingsController.PrevPage | apps/client/lib/src/presentation/listings/listings_controller.dart:185-189 | Loads the page in front, and does nothing on the first |
| ListingsPager.NextStopsAtTheEnd | apps/client/lib/src/presentation/listings/listings_controller.dart:89-90 | Where a page is shown, canNext holds exactly when it is not the last of max(1, ceil(total/size)) pages |
| ListingsPager.PrevUndoesNext | apps/client/lib/src/presentation/listings/listings_controller.dart:178-189 | Over an unchanged table next shows the page behind, and previous then returns to the very same state |
| ListingsPager.FailedNextIsPassedOver | apps/client/lib/src/presentation/listings/listings_controller.dart:135-137 | After a failed next a reload shows the page that was missed, previous the old state, and another next leaves the missed page out; that next is refused exactly when the missed page is the last |
| ListingsPager.ServerServes | services/readapi/internal/httpapi/query.go:50-66 | For every page there is, the server's answer is that page of the ordered matching rows, with the right total and no wrap-around |
| ListingsPager.ReadAll | apps/client/lib/src/presentation/listings/listings_controller.dart:89-183 | Next until not canNext shows all rows once and in order, in max(1, ceil(total/size)) pages |
| ListingsPager.ReadMatches | apps/client/lib/src/presentation/listings/listings_controller.dart:178-183 | The walk over the server shows exactly the listings that pass the filters, each once, sorted |
| JsonCapture.ScoreJsonValue | services/scraper/internal/fetch/json_capture.go:84-114 | For every order in which objects are walked, listingCount is the number of parts that look like listings and maxResults the longest array directly under a listing key anywhere |
| JsonCapture.ScoreIsUnique | services/scraper/internal/fetch/json_capture.go:84-107 | A value has only one such score, so the order of object keys cannot matter |
| JsonCapture.ListingsStateTwoFacts | services/scraper/internal/fetch/json_capture.go:125-142 | An object looks like a listing if and only if its keys state two different ones of six facts |
| JsonCapture.ListingKeysExactly | services/scraper/internal/fetch/json_capture.go:116-123 | The listing keys are exactly the three words in any case, with any spaces around them |
| JsonCapture.ScoreJsonCandidate | services/scraper/internal/fetch/json_capture.go:67-82 | A body scores exactly when it is not empty, decodes, and has something in it |
| JsonCapture.SelectBestJsonCandidate | services/scraper/internal/fetch/json_capture.go:41-60 | The first of the lexicographically greatest scoring candidates, and none exactly when none scores |
| JsonCapture.Capture.Add | services/scraper/internal/fetch/json_capture.go:22-29 | Keeps bodies in order of arrival, and drops empty ones |
| JsonCapture.Capture.Best | services/scraper/internal/fetch/json_capture.go:31-39 | The first best of the bodies captured since the last reset |

## Left out

- DRY_RUN and FAIL_ON_KEY, temporary files, logging and configuration: the model is of the normal mode.
- Receiving up to ten messages at a time and visibility timeouts: in the state machine any message ever sent can be received again by any idle worker at any time, which covers them.
- Messages that are deleted unparsed (`services/parser/internal/processor/processor.go:151-155`): they name no records, and behave as a message with an empty record list.
- A raw object replaced between the HEAD and the GET of one worker: by the repository's convention raw objects are not replaced (`README.md:37-38`), and the state machine does not take such a step; replacement at any other time is a step.
- Statements inside a transaction of another worker: `writeToDB` is one step of the state machine, because the upsert takes the lock of a key's row before its history is read and holds it until the commit.
- The planner's choice among tied newest rows is a function of the rows of that property.
- Path cleaning of vault keys: the three families of vault objects are disjoint and indexed by the object key as it is.
- ListingQuery.GetListingFinds: scoring and lookup are functions over a table, without the row scan and its errors.
- Processor.Processor.DeliverUntilDeleted: assumes working lookups and increments, because a failed lookup or increment is not counted as an attempt and can repeat for ever, and that etags and contents do not change meanwhile.
- Lines.ParseJsonl: lines are given decoded, with numbers as rendered texts without a bar; JSON decoding, the time formats and the keyword table of property types are not modelled, and a writer that fails is taken to have written the lines in front.
- Normalize.NormalizeTextIsWords: of the non-ASCII letters only those with an ASCII lower or upper case are mapped; the others are dropped by the later passes in any case.
- ChangeFeed.FeedIsLog: needs distinct times for each key, since the window function leaves the order of tied rows open.
- Rounding of floating-point numbers and the precision of NUMERIC columns: prices, ratios and ranks are real numbers, and round to two decimals is exact.
- Patterns.CityPatternExactly: a city that ends in the escape character makes the database raise an error, where the model matches nothing; case folding is any function that leaves the pattern characters alone.
- Collation: text keys are compared by character code; any other total order would serve.
- The text of SQL clauses: a clause is one of ten templates with its placeholder number.
- ListingQuery.ParsePaging: the other filters of the request are bounds checks on parsed numbers and are not modelled.
- Filters.FilterBuilder: the ten if statements of the constructor function are ten calls of `AddIf`.
- The count and the list query of one request see the same table; so do the pages of a walk.
- ListingsPager.ListingsController.ApplyFilters: trimming and parsing of the inputs are parameters.
- The scraper's crawl loops, bot detection and field mapping, and the client's widgets.
