# Abbey: a verified model of its algorithms and protocols

Abbey is a command-line agent with an append-only route log, a calendar scheduler, a learning store, a
durable run protocol, a small configuration language, private document search, contract corpora and
process launching. This project models the parts of it that carry real logic and proves what they promise
for every input and every run:

- **Tail of the route log** (`RouteLog`): a reverse block reader under four budgets shows exactly the end of the
  forward history, whatever the operating system's short reads do.
- **Scheduler** (`Schedule`, `ScheduleLaws`, `CatchUpLaws`): the day search returns the least (or greatest)
  occurrence despite gaps, folds and its early stop; catch-ups account for each due instant exactly once.
- **Learning store** (`Clusters`, `RouteImport`, `RouteImportLaws`, `RouteImportRetry`, `RouteImportLimits`): union-find with
  path halving computes the connected classes; the route import is lossless, and the exact condition is given under which
  repeating it, or retrying it after a failure at any point, is safe.
- **Run control** (`RunControl`, `RunControlLaws`, `RunControlAcceptance`): exactly which responses are accepted and what they leave in
  view, what every history of them keeps, and paging that always ends with exactly the ledger.
- **Configuration** (`TomlLite`, `TomlStrings`, `TomlDocuments`, `TomlMeaning`): two quote-tracking automata agree, the accepted
  strings are exactly a grammar's, whole documents round-trip, and what a document holds is said of its entries alone.
- **Checklists** (`Checklist`, `ChecklistLaws`, `ChecklistMeaning`): the items are the lines that spell one, and marking the selected task
  flips exactly that item.
- **Document search** (`Pieces`, `FoldSearch`, `KnowledgeSearch`): folded offsets map back to the one right character.
- **Corpus digest** (`Preimage`, `Corpus`): the hashed stream is uniquely decodable, so equal digests mean equal corpora.
- **Argument budget** (`Utf8`, `ArgvBudget`): truncation on UTF-8 boundaries inside a shared budget.

`Basics`, `Text`, `Sorting`, `Pieces`, `Utf8` and `Decimals` are vocabulary shared by the others.

Objects that the program updates in place are classes (`LogReader`, `Memory`, `Reducer`, `ArgVec`), loops are loops,
and each is proved equal to a function or relation whose properties are then proved by lemmas.

## Where the code does less than its name or documentation suggests

Each of these is shown by a concrete witness and delimited by an exact condition.

- The scheduler's reverse search misses a due run while a fold has carried the local date back across midnight
  (`MidnightFoldExample`). The condition is on the call: at a given bound the search finds the latest run since a given instant, for
  every calendar, if and only if no later-dated wall was named in between (`ReverseExactIffAhead`), and for one schedule if and only
  if no due run is hidden that way (`ExactIffNothingHidden`); a catch-up is accurate if and only if nothing due is hidden from the
  two instants it looks back from (`AccurateIffClear`). Elsewhere in the same zone all guarantees stand (`MidnightFoldIsBrief`).
- The route import looks at the newest 10,000 rows only. Repeating an import stores nothing if and only if those rows still back
  every repeated route, and a retry after a failure stores exactly what was still owed if and only if they still back every route
  that is not owed (`RepeatIsFreeIff`, `RetryIsSafeIff`). With 10,000 rows in the store, two routes are enough for a repeat to store
  a row again, and three for a retry to store one that an uninterrupted run would not (`RepeatCanStore`, `RetryCanStoreMore`,
  `LimitExample`).
- Marking the selected task works exactly when `fix_plan.md` is the file the tasks were read from; a plan read from the
  fallback `tasks/todo.md` is never marked (`SelectedIsMarkedIffPrimary`, `FallbackIsNeverMarked`).
- An appended route record can be read back, whatever the record format, if and only if the log was empty or ended in a newline;
  otherwise it is glued to the fragment before it (`RecordIsKeptIffTerminated`, `TornAppendIsLost`, `TornLogExample`); `RecordIsGainedIff` is
  the condition for one format.
- Folding the excerpted rest of a document again finds the query if and only if no capital sigma inside the match changes its
  word-final form with the text before it cut away (`RefoldContainsIff`, `RefoldCanMiss`). The offsets themselves are always right.

## Model

| member | source | states |
|---|---|---|
| `RouteLog.SplitIsExact` | src/route_log.rs:77-92 | splitting a log at newlines loses nothing, and no piece holds a newline |
| `RouteLog.TailIsEndOfHistory` | src/route_log.rs:77-92 | the tail is a suffix of the full forward history without its oversized lines, and its last n records while the byte and line windows hold the whole log |
| `RouteLog.CorrelatedRoutes` | src/route_log.rs:77-92 | the forward loop returns every record of the wanted run, oldest first |
| `RouteLog.TailOfRun` | src/route_log.rs:77-139 | the records of one run that a tail shows are the last of all its records within the size bound |
| `RouteLog.SmallerWindow` | src/route_log.rs:141-202 | the answer over a smaller byte window is a suffix of the answer over a larger one |
| `RouteLog.AppendExtendsLastPiece` | src/route_log.rs:98-116 | appending a record extends the last unterminated piece and adds exactly one line end, for any log |
| `RouteLog.AppendIsNewest` | src/route_log.rs:98-139 | for any log, the open fragment followed by the new bytes is the newest line; if it parses it is the last record of every later tail read, and after a terminated log it is the record itself |
| `RouteLog.RecordIsKeptIffTerminated` | src/route_log.rs:98-116 | the readable records, those within the size bound, gain exactly the appended one for every parser if and only if the log was empty or ended in a newline |
| `RouteLog.RecordIsGainedIff` | src/route_log.rs:98-116 | for one parser, they gain exactly the appended one if and only if gluing it to the open fragment reads as both would on their own |
| `RouteLog.TornAppendIsLost` | src/route_log.rs:98-116 | behind a fragment with which it does not parse, the record adds nothing to what any reader sees |
| `RouteLog.TornLogExample` | src/route_log.rs:98-139 | a one-byte fragment and a record after it that neither the tail nor the history shows |
| `RouteLog.ParseReverseIsForward` | src/route_log.rs:204-212 | the reversed register, reversed and parsed, is the forward parse of the line, with oversized and empty lines skipped |
| `RouteLog.ScanAllIsForward` | src/route_log.rs:177-194 | scanning bytes backwards from the end of any text gathers the records of its complete lines, their count, and the leading fragment |
| `RouteLog.QuotaIsEnough` | src/route_log.rs:182-185 | stopping at the record or line quota already determines the specified answer |
| `RouteLog.WindowIsEnough` | src/route_log.rs:196-201 | reaching the end of the window determines the answer; the leading fragment counts only at the beginning of the file |
| `RouteLog.LogReader.SeekEnd` | src/route_log.rs:146-147 | a seek is counted; it fails, leaving the cursor, or moves it to the end |
| `RouteLog.LogReader.SeekStart` | src/route_log.rs:159-160 | a seek is counted; it fails, leaving the cursor, or moves it |
| `RouteLog.LogReader.Read` | src/route_log.rs:170-174 | any schedule of short reads, zero reads and errors; delivered bytes are the file's, calls and bytes are counted |
| `RouteLog.FillBlock` | src/route_log.rs:161-175 | a filled block holds the file's bytes; otherwise the call budget is spent or a read failed |
| `RouteLog.ScanBlock` | src/route_log.rs:177-194 | the registers after a block are those of the whole suffix scanned so far, and a stop meets a quota exactly |
| `RouteLog.ReadBlock` | src/route_log.rs:159-194 | one block is fetched and scanned, or the call budget, a short file or a failing seek or read is reported |
| `RouteLog.ScanBlocks` | src/route_log.rs:148-195 | the block loop keeps the byte, call and seek budgets and the exact scan of everything read |
| `RouteLog.ScanWindow` | src/route_log.rs:146-195 | at most 32 reads, 256 KiB and 33 seeks; the scan covers the window, or a quota, the call budget, a failed seek or a failed read stopped it |
| `RouteLog.ReadRecentRoutes` | src/route_log.rs:141-202 | a successful read is exactly the specified answer for the bytes shown, all of it with full reads or when calls are left over; an error means a seek or read failed; budgets hold on every path |
| `RouteLog.RecentFrom` | src/route_log.rs:130-139 | a missing log reads as empty; any success is a suffix of the full answer, with full reads the whole of it |
| `Schedule.ResolveWall` | src/automation_schedule.rs:233-252 | the minute-by-minute push out of a gap computes the resolution, whose every outcome `ResolvedIff`, `PassedOverIff` and `UnresolvedIff` characterise |
| `Schedule.ResolveLands` | src/automation_schedule.rs:233-252 | what lies behind each outcome: the first existing wall within reach, on its earlier side when folded; an unrepresentable instant or the calendar's end; or a gap longer than 48 hours |
| `Schedule.ResolvedIff` | src/automation_schedule.rs:233-252 | a wall runs at an instant if and only if that is the earlier instant of the first existing wall at most 48 hours later, reached within the calendar, and representable: a wall in a gap is pushed forward, never dropped |
| `Schedule.PassedOverIff` | src/automation_schedule.rs:239-249 | a wall is passed over if and only if the instant it lands on is negative or above 9007199254740991, or the calendar ends inside the gap |
| `Schedule.UnresolvedIff` | src/automation_schedule.rs:233-252 | resolving fails if and only if every wall of the next 48 hours is missing and the calendar goes on, and then with the gap error |
| `Schedule.DayWallsAreMatching` | src/automation_schedule.rs:200-205 | the walls visited on a day are exactly the calendar's matching walls of that date |
| `Schedule.ScanDay` | src/automation_schedule.rs:200-217 | the nested hour and minute loops fold every wall of the day into the best hit so far |
| `Schedule.FindOccurrence` | src/automation_schedule.rs:183-232 | the search loop with its horizon, direction and two-day countdown computes the search function, one-shot schedules included |
| `Schedule.NextOccurrence` | src/automation_schedule.rs:137-140 | the next occurrence, with its timestamp errors |
| `Schedule.Preview` | src/automation_schedule.rs:141-156 | the preview loop computes the chained list of next occurrences, its count and timestamp errors first |
| `ScheduleLaws.FurtherIsWorse` | src/automation_schedule.rs:218-252 | three days beyond a hit nothing can beat it: the zone's date order plus the 48-hour cap justify the padding of two |
| `ScheduleLaws.SearchIsSound` | src/automation_schedule.rs:183-231 | whatever the search returns is the resolution of a matching wall on a visited day, on the right side of the bound |
| `ScheduleLaws.SearchIsBest` | src/automation_schedule.rs:183-231 | no matching wall of the horizon beats the result, although the search stops two days after its first hit |
| `ScheduleLaws.SearchMeans` | src/automation_schedule.rs:183-231 | soundness and optimality of both directions over the whole horizon |
| `ScheduleLaws.NextIsLeast` | src/automation_schedule.rs:183-252 | the next occurrence is the least one after the bound over every matching wall up to the horizon; none means there is none |
| `ScheduleLaws.ReverseMeans` | src/automation_schedule.rs:183-252 | in any zone, midnight folds included, the reverse search returns the greatest occurrence up to the bound among walls dated up to its local date |
| `ScheduleLaws.ExactIffNothingHidden` | src/automation_schedule.rs:183-252 | for one schedule and one bound, the reverse search returns the latest run since a given instant if and only if no due run is hidden by the date having gone back |
| `ScheduleLaws.LatestIsGreatest` | src/automation_schedule.rs:183-252 | at a bound by which no later-dated wall was named, the reverse search returns the greatest occurrence up to it |
| `ScheduleLaws.MidnightFoldIsMissed` | src/automation_schedule.rs:183-231 | a later-dated wall already named at the bound is missed by the reverse search for a calendar that asks for it |
| `ScheduleLaws.ReverseExactIffAhead` | src/automation_schedule.rs:183-252 | at one bound and for every calendar, the latest run since a given instant is found if and only if no later-dated wall was first named in between |
| `ScheduleLaws.ReverseExactIffNoMidnightFold` | src/automation_schedule.rs:183-252 | corollary over all bounds: exact everywhere if and only if no fold of the zone ever crosses midnight |
| `ScheduleLaws.MidnightFoldExample` | src/automation_schedule.rs:157-231 | a concrete zone, instant and due run ten minutes earlier that the reverse search does not find |
| `ScheduleLaws.MidnightFoldIsBrief` | src/automation_schedule.rs:183-252 | in that zone the condition fails during one hour only |
| `ScheduleLaws.OrdinaryZoneIsLawful` | src/automation_schedule.rs:74-82 | an ordinary daylight-saving zone, with a gap and a fold, meets every zone law |
| `ScheduleLaws.FindSucceedsIff` | src/automation_schedule.rs:183-231 | in a zone without longer gaps, a recurring search of either direction succeeds if and only if its bound is a timestamp; a one-shot search always does |
| `ScheduleLaws.FindGivesTimestamp` | src/automation_schedule.rs:130-136 | whatever a search returns is a timestamp of the zone |
| `ScheduleLaws.OrdinaryZoneIsConvertible` | src/automation_schedule.rs:74-82 | an ordinary daylight-saving zone meets these conditions too |
| `CatchUpLaws.LatestOf` | src/automation_schedule.rs:157-180 | over an interval within the horizon, the reverse search yields the greatest due instant if and only if nothing due is hidden from its end |
| `CatchUpLaws.AccurateIffClear` | src/automation_schedule.rs:157-180 | for one call: latest and missed window are accurate if and only if nothing due is hidden from the two instants looked back from |
| `CatchUpLaws.CatchUpIsAccurate` | src/automation_schedule.rs:157-180 | over an interval in which the date does not go back across a wall named in it: the latest due instant is the greatest in (from, now], and the missed window ends at the second greatest and holds all the others |
| `CatchUpLaws.MissedIffTwoDue` | src/automation_schedule.rs:157-180 | a missed window exists exactly when at least two occurrences are due |
| `CatchUpLaws.CatchUpNextFollows` | src/automation_schedule.rs:157-180 | in any lawful zone, for one-shot and recurring schedules, the announced next occurrence is after now with none of its horizon in between |
| `CatchUpLaws.ReportedExactlyOnce` | src/automation_schedule.rs:157-180 | every due instant is either the latest or inside the window, never both, and nothing outside the interval is reported |
| `CatchUpLaws.AdjacentCatchUpsPartition` | src/automation_schedule.rs:157-180 | two adjacent catch-ups account for each occurrence exactly once |
| `CatchUpLaws.PreviewChains` | src/automation_schedule.rs:141-155 | each item is the next occurrence after its predecessor; a short list means the next search found nothing |
| `CatchUpLaws.PreviewSkipsNothing` | src/automation_schedule.rs:137-155 | in any lawful zone, for one-shot and recurring schedules, a preview strictly increases and skips no occurrence within each step's horizon |
| `CatchUpLaws.NextSucceedsIff` | src/automation_schedule.rs:137-140 | the next occurrence is computed if and only if it is asked for from a timestamp |
| `CatchUpLaws.PreviewSucceedsIff` | src/automation_schedule.rs:145-155 | so is a preview, all its steps included |
| `CatchUpLaws.CatchUpSucceedsIff` | src/automation_schedule.rs:157-180 | a catch-up succeeds if and only if both ends are timestamps in order, and otherwise says which condition failed |
| `Clusters.ConnectedByNewPair` | src/learn.rs:491-530 | adding a pair merges exactly the two classes it names |
| `Clusters.HalvingKeepsRoots` | src/learn.rs:494-500 | replacing a parent by the grandparent moves no root |
| `Clusters.LinkingMovesTree` | src/learn.rs:516-519 | linking one root under another moves exactly that root's tree |
| `Clusters.RootOf` | src/learn.rs:494-500 | a walk up the parents ends at a fixed point no greater than where it began |
| `Clusters.Root` | src/learn.rs:494-500 | the lookup with path halving returns the root and changes no root |
| `Clusters.Slot` | src/learn.rs:505-514 | an id seen first gets a tree of its own at the next index, after all ids the pairs named before it (`FirstSeenIsInOrder`); a known one keeps its slot |
| `Clusters.MergeAddsPair` | src/learn.rs:515-519 | after the merge two ids share a root exactly when the pairs so far connect them |
| `Clusters.Gather` | src/learn.rs:521-528 | one cluster per root in root order, members ascending |
| `Clusters.DuplicateClusters` | src/learn.rs:493-530 | the result partitions the mentioned ids into connected classes; members, and classes by first member, are in the order of the input positions that first name them |
| `Clusters.ClusteredIsUnique` | src/learn.rs:491-530 | that description has only one answer, so the output is stable |
| `Clusters.FirstSeenIsInOrder` | src/learn.rs:502-514 | the ids are listed by the first input position, left before right, at which a pair names them |
| `Clusters.PairStaysInOrder` | src/learn.rs:491-530 | one pair of different ids is one cluster, in the order the pair names them |
| `RouteImport.FindLegacy` | src/learn.rs:137-145 | a legacy row is found exactly when the route is plain and some remaining row has its projection |
| `RouteImport.SwapRemove` | src/learn.rs:146-146 | removal by swapping takes out exactly one occurrence |
| `RouteImport.Memory.Store` | src/learn.rs:150-162 | a store appends one row, or fails and changes nothing |
| `RouteImport.Memory.FilterRoutes` | src/memory/sqlite.rs:260-285 | row i of the answer is the i-th newest row of the store, and there are as many as the limit allows |
| `RouteImport.StoreRouteActivity` | src/learn.rs:111-165 | the loop over a store that may fail computes the import, whose rows `StoredRowsBelong` spells out, and leaves what was stored before a failure in place |
| `RouteImportLaws.ProvenanceIsIdentity` | src/learn.rs:100-109 | equal provenance means the same route, given no digest collision |
| `RouteImportLaws.ProvenanceIsNotLegacy` | src/learn.rs:100-136 | a route's provenance never equals a legacy provenance string |
| `RouteImportLaws.ImportKeeps` | src/learn.rs:111-165 | what every step keeps: stored, charged and known identities, and the conservation of legacy rows |
| `RouteImportLaws.ImportAppends` | src/learn.rs:111-165 | an import only adds; after a completed one every route is known |
| `RouteImportLaws.ImportLosesNothing` | src/learn.rs:129-163 | every route is either stored under its own provenance or charged, and only routes without tools, correlation and stage are charged |
| `RouteImportLaws.ChargesAreDistinctRows` | src/learn.rs:127-149 | charged routes own pairwise distinct older rows that carry their timestamp, summary, payload and confidence |
| `RouteImportLaws.StoredRowsBelong` | src/learn.rs:100-163 | every row an import appends is that of one of the routes, in their order: provenance, summary, payload, confidence, retention and tags as texts over the route's fields |
| `RouteImportLaws.StoredOnlyWhenNoneLeft` | src/learn.rs:137-149 | a route without extras is stored only once every older row that says the same of it has been charged |
| `RouteImportLaws.ReimportStoresNothing` | src/learn.rs:111-165 | after a completed import any selection of the same routes, in any order and with repeats, stores nothing |
| `RouteImportLaws.QuietIffBacked` | src/learn.rs:111-165 | an import over any rows completes and stores nothing if and only if every route has a row of its own or a legacy row can be found for each that has not |
| `RouteImportLimits.ReimportWithinLimit` | src/learn.rs:111-165 | the same through the store's own query, with at most 10,000 route rows |
| `RouteImportRetry.RetryContinues` | src/learn.rs:127-164 | with every row in sight, failing after any number of stores and rerunning stores exactly the rows, in order, of one run, wherever the rerun itself fails |
| `RouteImportRetry.ResumesIffBacked` | src/learn.rs:111-165 | a completed rerun over any part of the rows stores exactly what was still owed if and only if those rows back every route that is not owed |
| `RouteImportLimits.RepeatIsFreeIff` | src/learn.rs:111-165 | for any store and any import, a repeat stores nothing if and only if the newest 10,000 rows back every repeated route; without legacy rows, if and only if each still has its row among those |
| `RouteImportLimits.RetryWithinLimit` | src/learn.rs:111-165 | through the store, with at most 10,000 rows by then, a retry resumes where the failed run stopped |
| `RouteImportLimits.RetryIsSafeIff` | src/learn.rs:111-165 | through the store, for any number of rows, a completed retry resumes if and only if the newest 10,000 rows back every route not owed; without legacy rows, if and only if no route that had a row loses sight of it |
| `RouteImportLimits.RepeatCanStore` | src/learn.rs:111-165 | a full store and two routes: the import stores one, and repeating it stores the other again |
| `RouteImportLimits.RetryCanStoreMore` | src/learn.rs:111-165 | a full store, three routes and a failure after one row: the rerun stores a row an uninterrupted run would not |
| `RouteImportLimits.LimitExample` | src/learn.rs:111-118 | concrete rows, routes and digests for which both happen |
| `RunControl.Reducer.Accept` | src/run_control.rs:277-309 | accepts exactly what the step function accepts, which `SnapshotAcceptedIff`, `PageAcceptedIff` and `OtherKindsAreRefused` characterise; a rejected response leaves the view unchanged |
| `RunControl.Reducer.TakeSnapshot` | src/run_control.rs:329-345 | a snapshot becomes the one in view, or is refused with the view untouched |
| `RunControl.Reducer.TakePage` | src/run_control.rs:347-374 | a page is pushed or refused with the view untouched |
| `RunControl.ValidateEventOrder` | src/run_control.rs:400-426 | the event loop accepts exactly the pages whose states walk the lifecycle graph from the previous page's last event |
| `RunControlAcceptance.SnapshotAcceptedIff` | src/run_control.rs:277-345 | a status, cancellation or submission response is accepted if and only if it is sound, answers its command, belongs to the run in view and follows the snapshot in view; the view then holds exactly that snapshot, the same pages, and the disposition of a submission |
| `RunControlAcceptance.SnapshotRefusal` | src/run_control.rs:286-345 | a sound snapshot is refused first for the wrong answer, then for the wrong run, then as a regression |
| `RunControlAcceptance.PageAcceptedIff` | src/run_control.rs:347-374 | a page is accepted if and only if it is sound, answers its query, belongs to the run and watermark in view and continues the pages and the lifecycle; it is then the last page, and nothing else changes |
| `RunControlAcceptance.OtherKindsAreRefused` | src/run_control.rs:286-308 | a valid response that does not answer a valid command is refused as mismatched |
| `RunControlAcceptance.NextCommandIff` | src/run_control.rs:311-327 | another page is asked for if and only if the pages in view end below their watermark; a limit outside 1 to 16 is refused |
| `RunControlAcceptance.TransitionIff` | src/app_core/run.rs:101-139 | nothing leaves an end state; a live run may end at any time but succeeds only once it runs; it starts, then runs; it may be asked to stop once |
| `RunControlAcceptance.LifecyclesAllowed` | src/run_control.rs:400-426 | a run that succeeds, one cancelled, one failed and one interrupted |
| `RunControlAcceptance.LifecyclesRefused` | src/run_control.rs:400-426 | no success without running, no running without starting or after a cancellation request, no start after a failure |
| `RunControlLaws.CanFollowIsPartialOrder` | src/run_control.rs:385-398 | the snapshot order is reflexive, antisymmetric and transitive |
| `RunControlLaws.CanFollowIsReachability` | src/app_core/run.rs:99-139 | the snapshot order is exactly reachability through legal lifecycle events |
| `RunControlLaws.WalkIsShort` | src/app_core/run.rs:99-139 | no legal lifecycle has more than five events |
| `RunControlLaws.WalkConcat` | src/run_control.rs:400-426 | pages judged one after another form one lifecycle path, and conversely |
| `RunControlLaws.ApplyKeepsGood` | src/run_control.rs:277-383 | every accepted response keeps one run id, one watermark, chained cursors, more on every page but the last, and one lifecycle path |
| `RunControlLaws.ReachableViews` | src/run_control.rs:277-383 | the same in every state reachable by any history, rejected responses included |
| `RunControlLaws.HistoryNeverRegresses` | src/run_control.rs:329-398 | between any two moments of any history: identity constant, counts never fall and rise with the state, the order is followed, terminal snapshots frozen |
| `RunControlLaws.NextPageIsJudgedByLifecycle` | src/run_control.rs:311-374 | a valid page that answers the next command is never refused for run, cursor or watermark, only for lifecycle order |
| `RunControlLaws.ServedPageIsValid` | src/app_core/run.rs:472-513 | the next slice of an append-only ledger is a valid page within the limit |
| `RunControlLaws.PagingAdvances` | src/run_control.rs:311-374 | one more page, from a ledger that may have grown, is accepted, keeps the watermark and moves the cursor forward |
| `RunControlLaws.DrainEvents` | src/run_control.rs:311-374 | repeated paging ends, and the pages then hold exactly the ledger as of the first request |
| `RunControlLaws.FirstPageReads` | src/run_control.rs:347-374 | the first page of a run is accepted and fixes the watermark |
| `TomlLite.WithoutTomlComment` | src/config.rs:446-463 | the quote-tracking loop cuts at the first hash outside strings |
| `TomlLite.StripString` | src/config.rs:466-522 | the decoding loop computes the decoder, every error included |
| `TomlLite.BareValue` | src/config.rs:467-473 | an unquoted value: refused if a quote is anywhere in it, else without its trailing commas |
| `TomlLite.DecodeHexDigits` | src/config.rs:505-515 | four or eight hex digits to a scalar value, or the error |
| `TomlLite.ParseTomlLite` | src/config.rs:298-440 | the line loop computes the document function, whose result `DocumentMeans` describes, and stops at the first error |
| `TomlStrings.DecodeRendered` | src/config.rs:466-522 | everything the string grammar writes is read back with its meaning |
| `TomlStrings.AcceptedIsRendered` | src/config.rs:466-522 | everything the decoder accepts was written by the grammar and means what it decodes to |
| `TomlStrings.EncodeDecodes` | src/config.rs:466-522 | every string, written canonically, decodes to itself |
| `TomlStrings.LiteralRunsVerbatim` | src/config.rs:466-522 | a literal string is taken verbatim up to its closing quote |
| `TomlStrings.LiteralAcceptedIff` | src/config.rs:466-522 | a single-quoted string is accepted if and only if it is closed, holds no control character but tabs, and only blanks follow |
| `TomlStrings.ShortEscape` | src/config.rs:492-504 | the seven short escapes and the characters they stand for |
| `TomlStrings.HexEscape` | src/config.rs:505-515 | any four hex digits of a scalar value stand for the character with that number |
| `TomlStrings.ScannerLeavesWhereDecoderCloses` | src/config.rs:446-522 | the comment scanner leaves the quoted state exactly at the decoder's closing quote of any accepted literal |
| `TomlDocuments.CommentIsCut` | src/config.rs:446-463 | a comment after an accepted value, if any, is cut right where it starts, whatever quotes or hashes surround it |
| `TomlDocuments.LineIsRead` | src/config.rs:298-440 | one assignment with any spacing, with or without a comment, is read as its key and its string; `AssignmentLineSets` says what that sets |
| `TomlDocuments.DocumentRoundTrips` | src/config.rs:298-522 | tables, assignments of arbitrary strings and blank lines, with or without comments, parse back entry by entry; `DocumentMeans` says to what |
| `TomlMeaning.DocumentMeans` | src/config.rs:298-440 | a written document is refused if and only if it assigns a knowledge key twice or a dimension that is no count; otherwise exactly the assigned keys are present, each with its last string, verbatim except for the ASCII lower case of `backend` and `embeddings.provider` |
| `TomlMeaning.AssignmentLineSets` | src/config.rs:337-436 | an assignment line changes its own key and no other, folds exactly the two backend names letter by letter, and refuses a repeated knowledge key and a bad dimension |
| `TomlMeaning.BareValueSets` | src/config.rs:467-473 | an unquoted value is taken as it stands without its trailing commas |
| `TomlMeaning.UnknownKeyLine` | src/config.rs:338-361 | an unknown key is refused in the knowledge table and ignored elsewhere, whatever its value |
| `TomlMeaning.LineWithoutEquals` | src/config.rs:331-337 | so is a line that assigns nothing |
| `TomlMeaning.KnownKeys` | src/config.rs:341-358 | the fourteen keys, by table |
| `TomlMeaning.CountIff` | src/config.rs:400-404 | a dimension is an optional plus sign, any zeros and the numeral of a 64-bit word |
| `Checklist.ParsePlanItems` | src/ralph.rs:371-393 | the line loop computes the numbered item list |
| `Checklist.MarkTaskCompleted` | src/ralph.rs:413-444 | the rewriting loop changes the first matching pending line only, or reports that none matches |
| `ChecklistMeaning.ItemIff` | src/ralph.rs:374-391 | a line is an item if and only if it is indentation, a box, blanks and a text: open with a blank in the box, done with an x of either case |
| `ChecklistMeaning.ItemsAreLines` | src/ralph.rs:371-393 | an item is listed if and only if the line of its number, counted from one, spells it |
| `ChecklistMeaning.ItemsInFileOrder` | src/ralph.rs:371-393 | the list is in file order, one item a line |
| `ChecklistMeaning.MarkTicks` | src/ralph.rs:419-444 | marking ticks the box of the first open line with that text, keeps its indentation and text, and rewrites every other line as it was |
| `ChecklistMeaning.MarkSucceedsIff` | src/ralph.rs:413-444 | marking succeeds if and only if some line is an open box for the task |
| `Text.LinesWithOpenEnd` | src/ralph.rs:373-373 | a last line without a newline is a line too |
| `ChecklistLaws.PendingLine` | src/ralph.rs:371-444 | a line parses as a pending item exactly when the marker can find it by its text, although the two trim differently |
| `ChecklistLaws.MarkedLineIsDone` | src/ralph.rs:413-444 | the rewritten line parses to the same item, done |
| `ChecklistLaws.MarkCompletesSelected` | src/ralph.rs:413-451 | marking the selected task succeeds and re-parses to the same list with exactly that item flipped |
| `ChecklistLaws.CompletePlan` | src/ralph.rs:413-451 | select-and-mark ends after exactly the pending count, in file order, with everything done |
| `ChecklistLaws.SelectedIsMarkedIffPrimary` | src/ralph.rs:396-451 | the selected task is marked exactly when it was read from the primary plan file |
| `ChecklistLaws.FallbackIsNeverMarked` | src/ralph.rs:396-451 | a workspace with only the fallback list, whose selected task stays unmarked |
| `Pieces.CoverIsUnique` | src/knowledge.rs:115-122 | at most one character covers a folded offset |
| `Pieces.OccursInBothIff` | src/knowledge.rs:109-123 | an occurrence carries over to another folding of the same sizes exactly when they agree on its bytes |
| `FoldSearch.FindFrom` | src/knowledge.rs:109-111 | the first occurrence, or none |
| `FoldSearch.MapOffset` | src/knowledge.rs:115-122 | the counting loop finds the character whose fold covers the offset, and its byte index; otherwise the start |
| `FoldSearch.ContextKeepsSizes` | src/knowledge.rs:109-123 | counting characters one by one gives the sizes of the contextual fold, the final sigma included |
| `FoldSearch.FoldedAt` | src/knowledge.rs:105-110 | a character folds by itself except the capital sigma, which is final if and only if a letter comes before it and none after it, ignorable characters aside |
| `FoldSearch.ByteIndexCuts` | src/knowledge.rs:116-123 | the byte index is a valid cut of the document, and what follows is the text from that character on |
| `FoldSearch.SliceFrom` | src/knowledge.rs:123-123 | slicing at a byte index between characters yields the text whose bytes are the rest of the document |
| `FoldSearch.FallbackIffBothEmpty` | src/knowledge.rs:109-122 | the fallback to 0 is reached exactly when both document and query are empty |
| `FoldSearch.MatchIsPinned` | src/knowledge.rs:105-123 | the match starts on a character boundary inside the covering character's fold, and the fold from there holds the query at the residual offset |
| `FoldSearch.RefoldContainsIff` | src/knowledge.rs:105-123 | folding the rest again holds the query there exactly when no sigma of the match changes its form |
| `FoldSearch.FlipNeedsOnlyIgnorables` | src/knowledge.rs:105-123 | only a sigma right behind the cut, past ignorable characters, can change its form |
| `FoldSearch.RefoldCanMiss` | src/knowledge.rs:105-123 | a two-letter word and a query for which the refolded rest does not match |
| `FoldSearch.BoundedExcerpt` | src/knowledge.rs:136-146 | the longest prefix that fits 512 bytes once control characters are blanked |
| `FoldSearch.ExcerptIff` | src/knowledge.rs:136-146 | character by character: control codes are blanked and nothing else changes, until the next character would pass 512 bytes |
| `KnowledgeSearch.HitIn` | src/knowledge.rs:107-129 | a document yields a hit exactly when it matches; the slice at the recovered byte index never splits a character, and the hit shows the text from the covering character on |
| `KnowledgeSearch.HitIsUnique` | src/knowledge.rs:107-129 | what a matching document shows is determined |
| `KnowledgeSearch.DedupById` | src/knowledge.rs:131-131 | a sorted list becomes strictly sorted, with every id kept |
| `KnowledgeSearch.Top` | src/knowledge.rs:130-132 | sort, dedup and truncate leave the least ids, each once, in order |
| `KnowledgeSearch.Search` | src/knowledge.rs:76-134 | bad queries and limits are refused; otherwise the answer holds the least ids of the matching documents, up to the limit |
| `KnowledgeSearch.GoodQueryIff` | src/knowledge.rs:77-82 | a query is accepted if and only if some character of it is not whitespace, none is a control code, and it takes at most 256 bytes |
| `Preimage.LineIsDecodable` | src/abbey_contracts.rs:629-638 | an entry's line determines the entry and where the next line begins |
| `Preimage.LinesAreDecodable` | src/abbey_contracts.rs:629-638 | a stream of lines determines the list of entries |
| `Preimage.PreimageIff` | src/abbey_contracts.rs:610-638 | equal preimages exactly when the same entries, over NUL-free distinct paths and newline-free digests, in any listing order |
| `Preimage.NulPathsCollide` | src/abbey_contracts.rs:629-638 | with a NUL in a path two different entries have the same line |
| `Preimage.PreimageExample` | src/abbey_contracts.rs:610-638 | the bytes hashed for two files listed out of order |
| `Sorting.LessIff` | src/abbey_contracts.rs:627-627 | the path order is decided at the first byte where two paths part, a proper prefix first |
| `Corpus.AggregateDigest` | src/abbey_contracts.rs:610-640 | the streamed digest is the hash of the sorted preimage, the zeroed manifest entry included |
| `Corpus.Qualify` | src/abbey_contracts.rs:397-425 | accepts exactly the corpora whose every row is valid, unrepeated, readable and matching, whose names are the files, whose total fits and whose digest agrees; reports the first fault; the total is exact, never saturated |
| `Corpus.AcceptedIff` | src/abbey_contracts.rs:397-425 | the same without the loop: every path relative and describing its file, no path twice, exactly the discovered files, at most 16 MiB, and the digest |
| `Corpus.FirstFaultIsFirst` | src/abbey_contracts.rs:401-418 | the error reported is that of the first bad row: a path not relative, else a repeated one, else the read error, else a wrong size or digest |
| `Corpus.ValidRelativeIff` | src/abbey_contracts.rs:583-596 | a path is relative if and only if, byte by byte, it is not empty and has no backslash, no leading slash, no leading dot segment and no parent step |
| `Corpus.EntriesAre` | src/abbey_contracts.rs:610-626 | what is hashed: each row's path, size and digest, and the manifest printed with sixty-four zeros for its digest and a newline; the manifest's own digest does not matter |
| `Corpus.AcceptedIsDecodable` | src/abbey_contracts.rs:397-425 | an accepted inventory supplies the distinct NUL-free paths and hex digests that decoding needs |
| `Corpus.EmptyCorpusIsAccepted` | src/abbey_contracts.rs:397-425 | the conditions for acceptance can be met |
| `Corpus.SameDigestSameCorpus` | src/abbey_contracts.rs:397-425 | two accepted corpora with the same aggregate digest hold the same files and the same zeroed manifest, unless the hash collides |
| `Utf8.ValidIsEncoded` | src/argv_budget.rs:18-42 | well-formed octets are encodings of texts (with `Utf8.EncodedIsValid`, exactly those) |
| `Utf8.EncodedIsValid` | src/argv_budget.rs:18-42 | the encoding of any text is well formed |
| `Utf8.EncodingIsInjective` | src/argv_budget.rs:18-42 | an encoding determines its text |
| `Utf8.BoundaryIffValidPrefix` | src/argv_budget.rs:29-38 | the boundary test holds exactly where a cut leaves a well-formed prefix |
| `Utf8.LastBoundaryIsLongest` | src/argv_budget.rs:28-39 | walking back to a boundary leaves the longest well-formed prefix, at most three bytes short |
| `ArgvBudget.FloorBoundary` | src/argv_budget.rs:28-31 | the decrementing loop finds that cut |
| `ArgvBudget.TruncateUtf8Bytes` | src/argv_budget.rs:18-42 | unchanged if it fits; else the longest prefix that leaves room for the marker, or as much of the marker as fits; always well formed, within the limit and at most three bytes short of it |
| `ArgvBudget.TruncationIsUnique` | src/argv_budget.rs:18-42 | that description leaves no choice |
| `ArgvBudget.MarkerSays` | src/argv_budget.rs:23-26 | the marker is one sentence with the limit kept to and then the length there was, in decimal |
| `ArgvBudget.CutEndsInMarker` | src/argv_budget.rs:23-33 | with a limit of 400 bytes or more, a cut string is its longest fitting prefix and then the whole marker |
| `ArgvBudget.MarkerHasRoom` | src/argv_budget.rs:10-26 | every limit of 400 bytes or more has room for the whole marker |
| `ArgvBudget.ArgVec.AppendPromptArgs` | src/argv_budget.rs:47-58 | fixed arguments are an untouched prefix, one argument per prompt, each prompt truncated to what is left |
| `ArgvBudget.BudgetedIsUnique` | src/argv_budget.rs:47-58 | the appended prompts are determined by the fixed total and the prompts |
| `ArgvBudget.BudgetIsKept` | src/argv_budget.rs:47-58 | prompts are well formed and within the cap; the total stays within 64 KiB whenever the fixed part does |
| `ArgvBudget.AllEmptyIff` | src/argv_budget.rs:47-58 | every prompt is emptied exactly when the fixed part used up the budget or there was nothing to append |
| `ArgvBudget.UntouchedIff` | src/argv_budget.rs:47-58 | prompts pass unchanged exactly when each is within the cap and all fit together, or all are empty |
| `ArgvBudget.LonePrompt` | src/argv_budget.rs:10-58 | a single prompt meets the lesser of 32 KiB (24 KiB on Windows) and what the fixed arguments leave of 64 KiB, and passes unchanged if and only if it is within that |
| `ArgvBudget.CommandLineFits` | src/argv_budget.rs:7-58 | no prompt exceeds 32 KiB (24 KiB on Windows), and the total never exceeds 64 KiB unless the fixed part alone does |

## Left out

- Time-zone tables, cron expressions and RFC 3339 labels: the calendar is a predicate on days with hour and minute lists, the zone a function from wall minutes to instants with stated laws.
- JSON, SHA-256, SQLite and WDBX internals: parsers and digests are function parameters, the memory store a list of rows with a failure point; insertion order stands for the timestamp order of its query.
- ProvenanceIsIdentity: takes the absence of digest collisions among the imported routes as a hypothesis, since SHA-256 is not modelled.
- ProvenanceIsNotLegacy: takes timestamps without blanks as a hypothesis, as the program writes them; a record with a blank in its timestamp is outside the import laws.
- Zone laws: every zone is assumed to keep its dates in order, to have named a date's walls by the time that date is past, and to stay clear of the calendar's edge; folds across midnight are not excluded, the reverse results say where they matter. An ordinary daylight-saving zone is shown to meet all of these.
- FindSucceedsIff: covers zones whose gaps stay within 48 hours and whose instants convert to local dates; for a longer gap `UnresolvedIff` says which walls fail.
- Timestamps, identifiers and failure texts of run snapshots: their well-formedness is a flag of the record, their comparison an abstract stamp.
- Configuration values keep their decoded text in a map from qualified key to string; typed defaults, environment overrides and the search for the file are not part of this model.
- Code points U+0080 to U+009F: the decoder refuses them raw although section "String" of TOML v1.0.0 allows them; the model follows the code.
- Confidence of memory rows is kept as a real number; rounding of floating point is not modelled.
- Lower-casing data is a parameter constrained only to be non-empty and to fold a lone capital sigma to the small one; the knowledge source selection and its folder traversal are not part of this model.
- The directory walk, the lock file and the schema compilation of corpus qualification: discovered names are given, without NUL and without the manifest itself; file names follow Unix separators.
- Route grouping in improvement planning: counters over equal keys that would only add easy members.
- Records longer than the machine's address space: lengths are unbounded integers, with saturation written out only where the program saturates.
- Command-line parsing, terminal and desktop surfaces, voice, mesh supervision, the daemon and the agent loop: printing, dispatch tables and subprocess plumbing.
