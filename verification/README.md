# A record-shop crawler, verified

The program watches record stores for a handful of users: workers on several Machines
drain one crawl queue in Postgres, each user's library and recommendations are refreshed
under leases two Machines can fight over, listings are folded to keys that say which
pressing and which record they are, and a model is paid for one verdict per record.
This project models the parts where that goes wrong in ways nobody would see, and proves
that it does not, or exactly when it does.

`dafny verify dfyconfig.toml` checks everything.

## How it is modelled

One SQL statement is one atomic step, and a row or advisory lock is held to the end of its
transaction. A protocol is a `World`, a `Step` and a function from one world to the next;
its theorems range over every list of steps any number of workers can take. Tables and
module globals that the program changes in place are classes whose methods are proved
against the functions those steps use. Loops of the program are loops here.

| module | what it holds |
|---|---|
| `CrawlQueue`, `QueueOwnership`, `QueueTiming` | the `crawl_queue` table, who may write what and when a row is handed out or back, over all interleavings |
| `SaveSweep` | the race between a save and the library-only sweep, and the lock that closes it |
| `WorkerPass`, `WorkerObligations`, `SiteReports`, `PassInQueue` | one pass of a worker over its claimed rows, the account of every crawler it owes, what each site's breaker is told, and its close inside the shared queue |
| `QueueReport` | the grouped report against the row-by-crawler list it stands for |
| `RunLease`, `LeaseRuns`, `LeaseTiming`, `LeaseStatements` | the token-and-heartbeat leases, their closing code, the transactions fenced by them, how long a claim lasts, and the two tables under them |
| `FoldKeys`, `KeySweep`, `Judgments`, `JudgmentSelection` | the stored keys, the sweep that repairs them, what is asked, paid for and stored about a record, and exactly what may be asked |
| `Text`, `Pattern`, `Phrases`, `TitleKey`, `RecordKeys` | the two folds of a title, with the regular expressions as data |
| `WordPlaces`, `RecordNames`, `RecordNamesLimits` | a word that says which record it is never leaves the key, and the words that can |
| `RecordAside`, `RecordAsideLimits` | a bracketed pressing aside never changes the record, and the one family where it does |
| `RecordFront`, `RecordFrontLimits`, `ArtistForms` | nor does the artist written in front, in any of its spellings, and exactly which artists are excepted |
| `PriceSort` | the locale-tolerant price parser, printed amounts read back |
| `CatalogWalk`, `CatalogGuards` | the paged walk of a catalog that changes meanwhile, and exactly which answers it completes on |
| `ConfigCache`, `ConfigAge` | the settings cache, its generation counter and the age of what it answers |
| `StockSync` | the run over all stores that aborts on rate limits and resumes |

## What turned out not to hold

- A bare decimal behind a comma with exactly three digits (`,999`) is read as 999, not as
  0.999: the zero the tokeniser puts back makes it look like one comma group. The
  function's documentation says an unrecognised token can only understate.
  `BareDecimalIsItsFractionIff` gives the exact condition. The same lemma shows what a
  currency abbreviation with a dot does: in `Rs.500` the dot is the token's, and the price
  is 0.500.
- Appending an accepted aside can change the record key of a title whose every word is
  fenced pressing wording, such as `(lp) - red`: nothing is left to rebuild, and the whole
  title, aside included, is keyed instead. `EveryAsideKeepsTheRecordIff` says exactly
  which titles.
- Writing the artist in front can change the key if the folded artist ends in ", the" with
  a plain space, or nothing, before the comma: `x , the` is also looked for as `the x ` with
  its space, which the title `the x'–y` only has once it is rebuilt.
  `EveryTitleKeepsTheRecordIff` says that these are exactly the artists some bracket-free
  title shows it for; any other white space there does no harm.
- A segment can read as a size: behind a name that ends in one, `in` is taken for inches, so
  `songs 12 - in` has the key of `songs` although no vocabulary knows the word
  (`ASegmentCanReadAsASize`). Words no phrase can take are never lost (`NamesStay`).
- A record can be paid for twice: a run that was taken over and the run that replaced it
  may both have selected it and both ask (`ATakeoverCanPayTwice`). Its answer is stored
  once, and `PaidAgainOnlyWhileNothingIsStored` says how far paying again goes.
- An answer stored over a verdict already attributed to the same record loses its
  attribution to the trigger on `stock_item_judgments` (`TriggerForgets`). It cannot
  happen in a run that starts with no verdict, which is where `Judgments` starts.

## Model

| member | source | states |
|---|---|---|
| `CrawlQueue.FirstInOrder` | backend/db.py:2936-2990 | the batch a claim returns is as many claimable, unlocked rows as fit, in the claim's order, with nothing left behind that sorts before a row it took |
| `CrawlQueue.ClaimBatchUnique` | backend/db.py:2979-2990 | the two ORDER BYs determine the batch and its order: any batch with that property is the same one |
| `CrawlQueue.ExpeditedFirst` | backend/db.py:2936-2990 | an expedited candidate is never left behind by a batch that takes a routine row, and is worked before it |
| `CrawlQueue.RepeatedSaveChangesNothing` | backend/db.py:2822-2855 | a second save of an item changes no column, whatever the first found and however much later it comes |
| `CrawlQueue.SaveReachesEveryState` | backend/db.py:2822-2855 | a save leaves an expedited row that is pending and unnarrowed or held by a worker, and only stamps the priority of a held one |
| `CrawlQueue.Queue.EnqueueRelease` | backend/db.py:2654-2665 | a missing row is inserted and only a done one revived, with its priority kept |
| `CrawlQueue.Queue.EnqueueStockItem` | backend/db.py:2670-2683 | the same behind the crawlable gate, and a revival drops the priority |
| `CrawlQueue.Queue.EnqueueSaved` | backend/db.py:2822-2855 | insert, expedite or stamp, and a count of one exactly when a store lists the item |
| `CrawlQueue.Queue.ClaimBatch` | backend/db.py:2936-2990 | the first candidates in claim order become in progress under this worker, and nothing else changes |
| `CrawlQueue.Queue.MarkDone` | backend/db.py:3023-3030 | the close lands exactly when the worker's claim is the row's, and says so |
| `CrawlQueue.Queue.Defer` | backend/db.py:3038-3051 | the same for handing a row back narrowed and delayed, in its old place in the queue |
| `CrawlQueue.Queue.RevertClaim` | backend/db.py:3066-3072 | exactly the given rows are handed back |
| `CrawlQueue.Queue.ReclaimStranded` | backend/db.py:3104-3117 | exactly the unlocked in-progress rows claimed before the cutoff are handed back and counted |
| `CrawlQueue.Queue.BackfillForCrawler` | backend/db.py:2426-2520 | done rows without a price for the crawler are revived for it alone and narrowed rows are widened to it once; a crawler that is no release crawler changes nothing |
| `CrawlQueue.Queue.DeleteDead` | backend/db.py:3138-3153 | only pending stock rows the gate refuses are deleted |
| `QueueOwnership.StepKeeps` | backend/db.py:2936-3117 | every statement keeps the claim columns null exactly where nobody holds the row, and naming its latest owner where somebody does |
| `QueueOwnership.WriteTakesEffectIffOwner` | backend/db.py:3004-3051 | in every reachable world a listing or terminal write lands if and only if its worker made the latest claim of the row and nobody handed it back since; a refused write changes nothing |
| `QueueOwnership.EveryWriteIsOwned` | backend/db.py:2936-3117 | over whole runs, every write that took effect is covered by a claim of its worker with no other claim, hand-back or new pass in between |
| `QueueOwnership.NoRowIsHeldTwice` | backend/db.py:2936-2990 | two claims of one row always have a hand-back of it between them |
| `QueueTiming.ClaimTakesTheReady` | backend/db.py:2936-2990 | a claim takes no row that is not waiting, due, let through by the gate and unlocked, every such row while there is room, and leaves behind only what sorts after what it took |
| `QueueTiming.EarlierFirst` | backend/db.py:2956-2990 | of two ready rows an expedited one, then a release, then the one asked for first is taken first |
| `QueueTiming.PutOffUntilDue` | backend/db.py:3038-3051 | in every run a deferred row is not handed out before its delay is over, unless a backfill widens it, and then by the first claim with room |
| `QueueTiming.ReclaimedIffOverdue` | backend/db.py:3104-3117 | in every run a claim nothing has ended is taken back if and only if it is older than the threshold and the row is not locked |
| `QueueTiming.DroppedIffDead` | backend/db.py:3138-3153 | no statement drops a row but the sweep, and it exactly the waiting items the gate refuses |
| `QueueTiming.EnqueueReaches` | backend/db.py:2654-2683 | after an enqueue the target's row waits for every crawler from now on, unless it was waiting or held already |
| `QueueTiming.SavesQueueUp` | backend/db.py:2822-2855 | a save joins the expedited lane behind what was asked for earlier, and repeating it there moves the row neither forward nor back |
| `QueueTiming.BackfillReaches` | backend/db.py:2426-2520 | a backfill makes exactly the unlocked waiting rows and the unlocked done ones of its kind without a price wait for the new crawler, at once, and for no other |
| `SaveSweep.SavedItemHasARow` | backend/db.py:2706-2855 | in every interleaving of saves, sweeps, enqueues and claims under the reconciliation lock, a committed save of a listed item keeps its queue row while the save and the listing last |
| `SaveSweep.CommittedSaveIsPromised` | backend/routers/stock.py:110-118 | a committing save that found the item listed is one of those |
| `SaveSweep.BusyRowsStay` | backend/db.py:3138-3153 | a row a worker has taken is never deleted under it, not even by a sweep that found it dead before it was claimed |
| `SaveSweep.WithoutTheLockTheRowIsLost` | backend/db.py:2686-2697 | without the lock a sweep whose snapshot is older than a save's commit deletes the row the save found, row locks and all |
| `WorkerPass.ProcessClaimedRows` | backend/crawl_manager.py:545-808 | the flattened loop over units, which recognises a row's last unit by looking at the next, logs exactly the row-by-row account, for any answers whatever |
| `WorkerObligations.RowAccount` | backend/crawl_manager.py:545-808 | what the whole pass's log says about one row is its own history and nothing else |
| `WorkerObligations.NoObligationLost` | backend/crawl_manager.py:545-808 | every eligible crawler of a claimed row is exactly one of searched, failed or put off, and the close, if there is one, is done when nothing was put off and otherwise narrowed to exactly the crawlers that were |
| `WorkerObligations.ClosedOnceIffHeld` | backend/crawl_manager.py:545-808 | a claimed row with work to do is closed, exactly once, if and only if its own last search did not find it reclaimed, whatever became of the rest of the batch |
| `WorkerObligations.ClosedBeforeTheNextRow` | backend/crawl_manager.py:561-660 | every row is finished before a later row's first unit runs |
| `WorkerObligations.CloseLandsIffHeld` | backend/db.py:3023-3051 | the closing statement lands exactly when the worker still holds the row, and keeps its target, age and priority |
| `SiteReports.SitesAreToldTheTruth` | backend/crawl_manager.py:655-720 | every report to a breaker stands directly before the end of a search of that crawler, and is success if and only if the search matched with no bot detected, failure if and only if it could not be made, was fended off, or came back empty from a crawler that does not expect it for a release |
| `SiteReports.EverySearchIsReported` | backend/crawl_manager.py:655-720 | and every search of the pass has its place in the log with exactly that report, or none |
| `PassInQueue.ClosedIffOwned` | backend/crawl_manager.py:545-808 | inside any reachable queue, a pass closes a row if and only if the worker's claim was still the latest thing that happened to it when its last listing was written |
| `PassInQueue.CloseInTheQueue` | backend/crawl_manager.py:599-642 | the logged close leaves the row done, or pending, unclaimed and narrowed to exactly the crawlers put off, if that claim still stands, and changes nothing if it does not |
| `QueueReport.CrawlerFigures` | backend/db.py:3507-3569 | a crawler's units, held and claimable, release and stock, age buckets and oldest wait, built from the two grouped queries in any order, are those of listing every pending live row against it |
| `QueueReport.Accumulate` | backend/db.py:3488-3504 | adding a group's aggregate is adding its units one by one |
| `QueueReport.HalvesMakeTheWhole` | backend/db.py:3398-3443 | broad rows and unnested narrowed rows together count each eligible row once |
| `QueueReport.UnnestedCounts` | backend/db.py:3428-3442 | a narrowed row counts once for a crawler it names, because no crawler is named twice |
| `QueueReport.DuplicatesWouldCountTwice` | backend/db.py:3428-3442 | with a crawler named twice the report would count one row as two |
| `QueueReport.FiguresCount` | backend/db.py:3398-3504 | each figure is the number of rows that wait for the crawler and are due, delayed, of releases, of items or so long in the queue, and the oldest wait the longest of them |
| `RunLease.SyncRuns.Claim` | backend/db.py:5492-5522 | granted exactly when there is no claim or a stale one, and then every column is the new run's |
| `RunLease.SyncRuns.RecordProgress` | backend/db.py:5525-5573 | lands exactly when token, status and heartbeat pass, moving only the counters it was given |
| `RunLease.SyncRuns.Finish` | backend/db.py:5576-5618 | closes only a running, fresh row of this token, and says so |
| `RunLease.SyncRuns.StartPlexPhase` | backend/db.py:5621-5650 | hands the same row on with its claim kept |
| `RunLease.SyncRuns.FinishPlexPhase` | backend/db.py:5653-5679 | releases only a row in the Plex phase |
| `RunLease.JudgmentRuns.Claim` | backend/db.py:5052-5083 | the same lease for judgments; a claim forgets a stop meant for an earlier run |
| `RunLease.JudgmentRuns.RecordProgress` | backend/db.py:5086-5131 | a passing checkpoint reads the stop flag, a refused one reads nothing and changes nothing |
| `RunLease.JudgmentRuns.RequestStop` | backend/db.py:5174-5195 | asks exactly a live run to stop and moves no heartbeat |
| `LeaseRuns.OnlyTheLatestClaimPasses` | backend/db.py:5492-5573 | at any moment at most one token passes a fence, the latest claim's |
| `LeaseRuns.RefusedForGood` | backend/db.py:5536-5549 | once a checkpoint of a token is refused, every later checkpoint, hand-off, close and backstop of it leaves row and log as they are |
| `LeaseRuns.OneTerminalStatus` | backend/crawl_manager.py:1127-1150 | a run records at most one terminal status, its retries and its unconditional backstop included |
| `LeaseRuns.RecordedAsIntended` | backend/crawl_manager.py:1582-1605 | what a run records is the outcome its worker last chose, the generic failure only if it never chose one, and nothing once it handed the run to the Plex phase |
| `LeaseRuns.CommitsNeverInterleave` | backend/crawl_manager.py:1198-1237 | between two effective writes of one run there is none of any other, library commits included |
| `LeaseRuns.NoWriteAfterTakeover` | backend/crawl_manager.py:2654-2673 | nothing is committed on a token's authority once a later claim was granted, in the sync and in the Plex phase |
| `LeaseTiming.GrantedIffNobodyPasses` | backend/db.py:5492-5522 | a claim is granted if and only if no token would pass a fence |
| `LeaseTiming.HeldWhileFresh` | backend/db.py:5492-5573 | until its time is over nothing but its own end takes a claim away: its checkpoints commit and no other claim is granted |
| `LeaseTiming.SilenceLosesTheClaim` | backend/db.py:5492-5522 | a worker not heard of for that long loses the run to the next claim |
| `LeaseTiming.ARollbackIsSilence` | backend/crawl_manager.py:1198-1237 | a checkpoint that is rolled back was never heard |
| `LeaseStatements.SyncStatement` | backend/db.py:5492-5679 | each statement on a sync run's row moves its lease as the step of the run does, and answers whether it took effect |
| `LeaseStatements.JudgmentStatement` | backend/db.py:5052-5171 | so does each one on a judgment run's row, so the theorems over all runs hold of it |
| `LeaseStatements.NoPlexPhaseWithoutAHandOver` | backend/db.py:5068-5083 | a run that never hands over never shows a Plex phase, rolled back or not |
| `FoldKeys.NoStaleKey` | backend/db.py:637-695 | whatever new writers, older binaries, sweeps in flight and deletions do to each other, a stored key is NULL or the fold of what its row says now |
| `FoldKeys.WithoutTheTriggerAKeyGoesStale` | backend/db.py:637-657 | an older binary renaming a row leaves a stale key without the trigger and none with it |
| `FoldKeys.ReplaceIsTheSnapshot` | backend/db.py:3925-4010 | a catalog's replacement leaves exactly what was found, keyed, and every other crawler's rows as they were |
| `FoldKeys.TheListedNameDecides` | backend/db.py:637-695 | in every run, keyed rows with the same artist and listed name have the same record key, the row's own title counting only where there is no such name |
| `FoldKeys.UpsertKeysUnlessSameFold` | backend/db.py:655-674 | a current writer leaves a row unkeyed exactly when it renames it to something of the same fold |
| `KeySweep.Tables.BackfillStockKeys` | backend/db.py:1240-1489 | the two passes leave exactly the swept tables and return how many rows they rewrote |
| `KeySweep.Tables.Repair` | backend/db.py:1431-1469 | an identity is repaired from its newest live row only if no live row carries its key, and an orphan only if it has none |
| `KeySweep.SweepConverges` | backend/db.py:1263-1266 | after one sweep every row carries its own folds, every identity with live rows the key of one of them, and orphans are kept or filled |
| `KeySweep.IdentityFollowsTheNewest` | backend/db.py:1431-1469 | an identity with live rows keeps its key if one of them folds to it and otherwise takes that of the row seen last, ties to the larger id |
| `KeySweep.SecondSweepRewritesNothing` | backend/db.py:1400-1412 | a second sweep finds nothing to write |
| `Judgments.PaidAgainOnlyWhileNothingIsStored` | backend/crawl_manager.py:2502-2560 | two payments for one record are never by one run, and when the later one's run made its selection no answer about the record had been stored |
| `Judgments.StoredEndsThePaying` | backend/db.py:4556-4615 | once an answer about a record is stored, only a run that had selected it before pays for it again |
| `Judgments.StoredAtMostOnce` | backend/db.py:4556-4829 | over any run of snapshots, re-listings, interleaved sweeps, takeovers, questions, stored answers and propagations no record's answer is stored twice, and every stored one was paid for |
| `Judgments.ATakeoverCanPayTwice` | backend/crawl_manager.py:2523-2538 | a run taken over before it asks and its replacement can both pay for one record |
| `Judgments.NeverSelectedAgain` | backend/db.py:4618-4697 | no selection any run can make holds a record, or an item, whose verdict is stored |
| `JudgmentSelection.SelectionIff` | backend/db.py:4556-4697 | in every reachable world what may be selected is exactly the lists of different questions, each asked by a listing not owned, with no verdict under its item and no answer stored about its artist and record |
| `JudgmentSelection.InheritsIff` | backend/db.py:4722-4791 | a listing with no verdict, whose identity agrees with it, can be handed one if and only if an answer about its artist and record was stored |
| `Judgments.VerdictsNeverCross` | backend/db.py:4722-4791 | every stored verdict is an answer the model gave about that listing's own artist and record |
| `Judgments.TriggerForgets` | backend/db.py:1004-1014 | an answer over a verdict of the same record keeps no attribution, exactly when it differs in words or date |
| `Text.SplitWords` | backend/title_key.py:86-105 | the buffered scan yields the runs of letters and digits |
| `Text.FoldForgets` | backend/title_key.py:113-132 | no spelling of an apostrophe and no capital makes a difference to a fold |
| `Pattern.TrailingSpace` | backend/title_key.py:29-53 | no match of any of the module's phrase patterns sees a space behind the text |
| `Pattern.StopsBefore` | backend/title_key.py:29-53 | no match runs over a character its pattern never consumes, such as a bracket |
| `Pattern.MatchDerives` | backend/title_key.py:29-53 | what the matcher finds is of the pattern's form |
| `Pattern.MatchFinds` | backend/title_key.py:29-53 | and wherever something is, in any reading, it finds a match |
| `Phrases.EverySpellingIsFound` | backend/title_key.py:26-33 | every spelling of a size, weight or disc count, with any spaces and hyphens between, is found as one |
| `WordPlaces.SubKeepsWord` | backend/title_key.py:209-210 | removing a phrase keeps every word that none of its atoms can take, wherever it stands |
| `TitleKey.PressingKeysEqualIff` | backend/title_key.py:148-217 | two pressing keys are equal exactly when the same set of words identifies both titles |
| `TitleKey.RecordKeysEqualIff` | backend/title_key.py:148-217 | two record keys are equal exactly when the same words do, in order and with repeats |
| `TitleKey.KeyIsNeverEmpty` | backend/title_key.py:176-217 | no title with anything in it has an empty key, all-noise titles included |
| `TitleKey.WhatIdentifies` | backend/title_key.py:208-217 | where a title has a word of its own, its keys hold exactly the words that are no noise, the record's also the noise a record can be called |
| `TitleKey.StripLeadingArtist` | backend/title_key.py:190-196 | the loop strips the first spelling, longest first, that leads the title and leaves something behind |
| `ArtistForms.ArtistFormsAreForgotten` | backend/title_key.py:135-196 | whichever spelling of its artist stands in front of a title, with its article, without it or with it behind a comma, the title has the keys it has without |
| `RecordKeys.ComputeRecordKey` | backend/title_key.py:385-436 | popping trailing segments in a loop gives the record key the laws below are about |
| `RecordNames.NoVariant` | backend/title_key.py:362-382 | text that holds one word outside the vocabulary, no number and no part of a phrase, is never pressing wording |
| `RecordNames.NamesStay` | backend/title_key.py:385-436 | such a word in the last stretch of any title, fenced or behind any separator, is a word of the record key, artist in front or not |
| `RecordNames.AnAsideThatNamesIsKept` | backend/title_key.py:385-436 | an aside that holds one is kept, so it makes another record of every title whose own key lacks the word |
| `RecordNames.ASegmentThatNamesIsKept` | backend/title_key.py:414-421 | and so is a trailing segment |
| `RecordNamesLimits.LiveIsAnotherRecord` | backend/title_key.py:374-382 | with the module's own vocabulary, a live record is never its studio record |
| `RecordNamesLimits.ASegmentCanReadAsASize` | backend/title_key.py:29-33 | the word `in` behind a name that ends in 12 is lost |
| `RecordAside.SplitFrontSame` | backend/title_key.py:321-359 | text without a separator behind a title changes nothing about where its artist is found |
| `RecordAside.AsideNeverChangesTheRecord` | backend/title_key.py:385-436 | appending an aside that names only a pressing, in any kind of bracket, keeps the record key of every title that leaves a name, has its brackets closed and ends outside them in no space or separator, artist in front or not, located or not |
| `RecordAsideLimits.EveryAsideKeepsTheRecordIff` | backend/title_key.py:414-421 | for such a title every accepted aside keeps the key if and only if the title leaves a name or its artist could not be located |
| `Pattern.NoneWithoutItsWords` | backend/title_key.py:29-53 | a phrase matches only text that could hold one of the words each of its groups asks for |
| `RecordAsideLimits.ABareNumberIsNoVariant` | backend/title_key.py:374-382 | a number alone in brackets is never pressing wording, so no volume is folded onto another by its aside |
| `RecordAsideLimits.AWeightAloneIsAVariant` | backend/title_key.py:366-373 | a weight on its own is pressing wording, whatever the vocabulary |
| `RecordAsideLimits.BareTitlesAreRekeyed` | backend/title_key.py:414-421 | a fenced word and a trailing pressing segment make a title some accepted aside re-keys |
| `RecordAsideLimits.AnAsideCanChangeTheRecord` | backend/title_key.py:414-421 | with the module's own vocabulary, such a title |
| `RecordFront.ArtistInFrontNeverChangesTheRecord` | backend/title_key.py:321-436 | a separator-free artist without a spaced trailing article, written in front of a bracket-free title that does not lead with it, leaves the record key as it was |
| `RecordFrontLimits.EveryTitleKeepsTheRecordIff` | backend/title_key.py:135-145 | an artist the search can find leaves the key of every such title as it was if and only if its folded name does not end in ", the" behind a plain space or nothing, brackets aside |
| `RecordFront.RebuiltLeads` | backend/title_key.py:414-436 | splitting a title and joining it again brings no spelling to its front that does not end in a plain space |
| `RecordFront.TheArtistComesOffOnce` | backend/title_key.py:423-436 | what stands behind a located artist is keyed with no artist in view, so a name that begins with the artist's own keeps it |
| `RecordFrontLimits.SpacedArticleChangesTheRecord` | backend/title_key.py:423-436 | for every artist of that family, the title whose two keys differ |
| `RecordFrontLimits.ASpaceBeforeTheArticleChangesTheRecord` | backend/title_key.py:135-145 | `x , the`, with the module's own vocabulary |
| `PriceSort.TokenIsLeftmostLongest` | backend/db.py:308-310 | the token is the leftmost match of the pattern and the longest one there, and there is none exactly when the text has no digit |
| `PriceSort.EveryKeyCasts` | backend/db.py:286-289 | every text with a digit yields digits with at most one dot between them, and no other text yields anything |
| `PriceSort.CommaGroupingReadsBack` | backend/db.py:245-246 | comma grouping of any length with optional dot decimals reads back, behind any foreign prefix and before any text that adds no digit |
| `PriceSort.IndianGroupingReadsBack` | backend/db.py:253-259 | so does the Indian grouping |
| `PriceSort.PlainReadsBack` | backend/db.py:260-260 | and an ungrouped amount |
| `PriceSort.DotGroupingReadsBack` | backend/db.py:247-251 | dot grouping with any comma decimals reads back, except a single dot group without decimals and three decimals behind an ungrouped amount, which are read as said |
| `PriceSort.DecimalCommaReadsBack` | backend/db.py:281-284 | a decimal comma reads back unless the amount has the shape of one comma group |
| `PriceSort.BareDecimalReadsBack` | backend/db.py:261-263 | what a decimal part without its zero is read as |
| `PriceSort.BareDecimalIsItsFractionIff` | backend/db.py:267-279 | it is read as its fraction if and only if it is not three digits behind a comma, not all zero; otherwise a thousand times too large |
| `PriceSort.BareThousandthsAreInflated` | backend/db.py:267-279 | `$,999` and `$.999` |
| `CatalogWalk.CrawlCatalog` | backend/crawlers/byrdlandrecords.py:93-216 | a complete walk accepted every page promised and yields their snapshot, never an empty one; a walk that raised stopped at the first page that trips a guard, for the first guard it trips, or else for a new product without a link |
| `CatalogGuards.CompleteIff` | backend/crawlers/byrdlandrecords.py:107-215 | the walk completes if and only if some first pages are each the page asked for, full or the rest, of one shop whose count fills its pages and never falls, with no product first met without a link and something to show |
| `CatalogGuards.RowsAddUp` | backend/crawlers/byrdlandrecords.py:283-299 | a completed walk was served exactly as many rows as the last page counts, however the count moved |
| `CatalogGuards.AnHonestStoreIsWalked` | backend/crawlers/byrdlandrecords.py:93-216 | a store that serves its catalog as it should, a last page that is not full included, is always walked to the end and yields exactly what can be read, in order |
| `CatalogWalk.SnapshotIsServed` | backend/crawlers/byrdlandrecords.py:196-206 | the snapshot lists no product twice and nothing that was not served |
| `CatalogWalk.SnapshotHas` | backend/crawlers/byrdlandrecords.py:196-206 | and everything whose every copy could be read |
| `CatalogWalk.NeverMovesBack` | backend/crawlers/byrdlandrecords.py:145-159 | arrivals at the front and sales anywhere never put more products behind a product they spare |
| `CatalogWalk.NoSurvivorSkipped` | backend/crawlers/byrdlandrecords.py:145-187 | a completed walk of an honest store has seen every product listed from the first fetch to the last |
| `ConfigCache.Globals.Begin` | backend/config.py:204-212 | a load answers from the cache only unexpired and only if it may, and captures the generation |
| `ConfigCache.Globals.Publish` | backend/config.py:216-222 | a read publishes only if nothing was invalidated since it began |
| `ConfigCache.Globals.Invalidate` | backend/config.py:185-194 | the entry goes and the generation moves |
| `ConfigCache.ReadsItsOwnWrites` | backend/config.py:261-278 | in every interleaving, a load that began after a save returned never answers with anything older than that save |
| `ConfigCache.FreshReadsEveryCommit` | backend/config.py:196-203 | a fresh load sees every write, on any Machine, that committed before it began |
| `ConfigAge.CachedAnswersAreRecent` | backend/config.py:204-222 | a load answered without a query repeats what a query of this process published less than the TTL before, with no save returned since |
| `ConfigAge.PublishedAnswersAreReused` | backend/config.py:204-222 | and for the length of the TTL such an answer is given without a query |
| `StockSync.SyncStores` | backend/crawl_manager.py:1860-1985 | the loop stops at the first store that completes two rate-limited ones in a row and sorts every visited store by its answer |
| `StockSync.NoStoreIsLost` | backend/crawl_manager.py:1944-1956 | an aborted run's stores are exactly the settled ones and the ones to resume, each once |
| `StockSync.AbortMeans` | backend/crawl_manager.py:1865-1956 | the run aborts at a store if and only if it is the first to complete two rate-limited stores with nothing but skipped ones between them |
| `StockSync.ChainLosesNoStore` | backend/crawl_manager.py:1795-1810 | however often it aborts, every store of the first run is settled once, disabled before its turn, or still to be visited |
| `StockSync.DelayDoubles` | backend/crawl_manager.py:2050-2067 | the resume delay starts at half an hour, doubles with every further abort and stays at eight hours |

## Left out

- Text: the two folds are modelled on ASCII and the typographic dashes and quotes the
  source names; accents, combining marks and Unicode case folding are not, and any other
  character counts as punctuation.
- Selection: which row represents a record group, the order between groups and the item
  limit are not modelled; `Judgments` holds for any choice that is one row per group and
  one per item key.
- ItemKey: two different triples of artist, title and URL are two item keys, so a hash
  collision is not modelled; the artist stored beside an item is taken to fold as the
  artist its key hashes.
- Start: `Judgments` begins with no verdict. Imports, clears, verdicts older than the
  attribution column and older binaries writing judgments are not steps of it.
- NamesStay: words a phrase is itself made of, such as `in`, `gram` or `set`, are not
  covered, and the difference of two keys is claimed where the title's own lacks the word: a
  self-titled record keeps its key when its artist is written in front.
- Findable: the front law is about artists the search can look for at all: some name left
  once folded, no separator in it and no white space at its end.
- Complete: the aside law is about titles with every bracket closed that end outside them,
  in neither white space nor a separator.
- HasWord: the two characterisations of key equality are about titles with a letter or a
  digit left; a title without one is keyed by its spelling.
- CrawlCatalog: what a product parses to is a field of the product; the requests,
  their retries and the pacing are not part of this model.
- SyncStores: a store's crawl is one answer; its requests, the snapshot write and the
  circuit breaker that decides a cooldown are not part of it.
- CrawlerFigures: the queue's totals, the ETA, the activity figures and the in-progress
  units beside these figures are not modelled.
- LeaseRuns: an error raised although its commit landed is not modelled; a close that
  could not be attempted is one that never reached the row. Runs without a token and the
  manual Plex match never enter the protocol.
- The circuit breaker's counters, the worker's cancellation shield, browser contexts and
  the event stream.
- Row-level security, grants, pools, query plans and indexes.
- HTTP, Playwright, the model, Plex and Discogs: each is an arbitrary answer where a step
  needs one.
- The other store crawlers, eBay and Amazon matching, accounts, logging and the frontend.
