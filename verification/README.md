# watchmesh, verified

A Dafny model of watchmesh, which copies watch history from one service to several others. One *sync* has a
source and a list of targets. A run reads the sync's cursor, asks the source for its history since then, offers
each target what that target has no row for, stores a row for each item the target reports delivered, and moves
the cursor if everything went through.

The model follows the program's parts:

| file | part |
|---|---|
| `Text.dfy`, `Calendar.dfy`, `Model.dfy` | watch items, the timestamp printer and the dedup key string |
| `Lists.dfy`, `Windows.dfy`, `Paging.dfy`, `Options.dfy` | order-preserving sub-lists and folds; partial answers of a source; pages of a list that grows while it is read; optional values |
| `Store.dfy` | cursors and seen rows, as a class whose writes may fail with or without being applied |
| `Engine.dfy` | one run of `Sync`: the loops, and the function they compute |
| `Protocol.dfy`, `Safety.dfy`, `Runs.dfy` | runs over time as a step relation with crashes and arrivals; what every execution keeps; each run of `Sync` as an execution |
| `Laws.dfy`, `Outcomes.dfy`, `Errors.dfy`, `Fleets.dfy`, `Entries.dfy` | laws of a run, of its rerun, of the errors it returns, of whole histories of runs, and what they mean for entries |
| `Trakt.dfy`, `Simkl.dfy`, `Ryot.dfy`, `Yamtrack.dfy` | the connectors' history readers and pushes, the Simkl throttle |
| `DevicePoll.dfy` | the device-code poll loop |
| `Slices.dfy`, `Watchmesh.dfy`, `Routes.dfy` | configuration, wiring, running all syncs; the way of an entry from the service of a source to that of a target |
| `Migration.dfy` | migration 000002 and its inverse |

Everything the outside world decides is a parameter: request outcomes and bodies, clock readings, failures of
reads and writes. A theorem about a run holds for every value of them. A write that reports an error may or may
not have been applied.

Hypotheses used across runs, always written out in the lemma that needs them: the target list is fixed; the clock
is monotone; an entry that appears later is dated no earlier than the clock at that moment. That nothing is lost
asks of the source only that it fails, answers with an empty list, or lists, under its hash, every entry it held
when the clock was read that is dated from the cursor on and before that reading. The answer may repeat entries,
list them in any order, leave out older ones and hold others besides. Only where the offers themselves are compared
with a diff of the whole ledger (`CursorIsInvisible`, `OfferIsWholeLedgerDiff`, `Offer`, `CompanionsInvisible`) must
the answer be the ledger in its order with older entries left out. What holds of rows, reports and repeated pushes
(`RowsJustified`, `NeverPushedAgain`) asks nothing of the source. Laws that describe a single run target by target
assume that no target name is listed twice; the safety theorems do not.

A start need not be caught up. The no-loss theorems take a floor, which is 0 for a store that was; for any other,
such as one just migrated or one to whose sync a target was added, `NothingNewIsLost` takes the initial cursor as
the floor, and nothing dated from there on is lost.

What an operation reads, sends, returns or waits for is stated over the fields of its inputs and with the constants
written out, in predicates that no operation uses (`ReadsAs`, `EpisodeReadsAs`, `AliasReadsAs`, `Kept`, `Hits`,
`InBucket`, `Carries`, `CanSend`, `GoesOn`, `Answers`). `Routes.dfy` puts these together: what the service of a sync's
source offers, row by row, is what its targets are offered, and each new row stands for an entry that the service of
the target takes.

The dedup hash is the digest of the key string. The engine's theorems hold for every hash function.
`Model.KeyUnique` says what an equal key means for media types without `|`, which are the only ones the readers
list (`Watchmesh.AnswersListable`); `Model.KeyAmbiguousExactly` says exactly which other types could clash.
`Watchmesh.EveryReadEntryDelivered` puts this together with the safety of the engine for a digest that tells apart
what the key tells apart.

`Watchmesh.WiredRunsLoseNothing` is the end-to-end statement: from the pages, buckets and aliases a server answers,
through the readers, the engine, its failures and the store, over any number of runs. Lists may gain entries at
their front from one page to the next, and an entry may be listed in any number of buckets.

Four promises do not hold as broadly as they read, and the model says exactly when they do:

* A gap in a source's history is documented as harmless. A read that fails as a whole is, because an empty answer
  never moves the cursor. A read that leaves out one entry next to fresh ones is not: `GapCostsExactly` says
  exactly when the cursor then passes an entry that a target misses, and `DroppedAliasIsLost` shows it for a
  Ryot read in which one alias failed, for every digest that tells the two movies apart.
* A numeric Retry-After on slow_down is documented as honoured up to a minute. `RetryAfterHonouredExactly` gives
  the values for which it is: the conversion to nanoseconds wraps for larger ones (`RetryAfterWraps`).
* The activity dirty-check of Simkl is documented as skipping unchanged categories only. With activity times cut to
  the second, as in the repository's own fixtures, `SecondGranularityExactly` says which changed entries it loses:
  those all of whose categories last changed within the cursor's own second. As a category that last changed
  exactly at the cursor is skipped too, the read keeps everything the engine asks for exactly if every entry that a
  skipped category holds from that instant is listed by one that is not skipped (`HistoryCoversExactly`), and the
  ledger's order as well exactly if no skipped category holds one (`HistoryIsWindowExactly`).
* Rows filled in by migration 000002 are documented as matching no connection. `UpMarksExactly` says which lookups
  they answer: those of a connection with the empty name, which the configuration accepts.

A request of the device poll that times out reads as an exceeded deadline, so it is reported as an expired code too
(`AwaitToken`). The comment on the store says that writes happen only if at least one target succeeded. The engine's
code moves the cursor only if every target did, and writes rows for partial deliveries of failed targets; the model
follows the code.

## Model

| member | source | states |
|---|---|---|
| Calendar.DateRoundTrip | internal/model/model.go:48 | the civil date used in the key determines the day, for every day before or after year 1 |
| Calendar.UtcRoundTrip | internal/model/model.go:48 | the RFC 3339 nanosecond text with trimmed fraction reads back to the instant, for every instant, and holds no separator |
| Model.TailDecodes | internal/model/model.go:44-49 | five fields read back from the right whatever the media type and the IMDB id hold |
| Model.KeyDecodes | internal/model/model.go:44-49 | reading five fields from the right and three from the left inverts the key printer when the media type has no separator, even if the IMDB id has |
| Model.KeyReads | internal/model/model.go:44-49 | the key string is the nine fields in order, one separator between each two |
| Model.LowerAt | internal/model/model.go:45 | lower-casing moves each letter from A to Z to its small one and keeps every other character |
| Model.KeyUnique | internal/model/model.go:37-53 | two items share a key exactly when lower-cased type, each of the five ids, season, episode and instant agree; title and year never matter |
| Model.SameKindSameFields | internal/model/model.go:44-53 | items of one media type never share a key unless every keyed field agrees, whatever the type holds |
| Model.KeyAmbiguousExactly | internal/model/model.go:37-53 | different entries of types k and l can share a key exactly when one type is the other followed by separators and numerals |
| Model.KeyCollisionExample | internal/model/model.go:44-53 | the precondition on media types is needed: a pair of different items, of types outside the documented ones, with one key |
| Lists.LengthTestExact | internal/engine/engine.go:97-101 | against the Push contract, equal lengths mean that every occurrence was delivered in order, even with repeated hashes |
| StoreModel.Store.LastRun | internal/store/store.go:35-46 | the stored cursor, the zero time for a sync that never ran, or an error |
| StoreModel.Store.SetLastRun | internal/store/store.go:50-57 | upserts one cursor; an error leaves open whether it was applied |
| StoreModel.Store.Seen | internal/store/store.go:62-72 | whether a row exists for exactly this sync, target and hash |
| StoreModel.Store.MarkSeen | internal/store/store.go:76-83 | inserts a row unless one exists, which keeps its date; an error leaves open whether it was applied |
| StoreModel.FreshMember | internal/engine/engine.go:68-77 | an item is offered exactly if it is in the window and has no row for this target |
| StoreModel.FreshOccurrences | internal/engine/engine.go:68-77 | every repetition of an unmarked item is offered |
| Engine.Sync | internal/engine/engine.go:54-112 | the loops leave the store, the errors and the offers that the run's specification gives, on every path including early returns |
| Errors.ErrorsExactly | internal/engine/engine.go:82-111 | a run with every lookup up returns a push error for exactly the targets whose push failed, a mark error for exactly those with an unacknowledged mark, a cursor error exactly if everything offered was taken and the cursor write was not acknowledged, and no other |
| Errors.EarlyReturns | internal/engine/engine.go:55-74 | a failed cursor read or history returns that error alone and touches nothing; a failed lookup returns its error alone, whatever was collected, and keeps the cursor |
| Errors.CleanExactly | internal/engine/engine.go:54-112 | a run returns no error exactly if the cursor, the history, every lookup, every push made, every mark and, where it came to that, the cursor write answered |
| Engine.MarkDelivered | internal/engine/engine.go:87-96 | every delivered item is attempted whatever earlier writes answered; errors are empty exactly if all were acknowledged |
| Protocol.WindowFresh | internal/engine/engine.go:55-77 | diffing a window equals diffing the whole ledger, order and repetitions included, once everything it may omit is marked |
| Protocol.StepKeepsInv | internal/engine/engine.go:54-112 | the invariant of runs in progress survives every step, failure, crash, arrival and answer |
| Protocol.ExecKeepsInv | internal/engine/engine.go:54-112 | the invariant holds after any sequence of steps |
| Protocol.StepKeepsCaughtUp | internal/engine/engine.go:54-112 | a step after a read that covers what the source held leaves every target caught up from the floor on |
| Protocol.ExecKeepsCaughtUp | internal/engine/engine.go:54-112 | so does any sequence of steps in which every read covers |
| Safety.NoLoss | internal/engine/engine.go:59-60 | if every answer covers what the source held when the clock was read, then in every reachable state each entry dated before the cursor and from the floor on is marked for every target, and the mark was initial or stands for a reported delivery |
| Safety.NothingNewIsLost | internal/engine/engine.go:59-60 | from any store, also one that is not caught up, every entry dated from the initial cursor on and before the present one is marked for every target, and the mark was initial or stands for a reported delivery |
| Safety.RowsJustified | internal/engine/engine.go:69-93 | whatever the source answers, rows are never removed or rewritten, every new row repeats a delivered report of its target, the cursor never goes back, other syncs are untouched |
| Safety.NeverPushedAgain | internal/engine/engine.go:69-82 | whatever the source answers, once a mark is stored no later run offers that hash to that target |
| Safety.CursorIsInvisible | internal/engine/engine.go:55-112 | refinement: with clock, cursor and window forgotten, every step of a run that reads windows is a step of an engine that diffs the whole ledger each time |
| Safety.OfferIsWholeLedgerDiff | internal/engine/engine.go:66-82 | what a target is offered is part of the window, in order, and is the diff of everything the source held against that target's rows |
| Runs.SyncIsExecution | internal/engine/engine.go:54-112 | every run, whatever its source answers, is an execution of the step relation with the same store and the same reports; its reads cover, or are windows, if the answer is one |
| Laws.MarkedAfter | internal/engine/engine.go:87-93 | an item is marked afterwards exactly if it was before or a delivered item with its hash had its write applied |
| Laws.FanOutLanes | internal/engine/engine.go:66-102 | every target ends with the rows it would get if served alone |
| Laws.FanOutOffers | internal/engine/engine.go:66-102 | every target is offered its own diff against the rows at the start of the run, and the fresh flag says exactly whether any was |
| Laws.FanOutDone | internal/engine/engine.go:84-102 | the success flag says exactly whether every target took all it was offered and acknowledged every mark |
| Outcomes.TargetOutcome | internal/engine/engine.go:66-102 | a target that a run reaches is offered its diff and ends with the rows of being served alone, whatever fails after it |
| Outcomes.TargetUntouched | internal/engine/engine.go:55-77 | a target that a failed read or lookup keeps a run from reaching is offered nothing and keeps its rows |
| Outcomes.TargetsIsolated | internal/engine/engine.go:66-102 | a target's offers and rows are the same in any two runs that reach it and in which it starts, misses and answers alike, whatever the other targets do |
| Outcomes.CursorMovesExactly | internal/engine/engine.go:97-110 | the cursor is written exactly if something was missing and every target took all of it with all marks acknowledged, and then with the clock reading taken before History |
| Outcomes.CompleteExactly | internal/engine/engine.go:82-101 | the three success checks together hold exactly if the target took every missing occurrence without error and all marks were acknowledged |
| Outcomes.NothingMissing | internal/engine/engine.go:103-105 | a run in which nothing is missing pushes nothing, writes nothing and reports no error |
| Outcomes.RerunOffersRemainder | internal/engine/engine.go:66-96 | a rerun offers exactly what was offered before less what was delivered and had its mark applied |
| Outcomes.OneGoodRunConverges | internal/engine/engine.go:54-112 | one fault-free run moves the cursor to the clock reading before History; the next run over the same source touches nothing |
| Outcomes.RemainderPlusRowsConstant | internal/engine/engine.go:66-96 | unmarked pairs of the window plus stored rows stay constant in number: the remainder never rises and falls by one for each new row |
| Fleets.RunKeepsCaughtUp | internal/engine/engine.go:54-112 | a run against a source that covers what it held leaves no target behind the cursor it leaves, from the floor on |
| Fleets.RunsLoseNothing | internal/engine/engine.go:38-112 | over any number of runs, failing in any way, no target is left behind the cursor, from the floor on |
| Fleets.Offer | internal/engine/engine.go:55-82 | a run against an ordered source offers a target the remainder of the whole ledger, or nothing if it does not get to serve it |
| Fleets.CompanionsInvisible | internal/engine/engine.go:54-112 | over any number of runs, failing in any way, a target is offered the same items whatever its companions are and however their failures pin the cursor, as long as it is served in the same runs |
| Fleets.GapCostsExactly | internal/engine/engine.go:49-52 | when a run moves the cursor, acknowledged or not, no target is left behind exactly if the source's answer had no gap before the clock reading |
| Entries.EveryEntryDelivered | internal/engine/engine.go:38-53 | every movie or episode dated from the initial cursor on and before the present one was reported delivered, with the same type, ids, numbering and instant, by every target that had no row for it at the start |
| Entries.DroppedAliasIsLost | internal/ryot/ryot.go:515-519 | a Ryot read that drops one failed alias next to another movie lets the cursor pass the dropped one, for every digest that tells their keys apart |
| Entries.WholeShelfIsNot | internal/ryot/ryot.go:484-559 | with every alias answered the same run leaves nothing behind |
| Trakt.FetchKind | internal/trakt/client.go:148-169 | paging succeeds exactly if the first empty page is at most the probe page 101, returns all entries before it, and sends at most 101 requests |
| Trakt.History | internal/trakt/client.go:245-255 | movies, then episodes; either failing fails the read |
| Trakt.HistoryLists | internal/trakt/client.go:148-255 | the read succeeds exactly if each kind has an empty page within the first 101 and answers every page before it, and lists exactly what the rows before it read as, field by field: an episode under the TMDB id of its show, with its own numbering |
| Trakt.ItemsAt | internal/trakt/client.go:196-239 | rows are read one by one in order |
| Trakt.HistoryIsWindow | internal/trakt/client.go:148-169 | pages that stand still and are read to their end, from a server that honours start_at, cut to the second, omit only entries dated before the cursor and keep the order, movies and episodes together |
| Trakt.HistoryCovers | internal/trakt/client.go:148-169 | pages cut from lists that gain entries at their front while they are read still cover everything held when the first page was answered |
| Paging.NothingMissed | internal/trakt/client.go:148-169 | reading a growing list page by page until a page reaches its end misses nothing that was listed at the first page |
| Trakt.SectionMatchesItems | internal/trakt/client.go:280-293 | the request holds exactly the dated movies, or episodes, in order, each with its own ids, no Simkl id and its own second |
| Trakt.Push | internal/trakt/client.go:274-333 | the loops report and send what the push specification gives for every answer |
| Trakt.ReplyKeepsContract | internal/trakt/client.go:268-333 | the push fails exactly on any answer but a readable 200 or 201, and then delivers nothing; otherwise every occurrence of a dated movie or episode is delivered unless it shares a set id with an unresolved entry of its own category, and nothing else is |
| Trakt.CategoriesIndependent | internal/trakt/client.go:321-328 | an unresolved episode never drops a movie and the other way round |
| Simkl.FetchCategory | internal/simkl/client.go:278-361 | the nested loops compute the first dated occurrence of each hash of the flattened lists, or fail with any bucket |
| Simkl.CategoryGives | internal/simkl/client.go:278-361 | a category reads if every bucket answers; it lists only dated items that an entry reads as, field by field, with the numbers of season and episode and the ids of the show, or of the movie object if only that is named; and for each such item one with its hash |
| Simkl.FirstsAreExact | internal/simkl/client.go:315-358 | no hash comes out twice, order is kept, nothing undated comes out and no dated entry's hash is lost |
| Simkl.FirstsKeepFirst | internal/simkl/client.go:325-330 | the entry kept for a hash is its first dated occurrence |
| Simkl.History | internal/simkl/client.go:365-386 | categories are read and joined in order, skipped by the dirty-check, and any failure fails the read |
| Simkl.HistoryGives | internal/simkl/client.go:365-386 | the read succeeds exactly if the activities and every bucket of every category asked for answer; it lists only items that an entry of such a category reads as, and for each one with its hash |
| Simkl.ReadExactly | internal/simkl/client.go:363-386 | an entry changed after the cursor is read exactly if some category listing it is not skipped |
| Simkl.DirtyCheckLossless | internal/simkl/client.go:363-386 | if known activity times bound change times, the dirty-checked read holds every entry changed after the cursor that an unconditional read would |
| Simkl.SecondGranularityExactly | internal/simkl/client.go:374-378 | with activity times cut to the second an entry changed after the cursor is lost exactly if every category listing it last changed within the cursor's second |
| Simkl.SkipIsWindowExactly | internal/simkl/client.go:374-378 | skipping a category with nothing after the cursor omits only entries before it exactly if none is dated at the cursor |
| Simkl.HistoryIsWindowExactly | internal/simkl/client.go:363-386 | given fetches that omit only entries before the cursor and sound activity times, the joined read omits only such entries exactly if no skipped category holds one dated at the cursor |
| Simkl.CategoryIsWindow | internal/simkl/client.go:278-361 | a category read from a server that honours date_from, cut to the second, omits only entries dated before the cursor and keeps the order, also with an entry in several buckets, if entries that list the same dated item change together |
| Simkl.FirstsSelect | internal/simkl/client.go:325-330 | keeping the first of each hash commutes with any selection that treats equal hashes alike |
| Simkl.CategoryCovers | internal/simkl/client.go:278-361 | whatever repeats, such a read lists every hash the category holds from the cursor on |
| Simkl.HistoryIsWindow | internal/simkl/client.go:278-386 | the same for the whole read, from activity request and raw buckets to the joined history: in order and complete from the cursor on exactly if no skipped category holds an entry dated at the cursor |
| Simkl.HistoryCoversExactly | internal/simkl/client.go:363-386 | whatever repeats, the joined read covers what the categories hold exactly if every entry of a skipped category dated at the cursor is listed by one that is not skipped |
| Simkl.HistoryCovers | internal/simkl/client.go:278-386 | under that condition the whole read, from activity request and raw buckets, covers what the server holds |
| Simkl.SecondGranularityLoses | internal/simkl/client.go:374-378 | an instance: any entry that changed after the cursor within its second, alone in its category, is not read |
| Simkl.Push | internal/simkl/client.go:417-495 | the loops report and send what the push specification gives for every answer |
| Simkl.ReplyKeepsContract | internal/simkl/client.go:412-495 | the push fails exactly on any answer but a readable 200 or 201, and then delivers nothing; otherwise every occurrence of a movie, show or episode is delivered unless it shares a set id with an unresolved entry of its own category, and nothing else is |
| Simkl.CategoriesIndependent | internal/simkl/client.go:477-492 | what is unresolved in one category never drops an item of another |
| Simkl.MoviesMatchItems | internal/simkl/client.go:424-433 | the movie section is the movies in order, each with all its own ids and its own second, the current one for an undated movie |
| Simkl.ShowsMatchItems | internal/simkl/client.go:424-446 | the show section is the shows and episodes in order, each with all its own ids, and with its numbering and second unless a show has no numbering |
| Simkl.Throttle.Get | internal/simkl/client.go:114-126 | a read sleeps exactly what is left of 100 ms since the last one, and only the read stamp changes |
| Simkl.Throttle.Post | internal/simkl/client.go:114-130 | a write sleeps exactly what is left of a second since the last one, and only the write stamp changes |
| Simkl.RateBound | internal/simkl/client.go:113-130 | any half-open interval of n spacings holds at most n stamps, whatever the arrivals and sleep overshoots |
| Ryot.Resolve | internal/ryot/ryot.go:239-292 | the first candidate whose details name TMDB and the exact number wins; an empty id comes if every candidate answered and none does; an error exactly if the search or the details the scan gets to do not answer |
| Ryot.CollectBuckets | internal/ryot/ryot.go:309-321 | distinct buckets in order of first appearance, each with the title of its first item |
| Ryot.BucketsDistinct | internal/ryot/ryot.go:309-321 | no bucket is looked up twice and every pushable item has its bucket |
| Ryot.BucketIs | internal/ryot/ryot.go:309-321 | a movie goes to the lot MOVIE, a numbered episode to SHOW, each under its TMDB number; nothing else has a bucket |
| Ryot.InputsAligned | internal/ryot/ryot.go:337-352 | input k belongs to ready item k: the id of its bucket, its own second or for an undated item the current one, season and episode exactly for episodes |
| Ryot.DeployedExactly | internal/ryot/ryot.go:353-371 | every chunk before the deployed end was confirmed, and the end is the total or the start of a chunk that was not |
| Ryot.Deploy | internal/ryot/ryot.go:353-371 | inputs are sent in order in chunks of 100, the last one shorter, up to the first unconfirmed chunk; the delivered items are those of the confirmed chunks |
| Ryot.Push | internal/ryot/ryot.go:306-372 | the whole pipeline computes its specification; unless cancelled every bucket is queried once, under its first title |
| Ryot.ReplyKeepsContract | internal/ryot/ryot.go:294-372 | delivered is a prefix of the ready items ending at a multiple of 100 or at their end, everything ready exactly if no error, nothing on cancellation |
| Ryot.ReadyExactly | internal/ryot/ryot.go:239-336 | an item is sent exactly if it has a bucket and the lookup of that bucket found a non-empty id of the exact TMDB number |
| Ryot.PushFailsExactly | internal/ryot/ryot.go:322-371 | a push fails exactly if a lookup broke on a cancelled context, and then delivers nothing, or if a chunk was not confirmed; otherwise all that is ready is delivered |
| Ryot.DeliveredWasMatched | internal/ryot/ryot.go:233-370 | the item delivered at a position went out as the input at that position, under the id of the first candidate of its bucket whose details name TMDB and the very number of the item; each candidate before it answered and names another source or number |
| Ryot.ReadDetails | internal/ryot/ryot.go:484-559 | chunks of 16 give the concatenation of one-id reads in order, or fail if any chunk fails |
| Ryot.ReadPage | internal/ryot/ryot.go:392-407 | a page reads as the concatenation of what its ids read as one by one, breaks the walk if its list or any chunk of 16 fails, and ends it if it is empty or announces no other |
| Ryot.WalkLot | internal/ryot/ryot.go:391-412 | a lot reads in full to the end of its paging within 100 pages or fails; never a silent cut at page 100 |
| Ryot.History | internal/ryot/ryot.go:378-421 | a walk that ends in both lots returns every item of every page at or after the cursor; any failure gives an empty answer |
| Ryot.HistoryLists | internal/ryot/ryot.go:378-559 | a history holds exactly what the ids on the pages of both lots read as, field by field, from the cursor on, the cursor instant included, if both lots end within 100 pages with every chunk of 16 ids answered; otherwise nothing |
| Ryot.HistoryIsWindow | internal/ryot/ryot.go:378-421 | a read whose lots yield what the library holds is empty or omits only entries dated before the cursor, in order, whatever requests fail |
| Ryot.HistoryCovers | internal/ryot/ryot.go:378-432 | a read over pages of 200 cut from lists that gain ids at their front while they are read is empty or covers everything whose id was listed at the first page and reads as it |
| Yamtrack.PayloadPinsEntry | internal/yamtrack/yamtrack.go:111-157 | equal events mean the same kind, TMDB id, IMDB id and numbering; episodes carry no item-level id but IMDB |
| Yamtrack.PayloadSays | internal/yamtrack/yamtrack.go:111-157 | movies with a TMDB number and numbered episodes of such shows can be sent; the number stands with the movie or with the series, season and episode in that order, the IMDB id with the item, and nothing else |
| Yamtrack.Push | internal/yamtrack/yamtrack.go:169-183 | one post per sendable item until the first failure, which is counted |
| Yamtrack.ReplyKeepsContract | internal/yamtrack/yamtrack.go:165-183 | delivered is part of the offer; a clean answer means every sendable item, an error a prefix that stops before the failing one |
| DevicePoll.RetryAfterHonouredExactly | internal/trakt/auth.go:71-78 | a numeric Retry-After n is honoured up to the cap exactly if n is below 60 or its nanoseconds modulo 2^64 lie between a minute and 2^63 |
| DevicePoll.RetryAfterWraps | internal/trakt/auth.go:74-77 | the first value that wraps gives a negative wait |
| DevicePoll.PollDeviceToken | internal/trakt/auth.go:86-150 | over any endless stream of answers on which it ends, the loop returns at the first token, terminal status, failure or end of the context, by deadline or cancellation |
| DevicePoll.OutcomeExactly | internal/trakt/auth.go:105-140 | without a deadline the poll goes on exactly while every answer is pending or slow_down, and ends as the first other answer says: a token grants, a failed request fails, any other status is terminal |
| DevicePoll.ContextExactly | internal/trakt/auth.go:94-148 | under a context that ends, the poll ends with its cause exactly if it gets to a request during which, or to a wait in which, that instant is reached, and otherwise as without it |
| DevicePoll.WaitsExactly | internal/trakt/auth.go:71-148 | the next request is sent when the wait after the last answer is over: the interval after pending; after slow_down the seconds asked for or five more than the interval, a minute at most |
| DevicePoll.DoneStays | internal/trakt/auth.go:86-150 | nothing is sent and nothing changes after the answer that ends the poll |
| DevicePoll.PollEnds | internal/trakt/auth.go:94-99 | under a context that ends, and if every request takes time, the poll ends |
| DevicePoll.RunEndsInTime | internal/trakt/auth.go:94-99 | a poll ended by its context, between requests, in a request or in a wait, returns when the context ends |
| DevicePoll.IntervalGrows | internal/trakt/auth.go:119-130 | after j slow_down answers the interval is the initial one plus 5j seconds, and no slow_down wait exceeds a minute |
| DevicePoll.PendingBound | internal/trakt/auth.go:142-148 | under a context that ends by t, with initial interval i, there are at most t / i + 1 pending answers |
| DevicePoll.AwaitToken | internal/trakt/auth.go:163-176 | the code is reported as expired exactly when the poll was ended by its context and the lifetime of the code ends before the context of the caller, or when a request timed out and the code has a lifetime |
| DevicePoll.DeviceAuthBound | internal/trakt/auth.go:163-172 | a code that expires after e seconds sees at most e / i + 1 pending answers, i being the interval asked for or five seconds for none, whatever the context of the caller |
| Watchmesh.Validate | internal/config/config.go:165-185 | accepts exactly the configurations with non-empty distinct sync names whose references resolve; a complaint is true |
| Watchmesh.WiredKeepsContract | cmd/watchmesh/main.go:71-88 | every wired target of every run keeps the Push contract, whatever its service answers |
| Watchmesh.WiredIsHonest | cmd/watchmesh/main.go:71-88 | every wired source whose server lists what it holds when first asked keeps the hypothesis of the no-loss theorems, whatever requests fail, lists shift or entries repeat |
| Watchmesh.WiredRunsLoseNothing | cmd/watchmesh/main.go:110-142 | a definition run any number of times with the connectors it names leaves no target behind the cursor for anything its source held, from the floor on |
| Routes.OfferWasGiven | cmd/watchmesh/main.go:71-142 | a target of a wired run is offered only what the service of the kind of its source offers, row by row, and it has no row for, and all of that under its hash |
| Routes.NewRowWasTaken | cmd/watchmesh/main.go:71-142 | every new row has an entry with its hash that the service of the source offers and the service of the target takes |
| Routes.TakenHasRow | cmd/watchmesh/main.go:71-142 | and an entry that the source offers has a row if the push reports no failure, the target takes it and every write is applied |
| Watchmesh.AnswersListable | internal/engine/engine.go:14-17 | whatever a source answers, it lists movies and episodes only |
| Watchmesh.EveryReadEntryDelivered | internal/engine/engine.go:38-53 | with the readers of the program, every movie or episode dated from the initial cursor on and before the present one was reported delivered, with the same type, ids, numbering and instant, by every target that had no row for it at the start |
| Watchmesh.RunOne | cmd/watchmesh/main.go:110-142 | runs the first definition of the name if everything it refers to can be wired, otherwise leaves the store alone |
| Watchmesh.RunAll | cmd/watchmesh/main.go:238-251 | runs every definition in order whatever earlier ones returned, until cancelled |
| Watchmesh.PassKeepsOthers | cmd/watchmesh/main.go:238-251 | a pass changes no cursor and no row of a sync it has not reached |
| Watchmesh.SyncsIndependent | cmd/watchmesh/main.go:238-251 | a pass leaves each sync with the cursor and rows it would have had alone |
| Slices.RunDependsOnSlice | internal/engine/engine.go:54-112 | a run's offers, errors and writes depend only on its own cursor and rows |
| Slices.RunKeepsOtherSlices | internal/engine/engine.go:54-112 | a run changes no other sync's cursor or rows |
| Migration.SeenItems.Up | migrations/000002_target_seen.up.sql:8-11 | cannot fail on a table that satisfies its old key; keeps every row with its sync, hash and date |
| Migration.SeenItems.Down | migrations/000002_target_seen.down.sql:2-4 | succeeds exactly if no two rows share sync and hash, then drops no row; a failure restores the table |
| Migration.UpThenDown | migrations/000002_target_seen.down.sql:2-4 | down after up always succeeds and is the identity on old tables |
| Migration.UpMarksExactly | migrations/000002_target_seen.up.sql:8-11 | an upgraded row answers a lookup exactly for the empty connection name, with its own sync and hash |

## Left out

- HTTP, JSON and GraphQL bodies, headers and URLs, and the single retry after a 429: a request is its final answer.
- The SHA-1 digest: an arbitrary hash function, taken to be collision free where entries are identified.
- Lower-casing of media types beyond ASCII letters in the key.
- Timestamp and number parsing: the parsed instant or number is the input, with zero for an unreadable one.
- Time zones of instants and the microsecond resolution of stored timestamps; the cursor is stored exactly.
- last_success_at, which always equals the cursor.
- Error texts and the wrapping of errors; errors are kept as their kinds and target positions.
- Connectors behind one interface: a run's history and push functions dispatch on the connection kind instead.
- Entries without a readable date are dated zero, so the hypothesis on late arrivals does not hold of them.
- Simkl.HistoryIsWindow: takes entries that list the same dated item to change together, because otherwise date_from may leave out the first one and the read lists the item at the place of the next; Simkl.HistoryCovers does not need it.
- Trakt.HistoryIsWindow: takes pages that stand still while they are read, as Ryot.HistoryIsWindow does, because a shift repeats entries; Trakt.HistoryCovers and Ryot.HistoryCovers take lists that gain entries at their front.
- Trakt.HistoryCovers: lists that lose entries while they are read, so that a later page starts too late, are not covered.
- Simkl.Throttle.Get: the mutex is modelled by calls that happen one after another.
- DevicePoll.AwaitToken: a poll notices the end of its context at once; how late the scheduler runs it afterwards is not modelled.
- DevicePoll.PollDeviceToken: the wrap-around of the interval itself after some 1.8 billion slow_down answers is not modelled; a stream on which the loop never ends has no result.
- The Simkl PIN poll loop, token checks, configuration loading, command line flags, logging and the ticker.
- Several processes running the same sync at once.
- The tools that run migrations, their version table and their locks.
