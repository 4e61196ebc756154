# Verified models of the property backend

A Dafny model of the parts of the backend that keep redundant state in step by
hand, page through data by hand, or transform nested data: interaction
persistence, the payload merge engine, the property stream, the newly-created
cache, trending searches, the chat cache with its offload and pending pools, the
cart stores, search segmentation, the cloud deletion outbox and the decimal
successor used as a range bound.

SQL tables and Redis values are sequences, sets and maps. Every handler is one
atomic step; the expiry of a Redis key and the handling of its expiry event are
two steps. Each handler that changes state is a method of a class whose fields
are the stores, proved equal to a function from the old state to the new one;
the theorems are about those functions, over all inputs and all runs.
`dafny verify dfyconfig.toml` checks everything.

## How the project is laid out

| files | part of the backend |
|---|---|
| `Interactions`, `InteractionProofs`, `InteractionTheorems`, `InteractionLog`, `InteractionService` | a batch of likes, saves, views and so on, folded into per-user statistics and denormalised counters |
| `Payload`, `Merge`, `MergeTheorems`, `MergeIdempotence`, `MergeCollections`, `MergeProperties`, `MergeFrame`, `MergeCreation`, `MergeNormalization`, `MergeNewItems`, `MergeOutcome`, `MergeExecutor` | nested payloads applied to an object graph with merge semantics |
| `Stream`, `StreamPaging`, `StreamPages`, `StreamPreferences`, `StreamRuns`, `StreamMeaning`, `StreamWalk`, `StreamService` | the three-stage property stream and its cursors |
| `NewlyCreated`, `Trending` | caches whose keys expire on their own |
| `Strings`, `ChatKeys`, `ChatStore`, `ChatProofs`, `ChatRuns`, `ChatThreads`, `ChatOffloads`, `ChatDispatch`, `ChatService` | chat messages written behind, offloaded and resolved from tokens |
| `Cart`, `CartService` | the three cart stores of a user and their offload |
| `Segments` | search segmentation |
| `Outbox`, `OutboxImages` | the image deletion outbox |
| `BumpDecimal` | the exclusive lower bound of a range read |
| `Prelude` | shared vocabulary |

## Where the code and its documentation disagree, or a promise fails

The model follows the code. A promise that fails is stated with the exact
condition under which it holds.

- A comment in `rmv_frm_parent` promises that deleting from a one-to-many
  collection deletes the row (app/controllers/assets/relationship_handler.py:83),
  but `rel_type` classifies every collection as many-to-many, so a deletion only
  unlinks: `MergeProperties.NothingIsDeleted`.
- Normalisation marks any dictionary that carries an id, also one that is a plain
  column value: `Payload.NormalizeSettledIff`,
  `MergeNormalization.ColumnsNormalizedIff`, `MergeNewItems.NewItemsNormalizedIff`.
- Applying an all-id payload again may unlink once more from a collection that held an
  object twice: `MergeIdempotence.ApplyTwiceIff`, `RepeatedRowIsUnlinkedTwice`.
- The preference stage queries every field with the same seen-set, so an asset
  matching two fields appears twice on a page
  (app/controllers/assets/stream.py:156-174): `StreamPreferences.PageRepeatsIff`,
  `PreferenceStageRepeats`. Its `price` field filters nothing.
- A request moves the database cursor past unseen assets in two cases: a page filled
  by the preference stage or the ranked scan moves it to the oldest row of the last
  field, and a page completed by the fallback moves it past the assets that tie with
  its last one. Only the ranked scan can then show them: `StreamWalk.SkipsIff`,
  `ShownInTheEndIff`, `NewerAssetIsSkipped`. The scan itself comes to a halt once its
  whole window has been seen: `ScanIsStuck`.
- The cursor is a creation time compared strictly, so a page boundary between two
  assets created at the same time skips one: `StreamPaging.PageBoundary`,
  `WalkIsCompleteIff`.
- A stored score of zero is taken as no score and restarts the ranked scan from
  the top (app/controllers/assets/stream.py:194-197): `StreamMeaning.ScanContinues`.
- An expiry handled after its key was set again takes a live asset out of the
  cache: `NewlyCreated.EveryRunInStepIff`, `HandleInStepIff`, `CreateNoStaleEventIff`.
- The cache key of a search leaves its tag out: `Trending.OtherTagAnswerIff`,
  `CategoryAnswersTitle`.
- The dispatcher documents that it sends all pending messages
  (app/controllers/chat/dispatch_pending_chat.py:33-35), but it reads the pool, which
  another call may replace; one pooled token without a colon makes it raise; and it
  looks for messages only in the cache: `ChatDispatch.TokenIsSentIff`,
  `ReplacedPoolSendsNothing`, `MalformedTokenStopsDispatch`, `OffloadedTokenIsNotSent`.
- A cached update whose id names another row is lost in the offload, and
  overwrites that other message: `ChatOffloads.OffloadShowsUpdateIff`,
  `OtherRowIsDamaged`. A chat with oneself may land in a thread
  shared with somebody else: `ChatProofs.SelfThreadIff`.
- The comment in `add_to_cart` says that it returns when the asset is in the cart
  (app/controllers/cart/cart_methods.py:91-92); it returns when the asset is
  missing from an existing cart, and otherwise goes on to the pre-offload store.
  A removal therefore may leave the asset visible, and a removal that empties the
  stores lets the reload bring the asset back: `Cart.RemoveHidesIff`,
  `RemovedComesBack`. An add to empty stores hides what the reload showed:
  `Cart.AddShowsOthersIff`, `AddHidesStored`. The offload overwrites the cart:
  `Cart.OffloadRemembersIff`.
- The flush hook is blind to an old public id that was never loaded, and queues
  the new id of a row that is changed and then deleted:
  `Outbox.FlushLeaksIff`, `RunLeaksIff`. The worker deletes an
  image that a row has taken up again: `Outbox.WorkerKeepsImagesIff`,
  `OutboxImages.RunKeepsImagesIff`.
- The bumped score is the successor among scores with the same number of digits;
  a finer score in between is missed: `BumpDecimal.ReadIsExclusiveIff`,
  `FinerScoreIsMissed`.

## Model

| member | source | states |
|---|---|---|
| `InteractionTheorems.CountersAreExactInEveryRun` | app/controllers/assets/services.py:836-958 | from untouched properties, after any sequence of committed and aborted batches by any users, there is one statistics row per user and property, likes/saves/carts equal the head count of users whose flag is set, and the other counters equal the sum over all users |
| `InteractionTheorems.RunKeepsConsistent` | app/controllers/assets/services.py:836-958 | the denormalisation invariant survives every run, and no property appears or disappears |
| `InteractionTheorems.CollapseRefinesReplay` | app/controllers/assets/services.py:813-834 | the collapsed batch and the plain replay of every flag event in list order succeed together and leave equal properties and, for every user and property, equal statistics rows |
| `InteractionTheorems.CollapseKeepsKeys` | app/controllers/assets/services.py:817-834 | the collapse drops events and reorders lists but neither loses nor invents a (property, type) key, idle flag lists excepted |
| `InteractionTheorems.CollapsedListsAreShort` | app/controllers/assets/services.py:822-834 | after the collapse a like/save/cart list holds exactly one event |
| `InteractionTheorems.CollapseMembers` | app/controllers/assets/services.py:817-834 | the collapsed batch holds every tallied list whole, of every non-empty like/save/cart list its last event, and nothing else |
| `InteractionTheorems.NetOfCollapse` | app/controllers/assets/services.py:817-834 | with distinct keys the net effect of the whole collapsed batch at a key is the last action of its one list, applied once for a flag and once per distinct event for a tally |
| `InteractionTheorems.BatchOutcome` | app/controllers/assets/services.py:836-958 | a batch commits if and only if every list, empty like/save/cart lists excepted, names a known property and no list of the type without a case has an event; the returned count is the number of event rows appended |
| `InteractionTheorems.BatchMeaning` | app/controllers/assets/services.py:813-937 | a committed batch, stated without the collapse: a flag takes the last action of its list, a tally grows by the number of distinct events (views of one's own property excepted), the public counter moves by what the user's statistic moves by, and the log grows accordingly |
| `InteractionTheorems.BatchFrame` | app/controllers/assets/services.py:836-937 | a batch changes no other user's statistics and nothing at keys it does not have |
| `InteractionTheorems.BatchKeepsNonNegative` | app/controllers/assets/services.py:897-933 | from any database at all, also where statistics and counters disagree, a batch makes no counter negative |
| `InteractionLog.BatchLog` | app/controllers/assets/services.py:813-893 | a committed batch appends first, list by list in the order of the request, one row per distinct event of the tallied lists, and then, in the same order, one row for the last event of each like/save/cart list |
| `InteractionLog.BatchLogMembers` | app/controllers/assets/services.py:813-893 | a row is new if and only if it carries the property, timestamp and type of the last event of a like/save/cart list, or of some event of another list, and the user's id |
| `InteractionLog.EventsLogged` | app/controllers/assets/services.py:870-893 | one list logs its distinct events in the order of their first appearance |
| `InteractionLog.DistinctMeaning` | app/controllers/assets/services.py:870-875 | the seen keys let each (timestamp, action) through exactly once |
| `InteractionProofs.ClampIsIdle` | app/controllers/assets/services.py:897-917 | in a consistent state the `max(0, ...)` clamp never bites: the counter moves by exactly what the flag moves by |
| `InteractionProofs.EventKeepsConsistent` | app/controllers/assets/services.py:886-933 | one event keeps every counter equal to its sum over users |
| `InteractionProofs.EventAt` | app/controllers/assets/services.py:886-933 | what one event changes in the statistic, counter and log at every (property, type), and that it changes nothing else |
| `InteractionProofs.EventsCounted` | app/controllers/assets/services.py:870-934 | a list of events is counted and logged once per distinct (timestamp, action) |
| `InteractionProofs.EventsAt` | app/controllers/assets/services.py:870-934 | the effect of a whole list at every (property, type) is its net effect: last action, number applied |
| `InteractionProofs.GroupsKeepConsistent` | app/controllers/assets/services.py:836-958 | a batch goes through exactly when none of its lists fails, and then keeps the invariant, counts exactly the applied events, creates rows only for the properties mentioned and leaves other users alone |
| `InteractionProofs.GroupsAt` | app/controllers/assets/services.py:836-934 | the observable effect of a batch at every (property, type) is the composition of the net effects of its lists |
| `Interactions.FindRowFirst` | app/controllers/assets/services.py:841-849 | the statistics query returns the first matching row, and nothing only when no row matches |
| `Interactions.SumCountsFlaggers` | app/controllers/assets/services.py:897-917 | with one row per user and property the sum of a flag is the number of users who set it |
| `InteractionService.CollapseInteractions` | app/controllers/assets/services.py:814-834 | the two loops over an insertion-ordered dictionary compute the collapse |
| `InteractionService.RecordEvent` | app/controllers/assets/services.py:886-933 | the case analysis on the event type writes back the specified statistics, counters and event row |
| `InteractionService.InteractionStore.StatsRow` | app/controllers/assets/services.py:839-866 | the row cache always points at the row a query would return, creating it once |
| `InteractionService.InteractionStore.RecordGroup` | app/controllers/assets/services.py:870-934 | the inner loop with its seen keys applies one list, and fails exactly on an unsupported event |
| `InteractionService.InteractionStore.PersistInteractions` | app/controllers/assets/services.py:795-958 | the handler is all or nothing: a commit is exactly the batch function with its count, an exception leaves every table as it was |
| `Payload.NormalizePayload` | app/controllers/assets/relationship_handler.py:8-28 | the loop that fills the normalised dictionary computes the recursive normalisation |
| `Payload.NormalizeIdempotent` | app/controllers/assets/relationship_handler.py:8-28 | normalising twice is normalising once, at every depth |
| `Payload.EraseNormalize` | app/controllers/assets/relationship_handler.py:8-28 | with `__rel__` markers erased at every depth, a payload and its normalisation are the same |
| `MergeNormalization.ApplyNormalized` | app/controllers/assets/relationship_handler.py:103-128 | when every column value has the form above, applying the normalised payload gives the same graph, or the same failure, as applying the payload |
| `MergeNormalization.ApplyMarked` | app/controllers/assets/relationship_handler.py:15-16 | the marker of a related item has no effect when no class has an attribute of that name |
| `MergeNormalization.NormalizedIsSameItem` | app/controllers/assets/relationship_handler.py:162-241 | a normalised item has the same id, the same deletion flag and the same unique column values as the item |
| `Payload.NormalizeSettledIff` | app/controllers/assets/relationship_handler.py:8-28 | normalisation leaves a value alone if and only if its dictionaries with an id-like key are marked first and nowhere else, and all others, at every depth it descends to, hold only such values |
| `MergeNormalization.ColumnsNormalizedIff` | app/controllers/assets/relationship_handler.py:8-28 | for a payload of any number of columns, normalising first is harmless if and only if every column value is of that form |
| `MergeNormalization.NormalizedDict` | app/controllers/assets/relationship_handler.py:13-18 | a dictionary value with a key `id` or ending in `_id` gets the marker, true, in front and is otherwise left as it is, a marker it has keeps its value and comes first, and any other dictionary is normalised inside |
| `MergeNormalization.NormalizedItem` | app/controllers/assets/relationship_handler.py:19-26 | a list keeps its length; its dictionaries are normalised without a marker of their own and its other items are left alone |
| `MergeNewItems.NewItemsNormalizedIff` | app/controllers/assets/relationship_handler.py:8-28 | for a payload with nested relations all of whose items stand for new objects, normalising first gives the same graph if and only if every column value, at every depth that is normalised, is of that form |
| `MergeNewItems.Created` | app/controllers/assets/relationship_handler.py:131-202 | a payload without ids creates at most one object per item, and exactly one per item if and only if no item matches a stored row |
| `MergeNewItems.Stores` | app/controllers/assets/relationship_handler.py:103-209 | a payload of new items leaves each of its column values, at every depth, on the object created for its item |
| `MergeNewItems.Elsewhere` | app/controllers/assets/relationship_handler.py:103-209 | such a payload changes no object that was there before, except the attributes it gives the object it is applied to |
| `MergeCollections.MergedCollection` | app/controllers/assets/relationship_handler.py:162-209 | after a merge the collection holds the payload's objects in payload order and then, in their old order, exactly the old members neither mentioned nor unlinked; it has a duplicate if and only if two items of the payload stand for the same existing object |
| `MergeCollections.MergedFirst` | app/controllers/assets/relationship_handler.py:176-202 | each kept item contributes the row it names, else the row with its unique values, else an object created for it |
| `MergeCollections.MergedExisting` | app/controllers/assets/relationship_handler.py:73-81 | what remains of the old members is the old list without the rows named for deletion |
| `MergeCollections.MergedDistinctIff` | app/controllers/assets/relationship_handler.py:173-202 | the merged list is free of duplicates if and only if no two kept items stand for the same object that was there before |
| `MergeCollections.MergedCreatedOnce` | app/controllers/assets/relationship_handler.py:192-202 | every object the loop creates is created once and is none that was pending |
| `MergeProperties.NothingIsDeleted` | app/controllers/assets/relationship_handler.py:43-56 | no payload deletes any row, since a collection is always classified many-to-many |
| `MergeFrame.UnaddressedStays` | app/controllers/assets/relationship_handler.py:103-209 | object by object, for payloads that mix named, matched and new items: an attribute of an existing object keeps its value unless an item standing for that object gives it |
| `MergeFrame.UnnamedStays` | app/controllers/assets/relationship_handler.py:103-128 | in particular an attribute the payload names at no depth stays on every object |
| `MergeCreation.PendingStays` | app/controllers/assets/relationship_handler.py:103-209 | applying a payload to one object, at any depth, leaves every other pending object alone |
| `MergeCreation.CreatedColumns` | app/controllers/assets/relationship_handler.py:103-128 | a created object ends up with exactly the column values its own payload gives last, whatever the nested relations do |
| `MergeCreation.CreatedOne` | app/controllers/assets/relationship_handler.py:148-159 | a new item of a single relation creates a fresh object, links it, and gives it the item's columns and no others |
| `MergeTheorems.ExtendIsOut` | app/controllers/assets/relationship_handler.py:204-207 | the last loop appends the members not yet present, each once, in their order |
| `MergeTheorems.RemoveFirstIsOut` | app/controllers/assets/relationship_handler.py:75-81 | unlinking from a list without duplicates removes exactly that object |
| `MergeTheorems.FoldTwiceIff` | app/controllers/assets/relationship_handler.py:162-209 | doing a list of column writes, link writes and merges with unlinkings a second time changes nothing if and only if it sets a value outright, or the collection holds no object more often than the first merge unlinks it, objects that some merge mentions or a later one unlinks excepted |
| `MergeIdempotence.ApplySucceeds` | app/controllers/assets/relationship_handler.py:131-202 | a payload that names every related object by id succeeds exactly when those rows exist, and creates and deletes nothing |
| `MergeIdempotence.ApplyCell` | app/controllers/assets/relationship_handler.py:103-209 | such a payload changes every attribute of every object by exactly the writes read off the payload |
| `MergeIdempotence.ApplyTwiceIff` | app/controllers/assets/relationship_handler.py:103-209 | applying such a payload again, deletions included, succeeds and leaves the whole object graph unchanged if and only if every collection is cleared in that sense |
| `MergeIdempotence.ApplyTwice` | app/controllers/assets/relationship_handler.py:103-209 | in particular it does when no collection holds an object twice |
| `MergeIdempotence.ApplyTwiceKeepingAll` | app/controllers/assets/relationship_handler.py:103-209 | and, whatever the collections hold, when the payload deletes nothing |
| `MergeIdempotence.RepeatedRowIsUnlinkedTwice` | app/controllers/assets/relationship_handler.py:73-81 | a collection that holds a row twice loses one occurrence with each application |
| `Merge.FindMatchMeaning` | app/controllers/assets/relationship_handler.py:212-241 | no match means that the item gives no unique column a value or that every stored row of the class differs in one, a match is the only row that has all those values, and otherwise two rows have them and the query raises |
| `MergeOutcome.TargetMeaning` | app/controllers/assets/relationship_handler.py:131-202 | which object an item stands for: the row its id names, which has to exist, else in a collection the one row with its unique values, else a new object of the relation's class without attributes |
| `MergeOutcome.ApplySucceedsIff` | app/controllers/assets/relationship_handler.py:103-209 | any payload, whatever mixture of items it contains, goes through if and only if every single relation is given a dictionary that asks for no deletion, every collection a list of dictionaries or a value that counts as missing, every id names a row, and no item's unique values are those of two rows, at every depth |
| `MergeOutcome.RemoveMeaning` | app/controllers/assets/relationship_handler.py:73-86 | deleting an item takes one occurrence of its row out of the collection, and nothing when the row is missing; only in a collection mapped the wrong way round the row itself is deleted |
| `MergeExecutor.Session.ApplyPayload` | app/controllers/assets/relationship_handler.py:103-128 | the field loop over the live graph computes `Apply`, or reports the exception |
| `MergeExecutor.Session.ApplyOne` | app/controllers/assets/relationship_handler.py:131-159 | a single relation is resolved or created, filled and linked as specified |
| `MergeExecutor.Session.ApplyMany` | app/controllers/assets/relationship_handler.py:162-209 | a collection is merged and assigned as specified, falsy values included |
| `MergeExecutor.Session.MergeList` | app/controllers/assets/relationship_handler.py:176-202 | the loop over the items computes the merged list, the remaining members and the graph, objects only being added |
| `MergeExecutor.Session.KeepUnmentioned` | app/controllers/assets/relationship_handler.py:204-207 | the last loop computes the extension of the merged list |
| `StreamPaging.SelectOrdered` | app/controllers/assets/stream.py:242-253 | the query returns exactly the admitted assets, newest first |
| `StreamPaging.PageBoundary` | app/controllers/assets/stream.py:252-258 | the next page starts exactly where this one ended if and only if the boundary does not fall between two assets created at the same time |
| `StreamPaging.WalkProgress` | app/controllers/assets/stream.py:252-258 | after a non-empty page the cursor is strictly older and fewer assets are left, so the walk ends |
| `StreamPaging.WalkIsComplete` | app/controllers/assets/stream.py:235-258 | with distinct creation times the pages put together are exactly the verified, unseen assets older than the first cursor, newest first |
| `StreamPaging.WalkIsCompleteIff` | app/controllers/assets/stream.py:235-258 | in general the walk is complete if and only if no page boundary separates two assets of the same creation time |
| `StreamPages.PreferenceStage` | app/controllers/assets/stream.py:156-176 | the preference stage returns only unseen assets, at most the per-field limit for each field |
| `StreamPages.QuotasBounded` | app/controllers/assets/stream.py:141-154 | at most one quota per field, each with the per-field limit |
| `StreamPages.RoundRobin` | app/controllers/assets/stream.py:261-269 | among any `size` consecutive choices for a field every keyword is chosen exactly once |
| `StreamRuns.PrefsFields` | app/controllers/assets/stream.py:118-139 | whoever asks, the fields asked for are distinct and each has a keyword |
| `StreamRuns.FieldTurn` | app/controllers/assets/stream.py:141-154 | one request moves the counter of each field on by one and asks the field for the keyword with that number, counted round |
| `StreamRuns.CounterInRun` | app/controllers/assets/stream.py:261-269 | a field's counter counts the requests of its user, whoever else asks in between; unidentified users share theirs |
| `StreamRuns.KeywordInRun` | app/controllers/assets/stream.py:141-154 | after any run the next request asks each field for the keyword numbered by the user's turns so far, so the rotation above is the one that happens |
| `StreamPreferences.QuotaMembers` | app/controllers/assets/stream.py:272-321 | a field returns exactly the admitted assets matching its keyword before which the table lists fewer than its limit |
| `StreamPreferences.PreferencesDistinctIff` | app/controllers/assets/stream.py:156-174 | the preference stage repeats an asset if and only if one is admitted, matches the keywords of two fields and is among the newest such assets of both |
| `StreamPreferences.PageRepeatsIff` | app/controllers/assets/stream.py:40-108 | a whole page repeats an asset under exactly that condition |
| `StreamPreferences.PageDistinctWhenKeywordsApart` | app/controllers/assets/stream.py:141-174 | so a page is free of repetition when no admitted asset matches two of the chosen keywords |
| `StreamPreferences.PreferenceStageRepeats` | app/controllers/assets/stream.py:156-174 | one asset matching two fields is returned twice |
| `StreamPages.AtMostPart` | app/controllers/assets/stream.py:199-206 | the range read returns exactly the members not above the start score, in descending order |
| `StreamPages.ScanSelection` | app/controllers/assets/stream.py:199-221 | the scan picks distinct unseen members of the window with non-increasing scores, passes over none that outranks a pick, ends on the lowest picked score, and picks nothing only when the window is all seen |
| `StreamPages.ScanFills` | app/controllers/assets/stream.py:199-221 | a full window with at most `limit` seen members yields exactly `limit` ids |
| `StreamMeaning.ScanContinues` | app/controllers/assets/stream.py:70-108 | the next scan of the same user, or of an anonymous client that sends the returned cursor back, starts at the lowest score picked and never rises above it, except that a lowest score of zero restarts it from the top |
| `StreamMeaning.PageAutoCursor` | app/controllers/assets/stream.py:68-108 | the scan cursor a page returns is infinite when the preference stage fills the page, none when the scan picks nothing, and otherwise the lowest score picked |
| `StreamMeaning.MemoryMeaning` | app/controllers/assets/stream.py:190-225 | a request remembers the lowest score picked for its user and no other score, and moves no counter of anybody who does not share its counters |
| `StreamMeaning.ScanMembers` | app/controllers/assets/stream.py:190-221 | the scan looks at the first members of the ranking not above the remembered or sent score, twice as many as the page still needs, and picks the first unseen ones of them until the page is full |
| `StreamMeaning.FieldMembers` | app/controllers/assets/stream.py:272-321 | a field returns exactly the verified, unseen assets older than the cursor that match its keyword, `price` matching always, before which the table lists fewer than its limit |
| `StreamMeaning.FallbackMembers` | app/controllers/assets/stream.py:86-101 | the fallback fills the page up with the first verified, unseen assets older than the cursor that are not on the page yet |
| `StreamMeaning.PrefsMeaning` | app/controllers/assets/stream.py:118-135 | the fields asked are the user's own non-empty lists in the fixed order, and the defaults when there is none or nobody is identified |
| `StreamMeaning.FieldLimit` | app/controllers/assets/stream.py:137-154 | a field's limit is the least one with which all fields together can fill a default page |
| `StreamMeaning.PageOrder` | app/controllers/assets/stream.py:40-108 | a page lists the rows of the fields in their order, each field newest first, then the assets picked by the scan with scores that do not rise, then the fallback, newest first |
| `StreamRuns.QueryCursor` | app/controllers/assets/stream.py:252-258 | a query's cursor is the oldest creation time it returned or the given one, and never newer than the given one |
| `StreamRuns.PageCursor` | app/controllers/assets/stream.py:42-108 | the page's database cursor is the given one or the time of an asset on the page, never moves forward, and is not newer than anything the fallback returned |
| `StreamWalk.WalkEnds` | app/controllers/assets/stream.py:28-108 | a client that feeds seen ids and cursors back gets an empty page after at most as many requests as there are unseen assets |
| `StreamWalk.ShownInTheEndIff` | app/controllers/assets/stream.py:28-108 | by then a verified, unseen asset older than the first cursor has been shown if and only if each request that skipped it was followed by one whose ranked scan returned it |
| `StreamWalk.SkipsIff` | app/controllers/assets/stream.py:47-108 | a request moves the cursor past an asset without showing it if and only if either the first two stages fill the page without it and the last field's rows reach back to its creation time, or the fallback completes the page, the asset is not among the rows that still fit, and it was created at the same time as the last that does |
| `StreamWalk.ScanPicksNothingIff` | app/controllers/assets/stream.py:185-221 | the ranked scan picks nothing if and only if the page is full already or its whole window has been seen |
| `StreamWalk.ScanIsStuck` | app/controllers/assets/stream.py:185-225 | once the widest window of a known user has been seen, no later request of the walk gets anything from the scan and the remembered score stays |
| `StreamWalk.TurnStep` | app/controllers/assets/stream.py:28-108 | once the cursor has passed an unseen asset only the ranked scan can still show it |
| `StreamWalk.NewerAssetIsSkipped` | app/controllers/assets/stream.py:47-59 | a page filled by the preference stage moves the cursor past a newer asset no field matches |
| `StreamPages.LoadKeepsOrder` | app/controllers/assets/s_utils.py:113-122 | loading keeps the order of the ids that exist and drops the others |
| `StreamPages.PageStages` | app/controllers/assets/stream.py:40-101 | bounds of the three stages, and the last two add only ids distinct from each other, from the first stage and from the seen-set |
| `StreamPages.PageLength` | app/controllers/assets/stream.py:45-98 | a page is no longer than the requested size, zero meaning fifteen, or than what the fields give under any common limit with which they can fill a default page |
| `StreamPages.PageSeen` | app/controllers/assets/stream.py:40-108 | the returned seen-set is the given one plus exactly the returned ids, none of which was seen |
| `StreamPages.PageDistinctIff` | app/controllers/assets/stream.py:40-108 | a page repeats an id if and only if its preference stage does |
| `StreamPages.PagesAreDisjoint` | app/controllers/assets/stream.py:40-108 | in any run that feeds the seen-set back no two pages share an asset, even when the data changes in between |
| `StreamService.StreamStore.NextPreference` | app/controllers/assets/stream.py:261-269 | the stored counter goes up by one and gives the index |
| `StreamService.StreamStore.AllocateQuotas` | app/controllers/assets/stream.py:141-154 | the allocation loop computes the quotas and the new counters |
| `StreamService.StreamStore.LoadFromPreference` | app/controllers/assets/stream.py:111-176 | the loops compute the rows of the stage and the cursor of its last field |
| `StreamService.StreamStore.LoadFromAutoCategories` | app/controllers/assets/stream.py:179-232 | the loop with early exit computes the selection, its score and the remembered score |
| `StreamService.StreamStore.LoadFromDb` | app/controllers/assets/stream.py:235-258 | the rows are the newest verified, unseen assets older than the cursor: none left out is newer than one returned, and none is left out while there is room |
| `StreamService.StreamStore.LoadStreamState` | app/controllers/assets/stream.py:28-108 | the handler computes the page, both cursors, the seen-set and the kept state |
| `NewlyCreated.EveryRunInStep` | app/controllers/activity/asset_routine_methods.py:44-67 | in every reachable state the object's keys are the tracked ids, every live key is tracked, a tracked id without a live key has an unhandled expiry event, and with all events handled the three agree |
| `NewlyCreated.EveryRunInStepIff` | app/controllers/activity/auto_category_util_methods.py:10-43 | with no restriction on creating an id again, every state of a run is in step if and only if the run handles no expiry event of an id whose key lives |
| `NewlyCreated.StepKeepsInStep` | app/controllers/activity/asset_routine_methods.py:100-170 | every operation, expiry and handler keeps that invariant |
| `NewlyCreated.HandleInStepIff` | app/controllers/activity/auto_category_util_methods.py:10-43 | handling an expiry keeps the structures in step if and only if the key has not been set again |
| `NewlyCreated.CreateNoStaleEventIff` | app/controllers/activity/asset_routine_methods.py:44-67 | creating an id leaves no stale event behind if and only if its old expiry has been handled |
| `NewlyCreated.LookupAfter` | app/controllers/activity/asset_routine_methods.py:191-194 | what lookup returns after any one operation, from what it returned before |
| `NewlyCreated.StructuresAfter` | app/controllers/activity/asset_routine_methods.py:44-170 | what any operation leaves in the tracking set, the live keys, the unhandled events and the stored object, which is dropped when a removal empties it but not when an event handler does |
| `NewlyCreated.LookupReturnsLastWrite` | app/controllers/activity/asset_routine_methods.py:191-194 | until the id is written again or forgotten, lookup returns the data written last |
| `NewlyCreated.RedisCache.CreateOrUpdate` | app/controllers/activity/asset_routine_methods.py:44-67 | the three structures change as one step; an update of an expired key changes nothing |
| `NewlyCreated.RedisCache.RemoveAsset` | app/controllers/activity/asset_routine_methods.py:100-126 | the id leaves all three structures, and an emptied object leaves the hash |
| `NewlyCreated.RedisCache.RemoveAllAssets` | app/controllers/activity/asset_routine_methods.py:155-170 | the tracked keys, the set and the object are dropped |
| `NewlyCreated.RedisCache.HandleExpiry` | app/controllers/activity/auto_category_util_methods.py:10-43 | the late handler takes the id out of the set and the object |
| `NewlyCreated.RedisCache.ExpireKey` | app/controllers/activity/asset_routine_methods.py:51 | when a key's time is up lookups do not notice until the event is handled |
| `NewlyCreated.RedisCache.GetProperty` | app/controllers/activity/asset_routine_methods.py:191-194 | while the structures are in step a lookup hits exactly the tracked ids, whose key lives or whose expiry is unhandled |
| `Trending.TrendingIsBacked` | app/controllers/activity/auto_category_util_methods.py:61-73 | in every reachable state a trending token is cached or has an unhandled expiry event, also when it was cached again before its old event is handled |
| `Trending.ScoreCountsHits` | app/controllers/search/search_string_processor.py:30-34 | over any run the trending score of a token is the number of its searches answered from the cache since the last handled expiry |
| `Trending.CacheIsTransparent` | app/controllers/search/search_string_processor.py:26-79 | with a fixed database and one tag per token, after any searches, expiries and handlers an answer is what the query would return |
| `Trending.OtherTagAnswerIff` | app/controllers/search/search_string_processor.py:26-79 | after any run of searches, over changing databases and under any tags, with expiries and handlers, a search is answered correctly if and only if no search filled a live entry of its token or the one that did found what this search should find |
| `Trending.RunFilledBy` | app/controllers/search/search_string_processor.py:26-79 | the cached result of a token is what the search that filled its entry found then, and there is none when no search did or its entry has expired |
| `Trending.CategoryAnswersTitle` | app/controllers/search/search_string_processor.py:26-48 | a title search after a category search of the same token is given the category |
| `Trending.QueryMeaning` | app/controllers/search/search_string_processor.py:42-64 | a category search returns the category matches, a search under another tag nothing, and an untagged search each title or tag match exactly once, title matches first, in the order of the database |
| `Trending.SearchedInRun` | app/controllers/search/search_string_processor.py:76-77 | over any run the recent searches are exactly the tokens searched without a cached entry |
| `Trending.ProcessIsRun` | app/controllers/search/search_string_processor.py:22-79 | processing a list is the run of the searches before its first malformed entry, raises exactly when there is one, and otherwise returns the answers of that run in order |
| `Trending.LookupsMeaning` | app/controllers/search/search_string_processor.py:22-49 | which searches those are: for each entry with exactly one colon the token before it, by category, untagged or under another tag as the text after it says, up to the first entry without exactly one colon |
| `Trending.SplitMeaning` | app/controllers/search/search_string_processor.py:24 | an entry is read if and only if it has exactly one colon, and gives back the two parts |
| `Trending.SearchCache.SearchEntry` | app/controllers/search/search_string_processor.py:26-77 | hit or miss of one entry: results, cache, trending score and recent set |
| `Trending.SearchCache.ProcessSearchEntries` | app/controllers/search/search_string_processor.py:22-79 | the loop over entries, which stops at a malformed one and keeps the effect of those before it |
| `Trending.SearchCache.HandleRecentExpiry` | app/controllers/activity/auto_category_util_methods.py:61-73 | the late handler takes away the token's score and no other, leaves cached results alone and keeps the trending set backed |
| `Strings.ParsePrint` | app/controllers/chat/utils/offload_chat_data.py:74-76 | an id printed into a key parses back to itself |
| `ChatKeys.KeyRoundTrip` | app/controllers/chat/utils/offload_chat_data.py:74-78 | parsing a dialogue key gives the two ids, smaller first, and they rebuild the key |
| `ChatKeys.ParseKeyIff` | app/controllers/chat/utils/offload_chat_data.py:74-76 | a text is read as a key if and only if its second and third parts between underscores are numbers in digits, and it gives back those two |
| `ChatKeys.KeyOfPair` | app/controllers/chat/utils/store.py:26-36 | two pairs have the same key if and only if they are the same unordered pair |
| `ChatKeys.TokenRoundTripIff` | app/controllers/chat/dispatch_pending_chat.py:52 | splitting a token recovers its key and timestamp if and only if the timestamp has no colon |
| `ChatKeys.TokenInjective` | app/controllers/chat/utils/store.py:113 | different messages have different tokens |
| `ChatProofs.OffloadView` | app/controllers/chat/utils/offload_chat_data.py:89-135 | a successful offload changes nothing a reader of cache and database sees, in any dialogue and at any timestamp |
| `ChatProofs.UpdatesReachOwnRow` | app/controllers/chat/utils/offload_chat_data.py:118-128 | of all the updates of an offload exactly the one cached for a timestamp reaches its latest row |
| `ChatProofs.LatestNew` | app/controllers/chat/utils/offload_chat_data.py:104-117 | the inserted rows show, per timestamp, exactly the cached messages without an id |
| `ChatProofs.PutAppends` | app/controllers/chat/utils/store.py:69-71 | a message with a new timestamp goes last in its dialogue |
| `ChatProofs.PutReplaces` | app/controllers/chat/utils/store.py:69-71 | a message with a known timestamp takes the place of the earlier version |
| `ChatProofs.ThreadOfPair` | app/controllers/chat/utils/offload_chat_data.py:23-55 | no second thread with the same participants is ever created, and two distinct users get the thread that is theirs |
| `ChatProofs.SelfThreadIff` | app/controllers/chat/utils/offload_chat_data.py:34-42 | a chat with oneself lands in somebody else's thread if and only if the first thread one takes part in has another member |
| `ChatRuns.ViewIsLastVersion` | app/controllers/chat/utils/store.py:66-78 | in every reachable state the view of a dialogue at a timestamp is the version cached last, however caching and offloading interleave, and no two threads have the same participants |
| `ChatRuns.StepView` | app/controllers/chat/utils/store.py:66-78 | caching a message is the only operation that changes what readers see, and only there |
| `ChatRuns.StepKeepsValid` | app/controllers/chat/utils/offload_chat_data.py:89-135 | every operation keeps row ids unique, threads distinct and cached ids pointing at the latest row of their timestamp |
| `ChatThreads.EveryRowIsFiled` | app/controllers/chat/utils/offload_chat_data.py:99-117 | in every reachable state each stored message belongs to a thread of its sender and recipient, and for two distinct users to no larger one |
| `ChatThreads.ThreadIdsTellPairs` | app/controllers/chat/utils/offload_chat_data.py:23-55 | in every reachable state no two threads have the same id, and two stored messages, each between two different users, carry the same thread id if and only if they are between the same two |
| `ChatThreads.OffloadFiles` | app/controllers/chat/utils/offload_chat_data.py:99-135 | an offload files the new messages under the thread of the pair its key names and leaves older ones filed |
| `ChatOffloads.OffloadShowsUpdateIff` | app/controllers/chat/utils/offload_chat_data.py:89-135 | for any store and any dialogue and timestamp, also another dialogue's: an offload leaves the view alone if and only if the last update naming the latest row there leaves the content seen before, or the cached message there is new |
| `ChatOffloads.OffloadRows` | app/controllers/chat/utils/offload_chat_data.py:89-135 | row by row: every stored row takes the content of the last update naming it; then come the messages without an id, in order, with their own sender, recipient, timestamp and content, consecutive ids and one thread of the two users; the dialogue leaves the cache and nothing else changes |
| `ChatOffloads.OffloadOfText` | app/controllers/chat/utils/offload_chat_data.py:74-97 | whatever text names the dialogue, the offload empties the dialogue of the two ids read from it, in the order given, and fails when they cannot be read |
| `ChatOffloads.EveryOffloadShowsIff` | app/controllers/chat/utils/offload_chat_data.py:89-135 | the same in every reachable state, whatever ids the messages carried |
| `ChatOffloads.OtherRowIsDamaged` | app/controllers/chat/utils/offload_chat_data.py:118-128 | an update cached at one timestamp that names the row of another overwrites that other message |
| `ChatDispatch.PoolAfterAdding` | app/controllers/ws_init/__init__.py:92-101 | a pool never holds a token twice; adding keeps every earlier token, replacing keeps none, and other pools are untouched |
| `ChatDispatch.TokensKeepResolving` | app/controllers/chat/utils/store.py:166-180 | a token left for an undelivered message is in the pool and resolves for the rest of the run |
| `ChatDispatch.TokenIsSentIff` | app/controllers/chat/dispatch_pending_chat.py:43-69 | at any later point of any run the dispatcher, reading the pool, sends a message for the token of an undelivered one if and only if every token that the pool then holds, by what was added since its last replacement, has a colon, this token is still among them, and every offload of its dialogue since then was followed by a newly cached version; what it sends is the version cached last |
| `ChatDispatch.DispatchesIff` | app/controllers/chat/dispatch_pending_chat.py:43-69 | in any state the message is sent for the token if and only if no pooled token lacks a colon, the token is pooled and the message is cached |
| `ChatDispatch.RunPooled` | app/controllers/ws_init/__init__.py:92-101 | a pool holds after any run exactly what was added to it since its last replacement |
| `ChatDispatch.ReplacedPoolSendsNothing` | app/controllers/ws_init/__init__.py:92-101 | after the pool is replaced by an empty one nothing is sent, though the message is cached |
| `ChatDispatch.MalformedTokenStopsDispatch` | app/controllers/chat/dispatch_pending_chat.py:51-56 | one token without a colon in the pool stops the whole dispatch |
| `ChatDispatch.RunCached` | app/controllers/chat/utils/store.py:66-78 | what the cache holds at a timestamp after any run: the version cached last, unless the dialogue was offloaded since |
| `ChatDispatch.OffloadedTokenIsNotSent` | app/controllers/chat/dispatch_pending_chat.py:51-56 | once its dialogue is offloaded a pending token still resolves in the database and yet nothing is sent for it |
| `ChatDispatch.CollectedMeaning` | app/controllers/chat/dispatch_pending_chat.py:49-56 | when every token has a colon, exactly the cached messages are collected, with the key of every token in order |
| `ChatService.ChatServer.CacheMessage` | app/controllers/chat/utils/store.py:56-78 | from then on the message is what is found under its dialogue and timestamp, and every other cached message, the stored rows and the pools stay |
| `ChatService.ChatServer.GetOrCreateThreadId` | app/controllers/chat/utils/offload_chat_data.py:23-55 | the first thread with both participants, or a new one |
| `ChatService.ChatServer.OffloadDialogue` | app/controllers/chat/utils/offload_chat_data.py:59-147 | the loop that separates new messages from updates performs the offload; an unparsable key changes nothing |
| `ChatService.ChatServer.AddPendingTokens` | app/controllers/ws_init/__init__.py:92-101 | the pool is extended or replaced and stripped of duplicates |
| `ChatService.ChatServer.HandleChatException` | app/controllers/chat/utils/store.py:166-180 | the message is cached and its token added to the pool |
| `ChatService.ChatServer.CollectPending` | app/controllers/chat/dispatch_pending_chat.py:49-56 | the loop over the tokens computes the collected keys and messages, or the index error |
| `Cart.EveryRunIsValid` | app/controllers/cart/cart_methods.py:19-186 | in every reachable state, offloads, reloads and expiries included, pre-offload and pre-deletion share no asset and no key stores an empty object |
| `Cart.StepKeepsValid` | app/controllers/cart/cart_methods.py:63-186 | every operation keeps both invariants for every user |
| `Cart.StepAt` | app/controllers/cart/cart_methods.py:10-186 | every operation but the offload changes the stores of one user only; an expiry takes the cart key and nothing else |
| `Cart.AddMeaning` | app/controllers/cart/cart_methods.py:63-104 | store by store: an asset waiting for deletion goes back to the cart, one missing from an existing cart goes into it, any other starts waiting to be stored unless it does already; no other asset changes in any store |
| `Cart.RemoveMeaning` | app/controllers/cart/cart_methods.py:114-150 | store by store: an asset waiting to be stored stops waiting, any other leaves the cart with its details for the pre-deletion store; no other asset changes in any store |
| `Cart.ClearMeaning` | app/controllers/cart/cart_methods.py:157-186 | whatever was in the cart or waiting to be stored waits to be deleted, the cart's details taking precedence, and nothing is left of it in those two |
| `Cart.GetMeaning` | app/controllers/cart/cart_methods.py:17-51 | reading shows the cart over what waits to be stored, and the database when both are empty; only then the cart changes, to what the database returned |
| `Cart.OffloadMeaning` | app/controllers/cart/routines/offload_task.py:104-134 | what waits to be stored takes the place of the cart and, when the insert succeeds, nothing is left waiting; nothing else changes for anybody |
| `Cart.ScannedMeaning` | app/controllers/cart/routines/offload_task.py:89-102 | the users found are those on the pages before the first empty one |
| `Cart.UserRunRemembers` | app/controllers/cart/cart_methods.py:63-186 | across adds, removals, clears and reads an asset once in the cart or in pre-deletion stays in one of them |
| `Cart.OffloadRemembersIff` | app/controllers/cart/routines/offload_task.py:106-130 | an offload forgets no asset if and only if every cart asset is also waiting to be stored or deleted |
| `Cart.AddIsShown` | app/controllers/cart/cart_methods.py:63-104 | after an add `get_cart` shows the asset, with the new details exactly in the listed cases |
| `Cart.AddShowsOthersIff` | app/controllers/cart/cart_methods.py:19-104 | an add leaves what `get_cart` shows of another asset, and its details, alone if and only if the visible stores held something or the database has no row for that asset |
| `Cart.AddHidesStored` | app/controllers/cart/cart_methods.py:31-104 | after the cart key expired, adding one asset hides another that the database still holds |
| `Cart.RemoveHidesIff` | app/controllers/cart/cart_methods.py:19-150 | after a removal `get_cart` does not show the asset if and only if it was not in both visible stores and either another asset is still shown or the database has no row for it |
| `Cart.RemovedComesBack` | app/controllers/cart/cart_methods.py:31-150 | the last asset of a cart is removed and the reload shows it again |
| `Cart.RemoveShowsOthersIff` | app/controllers/cart/cart_methods.py:19-150 | a removal leaves what `get_cart` shows of another asset alone if and only if it does not empty the visible stores or the database has no row for that other asset |
| `Cart.ClearedCartReloads` | app/controllers/cart/cart_methods.py:153-186 | a cleared cart shows nothing of its own, and so whatever the database returns |
| `CartService.CartStore.Get` | app/controllers/cart/cart_methods.py:17-51 | the merged view, or a reload that fills the cart |
| `CartService.CartStore.AddToCart` | app/controllers/cart/cart_methods.py:63-104 | the branches between the three stores compute the add |
| `CartService.CartStore.RemoveFromCart` | app/controllers/cart/cart_methods.py:114-150 | the branches between the three stores compute the removal |
| `CartService.CartStore.ClearCart` | app/controllers/cart/cart_methods.py:157-186 | both visible stores are moved to pre-deletion |
| `CartService.CartStore.ScanKeys` | app/controllers/cart/routines/offload_task.py:91-102 | the scan finds the users on the pages before the first empty page |
| `CartService.CartStore.Records` | app/controllers/cart/routines/offload_task.py:111-117 | one row per asset of a stored object |
| `CartService.CartStore.OverwriteCarts` | app/controllers/cart/routines/offload_task.py:106-121 | each user's cart becomes the pre-offload object, other users' stay, and the rows are exactly those waiting |
| `CartService.CartStore.HandleCartOffload` | app/controllers/cart/routines/offload_task.py:76-142 | the offload step, with rows added and pre-offload keys deleted exactly when the insert succeeds |
| `Segments.CleanWindowsMeaning` | utility_scripts/search_string_processor.py:5-53 | the reference list holds exactly the stopword-free contiguous windows, in strictly increasing (start, end) order and so each once |
| `Segments.RunAgrees` | utility_scripts/search_string_processor.py:15-53 | within a run between stopwords the double loop visits exactly the reference windows |
| `Segments.SegmentCount` | utility_scripts/search_string_processor.py:5-53 | the number of results is the sum over the maximal stopword-free runs of their triangular numbers |
| `Segments.TriangleClosed` | utility_scripts/search_string_processor.py:40-42 | the triangular number of k is k(k+1)/2 |
| `Segments.JoinSplits` | utility_scripts/search_string_processor.py:43-44 | a phrase determines its words: split at the blanks it gives them back |
| `Segments.TagMeaning` | utility_scripts/search_string_processor.py:56-64 | the tag is that of the first category whose key stands somewhere in the phrase, capitals read as small letters, and none only when no key does |
| `Segments.RunWindowsCount` | utility_scripts/search_string_processor.py:40-42 | how many windows the double loop still visits from any point |
| `Segments.TagSearchToken` | utility_scripts/search_string_processor.py:56-64 | the loop returns the tag of the first category whose key occurs in the phrase |
| `Segments.ProcessSegment` | utility_scripts/search_string_processor.py:31-53 | the double loop that grows a phrase in place yields the tagged phrases of all windows of the segment, in order |
| `Segments.CreateSearchSegments` | utility_scripts/search_string_processor.py:5-28 | cutting at stopwords and processing each segment yields, in order and for exactly the stopword-free windows, the words of the window joined by blanks with their tag |
| `Outbox.EveryRunIsLeakFree` | app/models_helper.py:61-83 | in every reachable state every image in the cloud is referenced by a row or queued, over all flushes, worker runs and crashes; after a clean run only referenced images are left |
| `Outbox.FlushLeaksIff` | app/models_helper.py:61-83 | any committed flush of inserts, deletes and changes leaks nothing if and only if the image of every row released without the hook seeing its stored id is outside the cloud, queued, stored again by the flush, or held by an untouched row |
| `Outbox.RunLeaksIff` | app/models_helper.py:61-83 | a run of flushes, worker runs and crashes is free of leaks throughout if and only if no committed flush of it lets an image slip that way |
| `Outbox.FlushKeepsNoLeak` | app/models_helper.py:61-83 | in particular a flush leaks nothing when the hook sees the stored values |
| `Outbox.FlushRows` | app/models_helper.py:61-83 | which public id every row holds after a flush |
| `OutboxImages.FlushQueues` | app/models_helper.py:61-83 | a committed flush newly queues an id if and only if it is the non-empty in-memory id of a deleted row, or the non-empty loaded old id of a dirty row whose new id differs |
| `OutboxImages.FlushFailsIff` | app/models_helper.py:61-83 | a flush is rolled back if and only if two of its releases give up the same id or one gives up an id already queued |
| `OutboxImages.FlushKeepsImagesIff` | app/models_helper.py:61-83 | when the hook sees the stored ids, a flush leaves every row with an image of its own that is in the cloud and not queued if and only if no id it stores is in use, queued or stored twice |
| `OutboxImages.RunKeepsImagesIff` | app/models_helper.py:61-83 | over flushes, worker runs and crashes in any order, no image in use is ever deleted or queued if and only if no committed flush stores such an id |
| `Outbox.RetriesReachCleanRun` | app/controllers/cloudinary/routines/delete_image_from_cloud.py:26-42 | a worker that crashes any number of times before its commit and is retried reaches the state of one clean run |
| `Outbox.ChangeLeaksIff` | app/models_helper.py:71-83 | the first way for a row to be released unseen, alone: a changed id leaks the old image if and only if the old value was not loaded, the image is in the cloud and nothing covers it |
| `Outbox.ChangedAndDeletedLeaksIff` | app/models_helper.py:64-68 | the second way, alone: a row changed and deleted in one flush leaks its stored image if and only if it is in the cloud and nothing covers it |
| `Outbox.WorkerKeepsImagesIff` | app/controllers/cloudinary/routines/delete_image_from_cloud.py:34-42 | the worker leaves every referenced image in place if and only if no queued id is referenced |
| `Outbox.CloudStore.PublicIdChanges` | app/models_helper.py:61-83 | the two loops of the hook queue exactly the released ids |
| `Outbox.CloudStore.FlushSession` | app/models_helper.py:61-83 | the flush happens as a whole, or not at all when a queued id is already in the outbox |
| `Outbox.CloudStore.Routine` | app/controllers/cloudinary/routines/delete_image_from_cloud.py:20-44 | the job loop deletes exactly the images of the jobs it reached and no row; only a commit empties the outbox |
| `BumpDecimal.BumpIsLeast` | app/controllers/notification/utils.py:51-56 | the bumped decimal keeps the number of fractional digits, is strictly larger, and no decimal with that many digits lies in between |
| `BumpDecimal.BumpText` | app/controllers/notification/utils.py:43-56 | a text of digits with a point, or its negative, is read as that number, and the bump raises it by one unit of its last digit and keeps the number of digits |
| `BumpDecimal.ParseIff` | app/controllers/notification/utils.py:51 | a text is read if and only if it is digits, with at most one point, with or without a minus sign in front |
| `BumpDecimal.BumpFailsIff` | app/controllers/notification/utils.py:55 | for a text in plain notation the bump raises if and only if the digits fill the 28-digit context |
| `BumpDecimal.ReadIsExclusiveIff` | app/controllers/notification/utils.py:97-105 | the inclusive range read from the bumped score returns exactly the entries with a greater score if and only if no score lies strictly between the two |
| `BumpDecimal.SameDigitsReadIsExclusive` | app/controllers/notification/utils.py:97-105 | among scores with no more fractional digits than the last one the read is always exact |
| `BumpDecimal.FinerScoreIsMissed` | app/controllers/notification/utils.py:97-105 | after 1.0 an entry scored 1.05 is missed |

## Left out

- The nested dictionaries of an interaction request are a list of (property, type) entries with distinct keys; the refresh and the skip under the debug setting are absent.
- Null counters of an asset count as zero; concurrent batches are not interleaved.
- Merging: `back_populates`, delete-orphan cascades and the rewriting of a primary key by a payload; a collection that is merged again below itself with deletions; what a failed `apply` leaves in memory before its transaction is dropped.
- Merging: `existing_by_id` is part of the identity map, so an id finds the same object in both; a null single relation and the deletion branch of `_handle_one` raise, as they do in the code, for want of a `get` method and of a `data` parameter.
- `apply_model` with its extra hook, flush and refresh.
- Stream: text matches are given sets of ids, and their `ILIKE` patterns are absent; the expiry of keyword counters and last scores; `fetch_latest_assets`.
- Stream: scores are real numbers, and the range read is a filter of the descending list.
- Newly-created cache: date serialisation, the log, and Redis errors, which the code swallows.
- Search: serialisation of assets, the time stamp of the recent set and the extension of the time to live.
- Chat: the failure path of the offload, which writes an unserialised dictionary back; locks; the lazy timestamp and its schedule; messages cached between the read and the deletion of a dialogue; missing users. Timestamps are text as in the cache, and their float form in the table is absent. Message and thread ids are drawn from one counter.
- Chat: `list(set(...))` has no defined order; the model keeps the order of first appearance.
- MergeCollections.MergedCollection: the old collection has no duplicates, and the collection is many-to-many, as `rel_type` classifies it.
- MergeIdempotence.ApplyTwiceIff: every related object is named by id; a payload that creates objects creates them again. Deletions are those of many-to-many collections, as `rel_type` classifies them.
- MergeNewItems.NewItemsNormalizedIff: the payload is one that is applied without an exception, and no item stands for a row; for a payload with such items `MergeNormalization.ApplyNormalized` gives one direction.
- StreamPaging.WalkIsComplete: the table does not change during the walk; nor does it in `StreamWalk.ShownInTheEndIff`.
- NewlyCreated.EveryRunInStep: an id is not created anew while an old expiry of it is unhandled; asset ids are never reused. `NewlyCreated.EveryRunInStepIff` drops this.
- Outbox.EveryRunIsLeakFree: the hook sees the stored public ids; `Outbox.RunLeaksIff` says what happens otherwise.
- ChatRuns.ViewIsLastVersion: messages are new or carry the id of the latest row of their timestamp; `ChatOffloads.EveryOffloadShowsIff` says what happens otherwise.
- Cart: the database is an abstract map that a reload may return, with text keys instead of integers; the model does not relate it to the rows of the offload. The times to live are absent, but not the expiry itself.
- Segmenter: the splitting of the text into tokens; lower-casing covers ASCII letters.
- Outbox: an upload happens in the flush that stores its public id; bulk and cascade deletions, which never reach the hook; the lock; jobs queued while the worker is at work.
- BumpDecimal: exponent notation in and out, special values, the float formatting of a float score and the binary rounding of scores in Redis.
- Routes, web sockets, e-mail, authentication, invitations, ratings, statistics, notification pools and the one-off scripts.
