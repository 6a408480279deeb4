# Verified models of the iOS port of Chromium

Dafny 4.11 models of the parts of the repository that keep state, cross threads or promise a
round trip, with proofs about every run of them. One file models one source file, or one
layer of it:

- `IdMultimap`, `ItemTable`, `MemoizingStore`: the memoizing store, that is two multimaps and
  two item maps. The maps are proved to represent one table, the removal loop to go through
  states in which one multimap has lost just the visited pairs, and any run of the table to
  be the plain relation "this tracker stored this item and has not been removed since".
- `ThreadLifetimes`, `MainLoop`, `PostRaces`, `PostedTasks`, `LockHistories`, `LockElision`,
  `WebThreads`:
  the registry of well-known threads. The first is a state machine over single steps
  (register, start, stop, deregister, one scanned slot, acquire, read, enqueue, return). One
  flag selects the code, which elides the lock, or the plain form that always takes it;
  another says whether threads are stopped in order, or are only found out when they
  deregister, as in the code. `PostRaces` says exactly when a post comes late, `PostedTasks`
  what a result means. `LockHistories` characterises all that the locking form can show to
  an observer, and `LockElision` says exactly which runs of the eliding form it matches.
  `WebThreads` has the functions as methods over the slot array, and `MainLoop` the order in
  which the main loop starts and destroys the threads.
- `DataSourceDeletion`, `DataSources`: reference counted data sources that are deleted on
  the UI thread, as a state machine over single steps, and the functions as methods.
- `CookieSets`, `CookieCache`: sets sorted by one comparator and differenced with a finer one.
- `PromoPrefs`, `NotificationPromo`: promo state that outlives the process.
- `Decimals`: decimal numerals, in the keys of promos and in ports.
- `QueryStrings`, `Urls`, `XCallbackUrl`: building and reading x-callback-urls.
- `CertPolicies`, `BookmarkFolders`, `TimeSmoothing`: certificate decisions over any history
  of calls, root-level bookmark folders, smoothed times over any call sequence.

Methods are proved against functions of the old state; what the source promises is then
proved about those functions, over whole runs. Values the code gets from elsewhere (the clock,
the current message loop, the schemes of standard URLs, certificate fingerprints, a server's
promo settings) are parameters.

## Where the code does not do what its comments say

Each of these is a lemma, with the exact condition under which the promise holds beside it.

- `web/public/web_thread.h` says that posting is free of races and true means posted. A post
  is late, that is uses the loop of a thread that has been stopped since, exactly if a thread
  is stopped whose loop some post has read and not used yet (`RunInTimeIffNoTargetStopped`).
  That happens in three ways and no others (`ThreeWaysToBeLate`), and each has a run. The lock
  does not help, because the destructor stops the thread before it takes the lock
  (`LockDoesNotKeepTargetRunning`). A caller that has no message loop is taken for the first
  registered thread that is not running, so it skips the lock whenever that one is not listed
  before the target (`SkipsLockIffLeastIsBehindTarget`, `CallerWithoutLoopCanBeLate`). And the
  double check of the destructor comes after the stop, too late for a post without the lock
  from a thread that should have died first (`CheckAtDeregistrationIsTooLate`).
- Eliding the lock can be observed even where all callers have message loops and threads stop
  in order: a post without the lock can be settled between the stop of a thread and a late
  post to it, as never with the lock always taken (`DisturbedLatePostIsObservable`). It cannot
  be observed exactly if that does not happen (`ElisionRefinesLockingIff`).
- The scan for the caller's id reads slots without the lock. Those a registered caller reads
  are not written meanwhile; a caller that is not registered has no such protection
  (`RegisteredWindowIsStable`, `UnregisteredScanIsDisturbed`).
- The order of lifetimes is checked at deregistration only. Beyond that the model demands, of
  registration, that no thread listed later is registered and no earlier one is being torn
  down; and, in its ordered form, of stopping a thread, that none listed later is registered.
  That is what `web/app/web_main_loop.mm` does (`MainLoopIsOrdered`).
  That the destructor's double check never fires is proved of the ordered form. In the other
  form the check is taken to hold, as a condition of deregistering.
- `SendResponse` returns early for a source that is scheduled for deletion. From its listing
  on that keeps a source unreferenced exactly if no response for it had got past the check
  (`ScheduledStaysUnreferenced`). Otherwise it is revived, and may be deleted twice
  (`UnguardedSendDeletesTwice`). It is never revived exactly if its last reference is not
  given up between the check and the post, and it is not asked to respond between losing
  that reference and being listed (`NeverRevivedIffGuarded`).
- A wake-up for the UI thread that cannot be posted is not made up for: later sources find
  the list nonempty and post none, so that all stay listed until somebody calls
  `DeleteDataSources` (`FailedPostIsNotMadeUpFor`, `StuckUntilForced`). That is the only way
  for a wake-up to be lost (`NeverStuckIffNoWakeupLost`).
- `max_views` caps the views recorded and not the calls of `HandleViewed`: an object does not
  count its own views, so one object allows any number of them and records one
  (`TwoViewsInOneSession`), or none if a close follows (`ViewThenCloseIsNotRecorded`). All are
  recorded exactly if no handler call has an effect after a view (`RecordCountsViewsIff`), and
  then the cap holds for the calls (`ViewsAreCapped`).
- The time of the first view is kept from one session to the next, but a second view by the
  object that made the first one overwrites it (`SecondViewOverwritesTime`,
  `NextActionKeepsTimeIff`).
- Closing a promo is undone by a view recorded afterwards by the same object, whose fields
  are never updated (`ClosesIffLastActionDoes`, `CloseThenViewReopens`). A promo without an id
  is never capped (`NoIdNoCap`).
- An item id counter that has wrapped around may reach an id that is in use
  (`WrappedIdCanBeInUse`). The maps stay consistent exactly if it does not (`Store`).
- `CreateXCallbackURLWithParameters` asks of the scheme that it is not empty. Its closing check
  fails for schemes that are not valid and for the filesystem one.
- `ExtractQueryParametersFromXCallbackURL` unescapes values and not keys, so a parameter comes
  back if no character of its key is escaped and all of its value is decoded, and otherwise
  only where overriding hides it (`ExtractUndoesCreate`).
- `web/public/cert_policy.h` speaks of additional errors; two allowed statuses do not add up,
  for the later replaces the earlier, and an empty set of errors is never allowed
  (`AllowedIffWithinLastAllowed`).

## Model

| member | source | states |
|---|---|---|
| IdMultimap.EqualRange | web/net/request_tracker_data_memoizing_store.h:126-134 | the returned iterators enclose exactly the pairs of the key |
| IdMultimap.FindSecond | web/net/request_tracker_data_memoizing_store.h:84-94 | finds the pair of key and value if there is one, and the end of the range otherwise |
| IdMultimap.UpdateMap | web/net/request_tracker_data_memoizing_store.h:98-104 | the relation gains the pair, and the multimap stays sorted without duplicate pairs |
| IdMultimap.EraseRange | web/net/request_tracker_data_memoizing_store.h:158-160 | the relation loses exactly the erased pairs |
| IdMultimap.AdjacencyMeansSole | web/net/request_tracker_data_memoizing_store.h:140-149 | the pair is first and last of its range if and only if no other pair has its key |
| MemoizingStore.RequestTrackerDataMemoizingStore.constructor | web/net/request_tracker_data_memoizing_store.h:23 | the maps start out consistent and empty, the counter at 1 |
| MemoizingStore.RequestTrackerDataMemoizingStore.Store | web/net/request_tracker_data_memoizing_store.h:32-58 | answers the live id of an equivalent item or the next id, never 0; the maps agree afterwards if and only if that next id was not in use, and then hold the old table with the item stored |
| MemoizingStore.RequestTrackerDataMemoizingStore.StoreNew | web/net/request_tracker_data_memoizing_store.h:41-54 | the branch for an unknown item: answers the next id; the maps agree afterwards if and only if it was not in use, and then hold the stored table |
| MemoizingStore.RequestTrackerDataMemoizingStore.StoreKnown | web/net/request_tracker_data_memoizing_store.h:48-54 | the branch for a known one: answers its id and keeps the maps agreeing |
| MemoizingStore.RequestTrackerDataMemoizingStore.UpdateMaps | web/net/request_tracker_data_memoizing_store.h:52-54 | both multimaps gain the pair and stay free of duplicates |
| MemoizingStore.RequestTrackerDataMemoizingStore.Retrieve | web/net/request_tracker_data_memoizing_store.h:63-72 | succeeds if and only if the id is live, with the item stored under it |
| MemoizingStore.RequestTrackerDataMemoizingStore.RemoveInternal | web/net/request_tracker_data_memoizing_store.h:108-118 | removes the item from both item maps, which stay inverse; neither look-up fails |
| MemoizingStore.RequestTrackerDataMemoizingStore.RemoveReference | web/net/request_tracker_data_memoizing_store.h:130-156 | one round of the removal loop: the pair is found, it alone goes, and the item goes with it just when nothing refers to it any more |
| MemoizingStore.RequestTrackerDataMemoizingStore.RemoveNext | web/net/request_tracker_data_memoizing_store.h:128-157 | the next round leads from one half-removed state to the next: the transpose has lost one more of the visited pairs, and just the items still referred to are left |
| MemoizingStore.RequestTrackerDataMemoizingStore.RemoveReferences | web/net/request_tracker_data_memoizing_store.h:128-157 | the whole loop: all pairs of the tracker are gone from the transpose, and just the items still referred to are left |
| MemoizingStore.RequestTrackerDataMemoizingStore.RemoveForRequestTracker | web/net/request_tracker_data_memoizing_store.h:122-161 | keeps the four maps consistent and leaves the old table without the tracker and without items only it referred to |
| MemoizingStore.RequestTrackerDataMemoizingStore.EverythingLeadsToLiveItems | web/net/request_tracker_data_memoizing_store.h:163-170 | every entry of the other three maps leads to a live item |
| MemoizingStore.RequestTrackerDataMemoizingStore.EmptyTableMeansEmptyMaps | web/net/request_tracker_data_memoizing_store.h:25-27 | without live items all four maps are empty |
| MemoizingStore.KnownByRank | web/net/request_tracker_data_memoizing_store.h:39-50 | the reverse map finds an item if and only if an equivalent one is live, and finds its id |
| MemoizingStore.StoreNewOutcome | web/net/request_tracker_data_memoizing_store.h:40-54 | storing a new item leaves maps that represent the stored table, and that agree if and only if the next id is free |
| MemoizingStore.StoreKnownOutcome | web/net/request_tracker_data_memoizing_store.h:48-54 | storing a known item leaves maps that agree and represent the stored table |
| MemoizingStore.VisitedOnce | web/net/request_tracker_data_memoizing_store.h:134-138 | during removal the tracker is still found in the range of the item visited |
| MemoizingStore.EraseReference | web/net/request_tracker_data_memoizing_store.h:140-156 | the adjacency test is a reference count of one, at every round of the loop |
| MemoizingStore.EndRemoval | web/net/request_tracker_data_memoizing_store.h:158-160 | erasing the range ends the half-removed state: the maps are transposes again and represent the removed table |
| ItemTable.IdAt | web/net/request_tracker_data_memoizing_store.h:41-45 | ids are nonzero 32-bit numbers, and the first 2^32-1 of them are pairwise different |
| ItemTable.SuccessorOfIdAt | web/net/request_tracker_data_memoizing_store.h:41-45 | the increment that wraps around and skips 0 goes through the ids in that order |
| ItemTable.RemovalDeletesSoleReferences | web/net/request_tracker_data_memoizing_store.h:128-157 | an item is deleted if and only if the removed tracker was its only one; others keep their ids |
| ItemTable.RunFromSound | web/net/request_tracker_data_memoizing_store.h:32-161 | over any run with at most 2^32-1 allocations an id is live exactly while referred to, equivalent live items share an id, and unless all ids have been issued the next one is not in use |
| ItemTable.IssuedIdsAreStable | web/net/request_tracker_data_memoizing_store.h:29-31 | an id issued before is live after any further run only if it has been live all along, for the same item |
| ItemTable.DeadIdNeverReturned | web/net/request_tracker_data_memoizing_store.h:40-47 | no later store answers a dead id, and a re-stored item gets one that was issued later |
| ItemTable.LiveItemKeepsItsId | web/net/request_tracker_data_memoizing_store.h:29-31 | stores of an item equivalent to a live one keep answering the same id |
| ItemTable.LiveItemsWereStored | web/net/request_tracker_data_memoizing_store.h:40-47 | a live id stands for the very item of the store that issued it, one of an item that was not live |
| ItemTable.IdsAreGivenInOrder | web/net/request_tracker_data_memoizing_store.h:41-45 | the ids issued are as many as such stores, and are 1, 2 and so on, from below once the positive ones are used up |
| ItemTable.RunRefinesRelation | web/net/request_tracker_data_memoizing_store.h:32-161 | after any run a tracker is linked to an item if and only if it stored it and has not been removed since |
| ItemTable.RetrievableIffHeld | web/net/request_tracker_data_memoizing_store.h:60-77 | after any run an item is live if and only if some tracker that stored it has not been removed since |
| ItemTable.EmptyIffEveryTrackerRemoved | web/net/request_tracker_data_memoizing_store.h:25-27 | the destructor's check holds after a run if and only if every tracker that stored something has been removed afterwards |
| ItemTable.WrappedIdCanBeInUse | web/net/request_tracker_data_memoizing_store.h:41-45 | a run of 2^32-1 allocations after which the next id is that of a live item |
| ThreadLifetimes.LifetimeKeepsNested | web/public/web_thread.h:63-64 | with threads stopped in order, none listed after a thread being torn down is registered, whatever thread comes or goes |
| MainLoop.MainLoopIsOrdered | web/app/web_main_loop.mm:167-216 | the threads that the main loop registers, starts and destroys come and go in the order that the ordered form demands, all the way up and down |
| MainLoop.StartUpIsOrdered | web/app/web_main_loop.mm:172-216 | so they come up, the main thread first |
| MainLoop.ShutDownIsOrdered | web/app/web_main_loop.mm:251-289 | and so they go down, in the reverse order |
| ThreadLifetimes.DeregisterFindsNothingBelow | web/web_thread_impl.cc:273-289 | with threads stopped in order, the double check of the destructor never fires |
| ThreadLifetimes.StepKeepsInv | web/web_thread_impl.cc:256-330 | every step of every form keeps the invariant: lock held exactly in the critical section, callers found in the slots they scanned, what was read still there unless its thread was stopped |
| ThreadLifetimes.RunKeepsInv | web/web_thread_impl.cc:256-330 | the invariant holds throughout every run |
| ThreadLifetimes.RegisteredWindowIsStable | web/web_thread_impl.cc:304-316 | from the start of the unlocked scan to the return of a registered caller, no step of any thread writes a slot up to the caller's own, and only a stop out of order ends a thread running in one |
| ThreadLifetimes.ElidedWindowIsStable | web/web_thread_impl.cc:309-316 | from the end of the scan to the return of a post without the lock, no step of any thread writes a slot it may read or stops a thread it may post to |
| ThreadLifetimes.DisturbedCallerIsUnregistered | web/web_thread_impl.cc:460-466 | if a slot is written just as a scan is about to read it, the caller has no message loop or its loop was not registered |
| ThreadLifetimes.UnregisteredScanIsDisturbed | web/web_thread_impl.cc:460-466 | for such callers there are runs in which that happens |
| ThreadLifetimes.RegisteredCallerFindsItself | web/web_thread_impl.cc:304-307 | a registered caller scans no slot past the least id of its loop, and skips the lock if and only if that id is not before the target |
| ThreadLifetimes.ScanFollows | web/web_thread_impl.cc:460-468 | each step of the scan leads to the end that the slots as they are determine |
| ThreadLifetimes.SkipsLockIffLeastIsBehindTarget | web/web_thread_impl.cc:304-307 | that end skips the lock if and only if the least id found is not before the target; without a loop the id found is the least one registered and not running |
| ThreadLifetimes.LatePosts | web/web_thread_impl.cc:309-324 | a late post finds its target being torn down, unless the caller has no loop; with stops in order it has not skipped the lock on behalf of a loop |
| PostRaces.LateIffTargetStopped | web/web_thread_impl.cc:273-330 | whoever posts and in whatever order threads die, a step makes a post late if and only if it stops a thread whose loop a post is about to use |
| PostRaces.RunInTimeIffNoTargetStopped | web/public/web_thread.h:54-59 | a run has no late post if and only if it has no such step |
| PostRaces.ThreeWaysToBeLate | web/web_thread_impl.cc:273-330 | such a post holds the lock, or has skipped it without a message loop, or has skipped it for a thread listed behind the target; the last only if threads stop out of order |
| PostRaces.OnLoopsInTimeIffNoneStoppedUnderLock | web/web_thread_impl.cc:273-330 | with callers on message loops and stops in order, a run has no late post if and only if no thread is stopped whose loop was read under the lock and not used yet |
| PostRaces.ElidedLateIffStoppedEarly | web/web_thread_impl.cc:273-289 | in whatever order threads die, a step makes a post late that skipped the lock for a message loop if and only if it stops its target between read and enqueue |
| PostRaces.ElidedInTimeIffNoneStoppedEarly | web/web_thread_impl.cc:273-289 | a run has no such late post if and only if it has no such stop |
| PostRaces.CallerWithoutLoopCanBeLate | web/web_thread_impl.cc:304-307 | a run in which a caller without a message loop skips the lock and posts to a thread that is gone |
| PostRaces.CheckAtDeregistrationIsTooLate | web/web_thread_impl.cc:273-289 | a run that deregisters in order, but in which a registered caller posts without the lock to a thread stopped meanwhile |
| PostRaces.LockDoesNotKeepTargetRunning | web/web_thread_impl.cc:273-281 | runs of both forms in which the target is stopped between being read under the lock and being posted to |
| PostedTasks.RunKeepsLog | web/public/web_thread.h:98-101 | in any run the tasks handed over are those of the calls settled as true, each once and for the target of its call |
| PostedTasks.RunKeepsLoops | web/public/web_thread.h:98-101 | in any run every task has been handed to a loop its target has been running on |
| PostedTasks.TrueIffEnqueuedOnce | web/public/web_thread.h:98-101 | a call returns true if and only if its task has been handed over, once, for its target and to a loop the target has had |
| PostedTasks.TrueIffTargetHadLoop | web/public/web_thread.h:98-101 | before it returns a call reads its target's slot once, and it returns true if and only if it then finds a thread with a message loop there; so it returns false if and only if it does not |
| LockHistories.StepIsAtomicUnlessLate | web/web_thread_impl.cc:292-330 | a step of any form is one atomic post by the caller to its target, a lifetime change or invisible, if and only if it is not a late post |
| LockHistories.LockedRunIsLockable | web/web_thread_impl.cc:309-329 | the always-locking form shows only atomic steps, and late posts with nothing settled or registered since the target was still running, and the caller's thread where it was |
| LockHistories.LatePostLocks | web/web_thread_impl.cc:309-329 | every late post of that kind can be made by the same caller while holding the lock |
| LockHistories.LocksIffLockable | web/web_thread_impl.cc:309-329 | so a history, with the callers, targets and outcomes of all calls, is one of the always-locking form if and only if it consists of such steps |
| LockElision.HistoryLockableIff | web/web_thread_impl.cc:292-330 | the history of a run of any form consists of such steps if and only if nothing is settled or registered between the last time the target of a late post has the loop and the post |
| LockElision.CallerIsNoCondition | web/web_thread_impl.cc:292-330 | the caller's own thread, which stays during its call, is no further condition |
| LockElision.ElisionRefinesLockingIff | web/web_thread_impl.cc:292-330 | one run of the always-locking form shows the whole history of an eliding run, with each call made by the same caller for the same target and returning the same, if and only if each late post is of that kind |
| LockElision.ElisionRefinesLocking | web/web_thread_impl.cc:298-316 | in particular if no thread is stopped whose loop a post is about to use |
| LockElision.ElisionIsUnobservable | web/public/web_thread.h:54-59 | in particular with callers on message loops and stops in order, if none is stopped under the lock |
| LockElision.DisturbedLatePostIsObservable | web/web_thread_impl.cc:298-316 | an eliding run, all callers on message loops and stops in order, that no run of the always-locking form matches |
| WebThreads.WebThreadGlobals.Initialize | web/web_thread_impl.cc:256-263 | fills the thread's own slot and no other |
| WebThreads.WebThreadGlobals.Destroy | web/web_thread_impl.cc:273-289 | stops the thread, empties its slot only, and checks exactly that no later slot is filled |
| WebThreads.WebThreadGlobals.GetCurrentThreadIdentifier | web/web_thread_impl.cc:454-469 | finds the least identifier whose thread runs on the loop, or that there is none |
| WebThreads.WebThreadGlobals.PostTaskHelper | web/web_thread_impl.cc:292-330 | true if and only if the target's slot has a thread with a message loop, which then gains the task as asked for and nothing else changes; the lock is skipped if and only if the caller's least identifier is not before the target |
| WebThreads.WebThreadGlobals.CurrentlyOn | web/web_thread_impl.cc:374-381 | true if and only if the slot's thread runs on the loop; the identifier scanned for is then at or before this one |
| WebThreads.WebThreadGlobals.IsMessageLoopValid | web/web_thread_impl.cc:398-407 | true if and only if the slot has a thread with a message loop |
| WebThreads.WebThreadGlobals.LeastExists | web/web_thread_impl.cc:454-469 | whenever some thread runs on the loop there is a least identifier, at or before it |
| WebThreads.WebThreadGlobals.CallScansLikeTheMachine | web/web_thread_impl.cc:304-307 | the least identifier, and whether the lock is skipped for it, are what the stepwise scan of the same slots arrives at |
| WebThreads.WebThreadGlobals.CallReadsLikeTheMachine | web/web_thread_impl.cc:313-315 | the loop posted to is what the stepwise read of the same slots finds |
| DataSourceDeletion.MovesConserve | web/webui/url_data_manager_ios.cc:72-110 | pushing, swapping, draining and deleting move condemned sources about and neither lose nor double one |
| DataSourceDeletion.StaysPlacedUnlessRevived | web/webui/url_data_manager_ios.cc:72-110 | a step keeps a source in exactly one of the places for unreferenced ones, or out of all, if and only if it does not take a reference to this source while it has none |
| DataSourceDeletion.CountIsBalance | web/webui/url_data_manager_ios.cc:63-93 | after any run the count of a source is the number of references taken to it less those given up, by the steps made |
| DataSourceDeletion.CondemnedIffGivenUp | web/webui/url_data_manager_ios.cc:86-110 | in any run a source has got into the places for unreferenced ones, deletion included, exactly as often as the last of those references has been given up; so never before |
| DataSourceDeletion.StepKeepsInvUnlessReviving | web/webui/url_data_manager_ios.cc:72-110 | a step keeps the invariant (each unreferenced source in exactly one place) if and only if it does not take a reference to an unreferenced source |
| DataSourceDeletion.RunKeepsInv | web/webui/url_data_manager_ios.cc:72-110 | the invariant holds throughout every run in which nothing is revived |
| DataSourceDeletion.DeletedAtMostOnce | web/webui/url_data_manager_ios.cc:72-110 | a source never revived, whatever happens to others, is deleted at most once and listed at most once; referenced, listed, being drained and deleted exclude each other for it |
| DataSourceDeletion.DeletedInOrder | web/webui/url_data_manager_ios.cc:72-110 | sources are deleted in the order in which they were scheduled: those scheduled in a run are those deleted from the list, those being drained and those listed, in this order |
| DataSourceDeletion.ScheduledStaysUnreferenced | web/webui/url_data_source_ios_impl.cc:29-42 | from its listing on, a source not revived before stays unreferenced to the end of the run if and only if no response for it was half sent at the time; nothing is asked of other sources or of callers |
| DataSourceDeletion.StaysProtected | web/webui/url_data_source_ios_impl.cc:29-42 | the step of that: an unreferenced source past its push and with no response half sent is so after any step, and a response for it changes nothing |
| DataSourceDeletion.ListedGetsNoResponse | web/webui/url_data_source_ios_impl.cc:29-42 | from its listing on, if no response for it was half sent, a response for the source changes nothing and no step revives it |
| DataSourceDeletion.WakeupIsNeverLost | web/webui/url_data_manager_ios.cc:97-109 | a nonempty list means that a deletion task is queued or about to be posted, also when deletion is forced early, unless posting one has failed since the list was last swapped out |
| DataSourceDeletion.WakeupsAddUp | web/webui/url_data_manager_ios.cc:105-109 | each wake-up posted is queued until it is run, once |
| DataSourceDeletion.GetsStuckIffWakeupLost | web/webui/url_data_manager_ios.cc:97-109 | a step leaves sources listed with no task queued or about to be posted, when it was not so before, if and only if it is the failure of the one post that was due |
| DataSourceDeletion.NeverStuckIffNoWakeupLost | web/webui/url_data_manager_ios.cc:97-109 | a run is never in that state if and only if no such post fails |
| DataSourceDeletion.OnlyForceDeleteHelps | web/webui/url_data_manager_ios.cc:102-109 | with sources listed and no task queued or about to be posted, a step leaves it so if and only if it is not a call of DeleteDataSources from outside |
| DataSourceDeletion.StuckUntilForced | web/webui/url_data_manager_ios.cc:102-109 | and so does any run without such a call: what is listed stays listed |
| DataSourceDeletion.FailedPostIsNotMadeUpFor | web/webui/url_data_manager_ios.cc:105-109 | a run that gets there, by one post that fails |
| DataSourceDeletion.QuiescentMeansDeleted | web/webui/url_data_manager_ios.cc:72-110 | when nothing is queued or under way and no post has failed since the last swap, the list is empty and a source that is unreferenced and was never revived has been deleted |
| DataSourceDeletion.SendStaysSafeIffGuarded | web/webui/url_data_source_ios_impl.cc:29-46 | the source responded for is still referenced after a step if and only if the step does not give up its last reference behind the check, nor ask it to respond while it is dying and not listed |
| DataSourceDeletion.GuardedIsNeverRevived | web/webui/url_data_source_ios_impl.cc:29-46 | a source whose callers keep to that is never revived, whatever the callers of others do, in runs that have ended or not |
| DataSourceDeletion.NeverRevivedIffGuarded | web/webui/url_data_source_ios_impl.cc:29-46 | a run that ends with no response for a source half sent never revives it if and only if its callers keep to that |
| DataSourceDeletion.UnguardedSendDeletesTwice | web/webui/url_data_source_ios_impl.cc:29-46 | a run in which the check passes, the last reference goes, and the source is deleted twice |
| DataSources.URLDataManagerIOS.DeleteDataSources | web/webui/url_data_manager_ios.cc:72-83 | deletes exactly what was listed, in order, and leaves the list empty |
| DataSources.URLDataManagerIOS.DeleteDataSource | web/webui/url_data_manager_ios.cc:86-110 | on the UI thread deletes at once, elsewhere lists the source at the end and posts a task if and only if the list was empty |
| DataSources.URLDataManagerIOS.IsScheduledForDeletion | web/webui/url_data_manager_ios.cc:127-134 | true if and only if the source is listed |
| DataSources.URLDataManagerIOS.SendResponse | web/webui/url_data_source_ios_impl.cc:25-47 | posts one response unless the source is listed, and then changes nothing |
| DataSources.DeleteIsPushAndPost | web/webui/url_data_manager_ios.cc:95-109 | the push and the post of the state machine have the effect of the whole call |
| DataSources.DeleteAllIsSwapAndDrain | web/webui/url_data_manager_ios.cc:72-83 | the swap and the single deletions of the state machine have the effect of the whole call |
| CookieSets.CoarseIsTotal | net/cookies/cookie_cache.cc:56-66 | the comparator is antisymmetric, and cookies are equivalent under it if and only if domain, path and name are equal |
| CookieSets.FineIsTotal | net/cookies/cookie_cache.cc:68-80 | the same with the value as well |
| CookieSets.CoarseIsTransitive | net/cookies/cookie_cache.cc:56-66 | the comparator is transitive |
| CookieSets.CoarseIsLexicographic | net/cookies/cookie_cache.cc:56-66 | the comparator goes by domain first, then by path, then by name |
| CookieSets.StringLessIffDiffers | net/cookies/cookie_cache.cc:59-64 | strings are compared at the first place where they differ, by the smaller character or the end of the first |
| CookieSets.FineIsTransitive | net/cookies/cookie_cache.cc:68-80 | the comparator is transitive |
| CookieSets.FineRefinesCoarse | net/cookies/cookie_cache.cc:56-80 | one order refines the other, by value among cookies of one key |
| CookieSets.SetIsSortedFinely | net/cookies/cookie_cache.cc:29-39 | a set sorted by one comparator may be differenced with the other |
| CookieSets.InsertedIsSet | net/cookies/cookie_cache.cc:34 | insertion keeps the set sorted and adds the cookie just when its key is new |
| CookieSets.SetOfKeepsFirst | net/cookies/cookie_cache.cc:27 | the set built from a vector has exactly the first cookie of each key |
| CookieSets.MinusMembers | net/cookies/cookie_cache.cc:29-39 | the specified difference has exactly the cookies whose 4-tuple the other set lacks |
| CookieSets.SetDifference | net/cookies/cookie_cache.cc:32-39 | the merge with the finer comparator into a coarsely sorted set loses nothing: it yields that difference |
| CookieCaching.DeltasAreExact | net/cookies/cookie_cache.cc:29-42 | new is old without the removed plus the added; removed and added are disjoint, and both empty if and only if the sets have the same 4-tuples |
| CookieCaching.CookieCache.Update | net/cookies/cookie_cache.cc:20-54 | true if and only if the 4-tuples differ; the cached set is replaced by the new one then and else left as it is, and so are other keys; the vectors appended to, also where both are one vector or null |
| CookieCaching.CookieCache.Overwrite | net/cookies/cookie_cache.cc:25-44 | the part of it that has to do with the cache |
| CookieCaching.ReplayYieldsLastCookies | net/cookies/cookie_cache.h:29-42 | over any run, one key's reports replayed yield its cached set, which is that of its last cookies; other keys do not interfere |
| CookieCaching.CachedByLastChange | net/cookies/cookie_cache.cc:41-44 | over any run the cookies cached for a key, with all their attributes, are those of the last call for it that reported a change |
| CookieCaching.RunKeepsSets | net/cookies/cookie_cache.cc:25-44 | every set ever cached is sorted with one cookie a key |
| PromoPrefs.IntToStringInjective | chrome/browser/notification_promo.cc:152 | no two promo ids share a preference key |
| PromoPrefs.IntToStringIsDecimal | chrome/browser/notification_promo.cc:152 | the key is the decimal numeral of the id |
| PromoPrefs.WrittenLayout | chrome/browser/notification_promo.cc:145-152 | what is written, by the names of its entries |
| PromoPrefs.LoadedLayout | chrome/browser/notification_promo.cc:171-178 | what is read of an entry, by the names: each value if it is there and of the right type |
| PromoPrefs.MigrationIsIdempotent | chrome/browser/notification_promo.cc:181-221 | migration leaves no old list, and migrating again changes nothing |
| PromoPrefs.MigrationKeepsTheRecord | chrome/browser/notification_promo.cc:187-220 | a well-formed old record becomes the only entry, with its values; empty prefs remain if and only if the old list is malformed |
| PromoPrefs.MigrationKeepsTheValues | chrome/browser/notification_promo.cc:201-220 | all of what a migration leaves of an old record, by the names of its entries |
| PromoPrefs.ReadsBack | chrome/browser/notification_promo.cc:141-179 | what was written is what a fresh object reads, except for the id -1 |
| PromoPrefs.WriteIsLocal | chrome/browser/notification_promo.cc:141-155 | writing leaves every other promo's entry and the old list as they were; while an old list is there the write is lost at the next migration |
| NotificationPromos.NotificationPromo.WritePrefs | chrome/browser/notification_promo.cc:141-155 | the preference gains or replaces just the entry of the id |
| NotificationPromos.NotificationPromo.MigrateOldPrefs | chrome/browser/notification_promo.cc:181-221 | the preference becomes the migrated one, by all five exits |
| NotificationPromos.NotificationPromo.InitFromPrefs | chrome/browser/notification_promo.cc:157-179 | migrates, then loads the id's entry field by field over what the object had |
| NotificationPromos.NotificationPromo.CanShow | chrome/browser/notification_promo.cc:223-256 | true if and only if open, with a text, strictly between start and end, with fewer views than the cap if there is one, and not past the time after the first view if there are both |
| NotificationPromos.NotificationPromo.HandleClosed | chrome/browser/notification_promo.cc:230-234 | writes the record as closed unless the object holds it closed already |
| NotificationPromos.NotificationPromo.HandleViewed | chrome/browser/notification_promo.cc:236-243 | writes one more view, and the time only if there was none |
| NotificationPromos.ViewCallIff | chrome/browser/notification_promo.cc:223-256 | in any run HandleViewed is called exactly if that holds of the server's settings and the record the session began with |
| NotificationPromos.SessionChangesItsRecord | chrome/browser/notification_promo.cc:157-243 | a session, migration included, changes its own promo's record only, and that to the effect of its last effective action |
| NotificationPromos.ViewsAreCapped | chrome/browser/notification_promo.cc:223-243 | over any sessions of any promos, with views gated by CanShow and one handler call a session (or none with an effect after a view), HandleViewed is called no more often than the cap says |
| NotificationPromos.RecordedViewsAreCapped | chrome/browser/notification_promo.cc:245-247 | over any sessions of any promos the record counts the sessions that have recorded a view, and never beyond the cap |
| NotificationPromos.RecordsAllViewsIffViewEndsSession | chrome/browser/notification_promo.cc:236-243 | a session records at most one view, and as many as there were calls if and only if nothing has an effect after a view |
| NotificationPromos.RecordCountsViewsIff | chrome/browser/notification_promo.cc:236-243 | over a run the record counts the calls of HandleViewed if and only if that holds of every session of the promo; otherwise there were more |
| NotificationPromos.TwoViewsInOneSession | chrome/browser/notification_promo.cc:236-247 | a session that views a promo more often than its cap, and records one view |
| NotificationPromos.ViewThenCloseIsNotRecorded | chrome/browser/notification_promo.cc:230-243 | a session that views a promo and records none |
| NotificationPromos.FirstViewTimeNeverChanges | chrome/browser/notification_promo.cc:236-243 | a nonzero first view time that a session starts with is kept by it and all later sessions |
| NotificationPromos.NextActionKeepsTimeIff | chrome/browser/notification_promo.cc:230-243 | within a session the next effective action keeps a time once stored if and only if the object started with one, or the promo is viewed again at that very time |
| NotificationPromos.SecondViewOverwritesTime | chrome/browser/notification_promo.cc:236-243 | a session whose second view overwrites the time of the first |
| NotificationPromos.ClosedForGood | chrome/browser/notification_promo.cc:223-234 | a closed promo keeps its record and no later session can show it |
| NotificationPromos.ClosesIffLastActionDoes | chrome/browser/notification_promo.cc:230-243 | a session closes an open promo if and only if the last of its effective actions is a close |
| NotificationPromos.ViewsIffLastActionDoes | chrome/browser/notification_promo.cc:236-243 | a session records a view if and only if the last of its effective actions is a view |
| NotificationPromos.CloseThenViewReopens | chrome/browser/notification_promo.cc:230-243 | a session whose close is undone by its view |
| NotificationPromos.NoIdNoCap | chrome/browser/notification_promo.cc:162-164 | without an id every session can view the promo again, over any number of them |
| QueryStrings.ValueRoundTrip | chrome/common/x_callback_url_unittest.cc:73-82 | a value escaped and unescaped is itself if and only if each of its bytes is decoded, if escaped at all |
| QueryStrings.KeyRoundTrip | chrome/common/x_callback_url.cc:87-92 | an escaped key, which is not unescaped, is itself if and only if none of it is escaped |
| QueryStrings.EscapeInjective | chrome/common/x_callback_url.cc:71-75 | no two keys are escaped to the same |
| QueryStrings.PercentSigns | chrome/common/x_callback_url_unittest.cc:67-82 | a space is written as a plus sign, and a separator as a percent sign with two capital hexadecimal digits |
| QueryStrings.EscapeBetweenWords | chrome/common/x_callback_url_unittest.cc:67-82 | words of unreserved characters are left as they are, and what is between them is replaced |
| QueryStrings.QueryOfTwo | chrome/common/x_callback_url_unittest.cc:73-82 | a query of two parameters, spelled out |
| QueryStrings.PartWithoutValue | chrome/common/x_callback_url.cc:87-92 | a part without an equals sign is a key with an empty value |
| QueryStrings.PartWithValue | chrome/common/x_callback_url.cc:87-92 | in another one the key ends at the first of them |
| QueryStrings.FirstPair | chrome/common/x_callback_url.cc:87-92 | one step of the iterator: the pair up to the first separator, then the rest |
| QueryStrings.PairsOfAppended | chrome/common/x_callback_url.cc:57-75 | appending one parameter adds one escaped pair at the end of what is read |
| QueryStrings.PairsOfAllAppended | chrome/common/x_callback_url.cc:57-76 | reading yields what the query started with and then all that was appended |
| Urls.ParseAuthority | chrome/common/x_callback_url.cc:23-37 | how a URL with an authority splits: of a standard one into host, lower-cased and without user and port, path and query, and it is invalid without a host or with a port that is none; a file URL takes neither user nor port, and a filesystem URL no authority; of another one into path and query |
| Urls.HostAndPort | chrome/common/x_callback_url.cc:26-27 | of an authority with a user and a port, the host is what is between them, in lower case, and the port is what it is valid by |
| Urls.PortIsDecimal | chrome/common/x_callback_url.cc:23 | ports are decimal numbers up to 65535 |
| XCallbackUrls.IsXCallbackIffAuthority | chrome/common/x_callback_url.cc:22-38 | a standard URL is an x-callback-url if and only if its authority is one for its scheme and its host, whatever the case, is that name; another one with "//" if and only if its authority is |
| XCallbackUrls.IsXCallbackIffFirstSegment | chrome/common/x_callback_url.cc:29-37 | one without, of a scheme that is not standard, if and only if the first segment of its path is that name |
| XCallbackUrls.CreatedIsXCallback | chrome/common/x_callback_url.cc:54-79 | the URL created for a valid scheme is a valid x-callback-url, but for the filesystem scheme, for which it is not valid at all |
| XCallbackUrls.CreateXCallbackURLWithParameters | chrome/common/x_callback_url.cc:46-80 | the query is that of the action with the valid callbacks and then the parameters appended; the closing check holds if and only if the scheme is valid and not the filesystem one |
| XCallbackUrls.CreatedParts | chrome/common/x_callback_url.cc:54-55 | scheme, host and path of a created URL, spelled out |
| XCallbackUrls.OwnQueryAfterQuestionMark | chrome/common/x_callback_url.cc:54-55 | the query that an action brings along is what follows its first question mark |
| XCallbackUrls.CallbacksComeFirst | chrome/common/x_callback_url.cc:57-76 | the parameters appended are the valid callback URLs, in the order and under the names of success, error and cancel, and then the caller's |
| XCallbackUrls.CallbackIsReadUnderItsName | chrome/common/x_callback_url.cc:57-95 | with an action without a query, each valid callback URL is extracted under its own name; without one nothing is there under that name unless the caller has given it as a parameter |
| XCallbackUrls.ExtractQueryParametersFromXCallbackURL | chrome/common/x_callback_url.cc:82-95 | collects the iterator's pairs with unescaped values, the first of a key staying |
| XCallbackUrls.ParamsRoundTrip | chrome/common/x_callback_url.cc:72-92 | parameters are read back as written if and only if no key is escaped and all values are decoded |
| XCallbackUrls.CollectedConcat | chrome/common/x_callback_url.cc:88-92 | of two lists of pairs inserted one after the other the first overrides the second |
| XCallbackUrls.ExtractCreated | chrome/common/x_callback_url.cc:46-95 | for any action, what is extracted is the appended parameters as read back, overridden by the query the action brought along |
| XCallbackUrls.ExtractUndoesCreate | chrome/common/x_callback_url.cc:46-95 | for any action, extracting yields the caller's map overridden by the valid callback URLs and the action's own query, if and only if each parameter has a key that is not escaped and a value that is decoded, or is overridden along with what is read in its place |
| XCallbackUrls.ExtractUndoesCreateForPlainActions | chrome/common/x_callback_url.cc:46-95 | if no key in the action's own query has characters that are escaped, that is so if and only if every parameter not overridden has such a key and value |
| CertPolicies.CoversIffNonemptyWithin | web/net/cert_policy.cc:25-26 | the 32-bit mask expression holds if and only if the errors are nonzero and each flag of them is among the saved ones |
| CertPolicies.CertPolicy.Check | web/net/cert_policy.cc:20-30 | ALLOWED if and only if the certificate is saved and the errors are a nonempty part of the saved ones, else UNKNOWN |
| CertPolicies.CertPolicy.Allow | web/net/cert_policy.cc:32-37 | the status saved for the certificate is replaced |
| CertPolicies.CertificatePolicyCache.At | web/net/certificate_policy_cache.cc:22 | operator[]: inserts an empty policy for a new host and shares none between hosts |
| CertPolicies.CertificatePolicyCache.AllowCertForHost | web/net/certificate_policy_cache.cc:18-23 | the host's policy, found or inserted, gains the status; no other host's changes |
| CertPolicies.CertificatePolicyCache.QueryPolicy | web/net/certificate_policy_cache.cc:25-31 | answers from the policies before, and inserts an empty one for a new host |
| CertPolicies.CertificatePolicyCache.ClearCertificatePolicies | web/net/certificate_policy_cache.cc:33-36 | forgets every host |
| CertPolicies.SavedIffGoverned | web/net/certificate_policy_cache.cc:18-36 | after any history a status is saved for a host and certificate if and only if it is that of the last allow for them since the last clear |
| CertPolicies.AllowedIffWithinLastAllowed | web/net/certificate_policy_cache.cc:18-36 | after any history a query is ALLOWED if and only if the errors are nonzero and within those of that last allow; it is never DENIED |
| CertPolicies.QueriesAreUnobservable | web/net/certificate_policy_cache.cc:25-31 | a query taken out of any history changes no later answer |
| BookmarkFolders.VisibleFoldersExact | chrome/browser/bookmarks/bookmarks_utils.cc:64-68 | the selection among a node's children has exactly the visible folders, none twice |
| BookmarkFolders.BookmarkModel.PrimaryPermanentNodes | chrome/browser/bookmarks/bookmarks_utils.cc:47-54 | the mobile, bookmark bar and other nodes, in that order |
| BookmarkFolders.BookmarkModel.RootLevelFolders | chrome/browser/bookmarks/bookmarks_utils.cc:56-71 | no duplicates, and exactly the nodes of the tree that are visible folders right under a permanent node, in the order of the children |
| BookmarkFolders.BookmarkModel.RootLevelFolderForNode | chrome/browser/bookmarks/bookmarks_utils.cc:82-97 | terminates with the only root-level folder that is the node or above it, or null if there is none |
| BookmarkFolders.BookmarkModel.AnswerOfParent | chrome/browser/bookmarks/bookmarks_utils.cc:91-95 | a node that is not itself a root-level folder has the answer of its parent |
| BookmarkFolders.BookmarkModel.FolderIsItsAnswer | chrome/browser/bookmarks/bookmarks_utils.cc:91-96 | a root-level folder is its own answer: none is inside another |
| BookmarkFolders.BookmarkModel.FolderIsAnswerOfItsSubtree | chrome/browser/bookmarks/bookmarks_utils.h:60-64 | all that is in a root-level folder has it for its answer and no other |
| TimeSmoothing.TimeSmoother.GetSmoothedTime | web/navigation/time_smoother.cc:10-23 | a time within the marks raises the high mark by one and yields it, any other resets both |
| TimeSmoothing.CallExtendsSequence | web/navigation/time_smoother.cc:10-23 | a call on the object is one more element of its call sequence |
| TimeSmoothing.OutputsAreConsecutive | web/navigation/time_smoother.cc:14-17 | without a reset in between, outputs are consecutive microseconds |
| TimeSmoothing.ExcessIsBounded | web/navigation/time_smoother.cc:10-23 | an output is not before its input, and after it by at most the number of adjusted calls since the last reset |
| TimeSmoothing.ExcessBeforeReset | web/navigation/time_smoother.cc:10-23 | the same before the first reset, counting from the initial marks |
| TimeSmoothing.NextOutputIncreases | web/navigation/time_smoother.cc:14-22 | an output exceeds the one before if and only if its input is not before the low mark |
| TimeSmoothing.OutputsIncreaseIff | web/navigation/time_smoother.cc:10-23 | all outputs of a run are strictly increasing if and only if no input is before the low mark of its time |
| TimeSmoothing.NondecreasingTimesIncrease | web/navigation/time_smoother.h:12-13 | inputs that never decrease come out strictly increasing |
| TimeSmoothing.OutputsAreEarliest | web/navigation/time_smoother.h:20-21 | and no strictly increasing sequence of times not before the inputs has an earlier element |
| TimeSmoothing.OutputsAreLeast | web/navigation/time_smoother.h:20-21 | for inputs that never decrease, the outputs are the least strictly increasing sequence of times not before the inputs |

## Left out

- The order T::LessThan of the memoizing store: an item has a rank instead, equal for equivalent items.
- ItemTable.DeadIdNeverReturned: bounded by the 2^32-1 ids there are, since with more the counter comes round again; what `Store` does then is stated by its own contract.
- Locks of classes that hold theirs for a whole method (the memoizing store): such methods run one at a time, so the model has no lock for them.
- base::Thread and base::MessageLoop beyond starting, stopping and taking tasks: a task handed over is an entry of the log; what becomes of tasks on a stopped loop is not modelled.
- WebThreads.WebThreadGlobals.PostTaskHelper: describes a call on its own; interleaved calls are the subject of ThreadLifetimes and LockElision.
- Memory a caller without a registered thread may read while scanning slots: the step reads the slots as they are at that moment, and a late post stands for the use of a dead loop.
- The lazily created globals of web/web_thread_impl.cc, thread delegates, the blocking pool, task runners and call-stack markers.
- Destructors of data sources that call SendResponse on other sources, and SendResponse off the UI thread.
- The IO thread's backend and what responses contain: a posted response is a source.
- Attributes of cookies that neither comparator looks at, other than that a cached cookie keeps the ones it came with.
- Rounding of base::Time and double: times are real numbers in the promo model and integers in the time smoother, without the saturation of base::Time or a largest value.
- NotificationPromos.NotificationPromo.CanShow: reads the clock once, where the code reads it up to three times.
- InitFromVariations, InitFromJson, IsPayloadParam and time strings: a promo's settings are a parameter.
- Splitting of preference paths at dots: no key used has one; and the width of int in promo ids and view counts.
- URL canonicalization other than of scheme, host and port: escaping within paths, spaces and the fragment; callback URLs are given by their specs.
- The escape tables of net/base/escape.h, which is not part of this model: they are a parameter, of which only what a query needs and what the unit test shows is assumed.
- QueryStrings.ValueRoundTrip: takes each byte to be decoded on its own; a library rule that leaves certain sequences of bytes undecoded is not modelled.
- XCallbackUrls.IsXCallbackIffAuthority: leaves out standard URLs whose server is a number or has escapes, brackets, backslashes, tildes or characters to be mapped to ASCII, which GURL rewrites before the host is looked at.
- XCallbackUrls.IsXCallbackIffFirstSegment: is about schemes that are not standard, since a standard URL without "//" is not canonical.
- XCallbackUrls.CreateXCallbackURLWithParameters: says nothing of IsXCallbackURL for a scheme text that has a colon in it.
- X.509 certificates: a certificate is the fingerprint of its chain.
- Changes to the bookmark tree, loading, CanBeEditedByUser, histograms and RemoveAllUserBookmarksIOS.
- Components of which only headers are in the repository, Objective-C user interfaces, factories and other plumbing: they would add easy members or none.
