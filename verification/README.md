# Verified models of the site's client code, FreeTDS and the pins ledger

This project models the parts of the repository that carry real invariants and proves what they
promise, for all inputs and over whole runs.

* **jQuery's `Callbacks` and `Deferred`** (in the R1 bundle). A callback is user code that may add,
  remove, fire, empty, lock or disable the very list that is calling it, so the list is a machine that
  stops at every call and resumes when the callback returns; a run is any sequence of events.
  `Callbacks.dfy` is the machine, `CallbackList.dfy` the object with its fields and loops, proved to
  take exactly the machine's steps. `OnceMemory.dfy`, `MemoryList.dfy` and `LockedList.dfy` prove what
  the two kinds of list promise; `FiringLaws.dfy`, `ListLaws.dfy` and `RemovedCalls.dfy` prove what
  every list does, and `EventLaws.dfy` tells a run's calls from its events alone. `Deferred.dfy`,
  `DeferredObject.dfy`, `SettlingList.dfy`, `Attached.dfy` and `DeferredRuns.dfy` couple three lists
  through the closures that set the state, disable the other list and lock progress; `ProgressRuns.dfy`
  says which progress callbacks run.
* **`SOE.Utils.debounce`** (same bundle). `Debounce.dfy` is the timed machine, with the browser's own
  table of pending timers so that a timer whose id is lost would show; `Debouncer.dfy` is the object, and
  `DebounceLaws.dfy` says from the events of a run when a call invokes and what cancel and flush do.
* **Underscore's sorted fast paths and shuffle** (same bundle): `Sorted.dfy`, `Shuffle.dfy`.
* **FreeTDS's intrusive ring list**: `RingList.dfy` is the heap of `next`/`prev` pairs, any number of
  lists at once; `RingHistory.dfy` proves that whole histories of pointer operations refine plain
  sequences.
* **FreeTDS's checked mutex**: `CheckedMutex.dfy` is the machine, one C statement a step, any number of
  threads, any interleaving; `MutexCode.dfy` has the C functions as methods on the three fields.
* **The VMS argument translator**: `VmsKeywords.dfy`, `VmsDate.dfy`, `VmsPattern.dfy`, `VmsYear.dfy`,
  `VmsQuote.dfy` and `VmsUnquote.dfy` for its string routines, `VmsArgs.dfy` and `VmsArgv.dfy` for the
  main loop and its fixed array of slots. `KeywordLaws.dfy`, `DateLaws.dfy`, `QuoteLaws.dfy` and
  `VmsArgLaws.dfy` say the same of the texts themselves, without the functions the loops compute.
* **Capability bits and byte order** (`Bits.dfy`, `Capability.dfy`, `ByteOrder.dfy`, `ByteSwap.dfy`), and
  **the pins ledger** of the site (`Ledger.dfy`, and `LedgerLaws.dfy` field by field).
  `Sequences.dfy` and `Wrappers.dfy` are shared helpers.

Several promises hold only under a condition. Each is proved as an equivalence, or with a concrete
run that breaks it:

* `empty()` on a "once memory" list is harmless if, during a firing, no callback of it is still in front
  of the next index, or, between firings, the list is not disabled or nobody has asked it to fire. For
  a list that has fired, the addition right after an `empty` is lost if and only if it was not harmless
  (`OnceMemory.EmptyLosesNextAddition`); for one that has not, such an `empty` revives a list that has
  refused a fire, and what is added then gets a later fire's arguments
  (`OnceMemory.EmptyForgetsFirstFire`). For a "memory" list see `MemoryList.EmptyLosesFromRound`.
* `flush()` leaves the time of the last call alone, so a call soon after an early flush stores its
  arguments and arms no timer (`Debounce.EarlyFlushStrandsNextCall`). The other debounce laws therefore
  ask that flushes are late: no timer armed, or the wait over.
* Debounced invocations are spaced by the wait exactly for the options that `Debounce.SpacingExactly`
  names.
* `uniq` with the sorted flag agrees with the membership test exactly when equal keys stand together
  (`Sorted.SortedPathExactly`).
* A thread that does not hold the mutex can pass `tds_mutex_check_owned` on its own stale id, in the
  moment between another thread's two writes (`CheckedMutex.StaleIdPasses`), and at no other moment of
  any run (`CheckedMutex.StrayCheckPassesOnlyUnsigned`).
* A separator row with exactly one value does not push it; it ends up in front of the next value of
  the table (`VmsArgs.StackedRowExactly`). `newargv` has 255 slots and the counter is only stopped
  above 255, so 254 arguments fit (`VmsArgv.ParsePlain`).
* Quoting is injective exactly for the settings that are not ambiguous, with or without doubling
  (`VmsUnquote.InjectiveExactly`), although the branch for quotation marks adds no closing one
  (`VmsUnquote.NoticedIsUnbalanced`) and the special-character test can hide a quotation mark
  (`VmsUnquote.NoticedFirst`). The comment of the routine promises enclosing marks in every protected
  case; the model follows the code.
* Line 544 of the date routine terminates the two-digit year one cell too late. The cursor follows the
  text exactly when the cell before it happens to hold a terminator or the pattern does not ask for that
  year (`VmsYear.InStepExactly`), and the text is as meant for every date exactly when the cell does, or
  every two-digit year is directly followed by a character that overwrites it (`VmsYear.MeantExactly`).
* The redirect for a package outside 1..8 does not return, so Ruby's negative indices -9..-1 buy the
  entry they reach; the ledger's laws hold for those too.

## Model

| member | source | states |
|---|---|---|
| OnceMemory.EachAdditionOnce | app/assets/javascripts/R1.js:95 | in every run of a "once memory" list, with callbacks adding, removing, firing, locking and disabling at any moment: calls come in order of addition, none twice, each with the first fire's arguments; between firings every addition not removed has been called, whether it came before, during or after the fire; nothing is called before the first fire |
| OnceMemory.LaterFiresDoNothing | app/assets/javascripts/R1.js:95 | after the first fire, another fire leaves every state that any run of any "once" list can reach exactly as it is |
| OnceMemory.EmptyLosesNextAddition | app/assets/javascripts/R1.js:95 | once the list has fired, an addition right after `empty` is called if and only if that `empty` was harmless; the guard can be read off before the call |
| OnceMemory.EmptyForgetsFirstFire | app/assets/javascripts/R1.js:95 | before the list has fired, what is added right after `empty` is called by the next fire, and with the first fire's arguments, whatever that fire's are, if and only if that `empty` was harmless |
| OnceMemory.RemoveKeepsPlace | app/assets/javascripts/R1.js:95 | the index adjustments of `remove` never skip or repeat a survivor: what is still to be called is what was still to be called, less the removed callback |
| OnceMemory.RemovedOnRequest | app/assets/javascripts/R1.js:95 | an addition only ever leaves the list by a `remove` that names its function or by `empty`, `disable` or `lock` |
| RemovedCalls.RemovedNeverCalled | app/assets/javascripts/R1.js:95 | on a list of any kind, in any run and any continuation of it: an addition that has been removed is not called from then on, and calls already made stay |
| ListLaws.RemoveRemoves | app/assets/javascripts/R1.js:95 | on a list of any kind, firing or not, with any queue and index: `remove` of several functions leaves exactly the entries of other functions, in order, counts exactly the others as removed, leaves of the pending entries those of other functions, and changes nothing else |
| ListLaws.RemovedFunctionsAreNotCalled | app/assets/javascripts/R1.js:95 | in every run of every kind of list and every continuation of it: a function named by a `remove` is not called after it, unless it is added again |
| ListLaws.EmptyDropsAll | app/assets/javascripts/R1.js:95 | in every run and continuation: nothing added before an `empty` is called after it |
| ListLaws.DisabledForGood | app/assets/javascripts/R1.js:95 | once disabled, nothing is called and nothing is added in any continuation without `empty` |
| ListLaws.WhatDisables | app/assets/javascripts/R1.js:95 | `disable` always disables; `lock` does exactly when nothing is remembered, and otherwise only drops the stack |
| ListLaws.UniqueHoldsOnce | app/assets/javascripts/R1.js:95 | a `unique` list holds no function twice, in any run |
| FiringLaws.FireCallsAll | app/assets/javascripts/R1.js:95 | firing an idle list of any kind that is open or was never fired calls exactly its functions, in order, each once, with the arguments, and then it is idle again: with the same list if it is open, cleared if it has no stack and remembers, disabled if it has none and remembers nothing |
| FiringLaws.FiringRunsOut | app/assets/javascripts/R1.js:95 | at any moment of a firing of an open list, as callbacks return: the rest of the round is called with its arguments, then the whole list once for each waiting fire, in their order, and nothing else; then it is idle |
| FiringLaws.FireWaits | app/assets/javascripts/R1.js:95 | a fire during a firing gets its round, over the whole list, after all fires that waited before it |
| FiringLaws.LastFiringRunsOut | app/assets/javascripts/R1.js:95 | the firing of a list without a stack calls the rest of the round and then clears the list, or disables it if nothing is remembered |
| FiringLaws.AddGoesBehind | app/assets/javascripts/R1.js:95 | an addition to a list that is not `unique` stands behind the others; during a firing it is called in the same round, after what is still to be called; on an idle list that remembers nothing, nothing is called |
| FiringLaws.AddCallsNew | app/assets/javascripts/R1.js:95 | an addition to an idle list that remembers a fire calls exactly the new functions, in order, each once, with the remembered arguments |
| FiringLaws.FalseStops | app/assets/javascripts/R1.js:95 | a false result on a `stopOnFalse` list drops the rest of the round and forgets its arguments; the waiting fires get their rounds, and a list without a stack is disabled; other lists do not look at results |
| FiringLaws.NothingWaits | app/assets/javascripts/R1.js:95 | in every run of every list no fire waits between firings, and a disabled list has no stack |
| EventLaws.WorkingRun | app/assets/javascripts/R1.js:95 | told from the events: on a "memory" or "once memory" list that nobody disables, nor locks before it was fired, the additions are exactly the functions of all `add` events and it has fired exactly if some event fired it, an empty list included |
| EventLaws.RemovedIsNamed | app/assets/javascripts/R1.js:95 | in such a run an addition only goes by a later `remove` event that names its function or a later `empty` |
| EventLaws.OnceCallsAll | app/assets/javascripts/R1.js:95 | told from the events: a "once memory" list that is fired, not disabled and not locked before, with harmless empties, calls each function of every `add`, before, during or after the firing, exactly once, in order, with the first fire's arguments, but for those a later `remove` names or a later `empty` drops, and calls nothing else |
| OnceMemory.StepKeeps | app/assets/javascripts/R1.js:95 | each of the seven events keeps the whole history invariant: order, arguments, nothing lost, nothing pending that was called |
| OnceMemory.RunKeeps | app/assets/javascripts/R1.js:95 | the history invariant holds after every run whose `empty` calls are harmless |
| MemoryList.EveryFireGetsItsRound | app/assets/javascripts/R1.js:95 | on a "memory" list, with adds, removes, locks, disables and harmless empties at any moment: each accepted fire in turn gets a round, which begins at an event of the run; between where a round begins and where the next one does, or now, exactly its calls are made, in the order of addition, with its fire's arguments, none removed before it began; a round that another follows, and the last one between firings, has called every addition made by then and not removed by then; until a lock or disable the other accepted fires are waiting in order, and between firings none is |
| MemoryList.StepKeeps | app/assets/javascripts/R1.js:95 | each of the seven events keeps the rounds there are, begins new ones only at a fire or a return and where the step began, and keeps the queue of waiting fires, the remembered arguments and the list's completeness in line |
| MemoryList.EmptyLosesFromRound | app/assets/javascripts/R1.js:95 | once a "memory" list has fired, whatever is waiting, an addition right after `empty` is called before any waiting fire begins if and only if that `empty` was harmless |
| LockedList.OpenListAccepts | app/assets/javascripts/R1.js:95 | a list with a stack accepts every fire of every run without `lock` and `disable` |
| LockedList.LockDropsWaiting | app/assets/javascripts/R1.js:95 | once a "memory" list that has fired is locked, whatever follows, every further call has the last round's arguments: the fires that were waiting are dropped |
| Callbacks.WithoutMembers | app/assets/javascripts/R1.js:95 | what `remove` leaves is exactly the entries of other functions |
| CallbackLists.CallbackList.IndexOf | app/assets/javascripts/R1.js:95 | `inArray` from an index: the first occurrence at or after it, or -1 when there is none |
| CallbackLists.CallbackList.SpliceAll | app/assets/javascripts/R1.js:95 | the splice loop of `remove` takes out every occurrence of the function, shortens a running loop to the new length, and moves its index back once for every occurrence at or before it |
| CallbackLists.CallbackList.Remove | app/assets/javascripts/R1.js:95 | `remove` of several functions, with all its index bookkeeping, is the machine's step |
| CallbackLists.CallbackList.Add | app/assets/javascripts/R1.js:95 | `add` extends a running loop, or fires only the new part with the remembered arguments |
| CallbackLists.CallbackList.Fire | app/assets/javascripts/R1.js:95 | `fireWith` is refused once fired without a stack or when disabled, queued while firing, and runs up to the first callback otherwise |
| CallbackLists.CallbackList.Return | app/assets/javascripts/R1.js:95 | the running callback's return goes on with the next one, or ends the loop: next queued fire, cleared "once" list or disabled list; a false result stops a `stopOnFalse` list |
| CallbackLists.CallbackList.Empty | app/assets/javascripts/R1.js:95 | `empty` resets list and length and leaves the index |
| CallbackLists.CallbackList.Disable | app/assets/javascripts/R1.js:95 | `disable` drops list, stack and memory together |
| CallbackLists.CallbackList.Lock | app/assets/javascripts/R1.js:95 | `lock` drops the stack, and everything when there is nothing remembered |
| CallbackLists.Drive | app/assets/javascripts/R1.js:95 | the real object, driven through any run of events, makes exactly the calls of the machine's run |
| DeferredRuns.FirstDecides | app/assets/javascripts/R1.js:95 | the first resolve or reject of a run decides, whoever calls what: with no callback running, the state is its outcome, the losing list never ran anything, and the winning list ran the Deferred's three closures and then every function attached to it in the run, before or after, each exactly once, in order, with the winner's arguments |
| Attached.AddedAreAttached | app/assets/javascripts/R1.js:95 | in every run a list that is not disabled was given exactly the Deferred's own closures followed by what user code attached to it, in order |
| DeferredRuns.SettlesOnce | app/assets/javascripts/R1.js:95 | a settled state never changes in any continuation, and no callback of the opposite list ever runs |
| DeferredRuns.SettledIgnoresTriggers | app/assets/javascripts/R1.js:95 | once settled, every later resolve, reject or notify leaves the whole Deferred unchanged |
| DeferredRuns.StepKeeps | app/assets/javascripts/R1.js:95 | every event keeps the coupling of the three lists: undecided, settling by one of the three closures in turn, or decided |
| DeferredRuns.RunKeeps | app/assets/javascripts/R1.js:95 | every run is undecided before the first resolve or reject and settling or decided for it afterwards |
| DeferredRuns.BusyMeansSettling | app/assets/javascripts/R1.js:95 | one of the Deferred's own closures is the running callback exactly while it is settling, so no user callback runs in between |
| DeferredRuns.NoSecondSet | app/assets/javascripts/R1.js:95 | the closure that sets the state never runs when the state is already settled |
| ProgressRuns.NotifiesInRounds | app/assets/javascripts/R1.js:95 | progress callbacks run in rounds, one for each notify made before the first resolve or reject, in order, each beginning at an event of the run: up to where the next one begins, or now, the functions attached to progress are called from the first one on, in order, with the notify's arguments; a round that another follows has called all that were attached by then, and so has the last one while no progress callback runs; while nothing has settled the other notifies are waiting, and with no progress callback running none is |
| ProgressRuns.SettlingDropsWaiting | app/assets/javascripts/R1.js:95 | once settled, whatever happens, no further round begins: every further progress call has the arguments of the last round, and there is none if no notify came before |
| ProgressRuns.AcceptedAreNotifies | app/assets/javascripts/R1.js:95 | the progress list accepts exactly the notifies made before the first resolve or reject |
| DeferredObject.DeferredObject.constructor | app/assets/javascripts/R1.js:95 | a new Deferred: two "once memory" lists with the three closures in front, one "memory" list, pending |
| DeferredObject.DeferredObject.Attach | app/assets/javascripts/R1.js:95 | `done`, `fail` and `progress` take the machine's step on the one list they name |
| DeferredObject.DeferredObject.Trigger | app/assets/javascripts/R1.js:95 | `resolve`, `reject` and `notify` take the machine's step |
| DeferredObject.DeferredObject.Tick | app/assets/javascripts/R1.js:95 | the registered closure sets the state, disables the other list or locks progress, and its list goes on |
| DeferredObject.Drive | app/assets/javascripts/R1.js:95 | the three real lists and the state, driven through any run, reach the machine's state and make its calls |
| Debounce.PendingIsArmed | app/assets/javascripts/R1.js:38-51 | in every run with late flushes: pending arguments have an armed timer, due no later than the last call plus the wait, and there is never a second timer |
| Debounce.LastCallWins | app/assets/javascripts/R1.js:37-50 | with trailing on and no cancel since: the last call's arguments are the ones last passed to the function, or are pending and the armed timer delivers exactly them, however late it fires |
| DebounceLaws.CallInvokesExactly | app/assets/javascripts/R1.js:48-50 | in every run with late flushes a call invokes, at once and with its own arguments, if and only if a timer is pending and late, or none is pending and the leading edge is on; then, and whenever none was pending, a single timer is set for the wait from now; otherwise the log is unchanged, the arguments are pending and the timer stays |
| DebounceLaws.CancelledIsNeverDelivered | app/assets/javascripts/R1.js:45-46 | after a cancel no timer is pending, and in every continuation only the arguments of later calls are invoked |
| DebounceLaws.FlushDelivers | app/assets/javascripts/R1.js:47 | a flush with a timer pending invokes with the pending arguments exactly if trailing is on and there are any, and leaves no timer; without one it does nothing |
| DebounceLaws.TimesAreTold | app/assets/javascripts/R1.js:35-51 | the time kept as the last call is the moment of the run's last call, or 0 if a cancel came after it |
| DebounceLaws.PendingIsLastCall | app/assets/javascripts/R1.js:35-51 | in every run, early flushes included: pending arguments are those of the last call |
| Debounce.TimerOutcome | app/assets/javascripts/R1.js:39-44 | a timer that fires invokes no earlier than the last call plus the wait, or finds nothing to do, or is set again with a positive delay for exactly that moment |
| Debounce.EarlyFlushStrandsNextCall | app/assets/javascripts/R1.js:47-50 | after a flush, the next call's arguments have a timer if and only if the flush was late |
| Debounce.SpacingExactly | app/assets/javascripts/R1.js:36-50 | successive invocations are at least the wait apart in every run without cancel if and only if not both edges are on (or the wait is not positive), and in every run with cancels if and only if the leading edge is off |
| Debounce.CancelCloses | app/assets/javascripts/R1.js:45-48 | leading on: call, cancel, call invokes twice at the same moment |
| Debounce.TrailingThenLeading | app/assets/javascripts/R1.js:38-48 | both edges on: a call at the moment of a trailing invocation invokes again at once |
| Debounce.StepKeeps | app/assets/javascripts/R1.js:37-50 | call, timer, cancel, late flush and the passing of time keep the timer invariant |
| Debounce.RunGap | app/assets/javascripts/R1.js:37-50 | for the options that space invocations, every run keeps them spaced, and, for a positive wait, keeps the last invocation at or before the last call while a timer is armed or the leading edge is on |
| Debouncers.Debouncer.Call | app/assets/javascripts/R1.js:48-50 | the debounced function: leading edge, restart with an immediate invocation, or only storing the arguments |
| Debouncers.Debouncer.Expire | app/assets/javascripts/R1.js:41-44 | an expired timer takes the trailing edge or is set again for what is left of the wait |
| Debouncers.Debouncer.Cancel | app/assets/javascripts/R1.js:45-46 | cancel clears the timer and forgets both times and the arguments |
| Debouncers.Debouncer.Flush | app/assets/javascripts/R1.js:47 | flush takes the trailing edge now, if a timer is armed |
| Debouncers.Drive | app/assets/javascripts/R1.js:35-51 | the closure variables, driven through any run of calls, timers, cancels, flushes and time, make exactly the machine's invocations |
| Sorted.SortedIndex | app/assets/javascripts/R1.js:118 | binary search by any iterator returns the least index whose key is not below the target's, on every sorted array of up to 2^31 elements |
| Sorted.MidpointInRange | app/assets/javascripts/R1.js:118 | the 32-bit cut of `>>>` keeps the midpoint between the bounds exactly when their sum fits in 32 bits |
| Sorted.IndexOf | app/assets/javascripts/R1.js:118 | with the sorted flag the result equals the linear scan for the first occurrence, and so does every numeric start, negative ones counting from the end |
| Sorted.Uniq | app/assets/javascripts/R1.js:118 | the loop returns the elements that bring a new key, or on the sorted path those whose key differs from the one before |
| Sorted.SortedPathExactly | app/assets/javascripts/R1.js:118 | the sorted path of `uniq` equals the membership path if and only if equal keys stand next to each other, as they do in every sorted array |
| Sorted.UniquesCover | app/assets/javascripts/R1.js:118 | `uniq` returns elements of the array, no key twice, and every key of the array |
| Sorted.UniquesAreFirst | app/assets/javascripts/R1.js:118 | the results of `uniq` stand in the order of the array, and each is the first element of its key |
| Shuffle.RandomRange | app/assets/javascripts/R1.js:118 | `random(max)` yields only numbers from 0 to max, and every one of them for some draw |
| Shuffle.ShuffleArray | app/assets/javascripts/R1.js:118 | the two writes per element on the growing array give the recursive inside-out shuffle, for every sequence of choices |
| Shuffle.IsPermutation | app/assets/javascripts/R1.js:118 | whatever was drawn, the result holds exactly the elements of the input |
| Shuffle.EveryOrder | app/assets/javascripts/R1.js:118 | every order of the elements is the result of an explicit sequence of choices |
| Shuffle.EachOrderOnce | app/assets/javascripts/R1.js:118 | for distinct elements the choices can be read off the result, so each order comes from exactly one sequence of choices |
| RingHistory.Play | freetds-1.00.21/include/freetds/dlist.tmpl.h:40-107 | after any history of new lists, new items, append, prepend and remove on any number of lists, walking every ring forward gives the abstract sequence, walking it backward gives its reverse, and `in_list` is true exactly for the items some sequence holds |
| RingHistory.HistoryTidy | freetds-1.00.21/include/freetds/dlist.tmpl.h:66-101 | in every history no item stands twice in a list or in two lists |
| RingHistory.RemoveForgets | freetds-1.00.21/include/freetds/dlist.tmpl.h:66-101 | after any history, adding an item and removing it, or removing it twice, leaves what one removal leaves |
| RingHistory.Client.Linked | freetds-1.00.21/include/freetds/dlist.tmpl.h:103-107 | `in_list` answers for the abstract sequences |
| RingHistory.Client.Walk | freetds-1.00.21/include/freetds/dlist.h:35-36 | the traversal macro and its mirror image meet the abstract sequence and its reverse |
| RingList.DList.Init | freetds-1.00.21/include/freetds/dlist.tmpl.h:40-44 | a list whose header points to itself is the empty sequence |
| RingList.DList.First | freetds-1.00.21/include/freetds/dlist.tmpl.h:46-49 | the first item, or null when there is none |
| RingList.DList.Last | freetds-1.00.21/include/freetds/dlist.tmpl.h:51-54 | the last item, or null when there is none |
| RingList.DList.Next | freetds-1.00.21/include/freetds/dlist.tmpl.h:56-59 | the item after, or null behind the last one |
| RingList.DList.Prev | freetds-1.00.21/include/freetds/dlist.tmpl.h:61-64 | the item before, or null in front of the first one |
| RingList.DList.Visit | freetds-1.00.21/include/freetds/dlist.h:35-36 | `DLIST_FOREACH` ends after visiting each item once, in order |
| RingList.DList.VisitBack | freetds-1.00.21/include/freetds/dlist.tmpl.h:51-64 | the walk with last and prev visits the items in reverse |
| RingList.Unlink | freetds-1.00.21/include/freetds/dlist.tmpl.h:90-101 | the pointer writes of remove, which never look at the list, cut out exactly that item, whichever ring holds it, and leave it detached; only that ring's cells are touched |
| RingList.World.Append | freetds-1.00.21/include/freetds/dlist.tmpl.h:78-88 | append adds at the end of that list; every ring stays well formed and disjoint, every other sequence is unchanged |
| RingList.World.Prepend | freetds-1.00.21/include/freetds/dlist.tmpl.h:66-76 | prepend adds at the front of that list; every ring stays well formed and disjoint, every other sequence is unchanged |
| RingList.World.Remove | freetds-1.00.21/include/freetds/dlist.tmpl.h:90-101 | remove takes the item out of whichever list holds it, changes no other list, does nothing to an item in no list, and leaves the item as append and prepend want it |
| RingList.World.InList | freetds-1.00.21/include/freetds/dlist.tmpl.h:103-107 | true exactly for the items in some list |
| RingList.RemoveUndoes | freetds-1.00.21/include/freetds/dlist.tmpl.h:66-101 | removing what was just appended or prepended restores the sequence |
| RingList.WithoutDrops | freetds-1.00.21/include/freetds/dlist.tmpl.h:90-101 | on a ring, where nothing stands twice, removing by item is removing at its position |
| CheckedMutex.NoAssertFails | freetds-1.00.21/include/freetds/thread.h:332-403 | for every interleaving of any number of threads in which only holders unlock, wait and check, no assert of lock, trylock, unlock, check_owned, free, wait or timedwait ever fails |
| CheckedMutex.MutualExclusion | freetds-1.00.21/include/freetds/thread.h:332-403 | at most one thread owns; a holder sees the mutex locked by itself; a thread that has just taken the raw mutex, by locking, trying or waking, sees it unlocked |
| CheckedMutex.StepKeeps | freetds-1.00.21/include/freetds/thread.h:332-403 | every C statement keeps the link between the raw mutex, `locked` and `locked_by`; only a check by a thread that does not hold can fail |
| CheckedMutex.RunKeeps | freetds-1.00.21/include/freetds/thread.h:332-403 | that link holds in every reachable state where no assert has failed, stray checks included |
| CheckedMutex.StepCloser | freetds-1.00.21/include/freetds/thread.h:332-403 | inside a call every statement brings its end nearer, except while the raw mutex is awaited and another thread has it |
| CheckedMutex.OwnerMoves | freetds-1.00.21/include/freetds/thread.h:332-403 | whoever has the raw mutex is in client code or can itself move on, so nothing gets stuck inside the wrapper |
| CheckedMutex.StrayCheckPassesOnlyUnsigned | freetds-1.00.21/include/freetds/thread.h:361-370 | in every run, a check by a thread that does not hold gets past its last assert only while another thread owns the raw mutex and, having just locked or woken, has set `locked` but not yet written its id |
| CheckedMutex.StaleIdPasses | freetds-1.00.21/include/freetds/thread.h:361-370 | a reachable state in which such a check does pass, on a stale id |
| MutexCode.Mutex.Lock | freetds-1.00.21/include/freetds/thread.h:332-339 | lock takes the machine's five steps and its assert holds |
| MutexCode.Mutex.TryLock | freetds-1.00.21/include/freetds/thread.h:341-352 | trylock is refused exactly when somebody has the raw mutex, changing nothing, and otherwise holds with its assert true |
| MutexCode.Mutex.Unlock | freetds-1.00.21/include/freetds/thread.h:354-359 | unlock by a holder takes the machine's four steps and its assert holds |
| MutexCode.Mutex.CheckOwned | freetds-1.00.21/include/freetds/thread.h:361-370 | all three asserts hold for a holder, and nothing has changed |
| MutexCode.Mutex.WaitBegin | freetds-1.00.21/include/freetds/thread.h:383-403 | a wait or timed wait by a holder passes its assert and releases the mutex unlocked |
| MutexCode.Mutex.WaitEnd | freetds-1.00.21/include/freetds/thread.h:383-403 | whatever happened in between, the wait returns holding, with `locked` and `locked_by` set anew |
| VmsArgv.ParsePlain | freetds-1.00.21/vms/vmsarg_parse.c:157-326 | on a table of affirming rows and for any parser answers: argv is the program name followed by each present qualifier's keyword (none for a `$` parameter) and its values up to the first missing or empty one, in table order, if and only if that is at most 254 arguments; if no row has keywords or a date, the values are the texts as given |
| VmsArgv.Builder.Parse | freetds-1.00.21/vms/vmsarg_parse.c:157-326 | on every table the array, the counter and the variables that live on from row to row compute the row-by-row specification, with slot 0 preserved; an argument runs past the slots exactly when there are more than 254 |
| VmsArgv.Builder.DoRow | freetds-1.00.21/vms/vmsarg_parse.c:157-309 | one pass of the main loop: keyword, values, separators and the closing push |
| VmsArgs.PlainTable | freetds-1.00.21/vms/vmsarg_parse.c:157-309 | the row-by-row computation of an affirming table is the concatenation of what its rows contribute, whatever `more_flag` holds at the start |
| VmsArgs.StackedRowExactly | freetds-1.00.21/vms/vmsarg_parse.c:200-295 | a separator row contributes one argument with its values if and only if it has no value or at least two, and no comma is left over from an earlier row when it is absent; a single value stays in the template |
| VmsArgLaws.ValuesBecome | freetds-1.00.21/vms/vmsarg_parse.c:236-273 | each value up to the first missing or empty one becomes, by its row's flags: itself; its date conversion; the same-numbered field of the second keyword list, or itself if it is no field of the first; or the date conversion of that |
| VmsArgLaws.RawLine | freetds-1.00.21/vms/vmsarg_parse.c:157-326 | a table of rows without keywords and dates contributes each present qualifier's keyword and the values exactly as they were given |
| VmsArgLaws.RowExactly | freetds-1.00.21/vms/vmsarg_parse.c:177-283 | a row without a separator, affirming, negating or appending, whatever waits in the template: which arguments it adds, what goes in front of the first value, and what is left waiting |
| VmsArgLaws.RawStack | freetds-1.00.21/vms/vmsarg_parse.c:254-295 | a separator row without keywords and dates stacks its values as given, with a separator exactly after those that a comma follows |
| VmsKeywords.GetIndex | freetds-1.00.21/vms/vmsarg_parse.c:356-377 | the number of the first matching field, or 0 |
| VmsKeywords.SetIndex | freetds-1.00.21/vms/vmsarg_parse.c:385-401 | the field with that number, the string itself for 0, and nothing when there are too few fields |
| VmsKeywords.TranslateKeyword | freetds-1.00.21/vms/vmsarg_parse.c:242-245 | the two calls together are the positional translation |
| VmsKeywords.TranslateMeans | freetds-1.00.21/vms/vmsarg_parse.c:356-401 | a value that first stands at field i becomes field i of the second list, any other value stays, and only a second list that is too short fails |
| VmsKeywords.TranslateIdentity | freetds-1.00.21/vms/vmsarg_parse.c:356-401 | with the same list on both sides every value stays |
| VmsKeywords.FieldsOfJoin | freetds-1.00.21/vms/vmsarg_parse.c:363-374 | `strtok` recovers exactly the non-empty fields that were joined with bars |
| VmsKeywords.FieldsPlain | freetds-1.00.21/vms/vmsarg_parse.c:363-374 | no field is empty or holds a bar: runs of bars make no field |
| KeywordLaws.FieldsAre | freetds-1.00.21/vms/vmsarg_parse.c:363-374 | the fields completely: none in the empty text, a text without bars is one, and a bar anywhere cuts the text in two; so leading, repeated and final bars make no field and the last field needs no bar |
| VmsDate.SplitDate | freetds-1.00.21/vms/vmsarg_parse.c:506-573 | cutting the date text by position gives the right two-digit, unpadded, four-digit and name fields of every moment, the two-digit year followed by the cell that line 544 leaves unset |
| VmsDate.MonthNumber | freetds-1.00.21/vms/vmsarg_parse.c:531-537 | the lookup loop finds the month's number |
| DateLaws.TextHas | freetds-1.00.21/vms/vmsarg_parse.c:506-573 | the date text of every moment has its day, month, year and time at the positions that the code cuts, a one-digit day behind a blank |
| DateLaws.LettersGive | freetds-1.00.21/vms/vmsarg_parse.c:585-647 | for every moment, read as numbers: `$Y` is the four-digit year, `$y` its last two digits, `$M` the month's name, `$N`, `$D`, `$H` month, day and hour in two digits and `$n`, `$d`, `$h` without a leading zero, `$m` the minute, `$S` and `$s` the second, `$$` a dollar, and any other letter gives nothing |
| VmsPattern.ConvertDate | freetds-1.00.21/vms/vmsarg_parse.c:580-656 | for fields of any such kind the loop ends, inside the pattern exactly when there is no lone final `$`, and the buffer holds what appending at the terminator and cutting at the cursor give, within bounds |
| VmsPattern.Substitute | freetds-1.00.21/vms/vmsarg_parse.c:585-647 | each escape letter appends its field at the terminator and moves the cursor by what the code adds, `$$` writes at the cursor |
| VmsYear.InStepExactly | freetds-1.00.21/vms/vmsarg_parse.c:583-656 | the cursor stands at the end of the text at every turn of the loop if and only if the two-digit year has two characters or the pattern does not ask for it |
| VmsYear.MeantExactly | freetds-1.00.21/vms/vmsarg_parse.c:542-656 | a well-formed pattern comes out as meant for every moment if and only if the unset cell is a terminator or a character is written right behind every two-digit year |
| VmsYear.ConvertMoment | freetds-1.00.21/vms/vmsarg_parse.c:506-656 | from the VMS text of a moment to the buffer, for every content of the unset cell; the pattern filled with the moment's fields wherever the late terminator does no harm |
| VmsYear.UnrepairedIsWrong | freetds-1.00.21/vms/vmsarg_parse.c:542-656 | a two-digit year with no character right behind it spoils the text whenever the unset cell differs from how the fields start |
| VmsPattern.ExpandConcat | freetds-1.00.21/vms/vmsarg_parse.c:583-656 | a well-formed pattern expands independently of what follows it |
| VmsPattern.ExpandQuoted | freetds-1.00.21/vms/vmsarg_parse.c:642-655 | every text is the expansion of itself with `$` doubled, whatever the date |
| VmsQuote.ProtectString | freetds-1.00.21/vms/vmsarg_parse.c:683-766 | with three output characters for each input character the routine stays in bounds and writes the terminated specification: copied, expanded behind an opening mark, or enclosed |
| VmsQuote.Scan | freetds-1.00.21/vms/vmsarg_parse.c:686-719 | the first loop answers whether any character protects, and whether a quotation mark is noticed, masking by the special test included |
| VmsQuote.CopyExpanded | freetds-1.00.21/vms/vmsarg_parse.c:735-758 | the two cursors of the second loop agree: the output is the opening mark and the expansion |
| QuoteLaws.UnchangedExactly | freetds-1.00.21/vms/vmsarg_parse.c:683-764 | for all settings: a string comes out unchanged if and only if it holds no capital letter under the upper flag, no small letter under the lower flag, no special character under the special flag, and no quotation mark under the escape or double flag |
| QuoteLaws.MarksAreLed | freetds-1.00.21/vms/vmsarg_parse.c:735-758 | in an expansion the text between the quotation marks stays and each mark gets a backslash in front if marks are escaped, and then another mark if they are doubled |
| QuoteLaws.HowProtected | freetds-1.00.21/vms/vmsarg_parse.c:683-764 | for all settings and strings: without quotation marks a string is left alone or enclosed; with marks, exactly when marks are escaped or doubled and, under the special flag, the mark is not special and what stands before the first one needs no protection, there is just an opening mark and every mark has its lead; otherwise the string is left alone or enclosed |
| VmsUnquote.UnprotectProtect | freetds-1.00.21/vms/vmsarg_parse.c:683-764 | for all unambiguous settings, with or without doubling, an explicit decoder recovers every string |
| VmsUnquote.InjectiveExactly | freetds-1.00.21/vms/vmsarg_parse.c:683-764 | for all settings and special characters, quoting is injective if and only if the settings are not ambiguous: escaping with the backslash special and the mark not, or escaping without doubling and the special test while letters protect |
| VmsUnquote.Collision | freetds-1.00.21/vms/vmsarg_parse.c:700-756 | two strings that quote alike under every ambiguous setting with the special test |
| VmsUnquote.EscapeAloneCollides | freetds-1.00.21/vms/vmsarg_parse.c:711-764 | two strings that quote alike under every ambiguous setting without the special test |
| VmsUnquote.NoticedIsUnbalanced | freetds-1.00.21/vms/vmsarg_parse.c:735-758 | the missing closing mark: for all settings, a string with a noticed quotation mark comes out with its own marks, doubled if asked, and just one more |
| VmsUnquote.NoticedFirst | freetds-1.00.21/vms/vmsarg_parse.c:700-717 | for all settings, a quotation mark is noticed exactly when escaping or doubling asks for it and the first one is noticed: with the special test on, nothing before it calls for protection and the mark itself is not special |
| Capability.EnabledIsBit | freetds-1.00.21/include/freetds/tds.h:1627-1631 | for arrays of any length the lookup is the bit of that number of the big-endian number the bytes denote |
| Capability.SetOneCapability | freetds-1.00.21/include/freetds/tds.h:1627-1631 | setting one bit of that number changes exactly one capability's answer |
| ByteOrder.Put | freetds-1.00.21/include/freetds/bytes.h:45-85 | what a PUT macro stores the matching GET macro reads, cut to the width, and no other byte changes |
| ByteOrder.PutAll | freetds-1.00.21/include/freetds/bytes.h:45-85 | any sequence of fields of mixed widths and orders written one after the other reads back, and no byte outside them changes |
| ByteOrder.GetIsNumber | freetds-1.00.21/include/freetds/bytes.h:45-79 | every GET macro computes the number that the field's bytes denote in its order |
| ByteSwap.MacrosSwap | freetds-1.00.21/include/freetds/tds.h:379-387 | the shifts, masks and ors of both swap macros reverse the low bytes of every value |
| ByteOrder.OppositeOrder | freetds-1.00.21/include/freetds/tds.h:379-387 | reading a field in the opposite order is swapping the bytes of the value read |
| ByteOrder.SwapTwice | freetds-1.00.21/include/freetds/tds.h:379-387 | swapping is its own inverse on values of the width |
| Ledger.RunBalanced | app/controllers/preferences_controller.rb:10-35 | over every run of credits, purchases and seller switches: no balance is negative, pins credited equal pins held plus the cost of all codes plus pins zeroed by demotion, and the silk sold lies between 100 and 125 times its cost |
| Ledger.CreditBalanced | app/controllers/admin_controller.rb:11-25 | a credit keeps the books balanced, the refused negative one included |
| Ledger.CodeBalanced | app/controllers/preferences_controller.rb:10-35 | a purchase keeps the books balanced for every package number a request can carry |
| Ledger.SwitchBalanced | app/controllers/users_controller.rb:257-269 | the seller switch keeps the books balanced, the zeroed pins accounted for |
| LedgerLaws.CreditRaises | app/controllers/admin_controller.rb:11-25 | a credit that is not negative raises exactly the named user's pins by the amount; no other user, no seller flag and no code changes; it is refused exactly when negative or for a missing user |
| LedgerLaws.PurchaseBuys | app/controllers/preferences_controller.rb:10-35 | a purchase is accepted exactly from a seller with at least the price, for each package of the price list written out: that user's pins fall by the price, one code is added with that user, package, silk and cost, and nothing else changes |
| LedgerLaws.NothingOnOffer | app/controllers/preferences_controller.rb:10-35 | a package number outside -9..8 changes nothing |
| LedgerLaws.SwitchSwitches | app/controllers/users_controller.rb:257-269 | the switch makes a seller of a user who is none with all pins kept, and takes the role and all pins from a seller; nobody else and no code changes |
| Ledger.Site.AddPins | app/controllers/admin_controller.rb:11-25 | the controller's update is the ledger's step; a negative amount and a missing user change nothing |
| Ledger.Site.GenerateCode | app/controllers/preferences_controller.rb:10-35 | debit and code insert together, or neither |
| Ledger.Site.BeSeller | app/controllers/users_controller.rb:257-269 | promotion keeps the pins, demotion zeroes them |
| Ledger.Drive | app/controllers/preferences_controller.rb:10-35 | the tables of the site after any run: no negative balance, and holdings plus the cost of issued codes never exceed what was credited |

## Left out

- Callbacks that throw: an exception would leave a list in the firing state for good. Callbacks return.
- Calls with arrays or non-functions as arguments of `add`: a call adds a list of functions. The
  combinators `then`, `when` and `promise` of Deferred, which are built from the operations modelled.
- The firing loop of a callback list is cut at every callback call, since callbacks are user code; the
  loop body, its guard and its end are the methods LoopHead, Return and EndFiring.
- OnceMemory.EachAdditionOnce: leaves out runs with an `empty` that is not harmless, as described above;
  OnceMemory.EmptyLosesNextAddition and OnceMemory.EmptyForgetsFirstFire say what the addition right after
  one loses.
- EventLaws.OnceCallsAll: leaves out `unique` lists, where which additions count depends on what is on the
  list at that moment (ListLaws.UniqueHoldsOnce, OnceMemory.EachAdditionOnce), and the same empties.
- MemoryList.EveryFireGetsItsRound: leaves out runs with an `empty` that is not harmless for such a list;
  MemoryList.EmptyLosesFromRound says what the addition right after one loses.
- `maxWait` of debounce: the branch that reads it calls `toNumber`, which the bundle does not define,
  so a caller that sets it gets an exception; it is taken as unset, as its caller
  (app/assets/javascripts/R2.js, line 423) leaves it.
  The result and `this` of the debounced function, and a debounced function that calls itself.
- DebounceLaws.CallInvokesExactly: leaves out runs with a flush before the wait is over, as the next one does.
- Debounce.LastCallWins: leaves out runs with a flush before the wait is over, for which
  Debounce.EarlyFlushStrandsNextCall shows that a call can be stranded.
- Sorted.SortedIndex: does not cover arrays beyond 2^31 elements, where the 32-bit cut of the midpoint
  breaks the bounds (Sorted.MidpointInRange). NaN, the infinities, objects as elements, and the native
  `indexOf`, which has the specification of the scan.
- The distribution of `Math.random`: shuffling is proved for every sequence of draws.
- The item type around a ring pair: an item is identified with its pair, which stands for the pointer
  arithmetic of `DLIST_ITEM`. The body of `dlist_ring_check` is not part of this model. Changing a list
  inside `DLIST_FOREACH`.
- RingHistory.Play: an addition of an item that is already linked, which trips an assert in the source, is
  modelled as a client that asks `in_list` first and then adds nothing.
- The raw mutex and condition variable are axioms: a non-recursive mutex, and a wait that releases it in
  one step and has it again in a later one, signalled or not. Errors of the raw operations, memory order
  and the destruction of the raw mutex. A client that unlocks or waits without holding, or locks twice.
- CheckedMutex.NoAssertFails: leaves out runs in which a thread that does not hold calls check_owned;
  CheckedMutex.StrayCheckPassesOnlyUnsigned says when such a check can pass.
- In the VMS translator: the DCL parser, help, symbols, commands and images, whose answers are arbitrary;
  the early return for Unix-style arguments; the joining of arguments into one string and its use; HELP
  rows; failed allocations; the sizes of the value, template and keyword buffers.
- VmsArgv.Builder.Parse: says nothing of a run after an argument had no slot, and starts with an empty
  value template, which the source keeps in a static variable between calls.
- VmsKeywords.SetIndex: too few fields, where the code copies from a null pointer, is an empty result.
- VmsPattern.ConvertDate: a pattern with a lone final `$`, where the code reads past the terminator,
  stops with a negative answer. The failure returns of the two system conversions, and the size of the
  date buffer, which is a precondition.
- VmsQuote.ProtectString: the output buffer's size is a precondition; the source uses fixed buffers.
- Failed saves, concurrent requests, code strings, dates and the game database in the pins ledger; pins
  are real numbers, without rounding.
- Capability and byte-order code writes through casts of unaligned pointers on some machines; only the
  byte-wise macros are modelled.
- The rest of the repository: Rails routing, sessions, mail and views, stored procedures, the other
  script bundles, and the declarations, operating-system wrappers and samples of FreeTDS.
