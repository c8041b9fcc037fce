# The low memory killer daemon, modelled and proved

lmkd is Android's user-space scheduler of kills. It keeps an index of processes by pid and by priority score, decides
when memory pressure justifies a kill, picks a victim, waits for it to die and paces its own polling. This project
models those parts in Dafny, in place where the daemon works in place, and proves what they guarantee.

* **Registry** (`Tables`, `Registry`, `Commands`). The pid hash of 1024 singly linked chains and the 2001 circular
  doubly linked lists, relinked pointer by pointer, refine a plain map from pid to record plus one sequence per score.
  The mixing step of the hash is any function; its result is reduced to a bucket number as the daemon does.
* **Victims** (`Victims`, `Search`, `SearchProperties`, `SearchWaits`, `GivingUp`, `Killer`, `Watchdog`). The heaviest
  scan, the search and the watchdog sweep, which delete while they walk. Whatever the system answers (sizes, /proc
  status, the hook, epoll, the signal) comes from an arbitrary environment.
* **Runs** (`Runs`, `Ledger`, `SearchRuns`). Arbitrary sequences of commands, disconnections, invalidations, kill
  attempts and finished waits: recency order, ownership of records and of pid descriptors.
* **Reaper pool** (`Reaper`). Atomic steps of the main thread and of threads that are asleep, awake or busy, with
  spurious wakeups.
* **Pressure decision** (`Pressure`, `PressureProperties`, `Readings`, `Handler`, `Watermarks`, `Clock`). The PSI and
  vendor event handler of the new strategy with all its static state. The victim search is any function of the minimum
  score.
* **Main loop** (`EventLoop`, `LateReports`, `LatePolls`, `Mainloop`). Starting, pausing, resuming and timing out, over
  runs of turns of the loop.
* **Counters and packets** (`Counters`, `Packets`, `KillPacket`).

Where a promise turns out not to hold of the code, the code is kept, a lemma gives an input that breaks the promise and
another says exactly when it holds:

* The search ends as soon as the answer of an attempt is not 0, and -1, for a stale record, is not 0. A score whose
  records were all stale therefore ends the whole search, although its comment promises a process at or above the
  minimum score (`GivesUpEarly`, and exactly when: `GivesUpIff`).
* A signal or an epoll registration that fails closes the victim's descriptor, which removing the record closes again
  (`KillFaults`, `ClosedTwice`). A registration that runs out of memory leaks its descriptor (`RegisterLeaks`).
* The recheck before the first kill re-reads the watermarks but keeps the reason found on the old ones, so it never
  calls the kill off (`RecheckNeverSpares`, `FirstKillStale`; the reason is still true exactly when: `FirstKillTrueIff`).
* A vendor reason is range-checked before its base is added (`VendorRange`).
* A failure report is taken for the wait in progress, whatever process it is about. One that arrives after its wait
  has timed out stops polling (`LateReportStopsPolling`, and exactly when: `ResumeNeedsPause`) or ends the wait for the
  next victim (`LateReportEndsOtherWait`, and exactly when: `ReportEndsOwnWaitIff`).
* A poll that is already due when the loop gets to wait is put off by up to a full interval (`OverduePollWaits`, and exactly
  when: `PollDelay`).
* Purging by a client also removes the records no client owns (`PurgeLeavesOthers`).
* The packet size comment counts 88 bytes of fields where the code writes 80, so 214 of the 222 bytes are used.

`hide` statements in bodies only limit what the verifier unfolds; they assume nothing. `dafny verify dfyconfig.toml`
checks the whole project.

## Model

| member | source | states |
|---|---|---|
| Registries.AdjslotInsert | lmkd.cpp:919-926 | four pointer writes put a node at the head of a circular list: the list then holds it followed by what it held |
| Registries.AdjslotRemove | lmkd.cpp:928-934 | the list is a well-formed circle without that one node, in the same order |
| Registries.ChainBypass | lmkd.cpp:978-982 | a chain from which a later node is bypassed holds the others in order |
| Registries.Registry.constructor | lmkd.cpp:3865-3870 | every list is its own anchor and every bucket is empty: a valid registry of no records |
| Registries.Registry.PidLookup | lmkd.cpp:909-917 | walking one chain finds the record of the pid if and only if the map has one |
| Registries.Registry.ProcSlot | lmkd.cpp:943-948 | the record comes first on the list of its score and no other list changes |
| Registries.Registry.ProcUnslot | lmkd.cpp:951-955 | the record leaves the list of its score, the others keep their order |
| Registries.Registry.ProcInsert | lmkd.cpp:957-963 | chains and lists again agree with the map, which has gained the record |
| Registries.Registry.FindLink | lmkd.cpp:966-976 | finds the record and its predecessor in the chain, none for the first |
| Registries.Registry.Unchain | lmkd.cpp:978-982 | both ways of unlinking leave the chain without exactly that record |
| Registries.Registry.PidRemove | lmkd.cpp:966-993 | chain, list, map and open descriptors change as removing one record from the map; the answer says whether it was there |
| Registries.Registry.Reslot | lmkd.cpp:1222-1224 | the record has the new score and comes first on the list of that score, and nothing else moves |
| Tables.PidRemove | lmkd.cpp:966-993 | pids stay unique and each record stays on exactly the list of its score, once |
| Tables.ProcInsert | lmkd.cpp:957-963 | the same agreement is kept when a new pid is added |
| Tables.Reslot | lmkd.cpp:1222-1224 | the same agreement is kept when a record changes its score and owner, which are then those asked for, and it comes first on the list of that score |
| Tables.RegisterProc | lmkd.cpp:1133-1226 | the same agreement is kept for every request in range, whatever the system answers |
| Commands.ClaimRecord | lmkd.cpp:702-714 | a claim succeeds for the owner or on an unowned record, which it then owns |
| Commands.RemoveClaims | lmkd.cpp:716-728 | a walk over all chains unowns exactly the records of the client |
| Commands.PidInvalidate | lmkd.cpp:995-1002 | only the validity of that record changes |
| Commands.RegisterNew | lmkd.cpp:1188-1212 | a new record is inserted, or nothing is when there is no descriptor or no memory |
| Commands.UpdateOwned | lmkd.cpp:1213-1225 | a record another client owns is left as it is, otherwise it is moved |
| Commands.RegisterOomAdjProc | lmkd.cpp:1133-1226 | the pointer structure refines the registration on the map, whatever the system answers |
| Commands.ApplyProcPrio | lmkd.cpp:1228-1272 | a request out of range, of an unknown type, or for a thread that is no process changes nothing |
| Commands.CmdProcRemove | lmkd.cpp:1281-1319 | the record goes if and only if the client may claim it |
| Runs.PrioEffect | lmkd.cpp:1133-1272 | every request that is taken gives the process the score asked for (200 for an app between 600 and 699 under per-app cgroups) and the owner, and puts it first on the list of that score, with every other record and the order of every other list kept; a request that is not taken changes no record and no list |
| Runs.RemoveEffect | lmkd.cpp:1281-1319 | a removal by the owner, or of a record nobody owns, takes out that record alone and closes its descriptor unless it is waited on; any other changes nothing |
| Commands.PurgeChain | lmkd.cpp:1325-1340 | deleting while walking one chain leaves on it exactly the records of other clients |
| Commands.CmdProcPurge | lmkd.cpp:1321-1342 | all chains together: the removed records are exactly the claimable ones, the registry stays valid |
| Runs.PurgeLeavesOthers | lmkd.cpp:1321-1342 | a purge leaves exactly the records owned by other clients, unchanged, and every list in its order |
| Runs.OwnedSurvives | lmkd.cpp:702-714 | over every run of other clients' commands, kill attempts on other processes, finished waits and watchdog sweeps, a record owned by p keeps its score, owner and descriptor until p disconnects |
| Runs.DisconnectReleases | lmkd.cpp:730-745 | after p's disconnection any client can remove what p owned |
| Runs.RunRecent | lmkd.cpp:919-948 | over every run, each list stays ordered by last accepted registration or update, newest at the head |
| Runs.RecencyOrder | lmkd.cpp:1188-1225 | the same from an empty registry, with stamps computed from the run itself |
| SearchRuns.OldestFirst | lmkd.cpp:2557-2564 | after any run, a process signalled in tail mode was registered or updated before every record of its list that survives the search |
| Victims.BestIsFirstHeaviest | lmkd.cpp:2232-2257 | the scan's answer is the first record, from the head, of the greatest positive size, and none if no size is positive |
| Victims.ProcAdjTail | lmkd.cpp:2212-2215 | the tail of the list of that score, none if it is empty |
| Victims.ProcGetHeaviest | lmkd.cpp:2232-2257 | removes exactly the records whose size read failed from the list being walked and answers that record; a one-record list is answered unread |
| Watchdog.SweepCovers | lmkd.cpp:2284-2306 | the sweep order meets each record of score 0 and above exactly once |
| Watchdog.SweepOrder | lmkd.cpp:2284-2306 | the sweep goes from the highest score down and, within a list, from the tail to the head |
| Watchdog.ProcAdjPrev | lmkd.cpp:2217-2230 | the neighbour towards the head, the anchor at the end, none if the pid is not on the list |
| Watchdog.FindVictim | lmkd.cpp:2259-2282 | a copy of the record to try after the previous one at this score, or none |
| Watchdog.WatchdogCallback | lmkd.cpp:2284-2306 | the loop ends; from score 1000 down and tail to head it visits a prefix of the sweep, passes over every invalidated record and every one whose signal fails, and kills at most one process, the first of the others, which it only invalidates |
| SearchRuns.InvalidatedNeverSignalled | lmkd.cpp:2439-2441 | after a watchdog kill and any run that does not remove the record, no search signals that process: the search that tries it drops it |
| Runs.InvalidStays | lmkd.cpp:1213-1225 | no step of any run, an update included, makes an invalidated record valid again |
| Search.KillOne | lmkd.cpp:2422-2533 | a negative answer has removed a record, which is why the search ends |
| SearchProperties.KillEffect | lmkd.cpp:2422-2533 | on what the system tells: a stale record is dropped with -1; what the hook freed is answered as it is; else there is one signal and the record goes, the answer is the resident memory in whole pages if the signal was delivered and 0 if not, and the wait is on the descriptor, or the pid where there is none, exactly if the signal was delivered and epoll took it |
| Search.Pick | lmkd.cpp:2553-2556 | the candidate is registered at that score, and choosing it only removes records |
| SearchProperties.TryOutcome | lmkd.cpp:2552-2567 | the inner loop touches one score only and ends out of candidates (list empty, or a scan this loop made of it read size 0 for all that is left), with pages the hook freed, or after exactly one signal whose pages it answers |
| SearchProperties.FindStops | lmkd.cpp:2539-2575 | signals go only to valid records at or above the minimum score, with falling scores, and every one before the last freed no page; a positive answer is what the last freed, at the score where the search stopped, or what the hook did, with no signal there; above the stop every list is exhausted, by a scan of this search where it is not empty, or had a signal that freed nothing; lower lists and surviving records are untouched |
| SearchWaits.SearchOverlaps | lmkd.cpp:2397-2401 | whatever epoll and the signals answer, a search reaches the other-wait branch once per attempt that left a wait and is not its last, and leaves a wait exactly when its last attempt did |
| SearchWaits.ProductiveSearch | lmkd.cpp:2546-2574 | if each successful kill frees a page, a search kills at most once and never finds another wait in progress |
| GivingUp.NeverGivesUp | lmkd.cpp:2539-2575 | without stale records the answer is never negative, in any mode |
| GivingUp.GivesUpTail | lmkd.cpp:2552-2572 | in tail mode a list is given up if and only if it is not empty and every record on it is stale when its turn comes |
| GivingUp.GivesUpIff | lmkd.cpp:2535-2575 | in every mode, by the registry it starts with: a search gives up if and only if at some score there is something to try and all that is tried is stale, while every higher list has nothing to try or its first record that is not stale answers 0 |
| GivingUp.TryCourse | lmkd.cpp:2552-2567 | the answer of a score and the time it takes, in terms of the list it had before |
| GivingUp.GivesUpOnStale | lmkd.cpp:2560-2572 | a search that gives up stops at a score where its first attempt was on a record that it found stale and dropped |
| GivingUp.GivesUpEarly | lmkd.cpp:2535-2575 | one stale record at a higher score keeps a live process at or above the minimum from being killed |
| SearchProperties.TryTail | lmkd.cpp:2557-2564 | in tail mode all records behind the one signalled are gone |
| SearchProperties.FindTail | lmkd.cpp:2539-2575 | the same for every signal of a whole search |
| SearchProperties.FindHeaviest | lmkd.cpp:2546-2556 | every signal of a search to a process of score 200 or lower, or to any in heaviest mode, went to the heaviest on its list: nothing left there was read as heavier by the scan that picked it |
| Killer.StopWaitForProcKill | lmkd.cpp:2334-2372 | the wait slot is emptied and its descriptor closed, with nothing to do if it was empty |
| Killer.StartWaitForProcKill | lmkd.cpp:2393-2419 | the slot holds the new pid or descriptor; a failed registration closes the descriptor and empties it |
| Killer.SignalProcess | lmkd.cpp:2472-2531 | wait, signal and removal on the pointer structure refine the step on the map |
| Killer.Attempt | lmkd.cpp:2482-2527 | an attempt in place answers the resident memory in whole pages, or 0 if the signal was not delivered, counts an overlap exactly when a wait was in progress, and is logged with whether it leaves one |
| Killer.KillOneProcess | lmkd.cpp:2422-2533 | the answer, the registry, the wait and the log of signals are those of the attempt on the map, for every system answer |
| Killer.PickCandidate | lmkd.cpp:2553-2556 | the record found in place is the candidate of the search |
| Killer.FindAndKillProcess | lmkd.cpp:2539-2575 | both nested loops end and refine the search, so everything proved of it holds of the pointer structure |
| Ledger.KillFaults | lmkd.cpp:2482-2531 | a kill attempt closes a descriptor twice, once, if and only if it was made and epoll or the signal failed; otherwise each open descriptor keeps its one owner |
| Ledger.ClosedTwice | lmkd.cpp:983-991 | a descriptor closed when its wait is given up is closed again with its record |
| Ledger.HandOver | lmkd.cpp:983-991 | removing the record whose descriptor is waited on hands the descriptor to the wait slot |
| Ledger.RegisterLeaks | lmkd.cpp:1190-1212 | ownership survives a registration if and only if there was memory for the record |
| Ledger.StepOwned | lmkd.cpp:2334-2419 | no command, removal, replaced or finished wait closes a descriptor twice or while it is owned, if calls succeed |
| Ledger.OwnershipOverRuns | lmkd.cpp:983-991 | over every succeeding run each open descriptor belongs to exactly one record or to the wait slot and none is closed twice |
| SearchRuns.FindRun | lmkd.cpp:2539-2575 | the registry after a search is the registry after a legal run of attempts and removals |
| SearchRuns.SearchOwned | lmkd.cpp:2539-2575 | a whole search keeps that ownership when epoll and signals succeed |
| Reapers.StepConserves | reaper.cpp:225-286 | every step conserves requests: accepted are queued, being reaped or completed, each as often as accepted |
| Reapers.StepKeepsInv | reaper.cpp:136-165 | after every step active requests are queued plus busy ones and at most the threads, and the queue is no longer than the awake idle threads |
| Reapers.RunKeepsInv | reaper.cpp:136-165 | the same over every interleaving, spurious wakeups included |
| Reapers.NoLostWakeup | reaper.cpp:270-281 | while a request is queued some thread is awake to take it |
| Reapers.SubmitEffect | reaper.cpp:225-249 | a request with a descriptor goes to the end of the queue, with the duplicate, if and only if those queued or worked on are fewer than the threads; any other leaves the pool as it is |
| Reapers.RefusesWhenFull | reaper.cpp:225-249 | in every reachable state a request with a descriptor is turned away if and only if every thread has one to work on |
| Reapers.Drains | reaper.cpp:270-281 | once as many awake threads as queued requests have looked, the queue is empty |
| Reapers.Reaper.constructor | reaper.h:30-45 | the pool starts empty with every thread awake, and satisfies the invariant |
| Reapers.Reaper.AsyncKill | reaper.cpp:225-249 | accepted if and only if it has a descriptor and fewer requests are queued or worked on than there are threads, and then at the end of the queue with a duplicated descriptor; the invariant holds |
| Reapers.Reaper.Kill | reaper.cpp:251-268 | queued exactly when asynchronous, with a descriptor and with a thread free for it, and then answers 0; otherwise signals directly and the pool is as it was |
| Reapers.Reaper.DequeueTurn | reaper.cpp:270-281 | the newest request leaves the queue and the thread works on it, or there is none and the thread sleeps; the invariant holds |
| Reapers.Reaper.NotifyKillFailure | reaper.cpp:288-295 | the pid of the failed request is in the pipe exactly if the write succeeded, and nothing else changes |
| Reapers.Reaper.RequestComplete | reaper.cpp:283-286 | the thread is idle again, one request fewer is active, the queue is untouched and the request counts as completed |
| Clock.DiffIsClose | lmkd.cpp:1032-1036 | the millisecond difference is the exact one rounded down or, where the nanoseconds need a borrow, up |
| Clock.DiffIsMonotone | lmkd.cpp:1032-1036 | a later end never gives a smaller difference |
| Pressure.FreeSwap | lmkd.cpp:2001-2005 | the lower of free swap and compressible available memory, or free swap when the ratio is 0 |
| PressureProperties.SwapUtilIsPercentage | lmkd.cpp:2696-2701 | between 0 and 100, 0 with all swap free and 100 when everything swappable is swapped |
| Readings.MeasuresMean | lmkd.cpp:2696-2906 | swap is low if and only if there is a limit and less than that share of it is free in whole pages; utilisation and refault share are the exact quotients with the rest dropped |
| Watermarks.CalcZoneWatermarks | lmkd.cpp:2668-2685 | the two loops sum the limits over the present zones of all nodes |
| Watermarks.ZoneCounts | lmkd.cpp:2668-2685 | a present zone adds its largest reserve and each of its limits to the limit of that name, an absent one nothing |
| Watermarks.SumsOrdered | lmkd.cpp:2668-2685 | min, low and high in order in every present zone are in order in the sums |
| Watermarks.BreachedBands | lmkd.cpp:2651-2666 | each severity is answered exactly when free memory is below its own limit |
| Watermarks.MoreFreeNeverWorse | lmkd.cpp:2651-2666 | more free pages never give a more severe watermark |
| Watermarks.SelectMinScore | lmkd.cpp:3229-3247 | the score of the first minfree entry that both free and file memory are below, no kill if there is none |
| Watermarks.LessMemoryNeverSpares | lmkd.cpp:3229-3247 | less free and file memory never raises the selected score |
| Handlers.PressureHandler.constructor | lmkd.cpp:2720-2733 | the static state starts with the configured limit, nothing being killed and the first-kill recheck unused; the limit is within its bounds |
| Handlers.PressureHandler.ResetAfterKill | lmkd.cpp:2815-2824 | exactly after a kill a new window begins, in which nothing has refaulted yet and nothing is carried over, with the limit kept |
| Handlers.PressureHandler.IdentifyReclaim | lmkd.cpp:2834-2862 | without a listener, reclaim seen in the statistics is not seen in the same statistics again |
| Handlers.PressureHandler.ThrashingWindow | lmkd.cpp:2877-2906 | the window step in place is the one the growth and limit results are about |
| Handlers.PressureHandler.UpdateWatermarks | lmkd.cpp:2909-2923 | after success nothing needs to be read again at that time, unless the limits read are 0; it fails only when a needed read fails |
| Handlers.PressureHandler.Decide | lmkd.cpp:2935-3050 | from a fresh start it finds a reason if and only if the device gives one, the reason is true, and the minimum score reaches 200 exactly on the listed grounds |
| Handlers.PressureHandler.Kill | lmkd.cpp:3069-3087 | killing is noted exactly if pages were freed, the limit is cut exactly if also the reason was thrashing, and the wait is the one the search left |
| Handlers.PressureHandler.JudgeAndKill | lmkd.cpp:2909-3087 | the backward jump is used up by the first kill and never comes back, and the second pass goes on from the first one's choice |
| Handlers.PressureHandler.Finish | lmkd.cpp:3089-3115 | a pidfd wait pauses polling; otherwise there is a short or long interval, short exactly after a kill or on low swap, and events, a kill or direct reclaim start polling |
| Handlers.PressureHandler.NoteEventLevel | lmkd.cpp:2772-2784 | an event is outranked exactly when it is a PSI event, not a poll, of a lower level than the last; any other sets the level, a poll the lowest |
| Handlers.PressureHandler.MpEventPsi | lmkd.cpp:2713-3115 | the handler in place keeps the limit within its bounds, searches only with no wait in progress and, with a victim waited for and not known to be gone, only after a nonzero kill timeout, leaves a pidfd wait only with the pause asked for, and refines the event of the results below |
| PressureProperties.SearchEntry | lmkd.cpp:2790-2801 | every search starts with no wait in progress; with a victim waited for, and pidfds in use or its pid alive, only if there is a kill timeout and it is over |
| PressureProperties.OldSearchEntry | lmkd.cpp:3194-3216 | the old strategy, too, searches with no wait in progress, and is held back if and only if the clock fails or a victim, waited for and not known to be gone, is within a kill timeout; the two differ on a pending kill exactly when there is no timeout |
| PressureProperties.OneKillPerEvent | lmkd.cpp:2546-2574 | a search made by an event kills at most once and never overlaps waits, if each kill frees a page |
| PressureProperties.WaitPauses | lmkd.cpp:3089-3095 | after an event a pidfd wait has asked for the pause, or nothing changed |
| PressureProperties.ReasonIff | lmkd.cpp:2935-3050 | a fresh pass finds a reason if and only if the device gives one; the reason named is true and no higher-ranking one is |
| PressureProperties.EventKillsIff | lmkd.cpp:2713-3087 | an event searches if and only if it could read all it needs, is neither ignored, held back nor on a quiet device, is a valid request and its own facts give a reason |
| Readings.SearchesIff | lmkd.cpp:2767-2948 | the same on the readings: clock, statistics and needed watermarks readable, level not outranked, no victim dying within the timeout, reclaim or a refault seen or a vendor request in range, and a reason |
| Readings.FactsMean | lmkd.cpp:2815-2925 | each fact of the decision but thrashing, on the state before the event and what it reads |
| Readings.ThrashingMeans | lmkd.cpp:2815-2906 | the thrashing seen is 0 right after a kill, refaults plus carried growth within a window, and halved for each of fewer than 64 windows passed unless one passed and it reached the limit |
| Readings.ChoiceMeans | lmkd.cpp:2935-3050 | with each reason go its minimum score, whether a kill cuts the limit (the two thrashing reasons without low swap) and whether the file cache is watched afterwards |
| Readings.AfterSearch | lmkd.cpp:3069-3115 | after a search killing is noted if and only if pages were freed; polling pauses on a pidfd wait, else goes on at 10 ms if swap is low or pages were freed, at 100 ms if not |
| Readings.LevelNoted | lmkd.cpp:2772-2784 | a PSI event that is not outranked sets the level to outrank, a poll the lowest, anything else leaves it |
| Readings.Noticed | lmkd.cpp:2834-2874 | an event that gets to the statistics takes note of them: unchanged, they show no refault and, without a listener, no reclaim |
| PressureProperties.CallShape | lmkd.cpp:2935-3075 | the search is called for the reason and with the minimum score that the event's own source, state and readings give, or with 0 under a critical stall |
| PressureProperties.PerceptibleIff | lmkd.cpp:2951-3075 | after the first-kill recheck a search reaches score 200 if and only if the event's own facts, reason and stall are among the listed grounds, and that reason is true of the device |
| PressureProperties.PerceptibleSpared | lmkd.cpp:2951-3075 | every process of score 200 or lower that is signalled is signalled on one of those grounds |
| PressureProperties.CalmSpares | lmkd.cpp:2951-3075 | when the event reads no stall, critical level, min breach, critical thrashing, swap or reclaim excess, the minimum score is above 200 |
| PressureProperties.VendorRange | lmkd.cpp:2935-2948 | an accepted vendor reason lies in the vendor range if and only if it is below the number of vendor reasons |
| PressureProperties.RecheckNeverSpares | lmkd.cpp:3060-3067 | an event with a reason before the first kill searches whatever the re-read watermarks say, if they can be read |
| PressureProperties.FirstKillTrueIff | lmkd.cpp:2908-3075 | the reason of the first kill is true of the re-read watermarks if and only if there is another reason than a breach, or a breach was the reason on the old ones and is found on the new ones, too; its minimum score is 0 exactly as the second look at the stall says, or the first where that tells nothing, and else the one of the reason |
| PressureProperties.FirstKillStale | lmkd.cpp:3060-3067 | an event that makes the first kill for low memory with no watermark breached |
| PressureProperties.LimitStep | lmkd.cpp:2877-2898 | an event restores the limit only when it crosses a window and cuts it only after a kill for thrashing |
| PressureProperties.LimitOverRuns | lmkd.cpp:3079-3085 | over every run the limit is the configured one cut once per thrashing kill since the last crossed window |
| PressureProperties.CutsExhaust | lmkd.cpp:3079-3085 | with a decay every cut lowers the limit, to 0 after at most as many cuts as it has percents |
| Readings.CutFloor | lmkd.cpp:3079-3085 | a cut leaves the share of the limit that does not decay, rounded down |
| PressureProperties.GrowthCarried | lmkd.cpp:2877-2892 | carried growth is the measured one divided by two per passed window, rounded down, unless one window passed and it reached the limit |
| EventLoop.CallKeepsInv | lmkd.cpp:3909-3948 | every handler call keeps: waiting for a kill means nothing is polled and a paused handler is recorded |
| EventLoop.RunKeepsInv | lmkd.cpp:3950-4054 | the same in every reachable state |
| EventLoop.BoundedSleep | lmkd.cpp:3990-4008 | with a kill timeout the loop never waits without limit during a wait, and at most for what is left of the timeout |
| EventLoop.PollDelay | lmkd.cpp:3973-3980 | while polling the loop waits until the next poll is due, except that it waits past that time, for up to a full interval, if and only if the poll is due already |
| LatePolls.OverduePollWaits | lmkd.cpp:3973-3980 | a legal run from an idle daemon in which a poll overdue by 900 ms waits for another interval |
| EventLoop.DuePollMade | lmkd.cpp:3980-3989 | while a handler is polled, a turn calls it, before any event is delivered, if and only if polling was resumed or the interval since its last poll is over; a poll due when the turn begins is made in it |
| EventLoop.IdleTurn | lmkd.cpp:3990-4018 | while nothing is polled, a turn ends the wait if and only if there is one on a pidfd with a timeout and nothing arrived, and reinstates the paused handler; else it only delivers its events |
| EventLoop.ReclaimNoted | lmkd.cpp:3462-3493 | with a listener, direct reclaim begun or kswapd woken counts as going on until it ends or sleeps, each without the other; a zone change replaces the watermarks |
| EventLoop.WaitEnds | lmkd.cpp:2374-2391 | completion, failure and timeout of a wait each reinstate the paused handler at the short interval |
| EventLoop.PollsAtOnce | lmkd.cpp:3965-3989 | the turn after a reinstatement polls that handler without waiting |
| EventLoop.ResumeNeedsPause | lmkd.cpp:3902-3907 | after a notification nothing is polled if and only if nothing was paused |
| LateReports.LateReportStopsPolling | lmkd.cpp:2380-2391 | a legal run from an idle daemon in which a failure report, after the timeout of its wait, stops the resumed polling |
| LateReports.OwnWaitIff | lmkd.cpp:2334-2391 | over every run from a wait for a victim, the wait in progress is still that one if and only if no report and no timeout came in between and every pressure event was held back |
| LateReports.ReportEndsOwnWaitIff | lmkd.cpp:2380-2391 | a failure report that finds a wait in progress ends the wait it is about if and only if nothing ended that wait before; otherwise it ends a later one |
| LateReports.LateReportEndsOtherWait | lmkd.cpp:2380-2391 | a legal run in which the report on one victim ends the wait for the next |
| EventLoop.WindowEnds | lmkd.cpp:3939-3945 | a call that asks for nothing ends polling exactly when it finishes more than 1000 ms after the start |
| EventLoop.RunPaced | lmkd.cpp:3107-3114 | over every run, whatever is polled is polled at 10 or 100 ms |
| EventLoop.StartOpens | lmkd.cpp:3922-3931 | a start request opens a window with no polls in it |
| EventLoop.PollsBounded | lmkd.cpp:3965-3989 | with no further request a window sees at most 112 polls, the last one while open within a second of the start |
| Mainloops.Mainloop.constructor | lmkd.cpp:3957-3958 | nothing is polled or paused at first, and the loop's invariant holds |
| Mainloops.Mainloop.MemeventNotification | lmkd.cpp:3445-3495 | the loop over memory events is the fold the invariant is proved of; a failed clock or fetch only clears the reclaim start |
| Mainloops.Mainloop.Call | lmkd.cpp:3909-3948 | every handler call in place keeps that waiting excludes polling and records the paused handler; a report that the wait is over reinstates it |
| Mainloops.Mainloop.Iterate | lmkd.cpp:3950-4054 | one pass of the loop keeps the invariant, calls the polled handler first if and only if polling was resumed or the interval since its last poll is over, reinstates the paused handler on a timeout, closes dropped connections without a handler call, and is one turn of the model |
| Counters.KillCounters.Inc | lmkd.cpp:1351-1374 | the tables keep representing the whole kill history: distinct scores on distinct counters, in order of first use, up to 32 |
| Counters.KillCounters.Get | lmkd.cpp:1376-1397 | a range query is the sum, over the scores in the range that have a counter, of their kills modulo 65536; above 1000 it is the total |
| Counters.AllCounted | lmkd.cpp:1351-1374 | no score is lost if and only if there were at most 32 distinct ones |
| Counters.FullRangeIsTotal | lmkd.cpp:1376-1397 | with at most 32 scores and fewer than 65536 kills the full range gives the number of kills |
| Packets.SetProcsPrio | include/lmkd.h:365-379 | the words of each record are at their places in network order, the size covers them, later words are untouched |
| Packets.NetworkOrder | include/lmkd.h:365-379 | a word on the wire has its most significant byte first |
| Packets.GetProcsPrio | include/lmkd.h:343-363 | refuses a field count that is no positive multiple of 4, else decodes that many records |
| Packets.ProcsRoundTrip | include/lmkd.h:343-379 | decoding undoes encoding for 1 to 3 records of any 32-bit values |
| Packets.SetTarget | include/lmkd.h:84-95 | each target's words are at their places, later words untouched |
| Packets.TargetsRoundTrip | include/lmkd.h:74-95 | decoding undoes encoding for up to 6 targets of any 32-bit values |
| KillPacket.BigEndianRead | statslog.cpp:252-274 | a big-endian reader recovers what the packers write |
| KillPacket.PackInts | statslog.cpp:252-274 | a row of integers is appended at the index and the rest of the packet is kept |
| KillPacket.PackString | statslog.cpp:284-296 | two length bytes, the name cut to 127 bytes and NULs up to 128; the index stops after one NUL |
| KillPacket.PackSetKillOccurred | statslog.cpp:298-337 | nothing is written when logging is off; else the first 214 of 222 bytes hold the report, the rest is kept, and the length is 87 plus the capped name length |
| KillPacket.PacketRoundTrip | statslog.cpp:298-337 | from the bytes sent a reader recovers every field, the two free figures cut to 32 bits and the name to 127 bytes |

## Left out

- Reading and parsing of /proc, cgroup, PSI and zoneinfo files: their parsed values are inputs.
- epoll, sockets, credentials, pipes, timers, BPF: only success or failure and the events delivered are modelled.
- Logging, tracing, statsd output other than the kill-occurred packet: no state that matters here.
- The in-kernel driver mode, memcg soft limits, CPU affinity and scheduling profiles: foreign interfaces.
- The old strategy's handler apart from its way to the search and its minfree table: it may start polling during a wait, so the polling invariant is stated for the new strategy.
- Client commands that start monitors, reinitialise or re-read properties: settings are fixed, and non-negative where the daemon casts them to unsigned.
- Overflow of 64-bit statistics and the narrowing of the thrashing peak to 32 bits: integers are unbounded in the decision.
- A right shift by 64 or more windows, undefined in the source, gives an arbitrary value.
- The call of the kill counters from a kill: the counters are modelled on their own history of scores.
- The task-name hash of the statistics log: the same chains as the registry's.
- The other fixed-layout command packets: only easy members.
- Counters.KillCounters.Get: requires a minimum of at least -1000, which the daemon does not check before it indexes its table.
- Watchdog.FindVictim: requires the registry to be unchanged during the sweep, as the daemon assumes when it steps to the neighbour of the previous pid.
- Watchdog.WatchdogCallback: requires that pid 0 is not registered, since 0 stands for no previous pid.
- PressureProperties.PerceptibleSpared: requires a minimum score of at least -1000, below which the source indexes outside its lists.
- PressureProperties.OneKillPerEvent: requires the same of the minimum score.
- PressureProperties.GrowthCarried: covers fewer than 64 passed windows.
