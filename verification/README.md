# A verified model of the kernel-facing half of the Broadcom `wl` driver

The project models what the C code around the binary radio library does by itself: the concurrent
protocol that defers work out of interrupts, timers and the network stack; the cfg80211 event queue and
connection machine; the information-element searches; and the buffer and word algorithms. The main
results are statements over all inputs, all runs or all interleavings; where the code falls short of what one
would expect, concrete runs and inputs show that it does.

`dafny verify dfyconfig.toml` checks everything.

## How it is built

Concurrent code appears twice. Once as an interleaving machine (`TxSpec`, `DpcSpec`, `TimerSpec`,
`EventQueue`, `Stats`), whose steps are the stretches of code between two lock operations or atomics,
with invariants proved of every step and theorems of every run. And once as imperative code on objects:
`DriverCode`, `EventQueue.EventList` and `Stats.Iface` carry a ghost copy of the machine that takes its step at
every interruptible point, and `TxQueue` is proved against the machine's locked stretches.
`Engine` puts transmit worker, DPC, multicast item, one-shot tasks and any number of timers together
under the driver lock and the one counter `callbacks`, and proves, rather than assumes, that the lock
excludes what the parts rely on.

`EngineDrain` adds that the engine works itself off, `EngineLoss` the runs in which it loses a count.

Sequential code is imperative throughout: `Cfg.Priv` updates its fields and is proved equal to the machine in
`CfgSpec`, whose runs `CfgRuns` reads in terms of the operations alone; `Lists`, `TxQueue`,
`Monitor` work on linked heap nodes; `Pmk`, `IeBuffer`, `Words`, `Monitor` update arrays in place; `Tlv`, `ScanFetch`, `Freq`, `Waits` keep the source's loops.

| modules | source |
|---|---|
| `TxSpec`, `TxQueue`, `DpcSpec`, `TimerSpec`, `Engine`, `EngineDrain`, `EngineLoss`, `DriverCode`, `Waits`, `Stats`, `Lists`, `Monitor` | `src/wl/sys/wl_linux.c` (`Waits` also `src/include/bcmutils.h`) |
| `EventQueue`, `CfgSpec`, `CfgRuns`, `Cfg`, `Pmk`, `IeBuffer`, `ScanFetch` | `src/wl/sys/wl_cfg80211_hybrid.c`, `.h` |
| `Tlv`, `Freq` | `src/wl/sys/wl_iw.c` |
| `Blocks`, `Words` | `src/include/bcmutils.h`, `src/include/bcmendian.h` |

`Common` holds what several modules share.

## Main results

* The counter identity, timer books, single DPC, transmit order and exact poll condition over every interleaving:
  `Engine.CallbacksCountTheWork`, `Engine.TimerBooks`, `Engine.OneDpcAndNoAssertion`,
  `Engine.NoLostWakeupAndFifo`, `Engine.PollEndsExactly`, `Engine.ResetRestoresMask`.
* The library is not entered while the interface is down, and no request is forgotten: `Engine.DownStaysOutOfLibrary`,
  `Engine.RequestsAreServed`.
* The engine works itself off completely, to the counts it has lost: `EngineDrain.DrainsCompletely`.
* The transmit queue on the heap: `TxQueue.Queue.Start`, `TxQueue.Queue.Take`.
* The event queue matches its semaphore, and shutdown ends: `EventQueue.QueueMatchesSemaphore`,
  `EventQueue.ShutdownEnds`.
* What connected means, and exactly-once reporting, each as an if-and-only-if over runs:
  `CfgRuns.ConnectedMeansAssociated`, `CfgRuns.ConnectResultsExactlyOnce`, `CfgRuns.ScansExactlyOnce`,
  `CfgRuns.BssidsAgree`, `CfgRuns.ActiveMeansActivated`, `CfgRuns.ProfileIsLastStored`.
* Statistics are read whole, up to one overlap and no further: `Stats.AtMostOneOverlapIsWhole`, `Stats.OverlapsMix`.
* Refinements and round trips: `Tlv.SearchVendor`, `IeBuffer.BufferRefinesList`, `Pmk.TableIsBoundedMap`,
  `Monitor.Deliver`, `ScanFetch.FetchedIsLeast`, `ScanFetch.InformBss`, `Words.PathsAgreeExactly`, `Freq.SetFreq`.

## What is assumed

* Kernel: `schedule_work` fails exactly when the item is already queued; the queued mark clears before the
  function runs; one work item never runs twice at once; `del_timer` succeeds exactly on a pending
  timer; `kthread_stop` returns once the thread is gone; `down_interruptible` fails only on a signal, which only
  the shutdown sends; a stream event is added only if it is smaller than the room left; signed 32-bit
  multiplication wraps, as the kernel is compiled; `kmalloc` of length 0 does not return null, and a store through
  what it returns faults.
* Radio library: `wlc_isr` asks for a DPC only with interrupts on, and turns them off when it does;
  `wlc_dpc` does not turn them on; going up passes through `wl_init` and only ends with no DPC
  outstanding; apart from that the library moves the interrupt mask only in pairs of `wl_intrsoff` and
  `wl_intrsrestore`, one at a time, and does not call `wl_intrson`, although it could
  (`src/wl/sys/wl_export.h:30-32`); the library calls back only while some thread holds the driver lock. `wl_down`, which lets
  go of that lock and takes it again (`src/wl/sys/wl_linux.c:1500-1515`), is called by users of the lock only, not by the
  library from inside the DPC, a timer function or the transmit and multicast workers.
* Scan results are packed records, as many as the count says or at least 256, each giving its own length.
* One reader of the statistics at a time: `wl_get_stats` copies into one buffer per interface.
* Ioctl results, allocation results, event addresses and the values a wait condition takes are parameters.

Constants of IEEE Std 802.11-2016 (section 9.4.2) that the repository takes from a header it does not
contain (vendor element id 221, RSN element id 48, OUI 00:50:F2) are written out. `bcm_parse_tlvs` has no
body in the repository; it is defined as the standard walk that `bcm_valid_tlv` and its prototype fix.

## Where the code does not do what one would expect

* `wl_timer` ignores a failed `wl_schedule_task` (`src/wl/sys/wl_linux.c:2381`). The expiry is lost and its
  count is never given back; if it was the last expiry of a timer not armed again, the timer stays set and
  never fires until it is deleted (`TimerSpec.OnlyLossStrands`, `TimerSpec.StrandedUntilDeleted`). The counts
  lost are exactly the allocations that failed (`Engine.StrandedAreLosses`); once everything else is worked off,
  `wl_free` stops waiting if and only if there was none (`EngineDrain.DrainsCompletely`). `EngineLoss.LossRun` is
  such a run; before the work is done, a poll may still catch the counter at zero inside a window
  (`EngineLoss.PollEndsDespiteLoss`).
* Most increments of `callbacks` follow the `schedule_work` they account for, so the counter can be zero
  (or below) with work queued: `Engine.ZeroIsNotAlwaysIdle`, and exactly when: `Engine.PollEndsExactly`. Likewise some
  code still runs after its own decrement (the multicast body, the DPC's `wl_intrson`), which the counter does not cover.
* The IBSS branch of `wl_notify_connect_status` treats a link-up as a link loss, and only that branch does
  (`CfgRuns.LinkUpDisconnectsExactlyInIbss`, `CfgRuns.AdhocLinkUpRun`).
* A connect accepted during another one, or a scan asked for over another one, breaks exactly-once
  reporting, and nothing else does (`CfgRuns.ConnectResultsExactlyOnce`, `CfgRuns.ScansExactlyOnce`, with the runs
  `CfgRuns.TwoConnectsOneResult`, `CfgRuns.FirstOfTwoScansIsLost`).
* A failed first allocation in the scan fetch leaves `err` at 0 (`ScanFetch.Fetch`). Beyond 2^31 needed octets no
  doubled length is enough, and after it has wrapped to 0 the code stores through an empty buffer
  (`ScanFetch.SomeSizeFits`, `ScanFetch.FetchedExactly`).
* `wl_iw_set_freq` does not check its product: the frequency is right if and only if the product fits in 32 bits
  (`Freq.SetFreq`, `Freq.NoOverflowExactly`); m = 3, e = 16 gives a wrong one (`Freq.ThreeTimesTenToTheTenOverflows`).
* `SPINWAIT` does not wait at all for the nine largest requests (`Waits.LimitCoversRequest`).
* The target of `wl_down` wraps if and only if more was returned than the counter held; the wait then ends although the
  counter has not dropped that far (`Waits.EarlyEndMeansDropped`, `Waits.WrappedTargetEndsAtOnce`).
* On i386 `xor_128bit_block` takes the word path unaligned too. It then gives the byte loop's result on all memories if and
  only if both sources are the same or the destination does not begin one to three octets behind either of
  them (`Words.PathsAgreeExactly`); otherwise `Words.PathsDiffer` names a memory.

## Model

| member | source | states |
|---|---|---|
| Engine.CallbacksCountTheWork | src/wl/sys/wl_linux.c:1878-2488 | in every interleaving of the whole driver, `callbacks` plus the threads between a successful schedule and its increment equals outstanding work plus counts stranded by failed allocations; with neither, zero means idle and idle means zero |
| Engine.TimerBooks | src/wl/sys/wl_linux.c:2352-2488 | for every timer in every interleaving, armings equal calls of `fn` plus cancellations plus the timer still being set; between entry points not set implies not pending, and set implies pending or an expiry in flight that will still look at it, unless a task allocation was lost |
| Engine.OneDpcAndNoAssertion | src/wl/sys/wl_linux.c:1973-2041 | in every interleaving at most one DPC is asked for, queued or running before its `wl_intrson`, with interrupts off meanwhile; while up, interrupts are on, or such a DPC exists, or `wl_reset` is about to turn them on again, and they are on only while up; no `ASSERT` of the handler or the DPC fails, no `schedule_work` of `wl_start` fails, no pending timer is added again |
| Engine.NoLostWakeupAndFifo | src/wl/sys/wl_linux.c:2231-2307 | in every interleaving of the whole driver: whenever `txq_lock` is free a non-empty queue has a dispatched, live worker and `schedule_work` cannot fail; delivered, in hand and queued packets are the accepted ones in order; offered is accepted plus dropped; the threshold holds |
| Engine.PollEndsExactly | src/wl/sys/wl_linux.c:1045-1046 | in every interleaving the counter is not positive, so that a poll of `wl_free` ends its wait, if and only if the open windows are at least the outstanding work plus the lost counts |
| Engine.ResetRestoresMask | src/wl/sys/wl_linux.c:1393-1411 | whatever the whole driver does between the two mask operations of `wl_reset`, interrupts stay off and then are as `wl_reset` found them |
| Engine.DownStaysOutOfLibrary | src/wl/sys/wl_linux.c:2004-2017 | over every run: once the interface is down and no DPC is inside the library, none enters it until the interface goes up |
| Engine.RequestsAreServed | src/wl/sys/wl_linux.c:1216-1241 | over every run, multicast requests that queued the item equal its runs plus the queued one, and tasks for which there was memory equal those finished plus those live |
| EngineDrain.DrainsCompletely | src/wl/sys/wl_linux.c:1878-2488 | from every reachable state without an armed periodic timer: while nothing new is asked for the whole engine takes a bounded number of steps; when it can take none nothing is outstanding, the lock is free, no DPC is live, every timer that lost no expiry has called `fn` or been cancelled for each arming, and the counter is the number of expiries dropped for lack of memory since attach, so that a poll ends the wait of `wl_free` if and only if there was none |
| TxQueue.Queue.Start | src/wl/sys/wl_linux.c:2219-2271 | `wl_start` on the heap list: acyclic, counted, tail last; drops exactly at the threshold and otherwise appends; the counter goes up exactly when the worker is scheduled |
| TxQueue.Queue.Take | src/wl/sys/wl_linux.c:2287-2304 | one locked stretch of the worker: unlink the first packet, or clear `txq_dispatched` and count down |
| EventQueue.QueueMatchesSemaphore | src/wl/sys/wl_cfg80211_hybrid.c:2802-2909 | in every interleaving the queue length is the semaphore count, the producers before `up` and the handler before its dequeue, so `BUG()` is unreachable; order is kept; only the flush after the thread's end discards |
| EventQueue.ShutdownEnds | src/wl/sys/wl_cfg80211_hybrid.c:2705-2748 | once signalled, the handler takes a bounded number of steps, and when there is none left it is dead, so that `kthread_stop` returns |
| CfgRuns.ConnectedMeansAssociated | src/wl/sys/wl_cfg80211_hybrid.c:2132-2198 | at every point of every run, in both modes and across mode changes, `CONNECTED` holds if and only if some operation gained the association (clean roam, ad hoc join, link-up answering a connect) and no later one lost it (link-down, deauthentication, disassociation, in ad hoc mode also link-up); `CONNECTING` if and only if an accepted connect is unanswered |
| CfgRuns.ConnectResultsExactlyOnce | src/wl/sys/wl_cfg80211_hybrid.c:1073-1079 | accepted connects equal connect results, plus one if one is unanswered, if and only if no connect was accepted while an earlier one was unanswered |
| CfgRuns.ScansExactlyOnce | src/wl/sys/wl_cfg80211_hybrid.c:543-582 | every request is completed once, refused once or outstanding, across completion, connect abort and interface down, if and only if no scan was asked for over an outstanding one |
| CfgRuns.BssidsAgree | src/wl/sys/wl_cfg80211_hybrid.c:2444-2501 | from a roam or a link-up that answers a connect until the next one, the next connect or a loss, `bssid` and `profile->bssid` are both its address |
| CfgRuns.ActiveMeansActivated | src/wl/sys/wl_cfg80211_hybrid.c:2132-2218 | at every point of every run `profile->active` holds if and only if some operation activated it (successful roam, ad hoc join with its channel, infrastructure link-up) and no later one is a loss |
| CfgRuns.ProfileIsLastStored | src/wl/sys/wl_cfg80211_hybrid.c:1039-2501 | at every point `profile->bssid` is what the last operation left that stored one: a connect's target even if its join failed, an address taken over, or zero after a loss |
| Stats.AtMostOneOverlapIsWhole | src/wl/sys/wl_linux.c:1763-1766 | over every run, with the copy field by field in any order, a reader overlapped by at most one watchdog run gets exactly the snapshot published when it entered |
| Stats.OverlapsMix | src/wl/sys/wl_linux.c:3270-3308 | for every number of overlaps from two on, from every state at rest, a run in which the reader ends with the first field of a snapshot published later and the old rest |
| Tlv.SearchVendor | src/wl/sys/wl_iw.c:992-1011 | the resume-after-mismatch loop ends, and returns exactly the first matching vendor element of a single walk over the whole buffer |
| IeBuffer.BufferRefinesList | src/wl/sys/wl_cfg80211_hybrid.c:3042-3079 | after every run of resets, appends and merges of well-formed streams the buffer is the encoding of a budgeted list of elements, at most 1024 octets, and walking it yields exactly that list |
| Pmk.TableIsBoundedMap | src/wl/sys/wl_cfg80211_hybrid.c:1570-1652 | after every run the array holds exactly the entries of a map bounded at 16 keys, keys unique, with the same verdict on every operation |
| Monitor.Deliver | src/wl/sys/wl_linux.c:2744-2989 | both passes together: the new packet holds the radiotap header, then the head frame from its seventh octet on, then every chained buffer at the sum of the lengths before it, and nothing else |
| ScanFetch.FetchedIsLeast | src/wl/sys/wl_cfg80211_hybrid.c:2558-2580 | with memory and no device error the size is the least 16384 * 2^k that is enough |
| ScanFetch.InformBss | src/wl/sys/wl_cfg80211_hybrid.c:1974-1992 | wrong version refused; otherwise record k is visited at the sum of the first k lengths: all of the first min(count, 256) with err 0 if none is longer than 2048 octets or refused by cfg80211, else up to and including the first such one, with -E2BIG if it is too long and its error otherwise |
| Words.PathsAgreeExactly | src/include/bcmutils.h:571-586 | for every memory size and every layout, word path and byte loop agree on all memories if and only if the sources are the same or the destination does not begin one to three octets behind either of them |
| Freq.SetFreq | src/wl/sys/wl_iw.c:373-392 | channel or frequency; the frequency is the product reduced to 32 bits or the truncated quotient, and is the right one if and only if the exact product fits |
| Engine.NothingOutstandingMeans | src/wl/sys/wl_linux.c:1975-2488 | zero outstanding work, and no open window, say exactly that no thread, item or timer is in any of the positions that count |
| Engine.NoRequestIsExcluded | src/wl/sys/wl_linux.c:1878-2381 | the machine lets every request, interrupt, expiry, packet and user come in every state in which nothing of the code holds it off |
| Engine.NoEntryPointIsExcluded | src/wl/sys/wl_linux.c:1393-2488 | and inside the library every entry point may be called and `wlc_dpc` may return anything |
| TxQueue.Queue.Work | src/wl/sys/wl_linux.c:2273-2307 | `wl_start_txqwork` undisturbed: sends everything queued, in order, signs off and gives its count back |
| CfgRuns.BssidIsLastStored | src/wl/sys/wl_cfg80211_hybrid.c:2167-2501 | at every point `bssid` is the address of the last operation that stored one, and otherwise unchanged |
| Engine.ZeroIsNotAlwaysIdle | src/wl/sys/wl_linux.c:1884-1890 | such a window exists: a run after which the counter is zero and a multicast item is queued |
| Engine.StrandedForGood | src/wl/sys/wl_linux.c:2375-2381 | stranded counts are exactly the expiries dropped for lack of memory, over every run, and none is given back; the counter is not positive if and only if the open windows are at least the work, the earlier stranded counts and the later losses together |
| Engine.StrandedAreLosses | src/wl/sys/wl_linux.c:2375-2381 | over every run the stranded counts grow by exactly the number of expiries dropped for lack of memory |
| EngineLoss.LossRun | src/wl/sys/wl_linux.c:2375-2381 | such a loss is reachable: a run of the whole engine from attach to one stranded count |
| EngineLoss.PollEndsDespiteLoss | src/wl/sys/wl_linux.c:2338-2350 | and a run from there after which the counter reads zero with the count still lost: a multicast item counts down before its request counts up |
| Engine.LockGivesExclusive | src/wl/sys/wl_linux.c:2385-2411 | the driver lock excludes, for every step it lets happen, everything the DPC and timer machines need excluded |
| Engine.ReachableHasInv | src/wl/sys/wl_linux.c:1878-2488 | every state of every run from the state after attach keeps lock ownership, the invariants of all components and the counter ledger |
| TxSpec.DrainsCompletely | src/wl/sys/wl_linux.c:2273-2307 | without new packets every run of the worker side has a bound, and when it can do no more everything accepted has been delivered in order and the counter share is zero |
| TxSpec.DropsExactlyAtThreshold | src/wl/sys/wl_linux.c:2233-2248 | a packet is dropped, leaving the queue alone, if and only if the threshold is positive and reached; any other one is accepted at the tail |
| TxSpec.OffersAreRecorded | src/wl/sys/wl_linux.c:2219-2248 | over every run the packets accounted for are exactly those offered |
| TxQueue.Queue.Free | src/wl/sys/wl_linux.c:2317-2336 | every remaining packet is released exactly once, in order, and the queue is empty |
| DpcSpec.StepKeepsInv | src/wl/sys/wl_linux.c:1973-2041 | each step of handler, DPC and mask keeps: one DPC, interrupts off, no failed assertion, interrupts never lost |
| DriverCode.Interrupts.Isr | src/wl/sys/wl_linux.c:1969-1991 | `wl_isr` step by step along the machine, both assertions proved, the counter incremented exactly in passive mode |
| DriverCode.Interrupts.DpcFn | src/wl/sys/wl_linux.c:1995-2046 | `wl_dpc` step by step along the machine: down (the library is not entered), rescheduled, or interrupts back on, with the counter in each case |
| DriverCode.Interrupts.Reset | src/wl/sys/wl_linux.c:1393-1411 | `wl_reset` leaves the mask as found and clears `resched` |
| DriverCode.Interrupts.BringUp | src/wl/sys/wl_linux.c:1393-1411 | going up through the steps of `wl_reset`: interrupts on, `resched` clear |
| TimerSpec.StepKeepsInv | src/wl/sys/wl_linux.c:2384-2488 | one arming is one call, one cancellation or still set; no pending timer is added; no timer is stranded without a lost allocation |
| TimerSpec.TimerShareOverRun | src/wl/sys/wl_linux.c:2363-2488 | over every run of a timer, what its code has added to the counter is its pending, in-flight and lost expiries |
| TimerSpec.OnlyLossStrands | src/wl/sys/wl_linux.c:2378-2381 | a step strands a timer if and only if it is a hand-over without memory of the last expiry of a timer that has not been armed again |
| TimerSpec.StrandedUntilDeleted | src/wl/sys/wl_linux.c:2459-2466 | a stranded timer never fires again, however often it is added, until it is deleted |
| DriverCode.TimerObj.Add | src/wl/sys/wl_linux.c:2449-2470 | `wl_add_timer` along the machine: an armed timer only takes the new period |
| DriverCode.TimerObj.Del | src/wl/sys/wl_linux.c:2472-2488 | `wl_del_timer` along the machine: only a pending expiry gives its count back |
| DriverCode.TimerObj.Expiry | src/wl/sys/wl_linux.c:2363-2382 | `wl_timer` in both modes, with and without memory for the task |
| DriverCode.TimerObj.FnBegin | src/wl/sys/wl_linux.c:2384-2399 | `_wl_timer` calls `fn` exactly when set and not pending, re-arming a periodic timer first and clearing `set` otherwise |
| DriverCode.TimerObj.FnEnd | src/wl/sys/wl_linux.c:2353-2410 | one count for the expiry and, in passive mode, one for the task |
| DriverCode.OneShot | src/wl/sys/wl_linux.c:2352-2470 | a one-shot timer from arming to the end of its expiry in either mode: `fn` called, counter as before |
| Waits.LimitCoversRequest | src/include/bcmutils.h:66-74 | the limit covers the requested time if and only if rounding up does not wrap; then it overshoots by less than one period, otherwise there is no wait at all |
| Waits.WaitForCallbacks | src/wl/sys/wl_linux.c:1497-1513 | `wl_down` waits in both modes exactly while the counter, compared unsigned, is above the target, at most 10000 steps: it ends at the first read that has dropped by what was returned |
| Waits.EarlyEndMeansDropped | src/wl/sys/wl_linux.c:1497-1513 | a wait that ends early has seen the counter drop by what was returned if and only if the subtraction did not wrap; a wrapped target ends it at once |
| Waits.WrappedTargetEndsAtOnce | src/wl/sys/wl_linux.c:1497-1513 | an input: with the counter staying at 3, a returned 4 ends the wait at once, a returned 3 never |
| Stats.Iface.Watchdog | src/wl/sys/wl_linux.c:3270-3308 | the fields one after the other along the machine, then `stats_id`: publishes when up, changes nothing when down |
| Stats.Iface.GetStats | src/wl/sys/wl_linux.c:1763-1766 | the fields copied along the machine: ends with the published half |
| Lists.List.Prepend | src/wl/sys/wl_linux.c:2438-2439 | `wl_init_timer` puts exactly one node in front |
| Lists.List.FreeTimer | src/wl/sys/wl_linux.c:2497-2520 | `wl_free_timer` unlinks exactly the named node wherever it sits and frees it; an absent one is neither unlinked nor freed |
| Lists.List.Append | src/wl/sys/wl_linux.c:1260-1267 | `wl_alloc_if` puts exactly one node at the end |
| Lists.List.FreeIf | src/wl/sys/wl_linux.c:1291-1299 | `wl_free_if` unlinks exactly the named node, or nothing when it is absent |
| Lists.WithoutKeepsOrder | src/wl/sys/wl_linux.c:2508-2520 | the other nodes keep their order |
| Monitor.Length | src/wl/sys/wl_linux.c:2744-2754 | the length pass computes header, head frame without its six PHY octets, and all chained lengths |
| Monitor.Fill | src/wl/sys/wl_linux.c:2977-2989 | the copy pass fills a buffer of the length found with the head frame from its seventh octet on and each chained buffer at the sum of the lengths before it, and leaves the header in front alone |
| EventQueue.HandlesEverything | src/wl/sys/wl_cfg80211_hybrid.c:2807-2831 | without shutdown every accepted event is handled, in order, in a bounded number of steps |
| EventQueue.DetachRun | src/wl/sys/wl_cfg80211_hybrid.c:2705-2748 | from every state there is the whole shutdown: signal, stop, the handler's end, flush; then nothing is queued and every accepted event was handled or discarded |
| EventQueue.StoppedHandlesNoMore | src/wl/sys/wl_cfg80211_hybrid.c:2813-2815 | a thread told to stop before its stop test handles nothing any more |
| EventQueue.FlushAccountsForAll | src/wl/sys/wl_cfg80211_hybrid.c:2742-2748 | after the flush the queue is empty and every accepted event was handled or discarded, in order |
| EventQueue.EventList.Enq | src/wl/sys/wl_cfg80211_hybrid.c:2883-2904 | `wl_enq_event` is the machine's step: appends, or fails and queues nothing |
| EventQueue.EventList.Deq | src/wl/sys/wl_cfg80211_hybrid.c:2868-2880 | `wl_deq_event` is the machine's step: takes the oldest event, and in the handler there always is one |
| EventQueue.EventList.Notify | src/wl/sys/wl_cfg80211_hybrid.c:2833-2849 | `wl_cfg80211_event`: the handler is woken only if the event was queued |
| EventQueue.EventList.HandleNext | src/wl/sys/wl_cfg80211_hybrid.c:2807-2831 | once around `wl_event_handler`, with the `BUG()` branch proved unreachable; a thread told to stop handles nothing |
| EventQueue.EventList.FlushAll | src/wl/sys/wl_cfg80211_hybrid.c:2855-2866 | `wl_flush_eq` is the machine's step: frees every queued event, oldest first |
| CfgSpec.ConnectedIsActive | src/wl/sys/wl_cfg80211_hybrid.c:2115-2218 | at every event boundary, in both modes, `CONNECTED` implies `profile->active` |
| CfgRuns.LinkUpDisconnectsExactlyInIbss | src/wl/sys/wl_cfg80211_hybrid.c:2132-2191 | for every state and mode, a link-up ends a connection if and only if the mode is IBSS, where `~(flags & WLC_EVENT_MSG_LINK)` is always true |
| CfgRuns.AdhocLinkUpRun | src/wl/sys/wl_cfg80211_hybrid.c:2167-2191 | a run from the start in which that happens |
| CfgRuns.TwoConnectsOneResult | src/wl/sys/wl_cfg80211_hybrid.c:2494-2506 | a run in which the equation fails: two connects, one result |
| CfgRuns.FirstOfTwoScansIsLost | src/wl/sys/wl_cfg80211_hybrid.c:543-582 | a run in which the equation fails: two scans, one report |
| Cfg.Priv.ChangeIface | src/wl/sys/wl_cfg80211_hybrid.c:466-513 | `wl_cfg80211_change_iface`: the mode is set before the two ioctls and stays when one fails; each error exit |
| Cfg.Priv.Scan | src/wl/sys/wl_cfg80211_hybrid.c:516-582 | `wl_cfg80211_scan`: recorded first, taken back when refused |
| Cfg.Priv.Connect | src/wl/sys/wl_cfg80211_hybrid.c:1003-1080 | `wl_cfg80211_connect`: the target address is stored before the join can fail |
| Cfg.Priv.Disconnect | src/wl/sys/wl_cfg80211_hybrid.c:1084-1106 | `wl_cfg80211_disconnect`: the device is asked only while the profile is active, otherwise an error |
| Cfg.Priv.BssConnectDone | src/wl/sys/wl_cfg80211_hybrid.c:2474-2512 | `wl_bss_connect_done`: reports an outstanding scan as aborted, reports a connect in progress once, with the new address only on success |
| Cfg.Priv.NotifyConnectStatus | src/wl/sys/wl_cfg80211_hybrid.c:2115-2201 | `wl_notify_connect_status`, both modes, with what is reported to cfg80211 in each case and the one error it returns |
| Cfg.Priv.RoamingDone | src/wl/sys/wl_cfg80211_hybrid.c:2424-2472 | `wl_bss_roaming_done` with its two error exits |
| Cfg.Priv.NotifyRoamingStatus | src/wl/sys/wl_cfg80211_hybrid.c:2203-2218 | `wl_notify_roaming_status`: an error of the roam is returned, but `active` has been set all the same |
| Cfg.Priv.ScanCompleted | src/wl/sys/wl_cfg80211_hybrid.c:2589-2603 | the end of `wl_notify_scan_status`: an outstanding scan is reported as not aborted |
| Cfg.Priv.InterfaceDown | src/wl/sys/wl_cfg80211_hybrid.c:3017-3035 | `wl_cfg80211_down`: an outstanding scan is reported as aborted |
| ScanFetch.Fetch | src/wl/sys/wl_cfg80211_hybrid.c:2558-2587 | for every size needed the loop ends, in exactly one way, after at most 19 attempts; every buffer allocated is freed exactly once, but for the last one of a fault; the error is as in each exit of the code (0 when the first allocation fails) |
| ScanFetch.FetchedExactly | src/wl/sys/wl_cfg80211_hybrid.c:2558-2580 | with memory and no device error the answer is fetched if and only if at most 2^31 octets are needed; beyond that a store into a buffer of length 0 faults |
| ScanFetch.SomeSizeFits | src/wl/sys/wl_cfg80211_hybrid.c:2558-2572 | a 32-bit `buflen` can ever be large enough if and only if at most 2^31 octets are needed |
| Pmk.SetKeepsOrder | src/wl/sys/wl_cfg80211_hybrid.c:1578-1588 | overwriting keeps every key in place, a new key goes last |
| Pmk.RemoveKeepsOrder | src/wl/sys/wl_cfg80211_hybrid.c:1623-1631 | deleting closes the gap and keeps the order of the rest |
| Pmk.PmkList.SetPmksa | src/wl/sys/wl_cfg80211_hybrid.c:1570-1599 | `wl_cfg80211_set_pmksa` on the array: overwritten in place, appended below 16, or unchanged with -EINVAL |
| Pmk.PmkList.DelPmksa | src/wl/sys/wl_cfg80211_hybrid.c:1601-1640 | `wl_cfg80211_del_pmksa` on the array: exactly that entry cut out, or unchanged with -EINVAL |
| Pmk.PmkList.FlushPmksa | src/wl/sys/wl_cfg80211_hybrid.c:1642-1652 | `wl_cfg80211_flush_pmksa` empties the table |
| IeBuffer.WalkInvertsEncode | src/wl/sys/wl_cfg80211_hybrid.c:3058-3061 | walking what `wl_add_ie` built yields exactly the (type, value) sequence |
| IeBuffer.EncodeInvertsWalk | src/wl/sys/wl_cfg80211_hybrid.c:3066-3079 | a well-formed stream is the encoding of its parse |
| IeBuffer.MergeConcatenates | src/wl/sys/wl_cfg80211_hybrid.c:3066-3079 | appending any octets to a well-formed stream concatenates the parses |
| IeBuffer.ItemsAreElements | src/include/bcmutils.h:558-564 | the items are the data of the elements of the standard walk |
| IeBuffer.Ie.Add | src/wl/sys/wl_cfg80211_hybrid.c:3049-3064 | `wl_add_ie`: accepted exactly if it fits, and then the content is the old one and the element |
| IeBuffer.Ie.Mrg | src/wl/sys/wl_cfg80211_hybrid.c:3066-3079 | `wl_mrg_ie`: accepted exactly if it fits, and then the content is the old one and the stream |
| IeBuffer.Ie.Cp | src/wl/sys/wl_cfg80211_hybrid.c:3081-3093 | `wl_cp_ie`: accepted exactly if the target is large enough, and then the whole content is copied, so its extra guard never matters |
| Tlv.HandleScanResultsIes | src/wl/sys/wl_iw.c:970-1018 | the elements reported are the first RSN, the first WPS and the first WPA element of one walk, each if it fits into what the ones before it left; together they take less than the room |
| Tlv.IeIsVendor | src/wl/sys/wl_iw.c:931-967 | `ie_is_wpa_ie` and `ie_is_wps_ie`: no change on a match, otherwise the remaining length strictly drops and stays non-negative |
| Tlv.VendorOctets | src/wl/sys/wl_iw.c:936-957 | what makes a match, octet by octet |
| Tlv.WpsIsNotWpa | src/wl/sys/wl_iw.c:931-967 | no element matches both searches |
| Tlv.ParseTlvs | src/include/bcmutils.h:614-619 | the walk of `bcm_parse_tlvs` |
| Tlv.FindIsFirst | src/include/bcmutils.h:558-564 | it returns the first complete element with the id, or none if there is none |
| Freq.MegahertzIsFloor | src/wl/sys/wl_iw.c:379-386 | for a non-negative mantissa that is the floor of m * 10^e / 10^6 |
| Freq.MegahertzIsOdd | src/wl/sys/wl_iw.c:383-386 | for a negative mantissa it is the negative of that, truncated towards zero |
| Freq.NoOverflowExactly | src/wl/sys/wl_iw.c:379-382 | no step of the multiplying loop overflows if and only if the final product fits |
| Freq.ThreeTimesTenToTheTenOverflows | src/wl/sys/wl_iw.c:379-382 | an input whose result is wrong: m = 3, e = 16 |
| Words.Xor128bitBlock | src/include/bcmutils.h:568-587 | `xor_128bit_block`: off i386 the bytewise result for every overlap; on i386 the word result, which is the bytewise one under the exact condition of `Words.PathsAgreeExactly` |
| Words.PathsDiffer | src/include/bcmutils.h:571-586 | otherwise the memory that tells them apart |
| Words.XoredIsPointwise | src/include/bcmutils.h:568-587 | every octet of the destination is the exclusive or of the sources, also when it is a source, and nothing else changes |
| Blocks.WordsAgreeWithOctets | src/include/bcmutils.h:575-586 | four octets at a time equal one at a time for any operation and any overlap that keeps clear |
| Blocks.OverlapAt | src/include/bcmutils.h:571-586 | for any operation, the octet at which the two ways part and what each leaves there |
| Words.Swap16Buf | src/include/bcmendian.h:125-132 | `bcmswap16_buf` swaps len / 2 words and leaves an odd last octet alone |
| Words.SwappedTwice | src/include/bcmendian.h:125-132 | it is its own inverse |
| Words.Swap64IsHalvesThenEach | src/include/bcmendian.h:43-55 | `BCMSWAP64` equals swapping the halves and then each half |
| Words.LoadOfStore | src/include/bcmendian.h:86-184 | every unaligned load undoes its store |
| Words.ByteOrder | src/include/bcmendian.h:29-164 | which octet goes where in every swap, load and store |
| Words.OrdersDifferBySwap | src/include/bcmendian.h:134-164 | network and little-endian stores differ exactly by a swap |

## Left out

- Engine.TimerBooks: books of a timer that is freed while an expiry is in flight; `wl_free_timer` is taken to be called with none, and timers are never removed from the engine's sequence.
- EngineDrain.DrainsCompletely: bounds the steps and says what is left when none is possible; that the kernel scheduler lets every thread go on is not modelled.
- DriverCode.OneShot: the functions of `DriverCode` run uninterrupted; interleavings of the same steps are the subject of `Engine`.
- Monitor.Deliver: the 32-bit length does not wrap, because a chain of that size cannot exist in memory; the radiotap fields are opaque octets.
- IeBuffer.Ie.Mrg: the 16-bit truncation of the stream length happens in the caller and is not modelled.
- Freq.SetFreq: `wf_mhz2channel` and the ioctl after it are foreign.
- Pmk.PmkList.SetPmksa: addresses and identifiers are numbers rather than octet arrays, since the code only copies and compares them whole; slots behind the count are unconstrained.
- ScanFetch.Fetch: what becomes of the thread after the fault.
- ScanFetch.InformBss: the conversion of a record into a cfg80211 report is a parameter except for its length limit of 2048.
- Stats.AtMostOneOverlapIsWhole: the copy is taken field by field, not octet by octet, and stores are seen in program order; the 14 assignments are one loop over the fields, and the wireless statistics beside them follow the same pattern.
- Tlv.HandleScanResultsIes: the size of the kernel's event header is a parameter.
- EventQueue.EventList.Enq: the doubly linked kernel list is a sequence, because `list_add_tail` and `list_del` are foreign code; interleavings are the subject of the machine beside it.
- Cfg.Priv.NotifyConnectStatus: channel, association elements and signal grade that go with the reports.
- Non-passive transmit through the tasklet on SMP routers (`WL_RTR`), where no `schedule_work` is involved.
- The radio library, PCI probe and remove, rfkill, procfs, ethtool, copies to user space and netdev registration: foreign calls.
- The multicast address list itself, and the wireless-extensions PMK table, which decrements its count even when nothing matched (`src/wl/sys/wl_iw.c:1914-1926`).
- `wl_cfg80211_set_wiphy_params`, which returns after the first successful setting.
- Ownership of the association element copies, key installation, cipher and authentication switches, and signal grading: each settled by one branch.
