# Verified model of linux-kernel-development

A Dafny 4.11 model of three programs of the repository, with proofs about it:

- the **rate-monotonic scheduler** (`rate-monotonic-scheduler/`): its lock-protected steps as a transition
  system, the code that performs them on its own heap, its admission test, and the command line between
  the user program and the module;
- the **page-fault profiler** (`page-fault-profiler/`): read-and-clear counters, the wrapping sample
  buffer, and the monitor that drains it;
- the **inner-unikernel runtime** (`rust-inner-unikernels/`): intrusive lists on the heap, the latch-protected
  clock reader and its arithmetic, bitfield storage, the IP header checksum, and the map relocation
  of the loader.

`dafny verify dfyconfig.toml` checks everything.

## How it is built

Where the source updates state in place the model does too: classes, arrays, heap nodes and loops, each
method proved against a function of the old state. What the source promises is then proved about those
functions, over every input, every interleaving or every run.

| file | models |
|---|---|
| `SchedulerModel.dfy`, `SchedulerProofs.dfy` | mp2.c as a transition system; what every run satisfies |
| `SchedulerEffects.dfy` | what each lock hold does, field by field; where every task of a run comes from |
| `Scheduler.dfy` | the code of mp2.c over task structures; it refines the transition system |
| `Admission.dfy` | what the admission test does and does not guarantee |
| `CommandLine.dfy` | the lines userapp.c prints and mp2_write parses |
| `ListRings.dfy`, `HashLists.dfy` | list.h on the heap |
| `ProfilerModel.dfy`, `ProfilerProofs.dfy` | mp3.c as a transition system, access by access; conservation |
| `ProfilerEffects.dfy` | what each event and each access does, field by field; what a whole sample writes |
| `Profiler.dfy` | the code of mp3.c and monitor.c; it refines the transition system |
| `SampleRing.dfy` | the sample buffer, first in first out |
| `LatchClock.dfy`, `Timekeeping.dfy` | the clock reader against every writer interleaving; its arithmetic |
| `Bits.dfy`, `Bitfield.dfy` | bitwise operators; the bitfield storage unit and its two layouts |
| `Checksum.dfy` | the IP checksum against RFC 1071 |
| `MapPatch.dfy` | collecting map records and patching the image |
| `Words.dfy`, `Sequences.dfy`, `Wrappers.dfy` | machine integers and shared helpers |

## What was found

- **Scheduler.** No job is dispatched before its release, releases do not drift, and the timer of a listed task
  that has yielded stays armed. But nothing ever clears `mp2_curr_task`, so the periods of the tasks switched to
  decrease strictly over a run, and each task is switched to, and woken, at most once (`SwitchPeriodsDecrease`),
  although section 6 of `rate-monotonic-scheduler/README.md` asks for a switch per job. A pass leaves a released
  job waiting while nothing listed is RUNNING exactly when `mp2_curr_task` is off the list or not RUNNING and its
  period is no longer than that of any waiting job (`LeftIdleIff`); a single task's second job is such a one
  (`SecondJobWaits`), and no later pass ever switches to it (`LeftIdleForever`). A pass makes a sleeping
  task READY (line 112, against line 315 of that file) exactly when it switches away from a current task that
  sleeps (`WakesSleeperIff`, with a reachable state in `SleeperIsWoken`). It is harmless only because of the same
  fact (`WokenSleeperNeverRuns`).
- **Admission.** The code compares the sum of processing times with the sum of periods. Every set within
  the bound of line 358 of that file is accepted. For given periods acceptance implies the bound exactly when
  the most processing time that is accepted, put on the shortest period, stays within it
  (`AcceptanceImpliesBoundIff`); away from overflow that takes a candidate that is alone, with no multiple of
  1000 between 693 and 694 times its period (`AcceptanceImpliesBoundIffAlone`). The test is exact only until a
  product wraps (`ExactIff`), and with overflow every set of periods whose sum is not zero in a word has an
  overloaded set that is accepted (`OverflowBreaksBound`). A deregistration can leave a set that fails the test.
- **Profiler.** The list lock does not stop tasks from faulting during a sample. Nothing is lost exactly when no
  fault comes between a counter's read and its clear in get_cpu_use (`ConservedIff`). The monitor wraps at 48000
  words and the sampler at 65536, so a run whose samples have no word -1 is first in, first out exactly when it
  has at most 12000 samples (`FifoIff`).
- **Clock reader.** A successful read uses one published snapshot, the last one, in every interleaving
  with fewer than 2^32 sequence bumps inside an iteration; the bound is exact (`SafeIffBelowRange`).
- **Checksum.** The single fold gives the checksum of RFC 1071 exactly when it fits in 16 bits; otherwise the
  result is one too large and a receiver's check fails (`CodeAgainstRfc`).

## Assumptions

- In the scheduler each lock hold is one atomic step, and jiffies is unbounded. `msecs_to_jiffies` and
  `jiffies_to_msecs` are arbitrary functions. Freed task structures are not reused.
- In the profiler each read and each clear of a counter is one atomic step, and so is each addition a task makes to
  its counters; the four stores of a record are one step, and a run of the monitor is one.
- Memory is sequentially consistent. The writer of the clock snapshots is not in the repository; it follows the
  latch scheme of Linux `Documentation/locking/seqlock.rst`: bump, write copy 0, bump, write copy 1.
- `fprintf`, `strsep`, `kstrtoint` and `kstrtoul` do what they are documented to do. Pages have 4096 bytes,
  `unsigned long` has 64 bits, and the image is little-endian.
- Arithmetic in the Rust code wraps, as in a release build.

## Model

| member | source | states |
|---|---|---|
| `SchedulerModel.FirstWithPid` | rate-monotonic-scheduler/mp2.c:406-411 | the search loops find the first listed structure with the pid, or none |
| `SchedulerModel.ScanIsCurrOrListed` | rate-monotonic-scheduler/mp2.c:89-103 | the dispatcher's loop ends with the current structure, or with the earliest listed READY one of least period when that is strictly shorter |
| `SchedulerModel.Next` | rate-monotonic-scheduler/mp2.c:84-141 | every event keeps listed pids distinct and every handle in range |
| `SchedulerProofs.NextKeepsInv` | rate-monotonic-scheduler/mp2.c:84-480 | every event keeps the invariant: RUNNING only for mp2_curr_task, an unreleased READY structure has a longer period than the current one, timers and deadlines on schedule |
| `SchedulerProofs.InsertKeepsInv` | rate-monotonic-scheduler/mp2.c:328-381 | insertion keeps the invariant |
| `SchedulerProofs.YieldKeepsInv` | rate-monotonic-scheduler/mp2.c:400-437 | yielding keeps the invariant |
| `SchedulerProofs.FireKeepsInv` | rate-monotonic-scheduler/mp2.c:171-201 | the timer callback keeps the invariant |
| `SchedulerProofs.DispatchKeepsInv` | rate-monotonic-scheduler/mp2.c:89-141 | a dispatcher pass keeps the invariant |
| `SchedulerProofs.DeregisterKeepsInv` | rate-monotonic-scheduler/mp2.c:453-480 | deregistration keeps the invariant |
| `SchedulerProofs.RunKeepsInv` | rate-monotonic-scheduler/mp2.c:84-480 | the invariant holds after every sequence of events |
| `SchedulerProofs.OneRunningTask` | rate-monotonic-scheduler/mp2.c:108-121 | in every reachable state listed pids are distinct and only mp2_curr_task can be RUNNING |
| `SchedulerProofs.NoJobBeforeItsRelease` | rate-monotonic-scheduler/mp2.c:98-123 | whatever a pass makes RUNNING has had its timer fire since it last slept, and the deadline it slept for has passed |
| `SchedulerProofs.DriftFree` | rate-monotonic-scheduler/mp2.c:188-195 | deadline = r + (k+1)p, deadline <= now + p, kp <= now - r, and no armed timer expires before the deadline |
| `SchedulerProofs.TimerStaysArmed` | rate-monotonic-scheduler/mp2.c:413-426 | after its first yield a listed structure always has its timer armed, due at the deadline or due already |
| `SchedulerProofs.DeregisteredIsGone` | rate-monotonic-scheduler/mp2.c:457-469 | deregistration takes the pid off the list and nothing else |
| `SchedulerProofs.DeregisterUndoesInsert` | rate-monotonic-scheduler/mp2.c:333-368 | registering a new pid and deregistering it restores the list |
| `SchedulerProofs.SwitchTarget` | rate-monotonic-scheduler/mp2.c:106-121 | a switch goes to a listed READY structure of strictly shorter period, which becomes mp2_curr_task |
| `SchedulerProofs.PassLeavesLeastPeriod` | rate-monotonic-scheduler/mp2.c:89-123 | after a pass no listed READY structure has a shorter period than mp2_curr_task |
| `SchedulerProofs.PassSwitchesIff` | rate-monotonic-scheduler/mp2.c:98-106 | a pass switches iff some listed READY structure has a strictly shorter period; the choice is the earliest of least period, so ties keep the current one |
| `SchedulerProofs.SecondPassIsIdle` | rate-monotonic-scheduler/mp2.c:89-123 | an immediate second pass changes nothing |
| `SchedulerProofs.LeftIdleIff` | rate-monotonic-scheduler/mp2.c:89-106 | in a reachable state a pass leaves a READY structure waiting with nothing listed RUNNING iff mp2_curr_task is off the list or not RUNNING and its period is at most that of every READY one |
| `SchedulerProofs.LeftIdleForever` | rate-monotonic-scheduler/mp2.c:89-106 | no pass of any continuation switches to a structure so left |
| `SchedulerProofs.SecondJobWaits` | rate-monotonic-scheduler/mp2.c:106-121 | a reachable state with one registered task, released for its second job and left waiting |
| `SchedulerProofs.NextKeepsPeriods` | rate-monotonic-scheduler/mp2.c:91-121 | no event lengthens the current period or changes a period |
| `SchedulerProofs.SwitchPeriodsDecrease` | rate-monotonic-scheduler/mp2.c:106-121 | over any run the periods of the structures switched to decrease strictly, so each is switched to at most once |
| `SchedulerProofs.NeverDispatchedAgain` | rate-monotonic-scheduler/mp2.c:99-121 | once a period p has been dispatched, nothing of period p or longer ever is |
| `SchedulerProofs.WakesSleeperIff` | rate-monotonic-scheduler/mp2.c:106-113 | a pass makes a sleeping structure READY iff it is mp2_curr_task, asleep, and the pass switches |
| `SchedulerProofs.WokenSleeperNeverRuns` | rate-monotonic-scheduler/mp2.c:99-121 | a structure demoted in its sleep is never switched to for the rest of the run |
| `SchedulerProofs.SleeperIsWoken` | rate-monotonic-scheduler/mp2.c:108-113 | a reachable state in which a pass makes a sleeping structure READY before its deadline |
| `SchedulerEffects.AdmitEffect` | rate-monotonic-scheduler/mp2.c:320-323 | a request that is not admitted leaves the state as it was; one that is may be inserted once |
| `SchedulerEffects.InsertEffect` | rate-monotonic-scheduler/mp2.c:343-368 | the new structure stands last, with the pid, period and processing time requested, SLEEPING, its deadline one period from now |
| `SchedulerEffects.InsertRefused` | rate-monotonic-scheduler/mp2.c:333-363 | a listed pid, no memory or no such process adds nothing |
| `SchedulerEffects.YieldEffect` | rate-monotonic-scheduler/mp2.c:404-426 | only the structure with the pid changes: before its deadline it sleeps with the timer at the deadline, else the timer is due now |
| `SchedulerEffects.YieldUnlisted` | rate-monotonic-scheduler/mp2.c:404-413 | a pid that is not listed changes nothing |
| `SchedulerEffects.FireEffect` | rate-monotonic-scheduler/mp2.c:186-195 | only the timer's structure changes: READY, deadline and timer one period on |
| `SchedulerEffects.DispatchEffect` | rate-monotonic-scheduler/mp2.c:106-121 | a switch makes its target RUNNING and current, the structure it replaces READY, and changes no other |
| `SchedulerEffects.DispatchIdle` | rate-monotonic-scheduler/mp2.c:89-106 | a pass that does not switch changes nothing; with no current structure it switches to any period below ULONG_MAX |
| `SchedulerEffects.DeregisterEffect` | rate-monotonic-scheduler/mp2.c:457-469 | the structure with the pid leaves the list with its timer stopped; nothing else changes |
| `SchedulerEffects.DeregisterUnlisted` | rate-monotonic-scheduler/mp2.c:457-469 | a pid that is not listed changes nothing |
| `SchedulerEffects.TaskWasRequested` | rate-monotonic-scheduler/mp2.c:320-368 | in every run each structure was inserted on an admitted request and still has the pid, period and processing time requested |
| `SchedulerEffects.AdmissionsBalance` | rate-monotonic-scheduler/mp2.c:320-368 | pending requests and those used by insertions are exactly the admitted ones, so no admission is used twice |
| `Scheduler.Mp2.Advance` | rate-monotonic-scheduler/mp2.c:353 | the clock moves forward |
| `Scheduler.Mp2.Highest` | rate-monotonic-scheduler/mp2.c:89-103 | the loop computes the model's choice |
| `Scheduler.Mp2.DispatcherPass` | rate-monotonic-scheduler/mp2.c:89-141 | one pass performs the dispatch event |
| `Scheduler.Mp2.Preempt` | rate-monotonic-scheduler/mp2.c:107-113 | the current structure, if any, is demoted to READY |
| `Scheduler.Mp2.SwitchOver` | rate-monotonic-scheduler/mp2.c:120-121 | the chosen structure is RUNNING and current |
| `Scheduler.Mp2.TimerCallback` | rate-monotonic-scheduler/mp2.c:161-214 | the callback performs the fire event |
| `Scheduler.Mp2.MakeReady` | rate-monotonic-scheduler/mp2.c:189-193 | the callback's loop body releases the structure and re-arms its timer one period on |
| `Scheduler.Mp2.AdmissionControl` | rate-monotonic-scheduler/mp2.c:247-288 | the two wrapping totals and the fixed-point test give the model's verdict |
| `Scheduler.Mp2.RegistrationCheck` | rate-monotonic-scheduler/mp2.c:320-323 | the first lock hold performs the admission event; result 0, 1, or the trap of a division by zero |
| `Scheduler.Mp2.RegistrationInsert` | rate-monotonic-scheduler/mp2.c:325-381 | the second lock hold performs the insertion event, with the result codes |
| `Scheduler.Mp2.FindPid` | rate-monotonic-scheduler/mp2.c:333-341 | the search loop |
| `Scheduler.Mp2.YieldTask` | rate-monotonic-scheduler/mp2.c:390-437 | the yield handler performs the yield event |
| `Scheduler.Mp2.Deregistration` | rate-monotonic-scheduler/mp2.c:444-480 | the handler performs the deregistration event |
| `Scheduler.Perform` | rate-monotonic-scheduler/mp2.c:656-670 | each event is performed by its method |
| `Scheduler.Execute` | rate-monotonic-scheduler/mp2.c:84-480 | any sequence of lock holds leaves the code in the state of the model's run |
| `Admission.AdmissionIsAccepted` | rate-monotonic-scheduler/mp2.c:257-281 | an admission check is the test on the listed demands and the candidate's |
| `Admission.LoadMembers` | rate-monotonic-scheduler/mp2.c:257-267 | the load is the period and processing time of each listed structure and of the candidate |
| `Admission.LoadWasRequested` | rate-monotonic-scheduler/mp2.c:257-267 | in a run each part of the load is what an admitted and inserted request asked for |
| `Admission.TrapIff` | rate-monotonic-scheduler/mp2.c:279-281 | the check divides by zero iff the periods add up to zero in a word; otherwise it rejects what it does not accept |
| `Admission.AcceptedIff` | rate-monotonic-scheduler/mp2.c:279-281 | without overflow the test is 1000 ΣC < 694 ΣP |
| `Admission.WithinBoundIsAccepted` | rate-monotonic-scheduler/mp2.c:257-281 | every set with ΣC/P <= 0.693 is accepted |
| `Admission.AcceptedUtilisation` | rate-monotonic-scheduler/mp2.c:257-281 | every accepted set has utilisation below 0.694 (ΣP / shortest P) |
| `Admission.TwoTasksOverload` | rate-monotonic-scheduler/mp2.c:257-281 | for any two or more periods there are accepted processing times with utilisation at least 0.694 |
| `Admission.OverloadAcceptedIffOthers` | rate-monotonic-scheduler/mp2.c:257-281 | acceptance keeps utilisation below 0.694 iff the candidate is alone |
| `Admission.AcceptanceImpliesBoundIff` | rate-monotonic-scheduler/mp2.c:257-281 | for any periods, acceptance implies ΣC/P <= 0.693 iff the most accepted time on the shortest period does |
| `Admission.AcceptanceImpliesBoundIffAlone` | rate-monotonic-scheduler/mp2.c:257-281 | away from overflow, acceptance implies the bound iff the candidate is alone and 1000 (693 P / 1000 + 1) >= 694 P; never for P above 1000 |
| `Admission.LoneAboveBound` | rate-monotonic-scheduler/mp2.c:279-281 | a lone candidate accepted at utilisation 0.6935 |
| `Admission.AcceptedWithout` | rate-monotonic-scheduler/mp2.c:457-469 | exactly when an accepted set still passes after a deregistration |
| `Admission.DeregistrationCanUnadmit` | rate-monotonic-scheduler/mp2.c:257-281 | an accepted set whose remainder fails the test |
| `Admission.ExactIff` | rate-monotonic-scheduler/mp2.c:279-281 | the verdict is right for all processing totals up to n iff 1000 n fits in a word or n passes anyway |
| `Admission.OverflowBreaksBound` | rate-monotonic-scheduler/mp2.c:257-281 | with overflow, any periods have an accepted set above 0.693 iff their sum does not wrap to zero |
| `Admission.OverflowIsAccepted` | rate-monotonic-scheduler/mp2.c:279-281 | a wrapped product admits a utilisation above a million |
| `CommandLine.Mp2Write` | rate-monotonic-scheduler/mp2.c:603-670 | the token loop and the switch compute the parse of the line |
| `CommandLine.TextEnds` | rate-monotonic-scheduler/mp2.c:603-605 | the text ends at the first NUL or before the final newline |
| `CommandLine.SplitJoins` | rate-monotonic-scheduler/mp2.c:612 | the tokens, with commas between them, are the line again |
| `CommandLine.NoCommaInTokens` | rate-monotonic-scheduler/mp2.c:612 | and none of them holds a comma |
| `CommandLine.KstrtoulIff` | rate-monotonic-scheduler/mp2.c:629-637 | the numbers accepted: digits that fit, at most a plus before and a newline behind |
| `CommandLine.KstrtointIff` | rate-monotonic-scheduler/mp2.c:621 | the numbers accepted: digits that fit an int, at most a sign before and a newline behind |
| `CommandLine.InvalidIff` | rate-monotonic-scheduler/mp2.c:612-668 | -EINVAL iff there is a fifth token, one that does not convert, no command, or an unknown letter |
| `CommandLine.RunsIff` | rate-monotonic-scheduler/mp2.c:656-666 | any other line runs the command of its first letter on the numbers of its tokens, if there are enough |
| `CommandLine.ParsePrintedSigned` | rate-monotonic-scheduler/userapp.c:97 | what %d prints of any int is read back as that int |
| `CommandLine.RegisterRoundTrip` | rate-monotonic-scheduler/userapp.c:97 | a printed registration is parsed to the same pid (mod 2^32), period and processing time |
| `CommandLine.YieldRoundTrip` | rate-monotonic-scheduler/userapp.c:114 | a printed yield is parsed to the same pid |
| `CommandLine.DeregisterRoundTrip` | rate-monotonic-scheduler/userapp.c:130 | a printed deregistration is parsed to the same pid |
| `ListRings.ListHead.constructor` | rust-inner-unikernels/libiu/list.h:20-29 | a list head is a ring by itself |
| `ListRings.InsertBetween` | rust-inner-unikernels/libiu/list.h:38-46 | the node goes between two neighbours; all other rings are untouched |
| `ListRings.ListAdd` | rust-inner-unikernels/libiu/list.h:61-64 | insertion right after head |
| `ListRings.ListAddTail` | rust-inner-unikernels/libiu/list.h:75-78 | insertion right before head |
| `ListRings.Unlink` | rust-inner-unikernels/libiu/list.h:87-91 | the neighbours are joined and the entry is on no ring |
| `ListRings.ListDel` | rust-inner-unikernels/libiu/list.h:105-110 | the entry leaves its ring and is poisoned |
| `ListRings.InitListHead` | rust-inner-unikernels/libiu/list.h:25-29 | a node on no ring becomes a ring by itself |
| `ListRings.ListDelInit` | rust-inner-unikernels/libiu/list.h:143-147 | the entry leaves its ring and becomes a ring |
| `ListRings.ListReplace` | rust-inner-unikernels/libiu/list.h:123-130 | the new node takes the old one's place |
| `ListRings.ListReplaceInit` | rust-inner-unikernels/libiu/list.h:132-137 | and the old one becomes a ring |
| `ListRings.ListMove` | rust-inner-unikernels/libiu/list.h:154-158 | from any position of any ring to right after head |
| `ListRings.ListMoveTail` | rust-inner-unikernels/libiu/list.h:165-170 | from any position of any ring to right before head |
| `ListRings.HeadFacts` | rust-inner-unikernels/libiu/list.h:177-232 | list_empty, list_is_singular and list_is_last say how long the ring is and where the entry stands |
| `ListRings.RingUnique` | rust-inner-unikernels/libiu/list.h:408-409 | following next from a head determines the ring |
| `ListRings.ListRotateLeft` | rust-inner-unikernels/libiu/list.h:215-223 | the first entry goes last |
| `ListRings.RotateSplits` | rust-inner-unikernels/libiu/list.h:215-223 | n rotations split the list at n and swap the parts |
| `ListRings.FullRotation` | rust-inner-unikernels/libiu/list.h:215-223 | as many rotations as entries are the identity |
| `ListRings.RotateLeftTimes` | rust-inner-unikernels/libiu/list.h:215-223 | n calls rotate n times; on n entries every ring is as before |
| `ListRings.CutMembers` | rust-inner-unikernels/libiu/list.h:234-244 | entry by entry, what moves to list and what stays |
| `ListRings.CutAfter` | rust-inner-unikernels/libiu/list.h:234-244 | the entries up to entry move to list, the rest stay |
| `ListRings.ListCutPosition` | rust-inner-unikernels/libiu/list.h:260-272 | the four cases of the cut |
| `ListRings.SplicedMembers` | rust-inner-unikernels/libiu/list.h:274-286 | entry by entry, what stands where after a splice |
| `ListRings.SpliceBetween` | rust-inner-unikernels/libiu/list.h:274-286 | the entries of list go between two neighbours, in order |
| `ListRings.ListSplice` | rust-inner-unikernels/libiu/list.h:293-298 | splice after head; an empty list changes nothing |
| `ListRings.ListSpliceTail` | rust-inner-unikernels/libiu/list.h:305-310 | splice at the tail |
| `ListRings.ListSpliceInit` | rust-inner-unikernels/libiu/list.h:319-326 | and list is reinitialised |
| `ListRings.ListSpliceTailInit` | rust-inner-unikernels/libiu/list.h:336-343 | and list is reinitialised |
| `ListRings.SpliceUndoesCut` | rust-inner-unikernels/libiu/list.h:260-298 | cutting at any entry and splicing back restores the order |
| `ListRings.CutThenSplice` | rust-inner-unikernels/libiu/list.h:260-298 | the same on the heap |
| `ListRings.ListDelRange` | rust-inner-unikernels/libiu/list.h:757-762 | the whole range leaves the ring |
| `ListRings.Visit` | rust-inner-unikernels/libiu/list.h:520-524 | a body that deletes the current node leaves the rest in place |
| `ListRings.ForEachSafe` | rust-inner-unikernels/libiu/list.h:520-524 | every original node is visited exactly once in order; exactly the doomed ones are gone |
| `ListRings.KeepsOrder` | rust-inner-unikernels/libiu/list.h:520-524 | the entries that stay are in their original order, none repeated |
| `ListRings.Teardown` | rate-monotonic-scheduler/mp2.c:738-742 | the teardown loop ends with an empty ring |
| `ListRings.DeleteFirst` | rate-monotonic-scheduler/mp2.c:457-469 | the deregistration loop removes exactly the first match |
| `HashLists.HlistAddHead` | rust-inner-unikernels/libiu/list.h:639-647 | insertion at the front of its list |
| `HashLists.AddBeforeHere` | rust-inner-unikernels/libiu/list.h:650-657 | insertion before a node, through the slot its pprev designates |
| `HashLists.HlistAddBefore` | rust-inner-unikernels/libiu/list.h:650-657 | the same in a table of lists |
| `HashLists.AddBehindHere` | rust-inner-unikernels/libiu/list.h:659-668 | insertion behind a node, whose successor's pprev is repaired |
| `HashLists.HlistAddBehind` | rust-inner-unikernels/libiu/list.h:659-668 | the same in a table of lists |
| `HashLists.UnhangHere` | rust-inner-unikernels/libiu/list.h:614-622 | the slot that pointed at the node points at its successor |
| `HashLists.Unhang` | rust-inner-unikernels/libiu/list.h:614-622 | the same in a table of lists |
| `HashLists.HlistDel` | rust-inner-unikernels/libiu/list.h:624-629 | the node leaves its list and is poisoned |
| `HashLists.HlistDelInit` | rust-inner-unikernels/libiu/list.h:631-637 | the node leaves its list and is unhashed; an unhashed one is left alone |
| `HashLists.HlistMoveList` | rust-inner-unikernels/libiu/list.h:685-692 | the whole list moves to the other head |
| `HashLists.PprevIsTheSlot` | rust-inner-unikernels/libiu/list.h:598-692 | pprev designates exactly the one slot that points at the node |
| `ProfilerProofs.NextConserves` | page-fault-profiler/mp3.c:154-300 | every event, each single access of a sample included, keeps the books balanced |
| `ProfilerProofs.Conservation` | page-fault-profiler/mp3.c:154-185 | held + lost in windows = initial + generated mod 2^64, in every interleaving of tasks, registrations and accesses |
| `ProfilerProofs.ExactConservation` | page-fault-profiler/mp3.c:154-185 | exactly what was generated in windows is missing while the grand total fits in a word |
| `ProfilerProofs.NothingLostIff` | page-fault-profiler/mp3_given.h:29-40 | nothing is lost iff no task adds to a counter between its read and its clear |
| `ProfilerProofs.ConservedIff` | page-fault-profiler/mp3_given.h:29-40 | everything is held iff no task adds to a counter between its read and its clear |
| `ProfilerProofs.LostInWindow` | page-fault-profiler/mp3_given.h:30-38 | work of any size done after the reads is in no record and no counter |
| `ProfilerProofs.PipelineConserves` | page-fault-profiler/monitor.c:57-82 | up to 12000 samples, the books balance with the records the monitor prints |
| `ProfilerProofs.LoopConserves` | page-fault-profiler/mp3.c:154-169 | an uninterrupted loop's totals and what it leaves in the counters make up what was there, up to whole turns of a word |
| `ProfilerProofs.UninterruptedSample` | page-fault-profiler/mp3.c:154-185 | with nothing in between, the accesses of a sample are the plain loop over the list |
| `ProfilerProofs.DuplicateCountsOnce` | page-fault-profiler/mp3_given.h:29-40 | a later visit to a listed pid changes neither totals nor counters |
| `ProfilerEffects.RegisterEffect` | page-fault-profiler/mp3.c:214-247 | the pid is appended, unless memory runs out |
| `ProfilerEffects.UnregisterEffect` | page-fault-profiler/mp3.c:275-288 | the first entry with the pid goes and no other |
| `ProfilerEffects.UnregisterUnlisted` | page-fault-profiler/mp3.c:275-288 | a pid that is not listed changes nothing |
| `ProfilerEffects.UnregisterUndoesRegister` | page-fault-profiler/mp3.c:199-300 | registering a new pid and unregistering it restores the state |
| `ProfilerEffects.WorkEffect` | page-fault-profiler/mp3_given.h:29-33 | work adds to the four counters of its own task, in 64-bit words |
| `ProfilerEffects.LoopEffect` | page-fault-profiler/mp3.c:154-183 | between visits the next listed pid is looked up; at the end the totals and the time go into a record |
| `ProfilerEffects.ReadEffect` | page-fault-profiler/mp3_given.h:30-33 | the first four accesses read one counter each |
| `ProfilerEffects.ClearEffect` | page-fault-profiler/mp3_given.h:35-38 | the other four clear one counter each, of this task alone |
| `ProfilerEffects.AddEffect` | page-fault-profiler/mp3.c:160-163 | what was read is added to the totals, in 64-bit words |
| `ProfilerEffects.SampleEffect` | page-fault-profiler/mp3.c:154-185 | an uninterrupted sample records the time and the sums over the listed tasks, each counted once, and clears those counters alone |
| `Profiler.Mp3.constructor` | page-fault-profiler/mp3.c:465-481 | the buffer starts out empty |
| `Profiler.Mp3.GetCpuUse` | page-fault-profiler/mp3_given.h:22-43 | reads and clears the counters of a live pid, fails for any other |
| `Profiler.Mp3.ReadAll` | page-fault-profiler/mp3.c:154-169 | the loop computes the totals and the cleared table |
| `Profiler.Mp3.WriteRecord` | page-fault-profiler/mp3.c:171-185 | the record goes to the current slot, wrapping at the end |
| `Profiler.Mp3.WorkFunction` | page-fault-profiler/mp3.c:127-188 | below the threshold nothing happens; otherwise the sample of the model, with three reads of jiffies |
| `Profiler.Mp3.Registration` | page-fault-profiler/mp3.c:199-258 | performs the registration event: the pid is appended, duplicates included |
| `Profiler.Mp3.Unregistration` | page-fault-profiler/mp3.c:265-300 | performs the event: the first entry with the pid goes |
| `Profiler.Mp3.RunMonitor` | page-fault-profiler/monitor.c:57-82 | performs the drain event |
| `Profiler.Monitor` | page-fault-profiler/monitor.c:57-82 | the two loops compute the drain of the buffer |
| `Profiler.Execute` | page-fault-profiler/mp3.c:127-300 | any sequence of calls leaves the code in the state of the model |
| `Profiler.CallsAreARun` | page-fault-profiler/mp3.c:127-300 | every sequence of calls is a run of the model, in which nothing is lost |
| `Profiler.CodeConserves` | page-fault-profiler/monitor.c:57-82 | printed records, waiting records, counters and what left add up, on the code's own state, up to 12000 samples |
| `SampleRing.Scan` | page-fault-profiler/monitor.c:57-58 | the first word below BUFD_MAX that is not -1 |
| `SampleRing.ErasedUsesLess` | page-fault-profiler/monitor.c:61-82 | every turn of the drain loop erases a word, so it ends on every buffer |
| `SampleRing.DrainHolds` | page-fault-profiler/monitor.c:61-82 | from a buffer that holds records d to n the loop prints exactly those, in order, and empties it |
| `SampleRing.SampleSlot` | page-fault-profiler/mp3.c:171-185 | sample n goes to slot n mod 16384 |
| `SampleRing.SampleStores` | page-fault-profiler/mp3.c:171-185 | a sample stores its four words in that slot and no others |
| `SampleRing.TurnAnywhere` | page-fault-profiler/monitor.c:61-80 | wherever the drain loop stands, a turn prints the four words from there, wrapping behind word 48000, and erases those alone |
| `SampleRing.DrainStops` | page-fault-profiler/monitor.c:61 | the loop prints nothing iff it stands at a word -1 |
| `SampleRing.RunInOrder` | page-fault-profiler/mp3.c:171-185 | after any run of at most 12000 samples the buffer holds exactly the undrained ones |
| `SampleRing.FifoUpTo12000` | page-fault-profiler/monitor.c:57-82 | drained records followed by undrained ones are exactly the samples, in order |
| `SampleRing.TornRecord` | page-fault-profiler/monitor.c:61-66 | a record at word 48000 is printed with three words that are not its own |
| `SampleRing.DrainUses` | page-fault-profiler/monitor.c:61-82 | each record printed without an empty word uses up four words that held one |
| `SampleRing.RunWithinBudget` | page-fault-profiler/mp3.c:171-185 | what was and can still be printed whole stays within the words of samples that the monitor can reach |
| `SampleRing.FifoIff` | page-fault-profiler/monitor.c:57-82 | a run whose samples have no word -1 is first in, first out iff it has at most 12000 samples |
| `SampleRing.FifoIffUpTo12000` | page-fault-profiler/monitor.c:10 | the law holds for all runs of at most n samples iff n <= 12000 |
| `LatchClock.NextKeepsInv` | rust-inner-unikernels/inner_unikernel_rt/src/timekeeping.rs:88-99 | every step of reader or writer keeps the copy that readers use equal to the last published snapshot |
| `LatchClock.RunKeepsInv` | rust-inner-unikernels/inner_unikernel_rt/src/timekeeping.rs:88-99 | in every interleaving |
| `LatchClock.BaseByParity` | rust-inner-unikernels/inner_unikernel_rt/src/timekeeping.rs:90 | seq & 1 selects the copy by the parity of the bumps |
| `LatchClock.ReadsOneSnapshot` | rust-inner-unikernels/inner_unikernel_rt/src/timekeeping.rs:83-102 | the reader leaves its loop iff there was no bump, and then every field it used belongs to the last published snapshot |
| `LatchClock.ReadsTime` | rust-inner-unikernels/inner_unikernel_rt/src/timekeeping.rs:83-102 | the time returned is base + (d mult + xtime_nsec) / 2^shift of the last published snapshot, d its cycles since the update |
| `LatchClock.UndisturbedRead` | rust-inner-unikernels/inner_unikernel_rt/src/timekeeping.rs:83-102 | a reader no writer interrupts gets out at once with that time, even in the middle of an update |
| `LatchClock.TornAfterWrap` | rust-inner-unikernels/inner_unikernel_rt/src/seqlock.rs:82-118 | with 2^31 updates inside one iteration a mixed snapshot gets out |
| `LatchClock.SafeIffBelowRange` | rust-inner-unikernels/inner_unikernel_rt/src/seqlock.rs:107-118 | readers are safe below n bumps an iteration iff n <= 2^32 |
| `Timekeeping.DeltaForMask` | rust-inner-unikernels/inner_unikernel_rt/src/timekeeping.rs:48-60 | for a k-bit mask the delta is the forward distance mod 2^k when below 2^(k-1), else 0 |
| `Timekeeping.ForwardCycles` | rust-inner-unikernels/inner_unikernel_rt/src/timekeeping.rs:48-60 | n cycles after the update read as n, across any wrap of the counter |
| `Timekeeping.BackwardCycles` | rust-inner-unikernels/inner_unikernel_rt/src/timekeeping.rs:48-60 | a clock behind the update reads as no time passed |
| `Timekeeping.TimeNotBeforeUpdate` | rust-inner-unikernels/inner_unikernel_rt/src/timekeeping.rs:62-70 | the time is never below base + (xtime_nsec >> shift) |
| `Timekeeping.TimeValue` | rust-inner-unikernels/inner_unikernel_rt/src/timekeeping.rs:48-95 | the time for any clock reading, with or without validation and with every wrap, as a number |
| `Timekeeping.TimeForward` | rust-inner-unikernels/inner_unikernel_rt/src/timekeeping.rs:62-95 | n cycles after the update the time is base + (n mult + xtime_nsec) / 2^shift where nothing wraps |
| `Timekeeping.TimeMonotone` | rust-inner-unikernels/inner_unikernel_rt/src/timekeeping.rs:91-95 | the time is monotone over the forward half range |
| `Bits.AndLowMask` | rust-inner-unikernels/inner_unikernel_rt/src/timekeeping.rs:49 | x & (2^k - 1) is x mod 2^k |
| `Bits.AndOneBit` | rust-inner-unikernels/inner_unikernel_rt/src/perf_event/binding.rs:32-33 | byte & mask == mask tests one bit |
| `Bits.WriteBit` | rust-inner-unikernels/inner_unikernel_rt/src/perf_event/binding.rs:46-51 | or with a mask, and and with its complement, change one bit |
| `Bits.ExtractReplaced` | rust-inner-unikernels/inner_unikernel_rt/src/perf_event/binding.rs:55-94 | get after set over the same range is the value mod 2^width |
| `Bits.ExtractElsewhere` | rust-inner-unikernels/inner_unikernel_rt/src/perf_event/binding.rs:55-94 | set leaves disjoint ranges as they were |
| `Bitfield.NumberBit` | rust-inner-unikernels/inner_unikernel_rt/src/perf_event/binding.rs:23-34 | in either byte order the unit's bits are those of one number |
| `Bitfield.NumberAfterSet` | rust-inner-unikernels/inner_unikernel_rt/src/perf_event/binding.rs:77-94 | writing a field's bits one by one replaces the field in the number |
| `Bitfield.BitfieldUnit.GetBit` | rust-inner-unikernels/inner_unikernel_rt/src/perf_event/binding.rs:23-34 | reads the bit |
| `Bitfield.BitfieldUnit.SetBit` | rust-inner-unikernels/inner_unikernel_rt/src/perf_event/binding.rs:37-52 | writes that bit and no other |
| `Bitfield.BitfieldUnit.Get` | rust-inner-unikernels/inner_unikernel_rt/src/perf_event/binding.rs:55-74 | the loop extracts the field of the number |
| `Bitfield.BitfieldUnit.Set` | rust-inner-unikernels/inner_unikernel_rt/src/perf_event/binding.rs:77-94 | the loop replaces the field of the number |
| `Bitfield.SetterIsLocal` | rust-inner-unikernels/inner_unikernel_rt/src/perf_event/binding.rs:410-550 | a setter changes its own field to its argument mod 2^width and no other field |
| `Bitfield.NumberIsPacked` | rust-inner-unikernels/inner_unikernel_rt/src/perf_event/binding.rs:22-93 | fields that fill the unit and read back determine its number in either byte order |
| `Bitfield.NewBranchEntry` | rust-inner-unikernels/inner_unikernel_rt/src/perf_event/binding.rs:323-363 | all seven fields read back as their arguments mod 2^width, and the number is their sum at bits 0, 1, 2, 3, 4, 20, 24 (from the top when big-endian) |
| `Bitfield.NewMemDataSrc` | rust-inner-unikernels/inner_unikernel_rt/src/perf_event/binding.rs:553-609 | all ten fields read back as their arguments mod 2^width, and the number is their sum at bits 0, 5, 19, 24, 26, 33, 37, 38, 40, 43 (from the top when big-endian) |
| `Checksum.ComputeIpChecksum` | rust-inner-unikernels/inner_unikernel_rt/src/xdp/xdp_impl.rs:59-76 | the checksum word is cleared and the sum folded once and complemented, with no overflow of u32 |
| `Checksum.OnesSumValue` | rust-inner-unikernels/inner_unikernel_rt/src/xdp/xdp_impl.rs:70-72 | the end-around-carry sum is the plain sum reduced mod 65535, 0 only for 0 |
| `Checksum.FoldIsCongruent` | rust-inner-unikernels/inner_unikernel_rt/src/xdp/xdp_impl.rs:74 | the fold keeps the sum mod 65535 |
| `Checksum.CodeAgainstRfc` | rust-inner-unikernels/inner_unikernel_rt/src/xdp/xdp_impl.rs:74-75 | equal to the RFC 1071 checksum, and accepted by a receiver, iff the fold fits in 16 bits; otherwise exactly one too large |
| `Checksum.SecondFoldNeeded` | rust-inner-unikernels/inner_unikernel_rt/src/xdp/xdp_impl.rs:74-75 | a version 4 header of five words whose stored checksum fails a receiver's check |
| `MapPatch.CollectMaps` | rust-inner-unikernels/libiu/libiu.cpp:838-876 | exactly the addresses of map-sized objects of the section are collected, each with its first name |
| `MapPatch.ValToBuf` | rust-inner-unikernels/libiu/libiu.cpp:419-422 | the eight bytes of the value are stored and no others change |
| `MapPatch.FixMaps` | rust-inner-unikernels/libiu/libiu.cpp:1077-1112 | on success every record is patched; a failed create stops with -1 after the records before it |
| `MapPatch.KptrReadsBack` | rust-inner-unikernels/libiu/libiu.cpp:1077-1110 | each kptr word reads back as its map's file descriptor |
| `MapPatch.CoveredByte` | rust-inner-unikernels/libiu/libiu.cpp:1077-1110 | a byte of a kptr word is that byte of the fd, whatever else is patched |
| `MapPatch.ByteIsDigit` | rust-inner-unikernels/libiu/libiu.cpp:419-422 | byte k of a stored word is its k-th digit in base 256, low byte first |
| `MapPatch.OtherByte` | rust-inner-unikernels/libiu/libiu.cpp:1077-1110 | every byte outside the kptr words is unchanged |
| `MapPatch.OrderDoesNotMatter` | rust-inner-unikernels/libiu/libiu.cpp:1077-1110 | the image is the same in whatever order the hash table is iterated |
| `MapPatch.SymbolsRelocated` | rust-inner-unikernels/libiu/libiu.cpp:838-1110 | for every map-sized object symbol of the section, the eight bytes at value + 24 - shaddr + shoff are its map's descriptor, as digits and as a number |
| `MapPatch.RestUnchanged` | rust-inner-unikernels/libiu/libiu.cpp:1077-1110 | every byte outside the symbols' kptr words is unchanged |
| `MapPatch.RelocateMaps` | rust-inner-unikernels/libiu/libiu.cpp:838-1112 | collecting and then patching succeeds iff every map is created, and then does both |

## Left out

- The window between a timer's expiry and the callback's lock acquisition, in which a structure could be freed: each callback is one atomic step.
- Kernel and BPF calls, libelf, mmap and allocation: only their effect on the modelled state is kept.
- mp2_read and mp3_read: the offset is advanced by the cumulative length (mp2.c:530-535), so the output is misplaced from the third entry on.
- Deadline guarantees of the Liu and Layland kind: the code does not establish them.
- A record's four stores and the monitor interleaved word by word: a store of a record and a drain are each atomic.
- mp3_write, hlist_add_fake and the other iteration macros of list.h: they would add only easy members.
- LIST_POISON1 and LIST_POISON2 in `next` and `prev`: modelled as null, which like them is the address of no node.
- ktime_get_boot_fast_ns, ktime_get_coarse and ktime_set: arithmetic on one value.
- The retry loop of ktime_get_fast_ns as a Dafny loop: it is a state machine, because every load is interleaved with a writer.
- parse_elf, parse_progs and parse_rela_dyn, and the map->fd and name2map updates of fix_maps: bookkeeping beside the image.
- CommandLine.Mp2Write: covers a first write of a non-empty, NUL-terminated line; a write at another offset returns at once (mp2.c:584-590), and an unterminated buffer reads past its end.
- Scheduler.Mp2.TimerCallback: takes freed structures as never reused, so the use of a freed mp2_curr_task has its recorded effect only.
- Scheduler.Mp2.RegistrationCheck: reports the trap of a zero sum of periods (result None), but not what becomes of the kernel after it.
