# Hermian: verified models of the alarm's core

Hermian is a host intrusion alarm. This project models the parts of it that hold state or
transform rules and text, and proves what they guarantee over every input and every run.
`dafny verify dfyconfig.toml` checks all of it.

| module | file | what is modelled |
|---|---|---|
| `ProcTree`, `ReapExact`, `TreeRuns`, `ProcessTreeClass` | `ProcTree.dfy`, `ReapExact.dfy`, `TreeRuns.dfy`, `ProcessTree.dfy` | the process tree: exec, touch, prune, reap, ancestry, exactly what a reap spares, and the grace period over runs |
| `NotifyQueue`, `NotifyRuns`, `NotifyLeftovers` | same names | a channel's delivery queue, its files, and all runs with crashes and failing writes |
| `Dedup`, `DedupRuns`, `DedupSummaries` | same names | signature deduplication, its behaviour over runs, and its summaries |
| `EngineModel`, `EngineDays`, `EngineRate`, `EngineClass` | `Engine.dfy`, `EngineDays.dfy`, `EngineRate.dfy`, `EngineClass.dfy` | the engine around them: clock clamp, ids, daily counters, and the page rate under late events |
| `RefIds` | `RefIds.dfy` | alert reference ids |
| `Sections`, `ConfLines`, `ConfReadings`, `ConfMerge`, `TemplateText`, `ConfMergeFacts`, `ConfMergeLoops`, `ConfRetire` | same names | bringing a config file up to date as comments |
| `ConfigDiff`, `ConfigRuns` | same names | judging whether a reload weakens protection |
| `Addresses`, `Blocklist`, `Isolate`, `BaselineModel` | `Addresses.dfy`, `Blocklist.dfy`, `Isolate.dfy`, `Baseline.dfy` | CIDR arithmetic, blocks, the isolation ruleset, learned destinations |
| `Btf` | `Btf.dfy` | the reader of kernel type information |
| `Greedy`, `Wrap` | same names | word wrap |
| `PamJson` | `PamJson.dfy` | the datagram of the PAM module |
| `Common`, `Text` | same names | shared types; lines, trimming, splitting |

Code that changes things step by step is a class or a method with loops, proved equal to a
function on values; the guarantees are lemmas about those functions. Hash maps are walked
in an arbitrary order, so what is proved holds for every order.

## Findings

- A reap can cut the chain of a live process. The collecting walk stops after 32 steps, and
  a later walk stops at anything already collected, so the walk of one live process can end
  short and hide what is above from another. `ReapExact.AncestrySurvivesExactly` says exactly
  when a chain survives every order in which the map may be walked: each ancestor shown is
  not due, or some live process meets it within 32 steps by a way on which every live process
  that meets it within 32 steps also meets that ancestor within 32; init, which no walk
  collects, must not be due. If init lives, with parent 0, and no live process has more than
  32 tracked ancestors, every chain is safe (`ProcTree.ReapKeepsAncestry`); 32 of its own are
  not enough for one process if another has more (`ProcTree.OwnBoundNotEnough`). A process
  that lives alone beside such an init is safe at any depth (`ReapExact.OneLiveSpared`).
  `ProcTree.ReapCanCutDeepChain` gives failing trees for every length from 33 on.
- The pending directory of a channel is not bounded by 500 files. A save that fails after it
  opened its temporary file leaves that file behind, and every failing save with another name
  adds one: `NotifyLeftovers.LeftoversPileUp` gives runs of any size. What is bounded are the
  finished saves, at 500, and the leftovers, by the number of torn writes
  (`NotifyLeftovers.DirectoryBound`). A restart deletes files unread exactly if both together
  exceed 500, and then leftovers only (`NotifyLeftovers.RestartShedsExactly`), so nothing
  saved is lost.
- The documentation of the deduper says a quiet window resets the stretch. The code resets
  it as soon as a second tick sees the same closed window, however short the pause, and a
  single tick twelve windows after the last sighting forgets the incident altogether. An
  incident that repeated keeps the stretch if and only if there was no tick on its closed
  window, or one before those twelve windows were over (`DedupRuns.StretchIffOneTick`; with
  anything else going on around it, `DedupRuns.StretchExactly`).
- Late events can break the page rate. Windows are judged by event times, entries are
  forgotten by the wall clock, and a repeat stamped far behind counts as the last sighting:
  the next tick may forget a window that is still open, and the signature pages again at
  once. With findings at most `late` seconds behind a steady clock, and escalations aside, a
  page follows the one before by less than the window in some run if and only if 2 * late + 60 exceeds eleven
  windows (`EngineRate.SteadyRateExactly`, with the run in `EngineRate.LateLosesPace`). With
  the default window of 300 seconds that begins at 1621 seconds; all the clamp lets through
  is harmless only from windows of 15715 seconds on (`EngineRate.ClampRate`).
- A wall clock that steps back silences a signature for as long as it stepped back, without
  bound: `EngineModel.SteppedBack`. An on-time finding is suppressed exactly while the clock
  reads less than the time of the last page plus the current window
  (`EngineModel.BlindExactly`); with a clock that never steps back that is less than
  max(window, 3600) + 60 seconds (`EngineModel.BoundedBlindness`).
- An IPv4 address inside IPv6 is blocked as IPv4 but tested against the management networks
  as IPv6. `Blocklist.MappedSlipsThrough` gives the family that gets through and
  `Blocklist.MappedBlock` the configurations for which the guarantee fails, exactly.
- A network first seen when the set of destinations is full is known until the next restart
  and new after it: `BaselineModel.ForgottenByReload`, with a member of the family in
  `BaselineModel.FullSetForgets` and the exact condition in `BaselineModel.ReloadChangesNothing`.

## Model

| member | source | states |
|---|---|---|
| ProcTree.ReapKeepsAncestry | hermian-core/src/proctree.rs:478-513 | a condition that is easy to check and enough: if no live process has more than 32 tracked ancestors (cycles allowed), pid 1 is alive and its parent is 0, a reap changes neither the record, the ancestors nor the chain of any live process, in whatever order the map is walked |
| ProcTree.ReapRemovesExactly | hermian-core/src/proctree.rs:474-513 | within the depth bound a reap drops exactly the processes that are missing, were noted missing more than 300 seconds ago and have no live descendant, and changes no other record |
| ProcTree.ReapBounds | hermian-core/src/proctree.rs:485-512 | at any depth: only a missing process noted so more than 300 seconds ago goes, and one of those without a live descendant always goes |
| ProcTree.ReapNotes | hermian-core/src/proctree.rs:478-513 | a process missed for the first time is kept and noted with the time of this reap, an earlier note stays as it is, a live process has none; what goes, goes from all three maps, and what stays keeps its record and exec time |
| TreeRuns.ExitedSince | hermian-core/src/proctree.rs:465-484 | over every run of execs, inserts, refreshes, removals, prunes and reaps a tracked process carries the time of the first reap that missed it since it was last seen, and no mark if there was none |
| TreeRuns.DroppedWasMissing | hermian-core/src/proctree.rs:474-513 | over every such run what a reap drops was missed by every reap, and not executed or inserted, since one more than 300 seconds earlier |
| TreeRuns.DroppedExactly | hermian-core/src/proctree.rs:478-513 | within the depth bound it is dropped if and only if that is so and it has no live descendant |
| ProcTree.ReapRunKeepsChain | hermian-core/src/proctree.rs:478-513 | over any number of reaps a process alive throughout keeps its chain |
| ProcTree.ReapCanCutDeepChain | hermian-core/src/proctree.rs:497-502 | for every line of processes longer than the bound there is a tree and a walking order in which a reap changes the ancestors of a live process |
| ProcTree.DeepCount | hermian-core/src/proctree.rs:499 | in that tree the deepest live process has `top - 2` tracked ancestors, so at the smallest size 33: the bound of 32 is tight |
| ProcTree.JoinCount | hermian-core/src/proctree.rs:497-502 | the live process whose ancestors change has `top - 3` of them, so at the smallest size 32 |
| ProcTree.OwnBoundNotEnough | hermian-core/src/proctree.rs:497-502 | a live process with no more than 32 tracked ancestors can lose some of them, because another live process has 33 |
| ProcTree.CollectComplete | hermian-core/src/proctree.rs:492-503 | within the depth bound the walk with its early stop still collects every tracked ancestor of every live process |
| ProcTree.CollectSound | hermian-core/src/proctree.rs:490-503 | whatever is collected is an ancestor of some live process |
| ReapExact.CollectExactly | hermian-core/src/proctree.rs:490-503 | at any depth a pid is collected in every walking order if and only if it is secure: some live process meets it within 32 steps, and every live process that within 32 steps meets anything on that way meets the pid within 32 steps too |
| ReapExact.ReapSparesExactly | hermian-core/src/proctree.rs:478-513 | a reap keeps a process in every order if and only if it is alive, not noted missing more than 300 seconds ago, or secure |
| ReapExact.ReapDropsExactly | hermian-core/src/proctree.rs:504-512 | a reap drops a process in every order if and only if it is missing, was noted so more than 300 seconds ago and no live process meets it within 32 steps; pids 0 and 1, which no walk collects, if and only if the first two hold |
| ReapExact.AncestrySurvivesExactly | hermian-core/src/proctree.rs:478-513 | the ancestors of a live process, and equally its chain, are as before in every order if and only if each ancestor it shows is kept in every order |
| ReapExact.OneLiveSpared | hermian-core/src/proctree.rs:492-503 | if nothing but init lives beside a process, nothing it shows is lost, at any depth, as long as init's recorded parent is 0 and init is not due itself |
| ProcTree.AncestorsFollowParents | hermian-core/src/proctree.rs:588-609 | the reading loop returns the successive recorded parents and stops only at 32, at pid 0, at an untracked parent or back at the pid |
| ProcTree.ExecHistory | hermian-core/src/proctree.rs:518-560 | an exec by the process that holds the pid (not exited, same parent) appends its image to the history the chain shows, dropping only the oldest beyond four; the same command and file again replace the last image; otherwise the history starts anew; other records stay |
| ProcTree.ExecSeen | hermian-core/src/proctree.rs:516-560 | after an exec the ancestors begin with the recorded parent, and the last node of the chain carries the pid, parent, user, command, terminal, container and time of the event, the start clipped at zero, and the file, marked once as deleted if it is; no other exec time or exit mark changes |
| ProcTree.ChainIsLine | hermian-core/src/proctree.rs:616-642 | the chain is the farthest ancestor first, the process itself last, each as the list of its images |
| ProcTree.ExpandShowsImages | hermian-core/src/proctree.rs:629-642 | a process is shown as one node per image, oldest first, each with its real pid and other fields |
| ProcessTreeClass.ProcessTree.Upsert | hermian-core/src/proctree.rs:465-468 | inserts the record, clears its exit mark, leaves exec times |
| ProcessTreeClass.ProcessTree.UpsertExec | hermian-core/src/proctree.rs:518-560 | the three maps become `Exec` of the old ones, which `ExecSeen` and `ExecHistory` describe |
| ProcessTreeClass.ProcessTree.Touch | hermian-core/src/proctree.rs:563-567 | refreshes `seenAt` of a tracked pid and nothing else |
| ProcessTreeClass.ProcessTree.Remove | hermian-core/src/proctree.rs:573-577 | drops the pid from all three maps |
| ProcessTreeClass.ProcessTree.Prune | hermian-core/src/proctree.rs:706-716 | drops exactly the processes not seen since the cutoff |
| ProcessTreeClass.ProcessTree.Mark | hermian-core/src/proctree.rs:479-484 | exactly the tracked missing pids have an exit mark: the one they had, or this time |
| ProcessTreeClass.ProcessTree.CollectAncestors | hermian-core/src/proctree.rs:490-503 | the nested loops collect `Collect` for the order in which they met the live processes |
| ProcessTreeClass.ProcessTree.Reap | hermian-core/src/proctree.rs:478-513 | the new maps are `ReapWith` of the old ones for some order of the live processes, which the laws of reaping above describe |
| ProcessTreeClass.ProcessTree.AncestorsOf | hermian-core/src/proctree.rs:588-609 | returns `Ancestors` |
| ProcessTreeClass.ProcessTree.ChainOf | hermian-core/src/proctree.rs:616-627 | returns the root-first chain with every process expanded |
| NotifyRuns.AtLeastOnce | hermian/src/notify.rs:502-591 | at every point of every run, with a crash between any two effects and writes failing at will, each alert saved so far was delivered, was dropped or is in a finished save; there are at most 500 of those; a restart at that point keeps and queues every one |
| NotifyRuns.QueueGuarantees | hermian/src/notify.rs:521-590 | over every run: arrived alerts are exactly the sent, lost, queued and incoming ones as multisets; sent ones are in arrival order; the queue holds at most 500; a CRITICAL is shed only from a queue of CRITICALs; what is popped is what was just sent |
| NotifyRuns.CopiesAreDistinct | hermian/src/notify.rs:391-398 | a received alert's copy differs from every copy in play or accounted for, so the multisets above count each delivery separately |
| NotifyRuns.RestartLoadsAll | hermian/src/notify.rs:452-483 | with at most 500 finished saves a restart deletes leftovers only, keeps every finished save and queues its alert |
| NotifyRuns.StepKeepsInv | hermian/src/notify.rs:502-591 | every single effect, failing write, crash and restart keeps the invariant between queue, finished saves and ledger |
| NotifyRuns.TakeIsSteps | hermian/src/notify.rs:391-398 | receive, shed, write and enqueue one after the other is one `take` |
| NotifyQueue.PickNameFree | hermian/src/notify.rs:322-336 | with fewer than 1000 finished saves, however many leftovers, the search for a name ends on a free one, so no save overwrites another |
| NotifyQueue.PickIsFirstFree | hermian/src/notify.rs:322-336 | it is the first name of the alert that is free, or the last of 1000 if none is |
| NotifyQueue.ReadableSorted | hermian/src/notify.rs:456-483 | a restart queues in the order of the file names |
| NotifyQueue.NamesByTime | hermian/src/notify.rs:322-326 | names of alerts stamped at different times sort by those times, in milliseconds of as many digits |
| NotifyQueue.LoadedExactly | hermian/src/notify.rs:456-483 | a restart leaves exactly the readable ones of the last 500 files in the directory, as they were |
| NotifyQueue.ShedAndKept | hermian/src/notify.rs:461-466 | a listing falls into what is shed and the last 500 |
| NotifyQueue.DelayClosedForm | hermian/src/notify.rs:566-570 | the delay after n failures in a row is min(5 * 2^n, 120) seconds |
| NotifyQueue.ChannelQueue.constructor | hermian/src/notify.rs:452-520 | a channel starts with the readable ones of the last 500 files in order of their names; the files before them and unreadable ones are deleted |
| NotifyQueue.ChannelQueue.ShedOldest | hermian/src/notify.rs:461-466 | exactly the files beyond the last 500 by name are deleted |
| NotifyQueue.ChannelQueue.ReadAll | hermian/src/notify.rs:467-482 | readable files are queued in order, the others deleted |
| NotifyQueue.ChannelQueue.MakeRoom | hermian/src/notify.rs:363-376 | a full queue loses its oldest alert below CRITICAL, or its oldest if there is none, with its file; one more drop is counted; there is room afterwards |
| NotifyQueue.ChannelQueue.Save | hermian/src/notify.rs:317-353 | a write that works puts the alert under the first free name and leaves no temporary file; one that fails leaves nothing, part or all of the text in its temporary file; no other file changes |
| NotifyQueue.ChannelQueue.FindName | hermian/src/notify.rs:322-336 | the first of at most 1000 names that is free |
| NotifyQueue.ChannelQueue.Forget | hermian/src/notify.rs:355-359 | removes the file, if any, and no other |
| NotifyQueue.ChannelQueue.Take | hermian/src/notify.rs:391-407 | an alert is queued last after making room and saving; a config is stored and resets the backoff; a closed channel says so |
| NotifyQueue.ChannelQueue.Finish | hermian/src/notify.rs:546-565 | a delivered or refused alert leaves the front with its file; delivery resets the backoff, refusal counts a drop |
| NotifyQueue.ChannelQueue.Retry | hermian/src/notify.rs:566-570 | a transient failure keeps everything and doubles the backoff up to 120 seconds |
| NotifyLeftovers.DirectoryBound | hermian/src/config.rs:58-82 | at every point of every run the directory holds at most 500 files and one more for each torn write so far |
| NotifyLeftovers.RestartShedsExactly | hermian/src/notify.rs:461-466 | a restart deletes files unread if and only if finished saves and leftovers together exceed 500, then as many as exceed it, the first by name, all of them leftovers |
| NotifyLeftovers.LeftoversPileUp | hermian/src/config.rs:58-82 | for every number there is a run with that many torn writes and no crash, over alerts stamped and numbered through one day, whose directory holds that many files, each with a name of at most 255 characters while numbers have at most 20 digits |
| Dedup.WindowFor | hermian-core/src/dedup.rs:222-232 | the loop computes `Window` |
| Dedup.WindowClosedForm | hermian-core/src/dedup.rs:221-232 | the window after `k` recurrences is base * 3^k, up to max(base, 3600) |
| Dedup.DefaultLadder | hermian-core/src/dedup.rs:9-12 | with the default window the ladder is 5, 15 and 45 minutes, then hourly |
| Dedup.Base | hermian-core/src/dedup.rs:87 | the window is between one second and one day: a setting in that range is kept, a longer one becomes a day |
| Dedup.Deduper.constructor | hermian-core/src/dedup.rs:85-90 | starts empty with that window |
| Dedup.Deduper.FindIdlest | hermian-core/src/dedup.rs:125-129 | the scan finds a signature no other has been idle longer than |
| Dedup.Deduper.SeeAgain | hermian-core/src/dedup.rs:95-120 | a known signature becomes `Again` of its entry |
| Dedup.Deduper.RecordFinding | hermian-core/src/dedup.rs:92-152 | the map and decision are `Record`; if an entry had to go it was a longest-idle one |
| Dedup.Deduper.CloseWindow | hermian-core/src/dedup.rs:160-206 | one entry becomes `Closed`, with its summary if it earned one |
| Dedup.Deduper.CloseWindows | hermian-core/src/dedup.rs:159-206 | every entry is closed and exactly the earned summaries come out |
| Dedup.Deduper.TickAll | hermian-core/src/dedup.rs:156-210 | windows closed, summaries given, entries idle for twelve of their windows dropped |
| DedupRuns.PageRate | hermian-core/src/dedup.rs:92-152 | over every run whose records and ticks come with nondecreasing times, without eviction of the signature, a non-escalation page is at least the base window after every earlier page, across pruning too, and a span of T seconds holds at most T/w + 1 + 3 * (T/12w + 1) pages |
| DedupRuns.EscalationsPerLife | hermian-core/src/dedup.rs:99-104 | over every such run one life of the signature's entry holds at most three escalations |
| DedupRuns.NewLifeAfterSilence | hermian-core/src/dedup.rs:207-208 | an entry is created afresh only twelve windows or more after the signature's last sighting |
| DedupRuns.SuppressedAccounted | hermian-core/src/dedup.rs:92-210 | over every run, whatever the clock, each suppressed repeat is counted exactly once: in a summary, in the entry, or discarded by an escalation, a late record, the close of a non-actionable window, an eviction or a prune |
| DedupRuns.PruningDiscardsNone | hermian-core/src/dedup.rs:207-208 | with nondecreasing time pruning discards none |
| DedupRuns.RecordPagesOrCounts | hermian-core/src/dedup.rs:92-152 | each record adds one page to the page history or one suppressed repeat to the tally, as decided |
| DedupRuns.EntriesBounded | hermian-core/src/dedup.rs:122-133 | the map never holds more than 20000 signatures |
| DedupSummaries.LosesExactly | hermian-core/src/dedup.rs:122-133 | over every run an entry is lost to make room if and only if a new signature comes while the map holds 20000, and then it is a longest-idle one |
| DedupSummaries.TickKeepsExactly | hermian-core/src/dedup.rs:207-208 | over every run a tick forgets exactly the signatures last seen twelve of their windows ago or more |
| DedupSummaries.WindowSummary | hermian-core/src/dedup.rs:156-206 | over every run: a tick makes a summary of a window if and only if the window is over, something was suppressed in it and the severity is HIGH or CRITICAL; it counts the repeats since the page and lists each distinct detail of the findings of the window once, in order of first occurrence, up to 64, saying whether there were more |
| DedupSummaries.TitleOfPage | hermian-core/src/dedup.rs:98-150 | title and severity are those of the finding that opened the entry or last escalated it |
| DedupSummaries.EscalatesExactly | hermian-core/src/dedup.rs:98-104 | a finding escalates if and only if it is more severe, INFO below LOW below HIGH below CRITICAL |
| DedupRuns.StretchExactly | hermian-core/src/dedup.rs:109-118 | let anything but records of a signature happen, without evicting it, and then a finding of it come after its window: it pages, with a longer window next if and only if no tick came twelve windows after its last sighting and, of the ticks on the closed window, there was none and the incident was recurring or had repeats, or one and it had repeats |
| DedupRuns.StretchIffOneTick | hermian-core/src/dedup.rs:207-208 | after ticks alone on the closed window of an incident that repeated, the next finding keeps the stretch if and only if there was no tick, or one less than twelve windows after the last sighting |
| DedupRuns.RecurringLadder | hermian-core/src/dedup.rs:9-12 | the k-th window of an incident that keeps recurring, with one tick after each window and less than twelve windows after the last sighting, is 3^k times the base, up to the cap |
| EngineModel.Clamp | hermian-core/src/engine.rs:236-243 | the time used is within a minute ahead and a day behind the wall clock; times in that range are kept and all others become the wall clock |
| EngineModel.BoundedBlindness | hermian-core/src/engine.rs:236-245 | after any run with arbitrary event times and a wall clock that never steps back, an on-time finding is suppressed only if the last page of its signature went out less than max(window, 3600) + 60 seconds earlier, and not later than now |
| EngineModel.BlindExactly | hermian-core/src/dedup.rs:94-119 | after any run with any clocks, an on-time finding is suppressed if and only if its signature is remembered, it does not escalate, and the clock reads less than the time of the signature's last page plus the current window |
| EngineModel.SteppedBack | hermian-core/src/engine.rs:236-243 | after one page the same finding, on time at any other clock, is suppressed if and only if that clock reads less than the page's plus the window, so stepping back silences it without bound |
| EngineRate.SteadyRateExactly | hermian-core/src/dedup.rs:92-119 | over all runs of the engine with a steady clock and findings of the signature at most `late` seconds behind it, without restart, new window setting or eviction, a page no more severe than the one before is at least a window after it, in event time, if and only if 2 * late + 60 <= 11 windows |
| EngineRate.PlayPaced | hermian-core/src/engine.rs:236-243 | within that bound every such run keeps the pace, and remembers of a signature its last page or enough silence since |
| EngineRate.LateLosesPace | hermian-core/src/dedup.rs:207-208 | beyond it a run of two events, a tick and an event pages twice within the window: a page a minute ahead, a repeat stamped `late` behind, the tick that forgets it, a late finding |
| EngineRate.ClampRate | hermian-core/src/engine.rs:27-30 | with all lateness the clamp lets through, the pace is kept in every run if and only if the window is at least 15715 seconds |
| EngineModel.AlertIdsAndCounters | hermian-core/src/engine.rs:42-62 | over any run of events, ticks, external findings, reconfigurations and restarts today's count is the sum over severities, and no two alerts share a printed id |
| EngineDays.CountersAreToday | hermian-core/src/engine.rs:42-62 | over any such run the counters stand for the day that the last event, tick or restart saw, and count exactly the alerts made since the operation with which that day began, in total and of each severity; an external finding does not look at the date |
| EngineDays.EventsCounted | hermian-core/src/engine.rs:177-190 | the count of events grows by each event and is not reset by a new day |
| EngineDays.ResetEvents | hermian-core/src/engine.rs:177-190 | a restart on another day sets it to zero |
| EngineDays.EventCounts | hermian-core/src/engine.rs:236-249 | after an event the day is that of the wall clock, today's count is the number of alerts made, added to the old one only on the same day, likewise for each severity, and one more event is counted |
| EngineDays.TickCounts | hermian-core/src/engine.rs:449-472 | the same after a tick, without an event |
| EngineDays.RestartCounts | hermian-core/src/engine.rs:177-190 | a restart on the same day keeps the counters, on another it starts them, events too |
| EngineDays.AlertsAreFindings | hermian-core/src/engine.rs:554-570 | every alert of an event is made of one of its findings: its signature and severity, at the event time |
| EngineDays.AlertsAreSummaries | hermian-core/src/engine.rs:466-470 | a tick makes one LOW alert per summary, by the clock, under `summary|` and the signature |
| EngineClass.Engine.constructor | hermian-core/src/engine.rs:107-141 | starts with an empty deduper, today's ids from zero and zero counters |
| EngineClass.Engine.Restore | hermian-core/src/engine.rs:177-190 | ids carry on from the saved position, and counters are taken over only if they are today's; the deduper is untouched |
| EngineClass.Engine.SetConfig | hermian-core/src/engine.rs:203-209 | a changed window setting starts an empty deduper with the new window, an unchanged one keeps everything |
| EngineClass.StartAgain | hermian-core/src/engine.rs:177-190 | building an engine and restoring it is the restart step of the runs above |
| EngineClass.Engine.IssueAlert | hermian-core/src/engine.rs:563-566 | takes the next id by the wall clock and counts the alert by its severity |
| EngineClass.Engine.RaiseFinding | hermian-core/src/engine.rs:489-497 | one finding is recorded and, if not suppressed, issued |
| EngineClass.Engine.RaiseNext | hermian-core/src/engine.rs:561-567 | one turn of the loop over the findings |
| EngineClass.Engine.RaiseAll | hermian-core/src/engine.rs:554-570 | all findings of an event, in order |
| EngineClass.Engine.ProcessAt | hermian-core/src/engine.rs:236-251 | clamps the time, counts the event, starts the counters again if the wall clock shows another day, then raises what the rules found and counts it |
| EngineClass.Engine.IssueAll | hermian-core/src/engine.rs:466-470 | one LOW alert per summary |
| EngineClass.Engine.TickNow | hermian-core/src/engine.rs:449-472 | starts the counters again if the clock shows another day, raises the digest if due, closes windows and issues their summaries, each once, and counts both |
| RefIds.RefIdsNeverRepeat | hermian-core/src/alert.rs:389-428 | over any run of requests and restarts from the saved state, with the clock moving at will, (day, number) strictly increases and printed ids are pairwise distinct |
| RefIds.NumbersHaveNoGaps | hermian-core/src/alert.rs:397-423 | over any such run the ids of a day are numbered 1, 2, 3 and so on |
| RefIds.IdIsOfToday | hermian-core/src/alert.rs:412-420 | an id carries the date it is asked for on, unless the clock was later before |
| RefIds.IdReads | hermian-core/src/alert.rs:422 | an id reads HER, four digits of year, two each of month and day, and three or more of the number |
| RefIds.RefIdInjective | hermian-core/src/alert.rs:422 | different positions print differently, though numbers above 999 are wider than their padding |
| RefIds.DayKeyOrder | hermian-core/src/alert.rs:375-377 | the key sorts as the date does and names it uniquely |
| RefIds.PaddedValue | hermian-core/src/alert.rs:422 | zero padding loses nothing |
| RefIds.RefGen.constructor | hermian-core/src/alert.rs:390-395 | starts at the day with number zero |
| RefIds.RefGen.Resume | hermian-core/src/alert.rs:400-410 | carries on from a well-formed saved day that is not past, else starts afresh |
| RefIds.RefGen.Next | hermian-core/src/alert.rs:412-423 | moves to the day only if it is later, and prints the new position |
| Greedy.LinesMinimal | hermian-core/src/alert.rs:503-523 | for every way of measuring in which a part of a fitting line fits, no legal breaking has fewer lines than the greedy one |
| Greedy.LinesLegal | hermian-core/src/alert.rs:503-523 | the greedy lines hold the words in order, none lost, each fitting or a single word |
| Wrap.LayIsOptimal | hermian-core/src/alert.rs:506-516 | a paragraph's lines are legal at the width and no legal breaking has fewer |
| Wrap.WrapIsFaithful | hermian-core/src/alert.rs:503-523 | the words of the output are the words of the text in order, and each line fits the width or is one over-long word |
| Wrap.ParagraphsApart | hermian-core/src/alert.rs:505-522 | every paragraph begins on a line of its own after those before it, one without words is an empty line, and only empty lines at the end are left out, all of them as long as a line remains |
| Wrap.ParagraphsExactly | hermian-core/src/alert.rs:505 | paragraphs are what the newlines of the text separate |
| Wrap.WordsOfJoin | hermian-core/src/alert.rs:507-514 | splitting a joined line gives its words back |
| Wrap.PutWord | hermian-core/src/alert.rs:508-514 | a word goes on the line after one blank, or starts a new line if it would pass the width |
| Wrap.WrapParagraph | hermian-core/src/alert.rs:506-516 | the loop lays the words as the greedy breaking does |
| Wrap.WrapText | hermian-core/src/alert.rs:503-523 | all paragraphs, without empty lines at the end |
| ConfMergeFacts.MergeTwice | hermian/src/confmerge.rs:16-18 | for every user file, template and outcome of the comparison of settings, merging a merged file again returns `None` |
| ConfMergeFacts.MergedNone | hermian/src/confmerge.rs:258-260 | there is nothing to add if and only if every template section is covered: all its keys are in its body, or without a body its marker is in the file |
| ConfMergeFacts.MergeCovers | hermian/src/confmerge.rs:205-280 | after a merge every template section is covered |
| ConfMergeFacts.MergeKeepsActive | hermian/src/confmerge.rs:197-286 | the user's lines are a subsequence of the output, every added line is blank or a comment, and the active lines are the same in order |
| ConfMergeFacts.MergeKeepsSections | hermian/src/confmerge.rs:143-153 | no section appears or disappears, and each has the active lines it had |
| ConfMergeFacts.MergePlacesExactly | hermian/src/confmerge.rs:217-245 | every section of the file, whatever the template, becomes: its lines up to the last that is not blank, the blocks of the template sections of its name, each a note and the settings the body lacks with their explanations, then the rest of its lines; what is new at the end of the file follows the last section |
| ConfMergeFacts.MergeEndsWith | hermian/src/confmerge.rs:247-280 | the output ends with a blank line, two notes and every section the file does not have, in order, its header and settings switched off; with nothing if it has them all; before that comes the file with lines put in between |
| ConfMergeFacts.MissingIsLacking | hermian/src/confmerge.rs:223-230 | what is added for a section are its missing settings in order, each the explanations and then the line, with one # if it was not off |
| ConfMergeFacts.AddedLinesTurnOn | hermian/src/confmerge.rs:11-14 | removing one `#` from any line a merge adds, to whatever file, turns a setting or section on or leaves a comment, if and only if that holds of every explanation in the template |
| ConfMergeFacts.TidySectionTurnsOn | hermian/src/confmerge.rs:11-14 | it does if explanations start with `##` and settings that are off read `#key = value` |
| ConfMergeFacts.ParsedShows | hermian/src/confmerge.rs:86-128 | a parsed section has a setting if and only if the template shows that line under that header |
| TemplateText.ParsedIsRead | hermian/src/confmerge.rs:86-128 | for every template the line-by-line parse gives the sections in order, each with the comments above its first setting as introduction and its settings in order, each with just the comments above it since the last setting or blank line |
| ConfMerge.ParsedGood | hermian/src/confmerge.rs:71-84 | explanations are comments and each setting's line shows its key |
| ConfMerge.AfterTextIsLast | hermian/src/confmerge.rs:234-238 | the insertion point follows the last line of the body that is not blank |
| ConfMerge.ParseTemplate | hermian/src/confmerge.rs:86-128 | the loop computes `Parsed` |
| ConfMerge.ParseSectionLine | hermian/src/confmerge.rs:103-126 | one line inside a section becomes a setting, an explanation or a separator |
| ConfMergeLoops.PresentKeys | hermian/src/confmerge.rs:219-222 | the keys shown, active or switched off |
| ConfMergeLoops.MissingLines | hermian/src/confmerge.rs:223-230 | the explanations and switched-off lines of the keys that are missing |
| ConfMergeLoops.LastText | hermian/src/confmerge.rs:234-238 | the scan back over blank lines |
| ConfMergeLoops.PlanSection | hermian/src/confmerge.rs:206-256 | what one template section adds to the plan |
| ConfMergeLoops.MakePlan | hermian/src/confmerge.rs:202-257 | the plan for all sections |
| ConfMergeLoops.InsertBlock | hermian/src/confmerge.rs:264-266 | line-by-line insertion puts the block in as a whole |
| ConfMergeLoops.InsertBlocks | hermian/src/confmerge.rs:263-267 | the blocks one after the other |
| ConfMergeLoops.ApplyPlan | hermian/src/confmerge.rs:261-280 | insertions from the bottom up, then the new sections at the end |
| ConfMergeLoops.MergeFile | hermian/src/confmerge.rs:199-286 | the whole of `merge` on text |
| ConfLines.CommentOutKey | hermian/src/confmerge.rs:131-139 | a switched-off setting is a comment that still shows its key |
| ConfLines.StripCRReads | hermian/src/confmerge.rs:22-63 | a carriage return at the end of a line changes no reading of it |
| ConfReadings.ActiveKeyExactly | hermian/src/confmerge.rs:41-50 | a line is read as a setting if and only if it is white space, a name of a-z, 0-9 and _, white space, = and anything |
| ConfReadings.CommentedKeyExactly | hermian/src/confmerge.rs:52-63 | a line is read as a setting that is off if and only if it is one behind white space and one # |
| ConfReadings.HeaderExactly | hermian/src/confmerge.rs:22-34 | a line is read as the header of a section if and only if it is its name in single brackets, with white space anywhere and nothing but a comment behind |
| ConfReadings.OtherLinesExactly | hermian/src/confmerge.rs:36-39 | comments begin with # and headers of any kind with [, after white space; blank lines are white space |
| Sections.BodyUnique | hermian/src/confmerge.rs:141-153 | the search finds the only range that is the body of the first such section |
| Sections.InsertAllPlaces | hermian/src/confmerge.rs:261-267 | worked from the bottom up, each block lands in the body its position was computed in |
| Sections.InsertAllStacked | hermian/src/confmerge.rs:263-267 | insertions into a body, all at one place of it, leave exactly their blocks there, each in front of those before it |
| Sections.StackSorted | hermian/src/confmerge.rs:262 | the sort is stable: it does not change in which order blocks end up at a place |
| Sections.SortDescending | hermian/src/confmerge.rs:262 | positions descend and nothing is lost or added |
| ConfRetire.OffExactly | hermian/src/confmerge.rs:174-187 | exactly the active retired keys, each in the first section of its name, are commented out; every other line is as it was |
| ConfRetire.OffClears | hermian/src/confmerge.rs:167-170 | no retired setting is active afterwards |
| ConfRetire.RetireTwice | hermian/src/confmerge.rs:167-195 | retiring a retired file again returns `None` |
| ConfRetire.SwitchOffIn | hermian/src/confmerge.rs:178-183 | the key is commented out throughout the range, and `changed` says whether anything was |
| ConfRetire.SwitchOff | hermian/src/confmerge.rs:175-183 | one retired key in its section |
| ConfRetire.SwitchOffAll | hermian/src/confmerge.rs:173-187 | all retired keys |
| ConfRetire.RetireFile | hermian/src/confmerge.rs:170-195 | the whole of `retire` on text |
| ConfigRuns.QuietRunNotWeak | hermian/src/configdiff.rs:62-93 | over any run of reloads of configs of one type in which no step is judged weakening, the change from any config to any later one is not judged weakening |
| ConfigRuns.ReloadsNotWeak | hermian-core/src/config.rs:376-386 | the same for runs of values laid out as Hermian's `Config` |
| ConfigRuns.TypedShape | hermian-core/src/config.rs:376-386 | two values of one layout have objects in the same places |
| ConfigRuns.QuietRunProtects | hermian/src/configdiff.rs:133-162 | over such a run every field keeps what its path promises: every channel stays, the severity threshold does not rise, no exception, user or management network is added, every detection that was on is on, the named SSH limits move one way only, and what is not known to be harmless is as it was |
| ConfigRuns.RulesKeepPromises | hermian/src/configdiff.rs:95-162 | every path is judged by the rule its table names |
| ConfigRuns.RankMeans | hermian/src/configdiff.rs:116-124 | thresholds rise from INFO to LOW, HIGH, CRITICAL and then anything else, in either case of letters |
| ConfigRuns.SecretsNeverShow | hermian/src/configdiff.rs:187-195 | two reloads of configs of one type that agree at every field that is not secret, and change the same secret ones, are reported by the same paths and the same summary, whatever the secrets are and whatever prints values |
| ConfigDiff.SecretByKey | hermian/src/configdiff.rs:187-189 | a field is secret if and only if its own key is token, bot_token, smtp_password, smtp_username or url, wherever it is |
| ConfigRuns.TypedDiffers | hermian/src/configdiff.rs:164-197 | two configs of one type differ at exactly those fields of the layout whose values are different |
| ConfigRuns.NotWeakTransitive | hermian/src/configdiff.rs:164-197 | two reloads not judged weakening, between configs with objects in the same places, make one that is not |
| ConfigRuns.RuleMeaning | hermian/src/configdiff.rs:133-162 | a field passes its rule if and only if it protects at least as much: entries kept, none added, not quieter, not switched on or off, not log-only, not higher or lower, or unchanged |
| ConfigRuns.ShapeNeeded | hermian/src/configdiff.rs:168-185 | between values of different layouts it would not hold: below any field that may change freely, two harmless changes through null hide a weakening one |
| ConfigRuns.LongKeyBelow | hermian/src/configdiff.rs:96-114 | below each of the fields that may change freely every key of 45 or more characters is such a case |
| ConfigDiff.RuleTransitive | hermian/src/configdiff.rs:134-162 | every rule of the judgement is transitive |
| ConfigDiff.Walk | hermian/src/configdiff.rs:164-197 | pushes one change for each field at which the two trees differ and are not both objects, with both values and the judgement, for exactly those fields, in dictionary order of their keys |
| ConfigDiff.WalkField | hermian/src/configdiff.rs:173-183 | the same below one key, a missing value read as null |
| ConfigDiff.WalkFields | hermian/src/configdiff.rs:168-185 | the same below all keys of two objects, in sorted order |
| ConfigDiff.KeysInOrder | hermian/src/configdiff.rs:169-171 | all keys of both objects, sorted, each once |
| ConfigDiff.JoinLines | hermian/src/configdiff.rs:81-85 | the lines of all changes in order, separated |
| ConfigDiff.Judge | hermian/src/configdiff.rs:74-92 | the flags say whether some change is weak or moves a destination; the paths are listed in order; the summary is that of the changes |
| ConfigDiff.DiffConfigs | hermian/src/configdiff.rs:62-93 | paths and summary of exactly the differing fields in order; weakening if and only if one of them loosens, destinations moved if and only if one of them is a destination; the worst is assumed if a config cannot be turned into JSON |
| ConfigDiff.DestinationsListed | hermian/src/configdiff.rs:26-43 | the destinations are the channels, the threshold and the addresses, accounts and senders of the three channels |
| ConfigDiff.LinesInOrder | hermian/src/configdiff.rs:81-85 | the summary holds the line of every change, in order, with a semicolon and a blank between two |
| Addresses.MaskedEqual | hermian/src/blocklist.rs:233-234 | equal under a mask is equal in the first bits, at every prefix including 0 |
| Addresses.BlocksMeet | hermian/src/blocklist.rs:249-251 | two blocks share an address if and only if they agree on the shorter prefix |
| Addresses.PrintedCidr | hermian-core/src/allowlist.rs:79-94 | a printed `address/prefix` reads back as that block if and only if the prefix fits the family |
| Addresses.ParseCidrExactly | hermian-core/src/allowlist.rs:79-94 | a text reads as a block if and only if it is a bare address, at full width, or an address, a slash and a 32-bit decimal number that fits the family |
| Addresses.MappedRoundTrip | hermian-core/src/allowlist.rs:112-116 | unwrapping an IPv4-mapped address and mapping it again are inverse |
| Addresses.MappedByNumber | hermian-core/src/allowlist.rs:112-116 | an IPv6 address holds an IPv4 one if and only if its number is 0xffff00000000 more |
| Addresses.LoopbackByNumber | hermian/src/blocklist.rs:191-200 | loopback is 127.0.0.0/8 and ::1, by number |
| Addresses.MulticastByNumber | hermian/src/blocklist.rs:191-203 | multicast is 224.0.0.0/4 and ff00::/8 |
| Addresses.LinkLocalByNumber | hermian/src/blocklist.rs:191-203 | link-local is 169.254.0.0/16 and fe80::/10 |
| Blocklist.KeyCovers | hermian/src/blocklist.rs:171-182 | a native address's key covers exactly its IPv4 address or IPv6 /64 |
| Blocklist.SameKey | hermian/src/blocklist.rs:171-182 | two native addresses have one key if and only if they are in one block |
| Blocklist.ManagedExactly | hermian/src/blocklist.rs:230-255 | the management test fires if and only if the network and the block's range intersect |
| Blocklist.BlockSparesManagement | hermian/src/blocklist.rs:184-228 | a block of a native address that is not refused covers no address of any management network |
| Blocklist.RefusalIsReal | hermian/src/blocklist.rs:211-220 | a refusal for a management network names one that really holds an address the block would cover |
| Blocklist.RefusedExactly | hermian/src/blocklist.rs:189-228 | the answer is that an address is special if and only if its number is that of 0.0.0.0, 255.255.255.255, ::, ::1 or one in 127.0.0.0/8, 169.254.0.0/16, 224.0.0.0/4, fe80::/10 or ff00::/8; else it names the first management network that meets its range, if there is one; else that it is allowlisted if and only if a source holds it, or the IPv4 address in it; else none |
| Blocklist.MappedCovers | hermian/src/blocklist.rs:174-175 | an IPv4 address given inside IPv6 is blocked as that IPv4 address alone |
| Blocklist.MappedBlock | hermian/src/blocklist.rs:174-175 | for an IPv4-mapped address the guarantee fails if and only if a management network holds the IPv4 address, none meets the IPv6 /64 it came in, and no allowlisted source matches it |
| Blocklist.MappedSlipsThrough | hermian/src/blocklist.rs:240 | every address of a lone IPv4 management network, given inside IPv6, is accepted for blocking and covered by the block |
| Blocklist.MatchesExactly | hermian-core/src/allowlist.rs:96-119 | an allowlist rule matches exactly the addresses of its block, IPv4 ones also inside IPv6 |
| Isolate.RulesetMeansPolicy | hermian/src/isolate.rs:95-195 | for every list of networks, egress set and packet, each chain accepts exactly loopback (not forwarded), related ICMP, management traffic, neighbour discovery, DHCP, and calls to or established answers from metadata, resolvers and notification targets; the metadata addresses are those numbered 0xa9fea9fe and 0xfd000ec2 * 2^96 + 0x254 |
| Isolate.MetadataByNumber | hermian/src/isolate.rs:85 | the addresses the rules name are 169.254.169.254 and fd00:ec2::254 |
| Isolate.OpenConnectionsAreCut | hermian/src/isolate.rs:136-140 | an established packet outside those exceptions passes no chain |
| Isolate.AnswersComeBack | hermian/src/isolate.rs:146-169 | the established answer to a packet is accepted inbound if and only if the packet would be accepted outbound as the first of a new flow; only related ICMP errors are accepted outbound without that |
| Isolate.ManagementStaysOpen | hermian/src/isolate.rs:142-144 | packets from and to management networks pass in every connection state, forwarded ones too |
| Isolate.NormalSame | hermian/src/isolate.rs:64-80 | clearing host bits changes no membership |
| Isolate.NormalClears | hermian/src/isolate.rs:64-80 | a normalized network has no host bits |
| Isolate.NetsExactly | hermian/src/isolate.rs:96-103 | the normalized networks hold exactly the addresses of the configured ones that parse |
| Isolate.NormalNets | hermian/src/isolate.rs:96-103 | entries that do not parse are left out, the others normalized in order |
| Isolate.AppendEach | hermian/src/isolate.rs:142-144 | one rule per element is appended |
| Isolate.ForwardChain | hermian/src/isolate.rs:112-121 | the forward chain |
| Isolate.AppendDns | hermian/src/isolate.rs:182-185 | two rules per resolver are appended |
| Isolate.Ruleset | hermian/src/isolate.rs:95-195 | the three chains |
| BaselineModel.IndexAgrees | hermian-core/src/baseline.rs:241-264 | from at most 50000 loaded destinations, every run of observations and reloads keeps the network of every learned destination in the index |
| BaselineModel.KnownByNetwork | hermian-core/src/baseline.rs:285-287 | after such a run a destination that shares a learned network is known, and below the cap only such a one is |
| BaselineModel.ReloadChangesNothing | hermian-core/src/baseline.rs:255-264 | with an index that matches the set, observing a destination and reloading changes no answer if and only if the destination is ignored, there is room for it, its network is learned, or the index is full too |
| BaselineModel.ObservedReloaded | hermian-core/src/baseline.rs:247-249 | after an observation and a reload the destination is known if and only if there was room for it or its network was learned before |
| BaselineModel.ForgottenByReload | hermian-core/src/baseline.rs:247-252 | with the set full and the index not, a destination of a new network is known when observed and unknown after a reload |
| BaselineModel.FullSetForgets | hermian-core/src/baseline.rs:247-264 | 50000 addresses of one IPv6 /64 are such a set, for every IPv4 destination that is not ignored |
| BaselineModel.KnownStays | hermian-core/src/baseline.rs:241-253 | what is known stays known through observations and through reloads below the cap |
| BaselineModel.SameNet | hermian-core/src/baseline.rs:76-84 | two destinations share a network if and only if, unwrapped, they are of one family and agree on 24 bits, or 64 for IPv6 |
| BaselineModel.IgnoredExactly | hermian-core/src/baseline.rs:243-246 | what is ignored is 0.0.0.0, 127.0.0.0/8, :: and ::1, by number |
| BaselineModel.Baseline.ObserveDest | hermian-core/src/baseline.rs:241-253 | set and index become `Observed`, each up to its cap |
| BaselineModel.Baseline.IndexDests | hermian-core/src/baseline.rs:256-264 | the index gains networks of learned destinations only, all of them unless it reaches the cap, which it cannot cut short with at most 50000 destinations |
| BaselineModel.Baseline.NetsOf | hermian-core/src/baseline.rs:257 | the networks of the set, in any order |
| BaselineModel.Baseline.InsertUpTo | hermian-core/src/baseline.rs:258-263 | everything is inserted, or the cap was reached |
| BaselineModel.Baseline.DestIsKnown | hermian-core/src/baseline.rs:285-287 | answers from the set or the index |
| Btf.LookupEncoded | hermian/src/btf.rs:52-136 | for every encoded list of types in every file layout, parse and lookup give the byte offset of the first matching member of the first struct of that name, from the low 24 bits with the kflag |
| Btf.ParseEncoded | hermian/src/btf.rs:52-76 | parsing finds both sections wherever they lie |
| Btf.WalkEncoded | hermian/src/btf.rs:90-136 | the walk over encoded types finds what a search of the list finds |
| Btf.Le32RoundTrip | hermian/src/btf.rs:41-44 | reading four written bytes gives the number back |
| Btf.InfoReads | hermian/src/btf.rs:96-113 | the info word of every kind yields its kind, length, flag and body size |
| Btf.BodyLenExactly | hermian/src/btf.rs:100-113 | the length of a body is the one of the format for every kind, and the walk stops at kinds 0 and above 19 |
| Btf.NameReads | hermian/src/btf.rs:78-87 | a name is the text from its offset to the next NUL, if it is UTF-8 |
| Btf.StructMemberOffset | hermian/src/btf.rs:90-136 | on arbitrary bytes the loop ends, reads in range only and returns `MemberOffset` |
| Btf.WalkTypes | hermian/src/btf.rs:91-135 | the outer loop |
| Btf.MemberLoop | hermian/src/btf.rs:116-131 | the first member of that name, or none |
| PamJson.StringRoundTrip | hermian-pam/src/lib.rs:103-127 | a reader following section 7 of RFC 8259 decodes every escaped string to the original |
| PamJson.PayloadRoundTrip | hermian-pam/src/lib.rs:80-101 | reading a datagram gives the timestamp and exactly the fields written, in order |
| PamJson.ReportRoundTrip | hermian-pam/src/lib.rs:81-101 | reading a report gives ts, result, user, rhost, service and tty, in that order, with their values, whatever these hold |
| PamJson.EscapeChar | hermian-pam/src/lib.rs:108-125 | one character, escaped by its case |
| PamJson.EscapeInto | hermian-pam/src/lib.rs:105-127 | the loop appends the escaped string |
| PamJson.WriteField | hermian-pam/src/lib.rs:93-97 | one `,"key":"value"` |
| PamJson.WriteFields | hermian-pam/src/lib.rs:86-98 | all fields in order |
| PamJson.WritePayload | hermian-pam/src/lib.rs:81-101 | the whole datagram |

## Left out

- Detection rules, role and tool tables: an event brings an arbitrary list of findings; the tables would add only easy lemmas.
- eBPF, netlink, `/proc`, inotify, the auth log, running nft and systemd, rendering of messages, the command line: input, output and user interface.
- The file system is a map from names to contents: a rename is atomic and lasts, a deletion works, and a finished save is never torn; writes may fail at any point. Alerts are stamped after 1970, so saved names start with a digit.
- Retention (hermian/src/retention.rs:70-90) may delete a channel's whole directory once it is older than the retention age, saved alerts included; that is not a step of the runs.
- Task scheduling: a channel is one task, so its run is a sequence of steps; the shared status, `failing_since` and the failure alarm are not modelled.
- Each alert copy in the queue model carries a number of its own, which the program does not have, so that equal alerts are counted separately.
- The TOML parser: whether the settings read back the same is an arbitrary relation between the two texts, so the results hold whatever it answers.
- The wording of notes: the explanations `merge` and `retire` add are parameters, `##` lines without a line break for `merge`.
- ConfigDiff.DiffConfigs: how JSON values are printed is a parameter; numbers are reals.
- ProcTree.ReapKeepsAncestry: a sufficient condition only; the exact one is `ReapExact.AncestrySurvivesExactly`.
- Reading an address from text, and whether bytes are UTF-8, are parameters; `Addresses.ParseCidr` models the rest of CIDR reading, and the block and ruleset models take any reader of CIDRs.
- nft syntax: rules are data with the meaning of their matches; refusing catch-all networks before applying the ruleset is not modelled.
- BaselineModel.KnownByNetwork: learning of SSH sources, keys and connectors and the end of the learning window are not modelled; they are plain capped sets.
- PamJson.PayloadRoundTrip: the reader takes flat objects without blanks, which is what is written; clipping fields to 512 characters is not modelled.
- RefIds.RefIdsNeverRepeat: years 0000 to 9999, and the daily number does not overflow 32 bits.
- Btf.StructMemberOffset: offsets are unbounded; the 32-bit fields of a file cannot overflow a 64-bit size.
- The text of the deduper's summaries and the printing of varying values: kept as data in the model, not rendered.
