# Verification model of a virtual lab manager

A central service and its VM agents run network labs for several users. This project models the
parts of them that decide something, and proves what those parts promise:

- **Reservations** (`Reservations`, `SweepLine`, `CalendarStore`, `ReservationPruning`,
  `ReservationSafety`, `ReservationOverruns`, `ReservationViews`, `ReservationCounts`,
  `ReservationEffects`): a calendar of half-open slots per lab, with a sweep line for the rule of two
  slots at once, lazy pruning, and several read views.
- **Sandbox** (`Sandbox`, `TopologyValidator`, `EndpointTexts`, `SandboxTopologies`): the apply, update and reset
  transactions over three files and a deployed lab, in which every step may fail or throw, and the
  validator before them.
- **Router configuration** (`JunosCleanup`, `BackgroundJobs`, `JobResults`): the cleanup that turns a
  running configuration into the base, and the job protocol between starters, cancellers and workers.
- **Snapshot** (`Connectivity`, `SingleFlight`, `RefreshOutcomes`): the debounce of VM connectivity and
  the single-flight refresh among concurrent callers.
- **Jump host firewall** (`JumpFirewall`, `FirewallCalendar`): reservations compiled to a first-match
  rule chain, and the way from the calendar to who reaches which router.
- **VM registry** (`Cidr`, `Netplan`, `VmRegistry`, `VmEffects`, `VmLinks`) and **login limiter**
  (`LoginLimiter`, `LoginLockouts`).
- **Topology builder, accounts, capacity** (`InterfaceAllocation`, `Accounts`, `AccountEffects`,
  `Access`, `Capacity`), with `Decimals` and `Sequences` as helpers.

`dafny verify dfyconfig.toml` checks everything.

How it is modelled. Code that changes state is a class whose methods are proved against a
specification function or relation; runs, invariants and simulations are lemmas about that
specification. Beside the specification functions stand laws that say what a call answers, stores and
leaves alone without using them: on the entries, accounts, routes, times and results themselves.
Concurrent code is a state machine whose steps are the lock sections of the source.
What the outside world does (file writes, stopping and starting labs, collecting, applying a
netplan) is a parameter that ranges over every outcome. Time is a whole number of microseconds,
capacities are reals, networks are IPv4 (section 3.1 of RFC 4632).

Where the code and its comments or intentions disagree, the model follows the code. For each such
place there is an input on which the intention fails and the exact condition under which it holds:

- An extension checks neither booking rule (`ExtensionBreaksTheRules`, `ExtendCanBreakTheRules`, `ExtendStepSafeIff`).
- A clock that goes back makes the pruning visible (`PruningShowsIff`).
- An update of a topology, and a reset, are not all or nothing (`UpdateMayLeaveTheNewFile`,
  `UpdateMayLeaveATornFile`, `UpdateIsAtomicIff`; `ResetMayLeaveTheBaseline`, `ResetIsAtomicIff`).
- A cancel request can be signalled and yet not be seen (`SignalBeforeRegistration`,
  `LateRegistrationLosesSignals`, `RequestIsSeenIff`, `TimelyRequestIsSeenIff`).
- A refresh that waits may return nothing (`WaiterMayReturnNothing`, `WaiterReturnsNothingIff`).
- A deletion of a VM may lose the route and keep the VM (`CutShortLosesTheRoute`,
  `DeleteKeepsLinksIff`; `RunKeepsLinksIff` for all operations).
- The link loop may give a node the same interface twice (`WishAfterSearchCollides`,
  `NodeGetsDistinctNamesIff`), and its search starts at index 0, although its comment speaks of
  reserving the first interface and two families start at 1 (`AssignedIsRefusedIff`).
- The guards on role changes and on deactivations are coarser than needed
  (`GuardsRefuseTheInactive`, `DemotionGuardIff`, `DeactivationGuardIff`).

## Model

| member | source | states |
|---|---|---|
| `SweepLine.PeakCover` | central/src/services/reservations.py:435-463 | The sweep over (time, delta) events returns exactly the largest number of slots covering one instant, and that instant is the start of a slot |
| `SweepLine.Peak` | central/src/services/reservations.py:453-459 | The running counter over the sorted events ends with the maximum, over all instants, of the level computed without any sorting |
| `SweepLine.RankIsTupleOrder` | central/src/services/reservations.py:455 | The single sort key orders events as the pairs (time, delta) do: closings before openings at one instant |
| `SweepLine.LevelOfEvents` | central/src/services/reservations.py:446-451 | The net number of events up to an instant is the number of half-open slots covering it |
| `SweepLine.LevelSort` | central/src/services/reservations.py:455 | Sorting the events does not change the level at any instant |
| `SweepLine.LevelIsRunning` | central/src/services/reservations.py:455-458 | The level at an instant is the running sum of a prefix of the sorted timeline, cut exactly at that instant |
| `CalendarStore.TooManyInSlot` | central/src/services/reservations.py:435-463 | The refusal of the sweep holds if and only if some instant of the requested slot is already covered by two counted entries of the owner |
| `CalendarStore.CountedSlots` | central/src/services/reservations.py:437-452 | The clipped slots cover each instant of the requested slot exactly as often as the counted entries do, over all labs |
| `CalendarStore.PruneExpired` | central/src/services/reservations.py:166-180 | Pruning keeps exactly the entries with end >= now, drops empty labs, and reports whether anything went |
| `CalendarStore.CheckBooking` | central/src/services/reservations.py:423-463 | Which refusal a booking gets: a foreign overlapping entry first, then the simultaneity rule |
| `CalendarStore.CheckMove` | central/src/services/reservations.py:315-369 | Which refusal a move gets: past start, duration, foreign overlap, simultaneity without the moved entry |
| `CalendarStore.Calendar.Reserve` | central/src/services/reservations.py:392-492 | One step of the calendar: prune, check, drop own overlapped entries, insert, sort, save; nothing is saved on refusal |
| `CalendarStore.Calendar.UpdateScheduled` | central/src/services/reservations.py:280-382 | One step: the first future entry with the id is moved in place and the list re-sorted, or refused without saving |
| `CalendarStore.Calendar.ExtendActive` | central/src/services/reservations.py:495-569 | One step: the first active entry is lengthened within the last hour and seven hours in all; no overlap or simultaneity check |
| `CalendarStore.Calendar.CancelScheduled` | central/src/services/reservations.py:247-277 | One step: the first future entry with the id is removed; pruning is saved even when nothing is found |
| `CalendarStore.Calendar.ReleaseLab` | central/src/services/reservations.py:572-590 | One step: the first active entry is removed and returned |
| `CalendarStore.Calendar.GetReservation` | central/src/services/reservations.py:197-219 | One step: the active entry with the latest start |
| `CalendarStore.Calendar.ListScheduledReservations` | central/src/services/reservations.py:222-244 | One step: the future entries in order of start |
| `CalendarStore.Calendar.AttachReservation` | central/src/services/reservations.py:598-626 | One step: the active entry met last, and the future ones in order of start |
| `CalendarStore.Calendar.CountUserActive` | central/src/services/reservations.py:183-194 | The number of labs on which the user holds an active entry, each lab counted once; nothing is pruned |
| `ReservationPruning.PruningIsInvisible` | central/src/services/reservations.py:166-180 | Simulation: under a clock that never goes back, every run on the pruning store answers as the same run on a store that keeps everything |
| `ReservationPruning.PruningIsInvisibleFrom` | central/src/services/reservations.py:166-180 | The same from any common well-formed calendar |
| `ReservationPruning.StepAgrees` | central/src/services/reservations.py:197-626 | Each of the nine operations answers alike on stores that agree on their live entries, and leaves them agreeing |
| `ReservationPruning.PruningShowsIff` | central/src/services/reservations.py:166-180 | The clock condition is exact: for a given sequence of call times, some calendar and some operations show the pruning if and only if the times go back somewhere |
| `ReservationSafety.RunKeepsSafe` | central/src/services/reservations.py:423-490 | Over every admissible run: owners never overlap on a lab, nobody covers an instant more than twice, lists stay sorted, ids distinct, durations exact |
| `ReservationSafety.RunFromEmptyIsSafe` | central/src/services/reservations.py:423-490 | The same from a new calendar |
| `ReservationSafety.StepKeepsSafe` | central/src/services/reservations.py:197-590 | The same for one step of any operation |
| `ReservationSafety.BookingKeepsSafe` | central/src/services/reservations.py:465-490 | Dropping own overlapped entries and inserting into a free slot keeps all rules, also across labs |
| `ReservationSafety.MovingKeepsSafe` | central/src/services/reservations.py:327-381 | Moving an entry into a slot that is free without it keeps all rules, although an owner may overlap himself on the lab |
| `ReservationSafety.RemovalKeepsSafe` | central/src/services/reservations.py:262-276 | Removing an entry keeps all rules |
| `ReservationSafety.PruneKeepsSafe` | central/src/services/reservations.py:166-180 | Pruning keeps all rules |
| `ReservationSafety.ExtensionKeepsRulesIff` | central/src/services/reservations.py:538-565 | Lengthening an entry keeps the two booking rules if and only if the added stretch is free |
| `ReservationSafety.ExtendStepSafeIff` | central/src/services/reservations.py:495-569 | A whole extend call leaves the calendar safe if and only if the stretch it adds, if it adds one, is free |
| `ReservationOverruns.ExtensionBreaksTheRules` | central/src/services/reservations.py:495-569 | For all two bookings of different owners back to back in one lab of the empty calendar: both are admitted, the calendar is safe, and every accepted extension of the first, while it is active, breaks the booking rules |
| `ReservationOverruns.ExtendCanBreakTheRules` | central/src/services/reservations.py:495-569 | Such a run exists, from the empty calendar: the failing input of the extension |
| `ReservationSafety.RunKeepsDurations` | central/src/services/reservations.py:321-324 | In every reachable calendar, whatever was extended, end - start is the stored duration, at most 7 h, and at most 6 h until extended |
| `ReservationEffects.ReserveAnswer` | central/src/services/reservations.py:402-463 | When a reservation is refused and why, on the entries themselves: its length, an overlapping entry of somebody else on the lab, two entries of the owner on other labs at one instant; otherwise the entry asked for is saved, and nothing is saved on refusal |
| `ReservationEffects.ReserveNamesTheHolder` | central/src/services/reservations.py:421-432 | The refusal names the owner of the first entry in the way |
| `ReservationEffects.ReserveEffect` | central/src/services/reservations.py:465-492 | An accepted reservation stores exactly the entry asked for, and leaves every unexpired entry, as often as it was there, except own ones of the lab that share an instant with it |
| `ReservationEffects.UpdateAnswer` | central/src/services/reservations.py:291-369 | An update moves the first future entry with the id to the start and length asked for and keeps its other fields, or says why not |
| `ReservationEffects.UpdateEffect` | central/src/services/reservations.py:371-382 | An accepted update puts the moved entry in the place of the old one; every other unexpired entry stays as often as it was there |
| `ReservationEffects.NothingToUpdate` | central/src/services/reservations.py:291-301 | An update without a future entry with the id finds nothing; refused updates save nothing |
| `ReservationEffects.ExtendEffect` | central/src/services/reservations.py:514-569 | An extension of the first active entry: refused exactly outside the last hour and above seven hours in all, else end and duration grow by what was asked and nothing else changes |
| `ReservationEffects.NothingToExtend` | central/src/services/reservations.py:495-526 | An extension is refused for its length, or for want of an active entry, and saves nothing then |
| `ReservationEffects.CancelEffect` | central/src/services/reservations.py:247-277 | A cancellation takes the first future entry with the id out once, answers it, and leaves every other unexpired entry |
| `ReservationEffects.NothingToCancel` | central/src/services/reservations.py:269-277 | A cancellation that finds nothing still drops what has expired, and nothing more |
| `ReservationEffects.ReleaseEffect` | central/src/services/reservations.py:572-590 | A release takes the first active entry out once, answers it, and leaves every other unexpired entry |
| `ReservationEffects.NothingToRelease` | central/src/services/reservations.py:572-590 | Without an active entry a release changes nothing at all |
| `ReservationEffects.GetAnswer` | central/src/services/reservations.py:197-219 | Get answers the first among the active entries that started last, or nothing, and only prunes |
| `ReservationEffects.ListAnswer` | central/src/services/reservations.py:222-244 | The scheduled entries are listed once each, in order of start, those with one start in their stored order |
| `ReservationEffects.AttachAnswer` | central/src/services/reservations.py:598-626 | Attach shows the active entry stored last and the scheduled ones, and only prunes |
| `ReservationEffects.CountAnswer` | central/src/services/reservations.py:183-194 | The number is that of the labs on which the user has an active entry; nothing changes |
| `ReservationEffects.KeysTellLabsApart` | central/src/services/reservations.py:99-100 | Labs of VMs without a colon in their id never share a key |
| `ReservationEffects.ColonsBlurKeys` | central/src/services/reservations.py:99-100 | With colons in the id of a VM two labs can share a key |
| `ReservationCounts.FullIffCrowded` | central/src/services/reservations.py:435-463 | The rule on simultaneous slots without any sum: two different places in the calendar cover one instant of the slot |
| `ReservationViews.ViewsAgreeOnTheOnlyActive` | central/src/services/reservations.py:207-216 | With exactly one active entry the three ways to pick the active entry coincide |
| `ReservationViews.OneActiveEntryForAllCalls` | central/src/services/reservations.py:572-590 | If one entry of a lab is active, get returns it, attach shows it, release removes it and extend lengthens it |
| `ReservationViews.ViewsAgreeIff` | central/src/services/reservations.py:582-586 | With distinct ids the first and the last active entry are the same if and only if there is only one |
| `ReservationViews.AttachShowsWhatReleaseRemovesIff` | central/src/services/reservations.py:616-622 | In a safe calendar attach shows the entry that release would remove if and only if it is the only active one |
| `ReservationViews.TwoActiveOwnersTouch` | central/src/services/reservations.py:119-132 | Activity is closed at both ends: two owners are both active only at the instant where one slot ends and the other begins |
| `ReservationViews.LatestAndLastStartTogether` | central/src/services/reservations.py:207-216 | On sorted lists get and attach may pick different entries but never different starts |
| `Sandbox.SandboxHost.Apply` | vm-agent/src/config_management_service.py:2901-3139 | For every outcome of every write, stop, start and retry: which result is returned, and what the topology, annotations and deployed lab are afterwards |
| `Sandbox.SandboxHost.DeployOrRollBack` | vm-agent/src/config_management_service.py:2974-3139 | The try block and its handler: new files deployed, or the old contents back |
| `Sandbox.SandboxHost.StartWithRetry` | vm-agent/src/config_management_service.py:3023-3057 | The lab starts at once or at the retry, exactly when the error is retryable and the clean-up works |
| `Sandbox.SandboxHost.RestoreAnnotations` | vm-agent/src/config_management_service.py:444-460 | The annotations file is back to its snapshot, or gone if there was none, unless the restore fails |
| `Sandbox.SandboxHost.Update` | vm-agent/src/config_management_service.py:3142-3183 | For every outcome of every step: the file is replaced without touching lab or baseline, or what it holds when the call raises, torn writes included |
| `Sandbox.SandboxHost.Reset` | vm-agent/src/config_management_service.py:3186-3327 | For every outcome of every step: which result is returned or that it raises, and which topology is on the disk and deployed afterwards; never a change of baseline or annotations |
| `Sandbox.BaselineIsWriteOnce` | vm-agent/src/config_management_service.py:392-397 | Over every sequential run the baseline never changes once it exists |
| `Sandbox.IdentityIsImmutable` | vm-agent/src/config_management_service.py:2873-2890 | Over every sequential run each non-empty component of the reference signature is the same in the topology file and in the reference ever after |
| `Sandbox.StepKeepsIdentity` | vm-agent/src/config_management_service.py:2873-2890 | The same for one operation |
| `Sandbox.BaselineAgreesWithTopology` | vm-agent/src/config_management_service.py:2917-2936 | A baseline that appears during a run agrees with every later topology file |
| `Sandbox.RejectedIff` | vm-agent/src/config_management_service.py:2873-2912 | Apply and update refuse a text exactly when another rule does, it is no mapping, or it drops or changes a management name or subnet of the readable reference |
| `Sandbox.UnchangedIff` | vm-agent/src/config_management_service.py:2938-2972 | An apply leaves everything as it is exactly when the accepted text parses to the same document as the topology |
| `Sandbox.DeployedIff` | vm-agent/src/config_management_service.py:2974-3125 | An apply deploys exactly when nothing fails before the start and the lab starts, at once or at the one retry a retryable failure allows |
| `Sandbox.ResetDeploysIff` | vm-agent/src/config_management_service.py:3186-3304 | The same for a reset |
| `Sandbox.ApplyIsAtomicIff` | vm-agent/src/config_management_service.py:2901-3139 | For every environment: an apply that does not succeed leaves another topology file if and only if its handler runs, cannot write the old text back, and something else is there |
| `Sandbox.UpdateIsAtomicIff` | vm-agent/src/config_management_service.py:3142-3183 | For every environment, torn writes included: an update that does not succeed changes the disk if and only if the text is accepted and its write throws and tears the file, or goes through, changes it, and the positions cannot be written; its rollback branch is never reached |
| `Sandbox.UpdateMayLeaveTheNewFile` | vm-agent/src/config_management_service.py:3142-3183 | A failing input: positions that cannot be written |
| `Sandbox.UpdateMayLeaveATornFile` | vm-agent/src/config_management_service.py:3165 | Another failing input: a write that throws after truncating the file |
| `Sandbox.ResetIsAtomicIff` | vm-agent/src/config_management_service.py:3186-3327 | For every environment, torn writes included: a reset that does not succeed changes the topology file if and only if the write of the baseline throws, a start throws, or a start fails and the old text cannot be written back, and the writes leave something else than the old text |
| `Sandbox.ResetMayLeaveTheBaseline` | vm-agent/src/config_management_service.py:3257-3306 | The failing input of the reset: the start from the baseline throws |
| `SandboxTopologies.TopologiesStayAcceptable` | vm-agent/src/config_management_service.py:2901-3327 | From a disk whose topology and baseline meet the description of the validator for one VM subnet, every run of apply, update and reset keeps both so, whatever fails on the way, as long as a write that throws leaves the file as it was or with acceptable contents |
| `SandboxTopologies.RunsKeepAtMost256Nodes` | vm-agent/src/config_management_service.py:2901-3327 | Under the same premises no run leaves a topology with more than 256 non-bridge nodes |
| `TopologyValidator.Validate` | vm-agent/src/config_management_service.py:2670-2867 | Sound and complete: no error if and only if the document is acceptable by its declarative description |
| `TopologyValidator.ValidateSubnets` | vm-agent/src/config_management_service.py:2702-2738 | No error if and only if the management subnet is an IPv4 /24 all of whose addresses lie in the VM network, if one is given |
| `TopologyValidator.ValidateNodes` | vm-agent/src/config_management_service.py:2740-2799 | No error if and only if every non-bridge node has an IPv4 address inside the networks, kinds and names are well formed, and addresses are pairwise distinct |
| `TopologyValidator.ValidateNode` | vm-agent/src/config_management_service.py:2740-2799 | One turn of the loop: its errors are exactly what the node adds to the nodes before it |
| `TopologyValidator.ValidateEntry` | vm-agent/src/config_management_service.py:2744-2799 | The checks on one node, both directions |
| `TopologyValidator.RememberAddress` | vm-agent/src/config_management_service.py:2785-2791 | The dictionary of seen addresses reports a duplicate exactly when the address was used before |
| `TopologyValidator.ValidateLinks` | vm-agent/src/config_management_service.py:2801-2867 | No error if and only if links have two endpoints, endpoints name declared nodes or the host, interfaces are well formed, and no declared node:interface pair is used twice |
| `TopologyValidator.ValidateEndpoints` | vm-agent/src/config_management_service.py:2820-2867 | The inner loop of the same |
| `TopologyValidator.ValidateEndpoint` | vm-agent/src/config_management_service.py:2820-2865 | The checks on one endpoint, both directions |
| `EndpointTexts.NodeAndInterface` | vm-agent/src/config_management_service.py:2809-2836 | An endpoint text is split at its first colon, and both parts are stripped |
| `EndpointTexts.NodeAlone` | vm-agent/src/config_management_service.py:2809-2836 | A text without a colon is all node |
| `EndpointTexts.StripSplits` | vm-agent/src/config_management_service.py:2809-2836 | Stripping takes white space off both ends and nothing else |
| `EndpointTexts.HostIff` | vm-agent/src/config_management_service.py:2809-2836 | The host is recognised in any case of its letters |
| `EndpointTexts.SrlRefusedIff` | vm-agent/src/config_management_service.py:2844-2854 | The interfaces refused for SR Linux are those with a card or port number of zeros |
| `EndpointTexts.KindsAreTheLast` | vm-agent/src/config_management_service.py:2741-2758 | The kind looked up for a name is that of the last entry with this name and a kind |
| `TopologyValidator.KeysTellUsesApart` | vm-agent/src/config_management_service.py:2859-2863 | The string key node:iface identifies the pair, because the node part of a split endpoint has no colon |
| `TopologyValidator.UsedKeysSnoc` | vm-agent/src/config_management_service.py:2859-2863 | A key is in the dictionary exactly when an earlier endpoint uses the same interface |
| `TopologyValidator.InsideIsSubnetOf` | vm-agent/src/config_management_service.py:2732 | `subnet_of` holds if and only if every address of one network is an address of the other |
| `TopologyValidator.AtMost256Nodes` | vm-agent/src/config_management_service.py:2716-2799 | By the pigeonhole principle an accepted topology has at most 256 non-bridge nodes |
| `JunosCleanup.GenerateDeletes` | vm-agent/src/config_management_service.py:2063-2091 | The commands are the units of the surplus lines in the order of their pairs of strings, then the paths of the other surplus set lines in the order of their texts, each once |
| `JunosCleanup.Sorted` | vm-agent/src/config_management_service.py:2078-2081 | Sorting a set lists each element once, in order |
| `JunosCleanup.CalculateDiff` | vm-agent/src/config_management_service.py:2159-2191 | Missing and extra lines in order, the deletes for the extra ones, and a match exactly for equal captures |
| `JunosCleanup.LandsOnBaseIff` | vm-agent/src/config_management_service.py:1901-1926 | Any deletes followed by loading the base land on the base if and only if every surplus path lies below one of them |
| `JunosCleanup.CleanupLandsOnBase` | vm-agent/src/config_management_service.py:1901-1926 | From any running configuration, with the deletes in any order, deleting and then loading the base gives exactly the base |
| `JunosCleanup.SurplusIsDeleted` | vm-agent/src/config_management_service.py:2063-2091 | Every surplus path is gone after the deletes |
| `JunosCleanup.DeletesReachIff` | vm-agent/src/config_management_service.py:2063-2091 | The deletes reach no further than needed: a running path goes exactly when it is in an interface unit that has a surplus path, or below another surplus path |
| `JunosCleanup.TextLeIff` | vm-agent/src/config_management_service.py:2078-2081 | The order of the commands: a prefix first, else by the first character that differs |
| `JunosCleanup.TextOfLonger` | vm-agent/src/config_management_service.py:2078-2081 | Lines are compared as they are written, with one blank before every further word |
| `JunosCleanup.UnitLeIff` | vm-agent/src/config_management_service.py:2078-2081 | Units are ordered by interface, and on one interface by unit |
| `JunosCleanup.OrderOfDeletesIsFree` | vm-agent/src/config_management_service.py:1910-1923 | The order and repetition of the deletes do not matter |
| `JunosCleanup.SecondDiffDeletesNothing` | vm-agent/src/config_management_service.py:2159-2191 | A second diff generates no delete, and reports a match exactly when the base and the capture carry the same other lines |
| `JunosCleanup.UnitDeletesReachIntoTheBase` | vm-agent/src/config_management_service.py:2063-2091 | A unit delete can remove a line of the base, so that the reload is needed: a witness |
| `BackgroundJobs.EveryRunKeepsInv` | vm-agent/src/config_management_service.py:511-588 | In every interleaving of starters, cancellers and workers at lock sections: counters match results, at most one result after the event is set, and the store is the last 30 jobs |
| `BackgroundJobs.JobFacts` | vm-agent/src/config_management_service.py:833-964 | In every run: counters match the results, completed means all routers, cancelled means requested and some left over, and the job is ok exactly when it completed, had routers, and each of them is ok |
| `JobResults.ResultsAreOutcomes` | vm-agent/src/config_management_service.py:838-953 | In every run the results of a job are, one for one and in order, the outcomes its worker stored: node, verdict and error of each |
| `JobResults.TotalIsTheRouters` | vm-agent/src/config_management_service.py:833-964 | Once the worker has stored the number of its routers, that is the total of the job in every later state; a completed job then has exactly that many results, a cancelled one fewer |
| `JobResults.EndedJobsWereCounted` | vm-agent/src/config_management_service.py:833-964 | Every job in its loop, completed or cancelled has stored that number |
| `JobResults.CancelIsRecorded` | vm-agent/src/config_management_service.py:561-579 | A cancel call that finds the job stored and not ended goes on to signal it, and stays on the record in every later state |
| `JobResults.IdleCancel` | vm-agent/src/config_management_service.py:561-575 | Every other cancel call leaves everything as it is |
| `JobResults.DroppedJobsStayAsTheyAre` | vm-agent/src/config_management_service.py:791-793 | A worker that starts after its job was dropped from the store never works on it: the record stays as it is for good |
| `JobResults.NoLabIsFinal` | vm-agent/src/config_management_service.py:798-805 | A worker that finds no lab ends its job with that error, for good and without results |
| `JobResults.DeadWorkersStoreNothing` | vm-agent/src/config_management_service.py:782-966 | A worker that dies stores nothing more |
| `BackgroundJobs.RequestIsSeenIff` | vm-agent/src/config_management_service.py:537-796 | At any moment of any run a worker sees a request if and only if some signal of the run, before or after the worker fetched its event, set the event that was registered when it fetched |
| `BackgroundJobs.TimelyRequestIsSeenIff` | vm-agent/src/config_management_service.py:511-796 | In terms of the job alone: a worker that fetched while its job was stored sees a request if and only if the job was signalled at a moment when it was registered and still stored |
| `BackgroundJobs.FiredIffSet` | vm-agent/src/config_management_service.py:581-586 | In any run the events that are set are exactly those set by an effective signal |
| `BackgroundJobs.CapturedIffFetched` | vm-agent/src/config_management_service.py:794-796 | In any run a worker holds exactly the event that was registered for its job when it fetched |
| `BackgroundJobs.LiveEventIsSetIff` | vm-agent/src/config_management_service.py:537-588 | The event of a registered and stored job is set if and only if the job was signalled since it was registered |
| `BackgroundJobs.StepOnJob` | vm-agent/src/config_management_service.py:511-586 | One lock section changes the event registered for a job only by dropping the job, registering it, or signalling it when it has none |
| `BackgroundJobs.SignalIsSeenIff` | vm-agent/src/config_management_service.py:581-586 | At the step of a signal, a worker sees it if and only if it already holds the event registered at that moment; no other worker does |
| `BackgroundJobs.OnlySignalsAreSeen` | vm-agent/src/config_management_service.py:581-586 | No other step of anybody lets a worker that has its event see a request |
| `BackgroundJobs.SignalCancelsIff` | vm-agent/src/config_management_service.py:838-964 | After a signal, the job is cancelled at the next check if and only if routers are left and the signal reaches the worker; with no router left it completes |
| `BackgroundJobs.LateRegistrationLosesSignals` | vm-agent/src/config_management_service.py:537-545 | Registering the event after a signal replaces it: the worker that then starts does not see the request |
| `BackgroundJobs.SignalBeforeRegistration` | vm-agent/src/config_management_service.py:537-545 | The input on which that loses a request |
| `BackgroundJobs.TerminalIsFinal` | vm-agent/src/config_management_service.py:561-588 | A terminal record never changes again, whoever still acts on it |
| `BackgroundJobs.StepKeepsInv` | vm-agent/src/config_management_service.py:511-588 | The same for one lock section |
| `BackgroundJobs.JobBoard.InsertJob` | vm-agent/src/config_management_service.py:511-554 | The new job is stored last and the oldest jobs beyond 30 are dropped from the store |
| `BackgroundJobs.JobBoard.RegisterEvent` | vm-agent/src/config_management_service.py:544-545 | A new event replaces whatever was registered for the job |
| `BackgroundJobs.JobBoard.SignalCancel` | vm-agent/src/config_management_service.py:581-586 | The registered event is set, or a new one is registered and set |
| `BackgroundJobs.JobBoard.AppendResult` | vm-agent/src/config_management_service.py:950-953 | One more entry with node, verdict and error, and the counters that change with it |
| `BackgroundJobs.JobBoard.FinishJob` | vm-agent/src/config_management_service.py:955-964 | The final status, success count, verdict and error, from the cancellation flag of the loop |
| `BackgroundJobs.JobBoard.MarkCancelled` | vm-agent/src/config_management_service.py:561-588 | A job that is not terminal is marked, a terminal one is left alone |
| `Connectivity.Monitor.Record` | central/src/services/state_snapshot.py:70-121 | One poll of many VMs: the state of each VM is the debounce machine run over its own observations, and its transitions are its flips |
| `Connectivity.Monitor.RecordOne` | central/src/services/state_snapshot.py:78-112 | One observation of one VM, with the streak dictionaries |
| `Connectivity.StreaksAreSuffixes` | central/src/services/state_snapshot.py:70-102 | The counters are the lengths of the maximal constant suffix of the observations |
| `Connectivity.SuffixLengthIsMaximal` | central/src/services/state_snapshot.py:70-102 | The suffix length is the longest suffix of that value, said without recursion |
| `Connectivity.FlipExactlyAtThreshold` | central/src/services/state_snapshot.py:84-102 | A flip is reported exactly when the contrary suffix reaches its threshold |
| `Connectivity.ReportedIsLastConfirmed` | central/src/services/state_snapshot.py:70-102 | The reported state, without the machine: the value confirmed last and not contested since |
| `Connectivity.FlipBudget` | central/src/services/state_snapshot.py:70-102 | Over n polls, offline flips times their threshold plus online flips times theirs is at most n |
| `SingleFlight.EveryRunIsSingleFlight` | central/src/services/state_snapshot.py:124-174 | In every interleaving at most one caller collects, the flag is set exactly then, and a caller that waited never collects |
| `SingleFlight.SnapshotIsLastPublished` | central/src/services/state_snapshot.py:150-174 | In every run the snapshot is the complete collect that was published last, and empty before: failed and interrupted refreshes leave it alone |
| `SingleFlight.SnapshotNeverGetsOlder` | central/src/services/state_snapshot.py:150-174 | An older collect never overwrites a newer one |
| `SingleFlight.ReturnedValueWasPublished` | central/src/services/state_snapshot.py:124-174 | What a call returns was the published snapshot at some step of that call |
| `SingleFlight.OwnValueWasCollected` | central/src/services/state_snapshot.py:150-165 | A value returned as the caller's own is its own complete collect |
| `SingleFlight.WaiterReturnsNothingIff` | central/src/services/state_snapshot.py:131-143 | A call comes back with nothing it did not collect itself if and only if, when it left, nothing had been published or what was published last was empty |
| `SingleFlight.OnlyWaitersReturnNothing` | central/src/services/state_snapshot.py:131-143 | Only a call that waited comes back so |
| `SingleFlight.WaiterMayReturnNothing` | central/src/services/state_snapshot.py:131-143 | The failing input: a forced refresh that waits for a failing one |
| `RefreshOutcomes.EnterOutcome` | central/src/services/state_snapshot.py:130-147 | Every pass through the top of the loop, in every run: a call refreshes exactly when nobody does, it has not waited, and it is forced or nothing is published; otherwise it takes the snapshot, or waits for one while somebody refreshes and there is none |
| `RefreshOutcomes.ForcedCallsRefresh` | central/src/services/state_snapshot.py:130-147 | In every run a call that returns without a collect of its own has waited, or was not forced and found something published |
| `RefreshOutcomes.ForcedAsBegun` | central/src/services/state_snapshot.py:124 | A call is forced exactly as it was begun |
| `RefreshOutcomes.FlightEnds` | central/src/services/state_snapshot.py:150-174 | A successful collect is published and returned and ends the refresh; a failing one leaves the snapshot, raises and ends it as well |
| `RefreshOutcomes.OnlyFailuresRaise` | central/src/services/state_snapshot.py:167-171 | A call raises only if its own collect failed |
| `SingleFlight.Refresher.TryEnter` | central/src/services/state_snapshot.py:130-143 | The entry section on the globals: enter, wait or leave with the snapshot |
| `SingleFlight.Refresher.PublishItems` | central/src/services/state_snapshot.py:155-160 | The publishing section |
| `SingleFlight.Refresher.ClearFlag` | central/src/services/state_snapshot.py:170-174 | The finally section |
| `JumpFirewall.Reconcile` | central/src/services/jump_access.py:144-153 | A managed non-root account is rejected exactly on new connections to a known router unless its user owns the active reservation of a lab listing it |
| `JumpFirewall.GatherRouterIps` | central/src/services/jump_access.py:73-81 | Exactly the addresses some lab lists |
| `JumpFirewall.GatherAllowedIps` | central/src/services/jump_access.py:84-98 | Exactly the addresses of the labs each user has reserved now |
| `JumpFirewall.RenderRules` | central/src/services/jump_access.py:107-131 | The chain is the two head rules and two rules an account, in order of uid, over the right address sets |
| `JumpFirewall.ChainMeaning` | central/src/services/jump_access.py:107-131 | First-match evaluation of the rendered chain, for all packets, in both directions |
| `JumpFirewall.OwnRulesDecide` | central/src/services/jump_access.py:118-128 | The rules of an account decide all its packets wherever they stand among the others |
| `FirewallCalendar.ReconcileNow` | central/src/services/jump_access.py:167-177 | From a safe calendar to the rules: exactly the new connections to a router are rejected for which the managed user holds no lab listing it |
| `FirewallCalendar.HoldsIff` | central/src/services/reservations.py:598-626 | The owner that attaching shows is the user who holds the lab: one of his entries is active and nobody is taking over from it |
| `FirewallCalendar.OneHolder` | central/src/services/reservations.py:119-132 | At no moment do two users hold a lab, although activity is closed at both ends |
| `FirewallCalendar.AttachOwners` | central/src/services/reservations.py:607-626 | The loops over VMs and labs give every lab its owner |
| `FirewallCalendar.OwnerIsAttached` | central/src/services/reservations.py:598-626 | That owner is the one in the answer of the attach call |
| `Cidr.OverlapsIffShared` | central/src/api/routes.py:373-391 | The four end-address tests hold if and only if the two networks share an address |
| `Cidr.SubnetIffContained` | vm-agent/src/config_management_service.py:2732 | The end comparison holds if and only if one address set contains the other |
| `Cidr.OverlapMeansNested` | central/src/api/routes.py:373-391 | Normalised networks that overlap are nested |
| `Decimals.ReadsBack` | central/src/api/routes.py:192-209 | Reading a printed number gives it back |
| `VmRegistry.GenerateNextVmId` | central/src/api/routes.py:192-209 | The generated id is new |
| `VmRegistry.NextIdIsFresh` | central/src/api/routes.py:204-209 | The first candidate is always free, so that the search behind it never turns |
| `VmRegistry.SubnetAvailable` | central/src/api/routes.py:351-393 | The two loops accept exactly the subnets that meet no other VM and no netplan route except the allowed one |
| `Netplan.FindContainer` | central/src/api/routes.py:396-424 | The first interface with a default route, else the first; nothing if that one is malformed |
| `Netplan.Upsert` | central/src/api/routes.py:427-447 | The first route to the subnet is redirected in place, else one is appended |
| `Netplan.Remove` | central/src/api/routes.py:450-469 | Every route to the subnet goes, everything else stays in order |
| `Netplan.Replan` | central/src/api/routes.py:787-801 | Removal and insertion one after the other are one rerouting |
| `Netplan.SelectionStays` | central/src/api/routes.py:396-424 | Rerouting never changes which interface is selected |
| `VmRegistry.Registry.CreateVm` | central/src/api/routes.py:657-737 | The whole new pair of stores and the answer, for every outcome of reading, saving, applying, persisting and writing back |
| `VmRegistry.Registry.UpdateVm` | central/src/api/routes.py:741-829 | The same for an update |
| `VmRegistry.Registry.DeleteVm` | central/src/api/routes.py:833-888 | The same for a deletion, whose first except clause does not write back |
| `VmEffects.CreateEffect` | central/src/api/routes.py:656-728 | A create answers why it refuses, or stores behind the others exactly the VM asked for: id, address, subnet and the other fields; no other VM changes |
| `VmEffects.UpdateEffect` | central/src/api/routes.py:740-820 | An update answers why it refuses, or stores the VM with the fields asked for in its place, absent fields keeping their values; no other VM changes |
| `VmEffects.DeleteEffect` | central/src/api/routes.py:832-888 | A deletion finishes exactly when the route can be taken out, everything outside works and the settings are written; then exactly that VM is gone |
| `VmEffects.NothingToUpdate` | central/src/api/routes.py:740-748 | An update is answered with not found exactly when no VM has the id, and changes nothing then |
| `VmEffects.NothingToDelete` | central/src/api/routes.py:832-841 | The same for a deletion |
| `VmEffects.OccupiedIff` | central/src/api/routes.py:351-393 | A subnet is refused exactly when it shares an address with the subnet of another VM or with a route that is not the own one |
| `VmEffects.NextIdIsOneMore` | central/src/api/routes.py:192-209 | A generated id is vm and one more than the largest number in use |
| `VmEffects.SelectedIsCarrier` | central/src/api/routes.py:396-424 | Routes are carried by the first interface with a default route, or by the first one if none has one |
| `VmEffects.CreateMovesThePlan` | central/src/api/routes.py:693-705 | A finished create puts the route to the subnet asked for on that interface; all other routes keep their order, other interfaces are untouched |
| `VmEffects.UpdateMovesThePlan` | central/src/api/routes.py:787-801 | A finished update moves the route from the old to the new subnet in the same way |
| `VmEffects.DeleteMovesThePlan` | central/src/api/routes.py:850-860 | A finished deletion takes the route out in the same way |
| `VmLinks.RunKeepsLinks` | central/src/api/routes.py:656-888 | Over every run: ids unique, subnets disjoint, every VM subnet routed through its VM and by nothing else, and foreign routes never touched |
| `VmLinks.StepKeepsLinks` | central/src/api/routes.py:656-888 | The same for one operation |
| `VmLinks.ChangeKeepsInv` | central/src/api/routes.py:787-801 | One VM changing to an available subnet keeps the link between both stores |
| `VmLinks.ForeignStays` | central/src/api/routes.py:427-469 | Rerouting changes neither content nor order of the routes that belong to no VM, on any interface |
| `VmLinks.DeleteKeepsLinksIff` | central/src/api/routes.py:846-885 | For every environment: a deletion keeps the link if and only if it is not cut short by a caught exception after saving, and whatever an interrupted save or a failed write-back leaves behind is linked |
| `VmLinks.CreateKeepsLinksIff` | central/src/api/routes.py:656-728 | For every environment: a create keeps the link if and only if whatever a failed write-back leaves behind is linked |
| `VmLinks.UpdateKeepsLinksIff` | central/src/api/routes.py:740-820 | The same for an update |
| `VmLinks.RunKeepsLinksIff` | central/src/api/routes.py:656-888 | For all environments: settings and netplan are linked all through a run if and only if every call survives its environment in the sense of the three conditions |
| `VmLinks.CutShortLosesTheRoute` | central/src/api/routes.py:859-860 | A deletion cut short leaves a VM without its route |
| `VmLinks.SubnetsShareNoAddress` | central/src/api/routes.py:351-393 | No address belongs to two VMs |
| `VmLinks.TrafficGoesToTheOwner` | central/src/api/routes.py:427-447 | Whatever route catches an address of a VM's subnet is that VM's own |
| `VmLinks.EmptyRegistryStaysLinked` | central/src/api/routes.py:656-888 | Every run from an empty registry is linked, whatever the netplan held |
| `LoginLimiter.TooManyFailuresTakeTime` | central/src/api/routes.py:130-155 | Any max_attempts + 1 consecutive failures that passed the check span at least min(window, lockout) |
| `LoginLimiter.FailureRateIsBounded` | central/src/api/routes.py:130-155 | More than q times the limit takes at least q such spans |
| `LoginLimiter.LimitCanBeReachedAtOnce` | central/src/api/routes.py:130-155 | The bound is tight: the limit itself may be reached in one instant |
| `LoginLimiter.LockoutIsExact` | central/src/api/routes.py:130-139 | However often a locked key is tried, a login gets through if and only if it is tried at the end of the lockout or later |
| `LoginLimiter.LimitLocksOut` | central/src/api/routes.py:142-155 | The failure that reaches the limit locks the key for exactly the lockout time |
| `LoginLockouts.AcceptedIff` | central/src/api/routes.py:130-155 | Which runs of failures get past the checks of a key without a past: exactly those in which every check lies outside every lockout, where what locks is told by the times alone |
| `LoginLockouts.FailureLocksIff` | central/src/api/routes.py:142-155 | Over every such run a failure locks the key if and only if it is the last of as many as allowed, the first of them within the window, and none of the others has locked it |
| `LoginLockouts.SparseFailuresPass` | central/src/api/routes.py:142-155 | Failures of which never as many as allowed fall into one window are never stopped, however many there are |
| `LoginLockouts.WaitIsExact` | central/src/api/routes.py:130-139 | A refused login is told to come back exactly when the lockout ends |
| `LoginLimiter.Limiter.Check` | central/src/api/routes.py:130-139 | The retry delay, and the removal of an expired lockout; other keys unchanged |
| `LoginLimiter.Limiter.RegisterFailure` | central/src/api/routes.py:142-155 | The pruned and extended attempts, and the lockout when they reach the limit; other keys unchanged |
| `LoginLimiter.Limiter.ClearFailures` | central/src/api/routes.py:158-162 | The key is forgotten, others unchanged |
| `InterfaceAllocation.NamesAreInjective` | central/src/services/topology_builder.py:353-360 | Different indices have different names, also through the split into slot and port |
| `InterfaceAllocation.AutoAssign` | central/src/services/topology_builder.py:341-369 | The first free name of the pattern, else eth with the link number |
| `InterfaceAllocation.SearchSucceeds` | central/src/services/topology_builder.py:353-363 | With fewer than max_interfaces names in use the search finds the first free name |
| `InterfaceAllocation.WireLinks` | central/src/services/topology_builder.py:487-515 | The link loop with its dictionary gives every endpoint the name of the specification |
| `InterfaceAllocation.Serve` | central/src/services/topology_builder.py:495-508 | One endpoint, and the note in the dictionary |
| `InterfaceAllocation.EndpointName` | central/src/services/topology_builder.py:487-515 | What every endpoint gets: the name wished; else the first name of the family listed for its node, or of plain eth interfaces, that no earlier endpoint of the node has; else eth with the link number |
| `InterfaceAllocation.OfferedIsNotRefused` | central/src/services/topology_builder.py:181-204 | The interfaces offered for SR Linux are never refused by the validator |
| `InterfaceAllocation.InsertedIs` | central/src/services/topology_builder.py:517-528 | Each passthrough link with two non-empty ends or more is inserted with these ends, in order; others are not |
| `InterfaceAllocation.NodeGetsDistinctNamesIff` | central/src/services/topology_builder.py:487-515 | Any node gets pairwise distinct names if and only if no name is wished on it, and no fallback taken, after that name is gone: wished before, reached by a search, or fallen back to, all of which the caller can count |
| `InterfaceAllocation.UsedIffGone` | central/src/services/topology_builder.py:487-515 | While names are distinct, a name is used exactly when that count says so |
| `InterfaceAllocation.NodeGetsDistinctNames` | central/src/services/topology_builder.py:487-515 | In particular when explicit names are distinct and come before automatic ones |
| `InterfaceAllocation.WishAfterSearchCollides` | central/src/services/topology_builder.py:495-508 | The failing input: an explicit name after an automatic one used twice |
| `InterfaceAllocation.SelfLinkCollides` | central/src/services/topology_builder.py:366-369 | On a node whose names are used up, both ends of a link to itself get one name |
| `InterfaceAllocation.EarlyFallbackCollides` | central/src/services/topology_builder.py:366-369 | In the eth families the fallback of a link numbered below max_interfaces repeats a name |
| `InterfaceAllocation.AssignedIsRefusedIff` | central/src/services/topology_builder.py:348-363 | For SR Linux the assigned name is refused by the validator if and only if ethernet-1/0 was not used before |
| `InterfaceAllocation.InterfacesOf` | central/src/services/topology_builder.py:181-204 | As many offered names as asked and available, from the start index on, all different |
| `InterfaceAllocation.InsertPassthrough` | central/src/services/topology_builder.py:517-528 | Passthrough links land in order as one block behind the imported links; nothing else moves |
| `Accounts.RunKeepsInv` | central/src/services/auth.py:550-816 | Over every run an active administrator is left, everybody is in at most one group, and members are users |
| `Accounts.StepKeepsInv` | central/src/services/auth.py:550-816 | The same for one operation |
| `Accounts.DeletionGuardIsExact` | central/src/services/auth.py:690-691 | The guard refuses a deletion if and only if it would leave no active administrator |
| `Accounts.DemotionGuardIff` | central/src/services/auth.py:640-644 | The guard on role changes refuses those, and exactly one more case: an inactive administrator while one active one is left |
| `Accounts.DeactivationGuardIff` | central/src/services/auth.py:646-649 | The guard on deactivations refuses the same cases |
| `Accounts.GuardsRefuseTheInactive` | central/src/services/auth.py:640-649 | The failing input of both guards |
| `AccountEffects.CreateUserEffect` | central/src/services/auth.py:550-596 | When a new user is refused, and that a finished call stores the role asked for, active, makes him member of the group asked for alone, and changes nothing else |
| `AccountEffects.UpdateUserAnswer` | central/src/services/auth.py:599-656 | What an update of a user answers, case by case |
| `AccountEffects.UpdateUserEffect` | central/src/services/auth.py:599-656 | A finished update gives the account exactly what was asked for, moves the user to the group asked for, and changes nothing else |
| `AccountEffects.DeleteUserEffect` | central/src/services/auth.py:676-695 | A finished deletion takes the account and its memberships away, and changes nothing else |
| `AccountEffects.CreateGroupEffect` | central/src/services/auth.py:714-754 | When a group is refused, and that a finished call stores members and grants asked for |
| `AccountEffects.UpdateGroupEffect` | central/src/services/auth.py:757-806 | A finished change gives the group the name, members and grants asked for; the old name is gone |
| `AccountEffects.UpdateGroupAnswer` | central/src/services/auth.py:757-806 | When the change of a group is refused |
| `AccountEffects.DeleteGroupEffect` | central/src/services/auth.py:809-816 | Exactly that group is gone |
| `AccountEffects.LoadedIs` | central/src/services/auth.py:599-656 | Whatever is stored is read without the members that are no users, and otherwise as it is |
| `Accounts.Store.CreateUser` | central/src/services/auth.py:550-596 | The saved accounts after the call, unchanged on every error |
| `Accounts.Store.UpdateUser` | central/src/services/auth.py:599-656 | The same; changes made before an error are not saved |
| `Accounts.Store.DeleteUser` | central/src/services/auth.py:676-695 | The same |
| `Accounts.Store.CreateGroup` | central/src/services/auth.py:714-754 | The same |
| `Accounts.Store.UpdateGroup` | central/src/services/auth.py:757-806 | The same, with renaming |
| `Accounts.Store.DeleteGroup` | central/src/services/auth.py:809-816 | The same |
| `Accounts.ValidateSingleGroup` | central/src/services/auth.py:373-389 | Raises exactly when somebody is in another group than the ignored one |
| `Access.BuildViewer` | central/src/services/auth.py:435-458 | A user may see a lab exactly when a group grants the VM or the lab, for any order of the groups |
| `Access.AddPermissions` | central/src/services/auth.py:442-446 | One group's permissions, with the skip of fully accessible VMs |
| `Access.FilterItems` | central/src/services/auth.py:819-844 | The loop computes the specified filter |
| `Access.FilterIsExact` | central/src/services/auth.py:819-844 | A lab is shown if and only if it was there and the user may access it |
| `Access.FilteredIsAllLeft` | central/src/services/auth.py:819-844 | The VMs come in their order, each with exactly the labs that may be seen; a VM goes only if it is not fully granted and none of its labs may be seen |
| `Capacity.Estimate` | central/src/services/sandbox_capacity.py:116-158 | The verdict is that both requirements fit, and an unfit topology gets a suggestion that fits |
| `Capacity.SuggestionFits` | central/src/services/sandbox_capacity.py:140-158 | floor(count * fit_ratio), estimated again, fits both budgets |
| `Capacity.RatioIsOneIff` | central/src/services/sandbox_capacity.py:140-142 | The ratio is 1 if and only if the topology fits |
| `Capacity.LargestRatio` | central/src/services/sandbox_capacity.py:140-142 | The ratio is the largest, up to 1, that brings both scaled requirements into their budgets |
| `Capacity.PhysicalBudget` | central/src/services/sandbox_capacity.py:94-119 | In the physical mode the budget is the share of memory and cores left beside the reserve, whatever is in use |
| `Capacity.AvailableBudget` | central/src/services/sandbox_capacity.py:104-113 | In the available mode an amount fits if and only if it fits the physical budget together with what is in use |
| `Capacity.OneKindNeeds` | central/src/services/sandbox_capacity.py:121-128 | Nodes of one kind need their number times what one of them needs |
| `Capacity.NeedsAddUp` | central/src/services/sandbox_capacity.py:121-128 | Two topologies together need the sum of what each needs |
| `Capacity.SomethingShrinks` | central/src/services/sandbox_capacity.py:145-155 | An unfit topology loses at least one node |
| `Capacity.TotalShrinks` | central/src/services/sandbox_capacity.py:116-138 | A total follows its terms under any additive scaling |

## Left out

- Reservations: the file cache by modification time, malformed stored entries, generation of missing
  ids, and the rounding of durations in `extend_reservation`; its check for an expired entry is dead
  code behind the search for an active one. Owners are kept lower-cased.
- RunKeepsSafe: an extension is admitted only where the stretch it adds is free, because the code
  does not check it; ExtendStepSafeIff shows that this condition is exact. Ids of new entries are
  taken to be fresh within their lab.
- PruningIsInvisible: needs a clock that never goes back, which PruningShowsIff shows to be exact.
- Sandbox: the YAML parser is a parameter, and the validation rules other than the management
  identity are one flag there, which `SandboxTopologies` ties to the validator; backups, positions and
  containerlab are outcomes only.
- IdentityIsImmutable: assumes readable references and writes that leave no torn file when they
  throw, since a torn file has no signature to compare.
- TopologiesStayAcceptable: assumes an acceptable disk at the start, one VM subnet for the whole run,
  and writes that leave nothing unacceptable behind when they throw; RunsKeepAtMost256Nodes likewise.
- TopologyValidator: works on the parsed document; warnings, and the identity check that `Sandbox`
  models, are not part of it. Letters and white space are ASCII, and addresses are already read.
- JunosCleanup: configuration lines are lists of words separated by single blanks; the device is a
  set of paths with subtree deletion and set loading, without candidate or commit errors.
- BackgroundJobs: the default-configuration and diff variants of the jobs, which follow the same
  protocol, and what is done on a router, and timestamps; a worker may die at any step.
- SingleFlight: flight numbers are auxiliary; collecting is one step that succeeds or fails.
- JumpFirewall: the text form of the rules, the nft call, and accounts without an address set;
  distinct uids are assumed where the meaning of the chain is stated.
- LoginLimiter: one key at a time; the handler checks and registers without yielding in between.
- VmRegistry: IPv6 subnets, fields other than id, address and subnet, YAML of the netplan, and a
  failed write of the settings that leaves a torn file.
- RunKeepsLinks: assumes that write-backs work and that no deletion is stopped by a caught exception
  after it began to save, since the code has no recovery there; RunKeepsLinksIff has no such premise.
- InterfaceAllocation: node entries, images and comments of the generated document; negative import
  counts, which the list insertion would read from the end.
- Accounts: passwords, tokens, the default administrator of an empty store, and field formats
  beyond one flag.
- Capacity: counting nodes by kind in the document, and the rounding of displayed figures; floating
  point is modelled by reals.
- The user interface, HTTP layers, SSH sessions and prompts, the IOS, IOS-XR and SR OS commands,
  SQLite, audit, statistics, lab requests, locks, local DNS and provisioning: plumbing that would
  add only easy members.
