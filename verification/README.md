# Verified models of OpenPortal's agents

OpenPortal connects research portals to the clusters their users work on. This project models the
parts of it where a small mistake would be hard to notice and expensive to undo, and proves what
they promise:

- **The FreeIPA agent** talks to several masters that replicate to each other in their own time.
  `ServerHealth` keeps what is known of each, `WriteTarget` elects the one that takes the writes,
  `WriteSlots` hands out its connections, `LockMap` is the pruned table of per-user and per-group
  locks, and `GroupAdd` is the check-every-master-then-add procedure as a step machine with any
  number of tasks, masters and replication steps. `Names` has the naming scheme of the groups.
- **The life of a user** in that directory: `Directory` is FreeIPA as the agent changes it, with
  writes that may fail and may have taken effect all the same, `UserLifecycle` the procedures for
  adding, removing, blocking and unblocking, `UserOutcomes` what each comes to group by group, and
  `UserRuns` what holds over whole runs of them. `Identifiers` has the projects and users that these
  modules and the reports speak of.
- **The Lustre quota engine**: `LustreIds` is the evaluator that turns a format such as
  `{UID-1483800000}01` into a numeric id (`Decimal` and `Text` have the text of numbers and the
  string operations), `CommandQueue` the deduplicating queue of slow commands.
- **Reports**: `StorageReports` merges snapshots by day and renames projects, `UsageReports` adds up
  usage that saturates at 64 bits, jobs and waits, and renames local users (`Dates` has their
  calendar days).
- **Recycled directories**: `Recycle` is the file tree with its `.recycle` directory.

Code that changes fields in place is a class whose methods are proved against functions of the
state; what the program promises is then proved about those functions, over every input, every
history or every run. Where a promise turned out not to hold in full, the exact condition under
which it does is proved, and an example shows what happens otherwise:

- The comment on the replication window says that a write does not move until a window after its
  server last took writes. That holds exactly while the server counts as down: in the branch for a
  server that is reachable again, but has not been for long, writes move at once
  (`WindowKeptIffDown`, `ShortOutageMovesWrites`). No record could tell more: of a server not down
  for a window it never excludes that the server has just answered (`RecordTellsSilenceIff`). A
  stand-in is left the moment it is recorded as down (`DownIsNeverStandIn`), for a server that does
  not depend on when it last answered (`StandInIsNeverWaitedFor`), and a fit one the moment the
  write server is fit again (`HandBackDoesNotWait`). `LeavingStandIn` says which of these moves come
  after a window of silence.
- Group locks are kept per identifier but groups are created by name, and the internal portals share
  their names (`NamesClashIff`). Each name is added on one master at most, whenever every master
  answers, exactly if no two of the groups asked for share a name (`OneMasterIff`,
  `ClashingNamesReachTwoMasters`).
- A project's group is seen only if an identifier can be read from its description. Groups are added
  only where no master had the name, whenever every master answers, exactly if no group is there in
  name on some masters only without any of them having one that is recognised (`AddedAfreshIff`,
  `OverlookedIsAddedAgain`); the agent recognises every group it made (`FreshIsRecognised`).
- Removal from one instance disables an enabled user of another one exactly if the listing after
  leaving fails and the user was on this instance or the first listing failed too
  (`RemovalSparesOtherInstances`).
- Two instances have one group, and so count as one, exactly if their names differ only in
  characters that are neither letters nor digits (`SharedOpGroupIff`).
- Unblocking enables a user whether or not they are still on an instance
  (`UnblockEnablesRegardless`).
- Renaming local users looks for clashes among the users only. It overwrites no usage exactly if no
  new name stands beside the old one it replaces without being renamed too
  (`RenamingLosesNothingIff`). Undoing it is refused exactly if two users shared a local name to
  begin with, and otherwise restores the report exactly if nothing at all is recorded under a new
  name that is not renamed itself (`RenamingCanBeUndoneIff`).
- The job and wait counters of a day are meant to be the sums of its users', where there are any.
  Below the limit of 64 bits adding two reports keeps that exactly if none with jobs or waits that
  are nobody's meets one that names users (`ConsistentSumIff`, `LegacyJobsDisagree`).
- Two formats for Lustre ids can give one id exactly if the shorter suffix ends the longer one and
  the smallest numbers that would collide are numbers of users and give an id (`FormatsCollideIff`,
  `UnrelatedSuffixesNeverCollide`); `SameIdIff` says which numbers do.
- What was recycled comes back on creation exactly if nothing is in its place, or a directory of
  hidden regular files, or a link that leads nowhere if what was recycled is not a directory
  (`ComesBackIff`). Such a link is replaced (`DanglingLinkReplacedIff`), and a link to a directory
  of hidden files keeps the copy from ever coming back (`LinkedPlaceholderBlocksRestore`).

`dafny verify dfyconfig.toml` checks the whole project.

## Model

| member | source | states |
|---|---|---|
| ServerHealth.HealthRecord.Note | freeipa/src/freeipa.rs:597-656 | after any call or login the three fields are those of the history extended by it |
| ServerHealth.HealthRecord.MarkDown | freeipa/src/freeipa.rs:597-610 | the start of an outage is noted once and not moved by later evidence |
| ServerHealth.HealthRecord.MarkTimeout | freeipa/src/freeipa.rs:624-645 | counts, and from the third on marks the server down |
| ServerHealth.HealthRecord.MarkUp | freeipa/src/freeipa.rs:647-656 | clears the outage and the count, and dates the recovery only if there was an outage |
| ServerHealth.ClockSetBack | freeipa/src/freeipa.rs:662-692 | with the clock set back an outage has lasted no time, and a server that came back is not fit |
| ServerHealth.SpellFollowsLastAnswer | freeipa/src/freeipa.rs:571-596 | the spell a record describes is precisely the stretch of history after the last answer |
| ServerHealth.DownSinceMeaning | freeipa/src/freeipa.rs:588-656 | for every history: the count is the timeouts since the last answer; `down_since` is the time of the first refusal, login failure or third unanswered call since then, and 0 iff there is none |
| ServerHealth.UpSinceMeaning | freeipa/src/freeipa.rs:647-656 | for every history: `up_since` is the time of the last answer that ended an outage, 0 if none did |
| WriteTarget.FitnessMeaning | freeipa/src/freeipa.rs:662-692 | fit to take writes iff not down and no outage ended less than a window ago, in terms of the history |
| WriteTarget.FirstFitMeaning | freeipa/src/freeipa.rs:971-982 | the replacement found is the first other server in configuration order that has been up for a window, none iff there is no such server |
| WriteTarget.FailoverRule | freeipa/src/freeipa.rs:948-1048 | for every history: writes go to a server other than the write server iff it is the first other one up for a window, and the write server has either been down for a window, answering nothing, or come back less than a window ago |
| WriteTarget.AnyServerIff | freeipa/src/freeipa.rs:948-963 | no server is named iff no write server is configured or it is not in the pool |
| WriteTarget.WindowKeptIffDown | freeipa/src/freeipa.rs:753-758 | when writes move, the write server has been silent for a window iff it is still recorded as down |
| WriteTarget.WritesDoNotFlap | freeipa/src/freeipa.rs:624-656 | once fit, the write server stays the target through fewer than three unanswered calls in a row, whatever happens to other servers |
| WriteTarget.WritesAreHandedBack | freeipa/src/freeipa.rs:965-1003 | a window after the outage of the write server ended, with none since, every resolution names it again |
| WriteTarget.ShortOutageMovesWrites | freeipa/src/freeipa.rs:985-1003 | a run in which one refusal, answered a second later, moves the writes |
| WriteTarget.DownIsNeverStandIn | freeipa/src/freeipa.rs:971-982 | for every history: writes never go to a server recorded as down, other than the write server itself |
| WriteTarget.StandInIsNeverWaitedFor | freeipa/src/freeipa.rs:971-1031 | for any two runs that differ in what happened to a stand-in alone: if neither has the writes go to it, both have them go to the same server |
| WriteTarget.LeavingStandIn | freeipa/src/freeipa.rs:971-1031 | a fit stand-in is left only for the write server or a server before it; one that is down when left has been silent for a window if down for one, and one that has just come back has not |
| WriteTarget.HandBackDoesNotWait | freeipa/src/freeipa.rs:965-1003 | the writes go back to the write server the moment it has been up for a window, whatever a stand-in is doing |
| WriteTarget.RecordTellsSilenceIff | freeipa/src/freeipa.rs:588-656 | every history that leads to a record is silent for a window iff the record has the server down for a window |
| WriteTarget.StandInIsReplacedAtOnce | freeipa/src/freeipa.rs:971-1031 | a run in which a stand-in is replaced within the second it last took writes |
| WriteSlots.Slots.WriteSlotsFor | freeipa/src/freeipa.rs:790-830 | a server's slots are made once, free and none shared with another server, and refused only without credentials |
| WriteSlots.Slots.TrySlots | freeipa/src/freeipa.rs:1132-1200 | in whatever order slots are tried, a call gets one iff one is free that is or can be logged in; write slots or shared ones alike |
| WriteSlots.Slots.GetConnectedServer | freeipa/src/freeipa.rs:1097-1204 | a pinned call gets one of the slots of the write target iff one is free that connects; without a target to name, and for any other call, the same of the shared slots |
| WriteSlots.Slots.Release | freeipa/src/freeipa.rs:1141-1149 | letting go of a slot frees it, and no other call loses its own |
| WriteSlots.InFlightIsBounded | freeipa/src/freeipa.rs:1097-1204 | in every run at most concurrent_writes pinned calls are in flight on one server, or one if that is 0, while a write target can be named, and otherwise at most as many as it has shared slots |
| WriteSlots.AnotherCanStartIff | freeipa/src/freeipa.rs:805-820 | in every run a server that has taken writes has a free slot iff fewer pinned calls than that are in flight on it |
| WriteSlots.BoundIsReached | freeipa/src/freeipa.rs:805-820 | from any point of any run, once the server is the write target, that many are reached by pinned calls alone |
| WriteSlots.SameSlotsAgain | freeipa/src/freeipa.rs:790-830 | after any run a server that takes the writes again gets the slots it had |
| LockMap.Database.EnforceCacheBounds | freeipa/src/cache.rs:82-104 | drops exactly the locks that no task shares, and only above the cap |
| LockMap.Database.GetMutex | freeipa/src/cache.rs:119-148 | hands out the one lock of the identifier in the map, making it if need be |
| LockMap.Database.TryLockOwned | freeipa/src/freeipa.rs:3015-3034 | gets the lock iff nobody holds it |
| LockMap.PruningKeepsMutualExclusion | freeipa/src/cache.rs:82-104 | in every run of get, try-lock, release and prune, every handle is to the lock in the map and at most one task holds an identifier's lock |
| LockMap.GetKeepsMapBounded | freeipa/src/cache.rs:82-104 | just after a get the map has at most max(cap, identifiers with live handles) + 1 entries |
| LockMap.GetThenTryLock | freeipa/src/freeipa.rs:3015-3034 | getting and then trying a lock succeeds iff nobody held that identifier, pruning or not; it is held then, and no other is gained or lost |
| LockMap.ReleaseFrees | freeipa/src/cache.rs:119-148 | when the one holder of a lock lets go of it nobody holds it, and all others are held as before |
| LockMap.PruneKeepsIff | freeipa/src/cache.rs:82-104 | a lock is kept iff the map has not outgrown its cap or some task has a handle for its identifier |
| Names.NamesClashIff | freeipa/src/freeipa.rs:2042-2062 | two groups share a name in FreeIPA iff they are one project of two internal portals |
| Names.ValidComponentIff | templemeads/src/validate.rs:363-395 | a component is one to 64 letters, digits, underscores and hyphens, and does not begin with a hyphen |
| Names.ParsePrinted | greatwestern/src/grammar.rs:36-60 | a valid identifier is read back from its printed form |
| Names.DescribeRoundTrip | freeipa/src/freeipa.rs:2591-2600 | the identifier written into a group's description is the one read from it |
| Names.NeverNamedBlocked | freeipa/src/freeipa.rs:2042-2062 | no valid identifier's group has the name of the group of blocked users |
| Names.BlockedHasNoIdentifier | freeipa/src/freeipa.rs:4030-4041 | the description of the group of blocked users carries no identifier |
| GroupAdd.SecondMasterNeedsSilence | freeipa/src/freeipa.rs:2530-2636 | in every run of any number of tasks and masters: a name is added on a further master only if every master that had it added or was seen to have the group, when the round that decided so began, failed to answer it |
| GroupAdd.OneMasterWhenAllAnswer | freeipa/src/freeipa.rs:2530-2636 | when every question is answered, each name is added on at most one master, and only if none had a group that is recognised as it |
| GroupAdd.NotThereNeedsSilence | freeipa/src/freeipa.rs:2362-2402 | a call reports that a group is missing after its add only if every master with an entry recognised as it, when the read-back began, failed to answer; if all answered, there was none |
| GroupAdd.FoundIsThere | freeipa/src/freeipa.rs:2577-2636 | a call reports a group as found only if a master has it or it was remembered from before or elsewhere; it is cached then, and no call ends without an answer but by its deadline |
| GroupAdd.OneTaskPerGroup | freeipa/src/cache.rs:140-148 | at most one task at a time is between taking a group's lock and letting it go, and the lock is taken iff one is |
| GroupAdd.ReachesEveryMaster | freeipa/src/freeipa.rs:753-758 | an entry of one master can reach every other by replication alone, which changes nothing else |
| GroupAdd.ClashingNamesReachTwoMasters | freeipa/src/freeipa.rs:2042-2062 | for any masters and any groups of which two share a name, a run in which that name is added on any two masters although every question is answered |
| GroupAdd.OneMasterIff | freeipa/src/freeipa.rs:2530-2636 | each name is added on at most one master in every run with every question answered, whatever is there to begin with, iff no two of the groups share a name |
| GroupAdd.FreshIsRecognised | freeipa/src/freeipa.rs:2591-2600 | what the agent adds it will recognise as the group |
| GroupAdd.RecognisedIff | freeipa/src/freeipa.rs:2124-2200 | which entry is taken for a group: by plain name an internal one, by qualified name and readable description or by legacy name any other |
| GroupAdd.OverlookedIsAddedAgain | freeipa/src/freeipa.rs:1823-1880 | from any masters of which some have a name and some have not, and none has an entry recognised as the group, a run that adds the name again |
| GroupAdd.AddedAfreshIff | freeipa/src/freeipa.rs:2124-2200 | from given masters, no run with every question answered adds a name that some master had iff there is no such group |
| Directory.FreeIPA.CallWrite | freeipa/src/freeipa.rs:167-260 | a write either does and answers what the directory says, or fails having taken effect or not |
| Directory.BlockedIsNeverSeen | freeipa/src/freeipa.rs:2407-2445 | the group of blocked users is never among the groups a user is seen to be in |
| Directory.LegacyIsSeen | freeipa/src/freeipa.rs:1748-1820 | a project's group with its legacy name alone is taken for the project's |
| UserLifecycle.Try | freeipa/src/freeipa.rs:167-260 | no write the procedures make unblocks anybody, enables a blocked user or touches anybody else, even if it fails |
| UserLifecycle.EnsureGroup | freeipa/src/freeipa.rs:2530-2636 | the group exists afterwards under the name returned, or none is returned; a group of its name without a readable identifier is not taken for it and not replaced |
| UserOutcomes.LookupIsHolds | freeipa/src/freeipa.rs:2124-2200 | the group is found here iff a master with the same groups is seen to have it in `GroupAdd` |
| UserLifecycle.EnsureGroups | freeipa/src/freeipa.rs:2704-2780 | all groups are made sure of in turn and returned by name, unless a write fails or an unreadable group has the name of one |
| UserLifecycle.SyncGroups | freeipa/src/freeipa.rs:2704-2841 | the user ends up in every system, instance, managed and project group and loses none, unless a write fails or an unreadable group has the name of one |
| UserLifecycle.AddUserProcedure | freeipa/src/freeipa.rs:3005-3108 | leaves unmanaged and blocked users alone; otherwise the user is enabled and in all their groups, if no write fails and no unreadable group has the name of one of them |
| UserLifecycle.AddFromScratch | freeipa/src/freeipa.rs:3110-3353 | the same for a user who was not there; otherwise, duplicates included, nobody who is blocked is enabled or unblocked |
| UserLifecycle.RemoveUserProcedure | freeipa/src/freeipa.rs:3361-3623 | when it does nothing, and otherwise what it takes away, as a function of the state and of which listings were answered |
| UserLifecycle.RemoveFromInstance | freeipa/src/freeipa.rs:3465-3623 | takes the user out of the instance's groups, and out of the rest and disabled unless another instance is seen |
| UserLifecycle.BlockUserProcedure | freeipa/src/freeipa.rs:4075-4180 | a managed user ends up in the group of blocked users and disabled, and any other call fails, if no write fails |
| UserLifecycle.UnblockUserProcedure | freeipa/src/freeipa.rs:4189-4266 | a blocked managed user is taken out of that group and enabled; only this one's membership of it changes |
| UserOutcomes.SyncOutcome | freeipa/src/freeipa.rs:2704-2841 | after a sync the user is in every system group, every group configured for the instance, its own group, the managed group and their project's, each as it is found; no membership is lost and none gained but these |
| UserOutcomes.SyncAddsGroups | freeipa/src/freeipa.rs:2591-2600 | groups that exist stay as they are, and each one added is one of these, described by its identifier |
| UserOutcomes.AddOutcome | freeipa/src/freeipa.rs:3005-3108 | the same of adding, and the user is enabled; one who is blocked or not managed is left as they are |
| UserOutcomes.RemoveOutcome | freeipa/src/freeipa.rs:3436-3601 | when a removal does nothing; otherwise the user is in no existing group of the instance, and on another one keeps all other groups and the account, else is disabled and keeps the managed group and what was not seen |
| UserOutcomes.BlockOutcome | freeipa/src/freeipa.rs:4075-4180 | a managed user is disabled and in the group of blocked users, which is made if need be, and in the same other groups |
| UserOutcomes.UnblockUndoesBlock | freeipa/src/freeipa.rs:4189-4266 | blocking and unblocking leaves the user as they were, but enabled |
| UserOutcomes.UnblockOutcome | freeipa/src/freeipa.rs:4189-4266 | unblocking touches nobody else and no group, and does nothing for one who is not blocked or not managed |
| UserOutcomes.SharedOpGroupIff | freeipa/src/freeipa.rs:2653-2667 | two instances share their group iff their names differ only in characters that are neither letters nor digits |
| UserRuns.RunAll | freeipa/src/freeipa.rs:3057-3065 | over every run with any writes failing and any listings unanswered, a blocked user stays blocked and is not enabled unless an unblock names them; without failures and with readable groups the run is that of the specifications |
| UserRuns.OpKeepsReadable | freeipa/src/freeipa.rs:2591-2600 | every operation keeps the identifiers of all project groups readable |
| UserRuns.EnabledExactlyWhenOnInstance | freeipa/src/freeipa.rs:3436-3601 | over every run of adds and removes on any number of instances, a managed user is enabled iff in at least one instance group |
| UserRuns.OnInstanceEnabledUnlessBlocked | freeipa/src/freeipa.rs:3153-3162 | over every run of all four operations, a managed user on an instance is enabled iff not blocked |
| UserRuns.RemovalSparesOtherInstances | freeipa/src/freeipa.rs:3549-3586 | an enabled managed user who is also on another instance is disabled iff the second listing went unanswered and either they were on this instance or the first listing went unanswered too |
| UserRuns.UnblockEnablesRegardless | freeipa/src/freeipa.rs:4189-4266 | after an unblock, enabled iff on an instance holds exactly if the user was on one |
| LustreIds.EvaluateArithmetic | filesystem/src/lustreengine.rs:281-360 | the scanning loop computes the value of the expression split at its last operator, or the same error |
| LustreIds.ScanForOperator | filesystem/src/lustreengine.rs:300-312 | the loop finds the last operator that is not the first character |
| LustreIds.PrintedOperation | filesystem/src/lustreengine.rs:314-350 | two printed numbers and a sign evaluate to their sum or difference, with the exact cases of overflow and negative results |
| LustreIds.SignedOperation | filesystem/src/lustreengine.rs:314-350 | the same where the first number is negative, down to the least of 64 bits |
| LustreIds.OneOperationAtMost | filesystem/src/lustreengine.rs:286-312 | an expression with two operators past its first character is always refused |
| LustreIds.EvaluateExpressions | filesystem/src/lustreengine.rs:247-275 | the repeated find-and-replace ends, equals one pass from the left with the same first error, and leaves no opening brace |
| LustreIds.ReplacedHasFewer | filesystem/src/lustreengine.rs:251-272 | each replacement lowers the number of opening braces |
| LustreIds.ComputeId | filesystem/src/lustreengine.rs:201-240 | the checks, substitutions, evaluation and final parse give the id the specification gives |
| LustreIds.OffsetId | filesystem/src/lustreengine.rs:201-240 | for `{UID-c}s` and `{GID-c}s` the id is (n - c) * 10^len(s) + value(s), unwrapped, and each error occurs exactly when it should |
| LustreIds.SameIdIff | filesystem/src/lustreengine.rs:201-240 | two ids, of any variables, offsets, suffixes and numbers, are equal iff the shorter suffix ends the longer one and the rest of the longer one makes up for the difference of the numbers |
| LustreIds.UnrelatedSuffixesNeverCollide | filesystem/src/lustreengine.rs:394-401 | if neither suffix ends the other, no two numbers share an id |
| LustreIds.FormatsCollideIff | filesystem/src/lustreengine.rs:394-401 | two formats share an id for some numbers iff the shorter suffix ends the longer one and the smallest numbers that would collide fit in 32 bits and their id in 64 |
| LustreIds.IdsAreUnique | filesystem/src/lustreengine.rs:394-401 | with one offset and suffixes of equal length, an id determines both the number and the suffix |
| LustreIds.UnequalSuffixesCollide | filesystem/src/lustreengine.rs:394-401 | an example: two formats with suffixes of different lengths that give two users one id |
| CommandQueue.Queue.QueueCommand | filesystem/src/lustreengine.rs:724-758 | the waiter joins those of its own command and no others, and the event is added to the history |
| CommandQueue.Queue.TakeNext | filesystem/src/lustreengine.rs:642-651 | takes the command that was first submitted longest ago |
| CommandQueue.Queue.NotifyWaiters | filesystem/src/lustreengine.rs:660-705 | all waiters of the command get its result, errors as `Failed`, and a blank command is refused without running |
| CommandQueue.CommandsStartInOrder | filesystem/src/lustreengine.rs:614-758 | in every run commands start in the order of their first submission, and queued commands are pairwise distinct |
| CommandQueue.EachWaiterIsToldOnce | filesystem/src/lustreengine.rs:693-705 | in every run a waiter has been sent exactly what its own history says: one result, or none yet |
| CommandQueue.ToldBecause | filesystem/src/lustreengine.rs:642-705 | that result is of the first execution of its command to begin after it was submitted, with no other command run in between: its output as it is, or `Failed` with the message of its error, which a command of spaces alone always has |
| CommandQueue.EverybodyIsTold | filesystem/src/lustreengine.rs:693-705 | once the queue is empty and the worker idle, every waiter has been told exactly once |
| CommandQueue.WorkerDrains | filesystem/src/lustreengine.rs:641-718 | from every state the worker alone empties the queue, in two steps for each command |
| StorageReports.Add | greatwestern/src/storagereport.rs:556-621 | for all reports, valid or not: whose top level, users and snapshots the merged report has |
| StorageReports.MergeIsJoin | greatwestern/src/storagereport.rs:556-621 | valid reports merge into a valid one that shows for each date the newest snapshot of either, and has the users of both under their names in the newer one |
| StorageReports.MergedAt | greatwestern/src/storagereport.rs:556-621 | date by date: the newer snapshot, and of two equally old ones that of the newer report |
| StorageReports.NothingBesideTheTop | greatwestern/src/storagereport.rs:556-621 | valid or not, nothing of the older report is filed under the newer one's own date |
| StorageReports.Combine | greatwestern/src/storagereport.rs:497-517 | refused iff there is no report or one of another project; otherwise merged one after the other |
| StorageReports.CombinedShowsNewest | greatwestern/src/storagereport.rs:497-517 | the combined report is valid and shows for each date the newest snapshot of any of them |
| StorageReports.OrderAndRepetitionDoNotMatter | greatwestern/src/storagereport.rs:497-517 | any order and repetition of the same reports gives the same snapshots, if equal times mean equal snapshots |
| StorageReports.DailyReportsInUse | greatwestern/src/storagereport.rs:252-286 | one report for each day whose snapshot holds anything, in order, and no other |
| StorageReports.InUseIff | greatwestern/src/storagereport.rs:252-286 | a day counts iff its snapshot has a quota of the project or of any user |
| StorageReports.DailyReports | greatwestern/src/storagereport.rs:288-328 | one report for every date from the earliest to the latest, blank where there is no snapshot |
| StorageReports.DailyReportsCombine | greatwestern/src/storagereport.rs:252-286 | combining those reports again brings back exactly the snapshots that hold anything |
| StorageReports.RemapProject | greatwestern/src/storagereport.rs:388-434 | users, quotas and every snapshot are filed under the new project |
| StorageReports.RenamingKeepsApart | greatwestern/src/storagereport.rs:56-83 | users of one project are under their own names in another, each with what was filed for them, and there is nobody else |
| StorageReports.RemapThereAndBack | greatwestern/src/storagereport.rs:388-434 | remapping to another project and back restores the report iff everything in it was filed under its own project |
| StorageReports.StorageReport.SetReport | greatwestern/src/storagereport.rs:793-803 | accepts exactly the reports of the portal's own projects |
| StorageReports.StorageReport.AddAssign | greatwestern/src/storagereport.rs:951-971 | merges project by project, and does nothing for another portal |
| StorageReports.PortalShowsNewest | greatwestern/src/storagereport.rs:951-971 | every project of either report is there, as it was or with the newest snapshots of both |
| StorageReports.StorageReport.RemapPortal | greatwestern/src/storagereport.rs:832-856 | every project is moved to the new portal, with its report remapped to it |
| StorageReports.ProjectsStayApart | greatwestern/src/storagereport.rs:832-856 | moving the projects of one portal to another merges none of them |
| StorageReports.PortalThereAndBack | greatwestern/src/storagereport.rs:832-856 | remapping a portal's reports and back restores them iff all were where they belong |
| UsageReports.TotalLess | greatwestern/src/usagereport.rs:53-59 | the saturating sum of a map does not depend on the order it is gone through |
| UsageReports.TotalIsCapped | greatwestern/src/usagereport.rs:53-59 | saturating at every addition equals capping the exact sum once |
| UsageReports.AddUsage | greatwestern/src/usagereport.rs:558-560 | adds to one user, from nothing if need be |
| UsageReports.AddComponentUsage | greatwestern/src/usagereport.rs:566-574 | adds to one user of one component, and records nothing for no usage |
| UsageReports.DailyAddAssign | greatwestern/src/usagereport.rs:793-819 | whatever order the maps are gone through in, each user's usage, usage on each component, jobs and waits are added up, and so are the counters over all |
| UsageReports.DailyConserves | greatwestern/src/usagereport.rs:793-819 | what a day has of usage, of usage on one component, of jobs and of waits is min(2^64 - 1, total + total) |
| UsageReports.UserConserves | greatwestern/src/usagereport.rs:793-819 | each user has the sum of what both have for them, of every kind, saturating and nothing else |
| UsageReports.ConsistentSumIff | greatwestern/src/usagereport.rs:618-629 | two consistent reports add up to a consistent one iff neither names users, or neither has jobs or waits that are nobody's and the waits do not saturate, with the one exception of waits that are at the limit already |
| UsageReports.LegacyJobsDisagree | greatwestern/src/usagereport.rs:618-629 | an example: consistent reports of one job each, the first without its user, with an inconsistent sum |
| UsageReports.ProjectAddAssign | greatwestern/src/usagereport.rs:1093-1117 | days are added up date by date, mappings kept and added, and reports of other projects ignored |
| UsageReports.ProjectConserves | greatwestern/src/usagereport.rs:1093-1117 | the same conservation for a project |
| UsageReports.ProjectUserConserves | greatwestern/src/usagereport.rs:1093-1117 | each user has on each day the sum of what both reports have for them |
| UsageReports.ProjectKeepsNames | greatwestern/src/usagereport.rs:1093-1117 | of a user named by both the first report's local name remains, and another project's report adds nothing |
| UsageReports.UsageReport.AddAssign | greatwestern/src/usagereport.rs:1700-1722 | projects are added up one by one and stay filed under themselves |
| UsageReports.PortalConserves | greatwestern/src/usagereport.rs:1700-1722 | the same conservation for a portal |
| UsageReports.DailyTotalUsage | greatwestern/src/usagereport.rs:550-552 | a day's total, in any order |
| UsageReports.ProjectTotalUsage | greatwestern/src/usagereport.rs:1308-1310 | a project's total, in any order |
| UsageReports.UsageReport.TotalUsage | greatwestern/src/usagereport.rs:1875-1877 | a portal's total, in any order |
| UsageReports.PortalTotalIsCapped | greatwestern/src/usagereport.rs:1875-1877 | through three levels of saturating sums the total is the exact sum of every entry, capped once |
| UsageReports.RemapLocalUsers | greatwestern/src/usagereport.rs:713-755 | every name of a day is changed, in usage, components, jobs and waits; where two meet, one of them remains |
| UsageReports.NothingLostIff | greatwestern/src/usagereport.rs:713-755 | a map keeps its number of entries iff no two of its names come to the same one |
| UsageReports.RemapUsers | greatwestern/src/usagereport.rs:1553-1595 | refused iff two users would share a local name; otherwise users and days are renamed |
| UsageReports.RenamingLosesNothingIff | greatwestern/src/usagereport.rs:1553-1595 | for a whole report: in no order of the users is an entry of any day, component or counter overwritten iff no new name stands beside the old one it replaces without being renamed itself |
| UsageReports.RenamingMustLose | greatwestern/src/usagereport.rs:1553-1595 | where one does and local names are distinct, an entry is overwritten in every order |
| UsageReports.RenamingKeepsTotals | greatwestern/src/usagereport.rs:1553-1595 | under that condition all totals stay, by day and over all |
| UsageReports.RenamingKeepsUsers | greatwestern/src/usagereport.rs:1368-1374 | if local names are distinct and nothing is recorded under a new name that is not renamed itself, every user, renamed or not, keeps their usage, jobs and waits of each day |
| UsageReports.RenamingCanBeUndoneIff | greatwestern/src/usagereport.rs:1553-1595 | the inverse renaming is refused iff two users shared a local name to begin with; otherwise it restores the whole report iff nothing was recorded under a new name that is not renamed itself |
| UsageReports.RenamingOntoUnmappedLosesUsage | greatwestern/src/usagereport.rs:1553-1595 | a renaming that is not refused and loses usage |
| Recycle.FileSystem.ClearPlaceholder | filesystem/src/filesystem.rs:924-1015 | removes a directory iff it holds hidden regular files alone; touches nothing unless all entries were seen to be such |
| Recycle.FileSystem.Restore | filesystem/src/filesystem.rs:1175-1300 | moves the copy back only where nothing exists, and corrects the owner of a directory |
| Recycle.FileSystem.CreateDir | filesystem/src/filesystem.rs:511-665 | what creating does if nothing fails, and at worst whichever system calls fail |
| Recycle.FileSystem.RecycleDir | filesystem/src/filesystem.rs:1430-1503 | what is recycled is at its place or in `.recycle`, whichever system calls fail, and nothing else moves |
| Recycle.ComesBackIff | filesystem/src/filesystem.rs:511-665 | what waits in `.recycle` comes back iff nothing is in its place, or a directory of hidden regular files, or a link to nowhere if it is not a directory; it comes back as it was but for the owner of a directory, and otherwise it and what is in its place stay |
| Recycle.RecycledComesBack | filesystem/src/filesystem.rs:1430-1503 | recycling and then creating gives back the same contents and the right owner after any run of creating, recycling, making and removing under other names, with directories of hidden regular files put in its place or not |
| Recycle.CreatedIsThere | filesystem/src/filesystem.rs:511-665 | what is reported created is there; where nothing was it is an empty directory with the owner and mode asked for, and what came back has that owner; where a copy waits and does not come back, success means real content, which is left alone |
| Recycle.RecycledIff | filesystem/src/filesystem.rs:1430-1503 | when recycling succeeds, which older copies are in the way, and that a failure leaves everything where it was |
| Recycle.DanglingLinkReplacedIff | filesystem/src/filesystem.rs:1195-1217 | a link that leads nowhere is replaced iff what is recycled is there and is not a directory |
| Recycle.LinkedPlaceholderBlocksRestore | filesystem/src/filesystem.rs:924-1015 | over a link to a directory of hidden files creating fails, now and every time after |
| Recycle.FileSystem.CreateAll | filesystem/src/filesystem.rs:511-665 | no run of create calls, failing anywhere, removes a file, a link that leads somewhere, a hidden directory or a non-hidden entry, or loses a recycled copy |
| Recycle.FileSystem.RunAll | filesystem/src/filesystem.rs:511-665 | over any such run with system calls failing anywhere, what was recycled waits or is back, and the first creation of it that reports success has brought it back |

## Left out

- HTTP, JSON-RPC, logins and TLS of the FreeIPA agent: a call is one of its outcomes.
- Concurrency inside one health record: each `ServerHealth` method is one step, although `mark_up` makes two atomic writes and a reader between them would see the old `up_since`; the 64-bit timeout counter is unbounded here.
- ServerHealth.DownSinceMeaning: requires times above 0, since 0 is the record's own mark for "never".
- GroupAdd.SecondMasterNeedsSilence: assumes that an add takes effect before its caller lets go of the lock or never, that groups are not deleted or renamed, that every configured master is asked, and that no two of the groups asked for share a name.
- GroupAdd: after two masters took one name both entries are kept and found by name everywhere; what a real replication conflict does to them is not modelled. Internal groups asked for are taken to be configured, so that the agent knows them by name; that its table of them can be flushed when it grows too large is not modelled.
- GroupAdd is a relation over states rather than a class, because its tasks are interleaved; `configured_servers` and `servers_to_check`, which list the masters without repetition, are its `order`.
- User additions on two masters: `add_user` can reach `user_add` after finding a user whose group sync failed, so the clean result is about groups.
- UserLifecycle.AddUserProcedure: reads are truthful and the user's lock is held throughout, so a user that was added is found; the retries for one that is not are unreachable and not modelled. What it does where an unreadable group has the name of one it needs is covered only by what no write may break.
- UserRuns.RunAll: equals the specifications only for runs that start with readable groups, which the operations keep.
- UserRuns.EnabledExactlyWhenOnInstance: assumes successful writes and answered listings; that groups configured for an instance do not take the name of another instance's own group is a condition, as is that users' portals are not internal ones.
- UserLifecycle: user ids are whole users, so two portals whose users share an id in FreeIPA are not modelled; `is_managed` is modelled without OPENPORTAL_REQUIRE_MANAGED_CLASS; passwords, shells and other attributes of accounts are left out.
- Directory: a name has one entry, and the words of a description are one constant.
- Reinitialisation of the servers is not a step of WriteSlots; back-off is part of whether a slot connects, and a read that names its server uses that server's shared slots only.
- Byte offsets in LustreIds: strings are sequences of characters, as the source takes care to split at character boundaries only; error texts are reduced to their case and operands.
- Checks of a format when the configuration is read: they restrict formats, while the model takes any.
- The 5 hour timeout and the sleeping of the queue's worker: an outcome is any result at any time.
- StorageReports.DailyReports: requires a report whose history is filed under its own dates before the newest one, as the type promises; with other histories a date could come twice. The same holds for DailyReportsInUse.
- Lookup and filtering by date in storage reports: easy members beside the merge.
- StorageReports.OrderAndRepetitionDoNotMatter: does not cover the local names in `users`, which do depend on the order.
- Reports inside reports are values here, as the code moves and clones them; only the portal-level reports are objects. Building an identifier from valid parts never fails, so the error paths for that are left out.
- Scaling by a factor and unit conversion in usage reports: floating point.
- UsageReports.DailyAddAssign: requires that no counter goes past 64 bits, as do ProjectAddAssign and AddAssign; the code is built with overflow checks and stops there. It does not distinguish a component without entries from one that is not there.
- Links in Recycle lead outside the directory by absolute path, so moving one does not change where it leads; `.recycle` is a directory if it exists, and is not itself created or recycled by name; modification times are left out.
- Remote variants of the file operations, path deny-lists and permission checks.
- Restored directories: only the directory itself gets its owner corrected, as in the code; permissions of a restored directory stay as they were.
