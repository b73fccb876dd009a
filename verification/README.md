# Coordination protocol: a verified model

A Dafny model of the coordination core of the repository: how work is claimed exclusively, launched,
settled on verified evidence, reported to GitHub and paid for. The modules follow the program:

* `ClaimSpec`, `ClaimRuns`, `ClaimTheorems`, `ClaimTerms`, `SqliteClaimStore`, `LaunchGate` -- the claim store as tables,
  as runs of any number of clients, and as an object updated statement by statement; then launchers that
  read first and acquire later.
* `CycleWitness`, `Launchability`, `Waves`, `WaveTheorems`, `AtlasContainment`, `AtlasPrereqs`,
  `AtlasReports` -- the dependency graph: shortest-cycle witness, worklist closure, Kahn waves, and the Atlas's two cycle finders.
* `RepoPath`, `CommitGraph`, `EvidenceGate`, `EvidenceTerms`, `ScopeTheorems` -- the Evidence Gate over an immutable
  commit graph with a tree per commit.
* `RunStatus`, `Settlement`, `SettlementTheorems`, `SettlementTerms`, `LaunchProvenance`, `Dispatcher`, `FailedLaunch`
  -- settlement of runs that are heap objects, the launcher's steps around it, and cleaning up after a launch.
* `GitHubSync`, `SyncTheorems`, `SyncHistories`, `SyncExact`, `IssueLabels`, `LabelFailures` -- the sync outside the
  lock as interleaved steps under a lease.
* `Mandate`, `MandateTheorems`, `MandateTerms` -- mandate verification with its nonce and spend registers.
* `Prelude` -- counting facts shared by all.

Where the program updates state in place the model has a class or a loop, proved equal to a function on
values; the theorems are about those functions, over every run or every interleaving. The `Terms` modules tell what
those functions decide over again from the raw rows, fields and texts alone.

## What the proofs found

Each of these is a lemma with a concrete history or an exact condition.

* A lapsed lease stops every launch. `acquire` expires it and then rolls the expiry back because the
  generation moved, and nothing in the program calls `expire_leases`
  (`ClaimTheorems.LapsedLeaseRefusesAcquire`, `LaunchesStall`).
* A conflict report documented as the holders of the requested keys also lists keys under the requester's own,
  rolled-back claim id, unless the claim row conflicted or the first key was the taken one
  (`ClaimTheorems.ReportNamesHolders`).
* `bind_engine_session` is safe under every interleaving exactly for generations the store has already returned
  (`ClaimTheorems.BindSafeExactly`).
* The Atlas prerequisite search can leave out an issue that lies on a cycle (`AtlasPrereqs.MissesAnIssueOnACycle`).
  An issue is reported exactly if it lies on a cycle of which nothing was finished before the search reached it
  (`AtlasReports.ReportExactly`). An issue at which a search starts is therefore reported exactly if it lies on a cycle
  (`StartsAreExact`), and the whole report is exact when from each issue at most one edge leads back to it
  (`OneWayIsExact`; not necessary, `FigureEightReported`).
* The gate accepts a merge whose tip reads an out-of-scope path as an older commit did
  (`ScopeTheorems.AcceptedMergeReadsOlder`). Acceptance keeps such a path, whatever the trees, exactly when every
  contributed commit has parents and each of them is contributed or the base (`ScopeKeptExactly`).
* The lease documented as generous headroom over a round trip covers two calls exactly if a call may last at most half
  of it; the timeout of 20 seconds is over that bound (`SyncHistories.CallBoundExactly`, `CallTimeoutTooLong`). A lost
  final write has the same effect (`LostFinishCommentsTwice`).
* One failed comment lets a retried sync take the in-progress label from a newer run of the same issue
  (`IssueLabels.FailedCommentSwapsTwice`). A failure can do so exactly if it comes after the label step of a cancelled
  run (`LabelFailures.FailureHarmlessExactly`).
* The exactly-once containment verdict is final exactly for a run that was dispatched before it settled
  (`SettlementTheorems.SettledVerdictKeptExactly`); one swept earlier can have its verdict overwritten
  (`SweptVerdictRewritten`).
* Path normalisation promises never to return a drive-lettered path, but "./C:/x" comes out as "C:/x"
  (`RepoPath.DriveSurvives`). A normal form is stable exactly if it has no white space at its ends and does not look
  rooted (`NormalizedTwice`).
* A failed launch frees its claim's keys exactly if the claim is still active at the launcher's generation
  (`FailedLaunch.FreedExactly`).

## Model

| member | source | states |
|---|---|---|
| `SqliteClaimStore.ClaimStore.Acquire` | scripts/execution_map.py:403-439 | the transaction as it runs (expire, compare the generation, reclaim dead rows, insert the row and its keys, log) leaves the tables and the result of the specified acquire, rollback included |
| `SqliteClaimStore.ClaimStore.ExpireLocked` | scripts/execution_map.py:377-383 | the loop over lapsed rows relabels each, bumps and logs it, as specified |
| `SqliteClaimStore.ClaimStore.ExpireLeases` | scripts/execution_map.py:393-401 | expiry on its own, and exactly the live claims returned, each once, by issue and claim id |
| `SqliteClaimStore.ClaimStore.ActiveClaims` | scripts/execution_map.py:389-391 | exactly the claims that are active or pending reconciliation, each once, by issue and claim id |
| `SqliteClaimStore.ClaimStore.ResourceConflicts` | scripts/execution_map.py:441-450 | the owners of the requested keys that are present, in key order |
| `SqliteClaimStore.ClaimStore.InsertResources` | scripts/execution_map.py:429-430 | key rows go in one by one until the first that is already there |
| `SqliteClaimStore.ClaimStore.Transition` | scripts/execution_map.py:452-472 | the guarded update in place: owner, generation, active state, then row, keys and log |
| `SqliteClaimStore.ClaimStore.Heartbeat` | scripts/execution_map.py:474-480 | a lease that does not reach past now is refused, otherwise the guarded update |
| `SqliteClaimStore.ClaimStore.Release` | scripts/execution_map.py:482-488 | a blank reason is refused, otherwise the guarded update that deletes the claim's keys |
| `SqliteClaimStore.ClaimStore.BindEngineSession` | scripts/execution_map.py:490-499 | the undisturbed read and write: a bound or missing claim is refused |
| `SqliteClaimStore.ClaimStore.ConsumeReceipt` | scripts/execution_map.py:505-511 | true exactly on first use, which is recorded |
| `ClaimRuns.ExpireExact` | scripts/execution_map.py:377-383 | expiry relabels exactly the lapsed active claims, one generation each, and frees no key |
| `ClaimRuns.AcquireDecision` | scripts/execution_map.py:403-439 | acquire succeeds iff the request is well formed, the expected generation is the current one plus the lapsed leases, the claim id is new and no live claim has the issue, the run or a key; otherwise nothing at all changes |
| `ClaimRuns.AcquireEffect` | scripts/execution_map.py:414-434 | what a successful acquire writes: row, keys, generation, log; rows of dead claims are gone |
| `ClaimTerms.ExpireTerms` | scripts/execution_map.py:377-383 | expiry takes exactly the active claims whose lease end is not after now, in table order, and logs each with the next generation at that time |
| `ClaimTerms.ReclaimTerms` | scripts/execution_map.py:412-423 | an acquire reclaims exactly the keys of released claims |
| `ClaimTerms.RefusalTerms` | scripts/execution_map.py:403-439 | which of the three reasons a refused acquire gets: no sensible request, then another generation than the store has once lapsed leases are expired, then a conflict |
| `ClaimTerms.HoldersSelected` | scripts/execution_map.py:441-450 | the report lists exactly the requested keys that are present, each with its owner, in the order requested |
| `ClaimTerms.TransitionTerms` | scripts/execution_map.py:452-472 | a guarded write goes through iff run, driver and generation match and the claim is active; which refusal otherwise; one generation, one claim and one log row change |
| `ClaimTerms.ChangeTerms` | scripts/execution_map.py:452-499 | what a heartbeat, a binding and a release write into the claim, and that only a release deletes keys, all of the claim's and no other |
| `ClaimTerms.RequestTerms` | scripts/execution_map.py:474-499 | when each request is invalid, already bound or goes through, from the claim's own row |
| `ClaimRuns.RunKeepsInv` | scripts/execution_map.py:338-499 | in every run, out-of-band edits included: keys belong to known claims, row i of the log carries generation i+1, and live claims never share an issue or a run |
| `ClaimTheorems.HeldKeyStays` | scripts/execution_map.py:359-364 | a held key stays with its claim through any run without that claim's own release, expiry of its lease included |
| `ClaimTheorems.HeldKeyExcludes` | scripts/execution_map.py:403-439 | while it is held every acquire asking for it is refused and changes nothing |
| `ClaimTheorems.ReportNamesHolders` | scripts/execution_map.py:435-450 | a conflict report lists every live holder, and lists nobody else iff the claim row itself conflicted or the first key was the taken one |
| `ClaimTheorems.LapsedLeaseRefusesAcquire` | scripts/execution_map.py:408-412 | with a generation the store has returned, any lapsed lease makes acquire fail and its expiry is rolled back |
| `ClaimTheorems.LaunchesStall` | scripts/execution_map.py:609-643 | so no number of launch attempts changes the store while one lease is lapsed |
| `ClaimTheorems.GenerationUsedOnce` | scripts/execution_map.py:452-472 | a (claim, generation) pair authorises at most one heartbeat, bind or release in any run |
| `ClaimTheorems.BindNeverOverwrites` | scripts/execution_map.py:490-499 | the session read outside the transaction is never overwritten by a caller that passes a generation the store had returned, whatever happens in between |
| `ClaimTheorems.GuessedGenerationOverwrites` | scripts/execution_map.py:490-499 | for any later generation there is an interleaving that overwrites a bound session |
| `ClaimTheorems.BindSafeExactly` | scripts/execution_map.py:490-499 | binding is safe under every interleaving iff the generation is one the store had already returned |
| `ClaimTheorems.HistoryIsComplete` | scripts/execution_map.py:431-434 | in every run of the store's own methods, replaying the log rebuilds each claim's state and generation and the whole resource table |
| `LaunchGate.CollisionKeys` | scripts/execution_map.py:274-289 | the keys are distinct and are exactly those of the claim's issue, run, branch, worktree, labels and sessions |
| `LaunchGate.RivalsExactly` | scripts/execution_map.py:274-289 | two claims have a collision key in common iff they share an issue, a run, a worktree or a session |
| `LaunchGate.PlayKeepsSound` | scripts/execution_map.py:580-660 | in every interleaving of launchers and store operations, each receipt is one generation past its snapshot and its live claim holds all its keys |
| `LaunchGate.OneWinner` | scripts/execution_map.py:609-660 | two launchers whose claims are both live share no collision key |
| `LaunchGate.FingerprintAlwaysMatches` | scripts/work_launcher.py:264-272 | the snapshot the launcher recomputes from the claim's generation is the one fingerprinted in its receipt |
| `LaunchGate.UndisturbedLaunch` | scripts/work_launcher.py:229-274 | an undisturbed launch is allowed iff its checks pass, no live claim shares its issue, run, worktree or a session, the store can take the claim as it stands, and its receipt is fresh and in time |
| `LaunchGate.ValidateExactly` | scripts/execution_map.py:663-671 | a receipt validates iff the issue still reads the same and it is in time, unused, and for this run, claim, generation, key list and snapshot; otherwise the launcher's claim, if still current, is released |
| `LaunchGate.ReceiptUsedOnce` | scripts/execution_map.py:505-511 | a receipt is accepted at most once in any run |
| `CycleWitness.Visit` | scripts/execution_map.py:142-150 | the backtracking search finds exactly the simple cycles that extend its path; it ends because the unseen set shrinks |
| `CycleWitness.Witness` | scripts/execution_map.py:134-156 | None iff no walk closes; otherwise a simple cycle no longer than any closed walk, least among those, starting at its least issue |
| `CycleWitness.BestIsUnique` | scripts/execution_map.py:151-154 | the witness is fixed by the edge set alone |
| `CycleWitness.BestStartsLow` | scripts/execution_map.py:153-156 | the best cycle already starts at its least issue, so the final rotation changes nothing |
| `Launchability.Closure` | scripts/execution_map.py:226-234 | the worklist marks exactly the issues reachable from a seed |
| `Launchability.Adjacency` | scripts/execution_map.py:210-220 | the edges kept are exactly the declared relations that are not self-edges and name a known issue |
| `Launchability.RejectedOwners` | scripts/execution_map.py:210-226 | owners of self-edges and of relations to unknown issues, and nobody else |
| `Launchability.DeriveGraph` | scripts/execution_map.py:159-238 | reported cycles are shortest, and the non-launchable issues are exactly those reachable from an issue with fatal drift |
| `Launchability.NonLaunchableSpreads` | scripts/execution_map.py:226-234 | an issue that waits on a non-launchable one is non-launchable |
| `Waves.Degrees` | scripts/execution_map.py:246-254 | in-degrees and successor lists count exactly the unfinished edges |
| `Waves.Settle` | scripts/execution_map.py:262-265 | placing an issue lowers each dependent's count once per edge |
| `Waves.TopologicalWaves` | scripts/execution_map.py:245-267 | each wave is exactly the launchable issues whose unfinished prerequisites all lie in earlier waves, and it stops only when no such issue is left |
| `WaveTheorems.AtMostOnce` | scripts/execution_map.py:256-266 | no issue appears twice, in one wave or in two |
| `WaveTheorems.PrerequisitesEarlier` | scripts/execution_map.py:256-266 | every unfinished prerequisite lies in a strictly earlier wave |
| `WaveTheorems.AsEarlyAsPossible` | scripts/execution_map.py:256-266 | an issue in wave k > 0 has an unfinished prerequisite in wave k-1 |
| `WaveTheorems.LeftOutWaitsOnLeftOut` | scripts/execution_map.py:256-266 | a launchable issue in no wave has an unfinished prerequisite in no wave |
| `WaveTheorems.WavesPartition` | scripts/execution_map.py:245-267 | with no prerequisite cycle the waves are a partition of the launchable issues |
| `WaveTheorems.PartitionExactly` | scripts/execution_map.py:245-267 | they are a partition iff the unfinished edges among launchable issues form no cycle |
| `WaveTheorems.FirstWaveIsPreflight` | scripts/execution_map.py:592-596 | wave 0 is exactly what preflight does not reject for fatal drift or an unsatisfied prerequisite |
| `WaveTheorems.Plan` | scripts/execution_map.py:159-267 | from parsed relations to waves: with no reported prerequisite cycle every launchable issue is placed, after its unfinished prerequisites |
| `AtlasContainment.WalkUp` | scripts/atlas_sync.py:283-293 | one walk up the parent map reports only cycle members, and its start if that is one |
| `AtlasContainment.CycleMembers` | scripts/atlas_sync.py:280-294 | the reported set is exactly the nodes that lie on a cycle of the parent map |
| `AtlasContainment.ClearedIsForest` | scripts/atlas_sync.py:331-342 | once exactly those lose their parents, following parents stops within the number of issues |
| `AtlasContainment.BuildContainment` | scripts/atlas_sync.py:331-342 | the parents that remain, and that they form a forest |
| `AtlasPrereqs.VisitSound` | scripts/atlas_sync.py:302-312 | the grey nodes are the stack, the stack is a walk, and everything reported lies on a cycle |
| `AtlasPrereqs.VisitClean` | scripts/atlas_sync.py:302-312 | while nothing is reported, finished nodes lead only to finished nodes and lie on no cycle |
| `AtlasPrereqs.SearchExact` | scripts/atlas_sync.py:297-317 | every reported node lies on a cycle, and the report is empty iff the graph is acyclic |
| `AtlasPrereqs.MissesAnIssueOnACycle` | scripts/atlas_sync.py:297-317 | on a four-node graph one node that lies on a cycle is not reported |
| `AtlasReports.VisitExact` | scripts/atlas_sync.py:302-312 | an issue is reported by its own visit iff it lies on a cycle clear of everything finished when the visit starts |
| `AtlasReports.ReportExactly` | scripts/atlas_sync.py:297-317 | for every order of keys and edges: an issue is in the report iff it lies on a cycle clear of what was finished when the search first reached it, and the report is complete iff every issue on a cycle has such a cycle |
| `AtlasReports.RootExact` | scripts/atlas_sync.py:302-317 | a node at which a search starts is reported iff it lies on a cycle, whatever was searched before |
| `AtlasReports.StartsAreExact` | scripts/atlas_sync.py:314-317 | every issue at which the outer loop starts a search is reported iff it lies on a cycle |
| `AtlasReports.FirstKeyExact` | scripts/atlas_sync.py:314-317 | an issue listed first is reported iff it lies on a cycle |
| `AtlasReports.OneWayIsExact` | scripts/atlas_sync.py:297-317 | when from each issue at most one edge leads back to it, the report is exactly the nodes on a cycle, whatever the order |
| `AtlasReports.FigureEightReported` | scripts/atlas_sync.py:297-317 | that condition is not necessary: two loops through one issue are reported in full |
| `AtlasPrereqs.PrereqSearch.Dfs` | scripts/atlas_sync.py:302-312 | the recursive search that colours in place does what the specified search does and restores its stack |
| `AtlasPrereqs.PrereqSearch.CycleMembers` | scripts/atlas_sync.py:297-317 | the outer loop, with both halves of the result about cycles |
| `RepoPath.NormalizeRepoPath` | scripts/commit_evidence.py:123-144 | the loop over the pieces computes the specified normal form, None included |
| `RepoPath.NormalizedShape` | scripts/commit_evidence.py:123-144 | a normal form has at least one segment, none empty, dot or dot-dot, and splits back into its segments |
| `RepoPath.NormalForm` | scripts/commit_evidence.py:132-144 | for every path: the text without white space at its ends, backslashes read as slashes, is split; there is no normal form iff that text is blank, rooted or drive-lettered, has a ".." piece or no piece that counts; otherwise the normal form splits into exactly the pieces other than "" and ".", in order and none left out |
| `RepoPath.SplitExactly` | scripts/commit_evidence.py:138-144 | splitting and joining at slashes are inverse, and the pieces are the only slash-free ones that join to the text |
| `RepoPath.JoinedIsNormal` | scripts/commit_evidence.py:132-144 | usable pieces joined come back unchanged if their text has no white space at its ends, no backslash and no root |
| `RepoPath.NormalizedTwice` | scripts/commit_evidence.py:132-144 | normalising a normal form again changes nothing iff it has no white space at its ends and does not look rooted |
| `RepoPath.DriveSurvives` | scripts/commit_evidence.py:125-137 | a leading "." piece gets a drive letter past the check, and the normal form then starts with it |
| `RepoPath.IsWithin` | scripts/commit_evidence.py:147-162 | the loop over permitted paths decides containment, skipping those that do not normalise |
| `RepoPath.InsideIsPrefix` | scripts/commit_evidence.py:147-162 | the text comparison holds iff both paths normalise and the pieces of the permitted one are a prefix of the other's |
| `CommitGraph.UnlistedIsInherited` | scripts/commit_evidence.py:165-176 | when every contributed commit has parents and each is contributed or the base, merges included, a path no commit of the range lists reads at the tip as at the base |
| `CommitGraph.UnlistedHasOldContent` | scripts/commit_evidence.py:165-176 | on any history it reads as in some commit the base already contained, or is absent |
| `CommitGraph.MergeMayKeepOlderContent` | scripts/commit_evidence.py:165-176 | a merge of a branch with a commit older than its base lists nothing at a path and yet reads there as the older commit |
| `EvidenceGate.FitExactly` | scripts/commit_evidence.py:179-235 | a commit passes both lists of rules iff its time, sign-off, file list and scope are all in order |
| `EvidenceGate.ScanExactly` | scripts/commit_evidence.py:467-481 | the walk over the range finds no failure iff every commit but the presented one is fit |
| `EvidenceGate.FilesOfIsUnion` | scripts/commit_evidence.py:467-499 | the contributed files are exactly the union of the files of the range |
| `EvidenceGate.AcceptsExactly` | scripts/commit_evidence.py:238-500 | the gate accepts iff the identity and run-level checks hold, the presented commit is in base..tip, and every commit of that range is fit |
| `EvidenceGate.VerdictIgnoresWhichCommit` | scripts/commit_evidence.py:334-481 | two envelopes presenting different contributed commits get the same verdict |
| `EvidenceGate.EvidenceIsOwn` | scripts/commit_evidence.py:483-500 | accepted evidence names its own run, issue, request, branch and worktree, its commits are base..tip, its files their union and all within scope |
| `EvidenceTerms.ParseShaExactly` | scripts/commit_evidence.py:334-341 | a text names a commit iff, without white space at its ends, it is forty hex digits in either case, and then in lower case |
| `EvidenceTerms.PresentedExactly` | scripts/commit_evidence.py:334-341 | the commit a report presents is its `commit`, or its `commit_sha` if that is empty |
| `EvidenceTerms.PermittedExactly` | scripts/commit_evidence.py:376-408 | the approved scope is the explicit paths if there are any, else those named by a non-blank policy; it needs at least one, and all usable; each refusal says which of these failed |
| `EvidenceTerms.VerdictExactly` | scripts/commit_evidence.py:238-500 | the gate refuses with the first complaint in the documented order that is true of the raw record, report and commit graph, of the first flawed commit where it concerns another commit of the range, and accepts iff none is true |
| `EvidenceTerms.AcceptedExactly` | scripts/commit_evidence.py:238-500 | the gate accepts iff the run is contained and isolated, the report repeats run, issue and an approved request, the recorded base is an ancestor of the branch tip, the named commit is between them, and every commit between them is fit for the approved scope |
| `EvidenceTerms.AcceptedEvidence` | scripts/commit_evidence.py:483-500 | accepted evidence records the commit the report names, the base and scope of the run record, and that commit's own time and files |
| `EvidenceTerms.EnrichedExactly` | scripts/worker_adapters.py:1363-1417 | an enriched report repeats the run's identity iff a request is recorded; a success keeps the commit the worker named or names the tip, any other outcome names none |
| `ScopeTheorems.AcceptedStaysInScope` | scripts/commit_evidence.py:421-500 | on such a range an accepted tip reads as its base at every path outside the scope the run record approves |
| `ScopeTheorems.ScopeKeptExactly` | scripts/commit_evidence.py:421-500 | for an accepted run, every choice of trees that the gate also accepts keeps such a path iff every contributed commit has parents and each is contributed or the base |
| `ScopeTheorems.AcceptedMergeReadsOlder` | scripts/commit_evidence.py:238-500 | a run the gate accepts, with 40-digit names, a branch and a merge, whose tip reads a path outside the scope as an older commit did |
| `ScopeTheorems.AcceptedAddsNothingOutside` | scripts/commit_evidence.py:421-500 | on any history it reads there as some commit the base already contained, or not at all |
| `EvidenceGate.EnrichedIdentity` | scripts/worker_adapters.py:1363-1417 | after enrichment only a run with no recorded request fails its identity checks; a non-success carries no commit |
| `EvidenceGate.TipIsContributed` | scripts/worker_adapters.py:1349-1369 | a branch that contributed anything contributed its tip |
| `EvidenceGate.DerivedTipSameVerdict` | scripts/worker_adapters.py:1349-1417 | the tip derived for an envelope without a commit gets the verdict any other contributed commit would |
| `EvidenceGate.VerifyCommitCorrelation` | scripts/commit_evidence.py:238-500 | the chain of early returns computes the specified verdict |
| `EvidenceGate.ScanContributed` | scripts/commit_evidence.py:467-481 | the loop stops at the specified first failure and otherwise has collected the union of the files |
| `Dispatcher.RunRegistry.Add` | scripts/dispatcher.py:278-280 | the registry gains one run object, over the one the id had if it had one |
| `Dispatcher.RunRegistry.SetContainment` | scripts/dispatcher.py:285-290 | an update writes one field of the one object every holder of it sees |
| `Dispatcher.RunRegistry.SetSettled` | scripts/dispatcher.py:285-290 | status and, when there is any, evidence; nothing else changes |
| `Dispatcher.Dispatcher.SpawnChild` | scripts/dispatcher.py:367-394 | a child with its parent's issue, or a refusal for an unknown parent |
| `Dispatcher.Dispatcher.RecordContainment` | scripts/work_launcher.py:322-383 | the snapshot is consumed and its scan recorded, whatever its code; without one a mutating top-level run with no verdict gets the missing-snapshot code |
| `Dispatcher.Dispatcher.TerminalContainment` | scripts/work_launcher.py:443-448 | the hook's scan, for a run the registry may not know |
| `Dispatcher.Dispatcher.Complete` | scripts/dispatcher.py:443-510 | an unknown or terminal run is refused and nothing changes; otherwise exactly the specified settlement of that one run, which is no success for a mutating run whose held snapshot scans badly |
| `Dispatcher.Dispatcher.SettleLocked` | scripts/dispatcher.py:469-506 | through the shared run object the gate reads the verdict recorded a moment before |
| `Dispatcher.Dispatcher.GateCommit` | scripts/dispatcher.py:531-605 | a claimed success stands only if not mutating and passed, or accepted by the gate; a gate that cannot read git blocks |
| `Settlement.SettledEarned` | scripts/dispatcher.py:443-605 | a mutating top-level run settles succeeded iff it gets evidence, and then the evidence is its own and its scan was clean or only dirty inside the worktree |
| `SettlementTerms.RecordedExactly` | scripts/work_launcher.py:336-383 | a held snapshot's scan is recorded whatever its code; without one only a mutating top-level run with no verdict gets one; nothing else about the run changes |
| `SettlementTerms.SettledExactly` | scripts/dispatcher.py:443-605 | the final status and evidence from the run's fields: no claimed success keeps its outcome, a timeout is recovered iff branch and worktree are there and the tip is not the base, and a claimed success stands only on the gate's acceptance or the read-only check |
| `SettlementTerms.BadScanNeverSucceeds` | scripts/commit_evidence.py:273-308 | a mutating run whose held snapshot scans as a dirty checkout or a scan error never settles as succeeded |
| `SettlementTerms.VerdictIsLastScan` | scripts/work_launcher.py:322-383 | in any history a run's verdict is the answer of the last scan that found its snapshot held; without one it is none or the missing-snapshot code |
| `SettlementTerms.SuccessWasScanned` | scripts/work_launcher.py:322-383 | under the launcher's order a mutating success had a last scan, and it was clean or dirty only inside the worktree |
| `LaunchProvenance.SuccessMatchesLaunch` | scripts/work_launcher.py:893-921 | under the launcher's order the evidence of a mutating success names the issue it was claimed for, the request and scope it was approved for, and the branch, base and worktree that were created for it, each by that run's own launcher step |
| `LaunchProvenance.ChildrenShareIssue` | scripts/dispatcher.py:367-394 | in every history each child was spawned for a known parent and works on that parent's issue |
| `SettlementTheorems.StepKeepsInv` | scripts/work_launcher.py:896-932 | what every launcher phase, completion and hook keeps about every run |
| `SettlementTheorems.SuccessIsEarned` | scripts/dispatcher.py:443-605 | in any order of steps a mutating top-level success is earned iff the run was marked mutating before it settled |
| `SettlementTheorems.MutatingSuccessIsEarned` | scripts/work_launcher.py:741-757 | under the launcher's order every mutating top-level success is earned, whatever sweeps, recoveries and hooks interleave |
| `SettlementTheorems.ClosedStays` | scripts/work_launcher.py:322-357 | once a dispatched run has settled, no hook, sweep or second completion changes anything about it |
| `SettlementTheorems.VerdictKeptExactly` | scripts/work_launcher.py:336-383 | the containment verdict of a settled top-level run is kept by every legal continuation iff the run was dispatched, its snapshot is used up, and it has a verdict if it is mutating; otherwise the launcher's remaining steps and one scan, or one hook, rewrite it |
| `SettlementTheorems.SettledVerdictKeptExactly` | scripts/work_launcher.py:336-357 | the verdict a top-level run settles with is kept by every legal continuation iff the run was dispatched before |
| `SettlementTheorems.EarnedIsClosed` | scripts/dispatcher.py:443-510 | an earned success is final |
| `SettlementTheorems.EarlySuccessEscapes` | scripts/dispatcher.py:559-561 | a success reported before the mutating mark is never gated |
| `SettlementTheorems.SweptVerdictRewritten` | scripts/work_launcher.py:356-383 | a run swept before its worker starts later has its containment verdict overwritten |
| `GitHubSync.StepKeepsInv` | scripts/dispatcher.py:671-722 | at most one sync holds a run; its comments and synced flag agree with the holder's phase |
| `GitHubSync.TakeLeaseKeepsInv` | scripts/dispatcher.py:688-694 | with prompt syncs a lease is never granted on a run another sync holds |
| `SyncTheorems.AtMostOneComment` | scripts/dispatcher.py:671-752 | in every interleaving of complete and resync a run has at most one result comment, and exactly one once synced, if syncs fit their lease and none dies before its final write |
| `SyncTheorems.SettlementIsFinal` | scripts/dispatcher.py:460-510 | with no assumption: a terminal status never changes, a synced run stays synced, no comment is taken back |
| `SyncTheorems.OneTerminalTransition` | scripts/dispatcher.py:464-468 | a run makes exactly one terminal transition if it ends terminal, else none |
| `SyncTheorems.ChildrenKeepIssue` | scripts/dispatcher.py:367-394 | in every history a child works on its parent's issue |
| `SyncTheorems.ClaimExactly` | scripts/dispatcher.py:332-365 | an issue can be claimed iff it is ready, no run of it is running, child or not, and fewer issues than the ceiling have a running run |
| `SyncTheorems.CompleteExactly` | scripts/dispatcher.py:497-510 | completing changes one status and queues a sync iff the run is top-level |
| `SyncTheorems.FinishExactly` | scripts/dispatcher.py:718-722 | the final write marks the run synced and changes nothing else |
| `SyncHistories.CallBoundExactly` | scripts/dispatcher.py:94-95 | every history in which no call lasts longer than a bound and no final write is lost leaves at most one comment per run iff twice the bound fits the lease |
| `SyncHistories.CallTimeoutTooLong` | scripts/dispatcher.py:94-95 | with the program's own constants, 20 and 30 seconds, that is false |
| `SyncHistories.OverrunCommentsTwice` | scripts/dispatcher.py:671-722 | for any such bound, a history in which nothing fails and no call lasts longer leaves two comments |
| `SyncHistories.LostFinishCommentsTwice` | scripts/dispatcher.py:718-721 | with every sync prompt, one lost final write leads to two comments |
| `SyncExact.CommentsBounded` | scripts/dispatcher.py:688-722 | with no assumption on timing or failures, a run's comments never exceed those it has plus those its lease holders still owe, until a lease is granted again |
| `SyncExact.CommentsReached` | scripts/dispatcher.py:688-722 | and that number is reached by a history in which nothing fails |
| `SyncExact.GrantSafeExactly` | scripts/dispatcher.py:692-694 | after a lease is granted at most one comment can follow iff the run had none and no earlier holder still owed one |
| `IssueLabels.LabelsAgree` | scripts/dispatcher.py:332-365 | if syncs fit their lease and none fails after the label step of a cancelled run, every issue always has exactly one workflow label: in progress iff its newest top-level run is running, awaits its label step or succeeded; else ready iff that run was cancelled, and blocked iff it failed, timed out, went over budget or was blocked |
| `IssueLabels.OtherLabelsStay` | scripts/dispatcher.py:695-715 | no history at all puts the review label, or any label but ready, in progress and blocked, on an issue or takes it off |
| `IssueLabels.StepKeepsTidy` | scripts/dispatcher.py:671-722 | each step, harmless failures included, keeps labels, leases and label steps in agreement |
| `IssueLabels.CeilingHolds` | scripts/dispatcher.py:338-345 | on every history at most one running top-level run per issue and at most the ceiling in all |
| `IssueLabels.FailedCommentSwapsTwice` | scripts/dispatcher.py:712-722 | one failed comment of a cancelled run suffices for a retried sync to take the in-progress label from a newer run |
| `LabelFailures.FailureHarmlessExactly` | scripts/dispatcher.py:712-722 | in any reachable state a failed sync leaves the labels right in every prompt continuation iff it failed before its label step or its run was not cancelled |
| `FailedLaunch.WorkLauncher.FailLaunch` | scripts/work_launcher.py:494-527 | the run is blocked if it was still running, then the claim is released, each refusal swallowed |
| `FailedLaunch.WorkLauncher.FindClaim` | scripts/work_launcher.py:447-454 | the kept claim, else the live claim of that run in the store |
| `FailedLaunch.WorkLauncher.OnWorkerTerminal` | scripts/work_launcher.py:426-459 | containment recorded, kept claim forgotten, and whichever claim was found released |
| `FailedLaunch.FailedIsTerminal` | scripts/work_launcher.py:494-521 | afterwards a registered run is terminal, blocked without new evidence if it was running, and no other run changed |
| `FailedLaunch.SecondFailIdle` | scripts/work_launcher.py:911-932 | handling the failure again changes no run, whatever happened in between |
| `FailedLaunch.FreedExactly` | scripts/execution_map.py:452-472 | the claim's keys are freed iff it is active and still at the launcher's generation |
| `FailedLaunch.RetryAdmittedExactly` | scripts/work_launcher.py:505-509 | after such a release a new claim for the issue under a fresh run is admitted iff no other lease has lapsed |
| `FailedLaunch.SecondReleaseIdle` | scripts/work_launcher.py:487-492 | a second release with the same record never changes the store, whatever other clients did in between |
| `FailedLaunch.FoundIsReleased` | scripts/work_launcher.py:1137-1156 | a claim read back from the store is released, leaving its run no live claim, iff its lease was not expired |
| `Mandate.NonceStore.CheckAndConsume` | agent-platform/cortxt_mcp/nonce_store.py:67-82 | true exactly for a non-empty unused nonce, which is then used |
| `Mandate.BudgetStore.RecordAndCheck` | agent-platform/cortxt_mcp/nonce_store.py:98-107 | the clamped cost is debited whether or not the total stays within the cap |
| `Mandate.MandateVerifier.VerifyMandate` | agent-platform/cortxt_mcp/mandate.py:203-304 | the chain of early returns, with each store written at its own check, computes the specified decision and stores |
| `Mandate.MandateVerifier.CheckBeforeNonce` | agent-platform/cortxt_mcp/mandate.py:203-243 | the checks before the nonce report the first failure among them |
| `Mandate.MandateVerifier.CheckAfterNonce` | agent-platform/cortxt_mcp/mandate.py:251-304 | the checks after the nonce report the first failure among them and debit iff the budget check is reached |
| `MandateTheorems.FirstFailureDecides` | agent-platform/cortxt_mcp/mandate.py:189-200 | a check decides iff it fails and every check before it in the documented order passes; acceptance iff all pass |
| `MandateTerms.AcceptedExactly` | agent-platform/cortxt_mcp/mandate.py:203-304 | acceptance over the raw fields: exactly the thirteen fields, version 2, a key of a known issuer, not revoked, a signature over all but the signature, an unseen nonce, an expiry later than now, the tool listed, the class no higher than L0 < L1 < L2 < L3 allows, runtime, cost, issue and fingerprint |
| `MandateTerms.ReasonExactly` | agent-platform/cortxt_mcp/mandate.py:189-304 | every call gets the first reason, in the documented order, that its raw fields give, and the mandate id that could be read |
| `MandateTerms.RegistersExactly` | agent-platform/cortxt_mcp/mandate.py:193-199 | the nonce is spent iff the envelope is authentic and the nonce unseen; the account is debited by the positive cost iff everything up to the cap also holds and the mandate has a name |
| `MandateTheorems.StoresChangeExactly` | agent-platform/cortxt_mcp/mandate.py:193-199 | the stores stay as they were iff the call fails at or before the nonce check; otherwise its nonce is spent |
| `MandateTheorems.NonceOnce` | agent-platform/cortxt_mcp/nonce_store.py:67-82 | in any sequence of calls no two that pass the nonce check carry the same nonce |
| `MandateTheorems.SpentIsDebited` | agent-platform/cortxt_mcp/nonce_store.py:98-107 | a mandate's total is what it was plus every debit since, accepted or not |
| `MandateTheorems.AcceptedWithinCap` | agent-platform/cortxt_mcp/mandate.py:282-293 | at each acceptance the clamped cost of all calls accepted so far under that mandate id is within that envelope's cap |

## Left out

* Identifiers, paths in keys and inert texts of the claim store are numbers, only ever compared; SHA-256 receipt ids
  and fingerprints are injective constructors.
* Sorting of keys and issue ids as strings: key lists come sorted, issues by rank, claims by their numbers.
* SQLite, JSON, file flushes and locks: transactions are all or nothing, writes succeed, each locked section is one step.
* `preflight_validate`'s inventories, writers, labels and dependency checks are one flag, `ready`; its bounded retry
  of three acquires is three launchers.
* The second issue read of the launch gate is the flag `same`.
* Regular expressions over issue bodies, Markdown, timestamps and site pages: graphs start from parsed relations.
* `resolve_containment`'s choice among several declared parents: the parent map is given.
* Rename folding, path quoting and shallow clones: a commit's file list is every path whose content differs from
  each of its parents.
* Git answers are faithful to one commit graph; a range that cannot be read, an unreadable time, message or file list
  and a raised error are modelled, other per-command failures are not.
* Backtick parsing of a prose artifact policy, and Unicode whitespace in `strip`: ASCII spaces only.
* The read-only evidence arm is one answer, `passes`; its report record is not kept.
* Result envelopes keep only what the gate reads; error texts, artifacts and telemetry are dropped.
* Filesystem sweeping: the scan's code is an answer, one of four.
* `sweep_expired`'s choice of expired runs: a sweep is a completion with `TimedOut`, at any time, on any run.
* Exceptions inside the containment hook, which the program prints and swallows: the hook does not fail.
* `spawn_child`'s depth check, heartbeats of runs and lease lengths of runs.
* Claiming a run and swapping its label are one step that does not fail; child runs are never labelled.
* The review submission is the label step of a succeeded run; its record is not kept.
* Clocks are real numbers that do not run backwards within a sync.
* Non-finite numbers, float rounding and unhashable values in mandate envelopes; key, signature, time and number
  parsing are given functions; corrupted store files.
* Issuing mandates, revocation storage, widgets, command line, inventory readers, prompts and worker adapters: shallow.
- CycleWitness.Witness: reports one cycle, the least; other cycles are not reported, as in the program.
- AtlasPrereqs.SearchExact: does not say that every node on a cycle is reported, because the search does not; AtlasReports says when it does.
- AtlasReports.OneWayIsExact: a sufficient condition on the graph alone; the exact condition, AtlasReports.ReportExactly, depends on the order of keys and edges, as the report does.
- SyncTheorems.AtMostOneComment: assumes syncs fit their lease and finish, because without either it is false.
- IssueLabels.LabelsAgree: assumes that nobody else edits labels, because without that it is false.
- LaunchGate.CollisionKeys: malformed run ids and labels, which the program refuses, do not occur as numbers.
- LaunchGate.UndisturbedLaunch: the checks that do not read the store are the one flag `ready`.
- SqliteClaimStore.ClaimStore.BindEngineSession: nothing happens between its read and its write; the interleavings are in ClaimTheorems.BindSafeExactly.
- Launchability.DeriveGraph: drift records are not derived, only cycles and fatal owners; owners of malformed text relations are an input.
- RepoPath.NormalizeRepoPath: strips ASCII white space only.
- EvidenceGate.VerifyCommitCorrelation: one faithful graph answers every question; single git commands that fail are modelled only for times, messages, file lists and the range.
- Dispatcher.Dispatcher.SpawnChild: the refusal by delegation depth is left out.
- Dispatcher.Dispatcher.GateCommit: the read-only arm is the single answer `passes`.
