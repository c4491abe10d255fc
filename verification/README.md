# Verified model of the photo library

This project models the parts of Bear Stack's photo library (`internal/photos`) whose correctness does not show in any
single function, and the plain-text PDF writer (`internal/documentconvert`), and proves what they promise. To check
it, run `dafny verify dfyconfig.toml` in this directory.

Database tables are maps from keys to rows; a trigger is part of the step that fires it; a transaction is one step;
iteration over a Go map or over unordered rows takes any element next. Errors, cancellation and crashes are free
choices of the model, so every result holds whatever fails. Code that works by loops over changing variables is a
method proved against a function or predicate, objects are classes with their fields, and protocols are state machines
over events whose theorems range over all runs. Face scores, being ordered numbers, are reals.

The face results assume of the reference table that it names each face under its own person and holds faces of public
photos only (`FaceTables.Sound`): the privacy triggers take the faces of a private photo out of the live ones. That is
exactly when the query of `ensureFaceGraph`, which leaves private photos out, and the query of `syncFaceGraphPeople`,
which does not, agree (`FaceTables.QueriesAgree`).

The areas, and where they are:

- **Face matching** (`Face*.dfy`): the in-memory reference graph equals a rebuild after every incremental sync, for
  every visiting order; lazy validation returns the exact best people; whole-group decisions need only each
  reference's top two.
- **Group merges** (`GroupMerges.dfy`, `GroupReconciliation.dfy`): every run of automatic merges respects rejections,
  barred folders and the photos, and what the reconciliation of a group decides is such a merge.
- **Image groups** (`ImageGroup*.dfy`): the stored flag of every original agrees with its group through every run, and
  the exact precondition of each event that needs one.
- **Photo identities** (`Identity*.dfy`, but not the scanner): faces survive hiding, vanishing, relocation and
  merging; a simulation by a library in which nothing is ever hidden.
- **Relocation** (`Relocation*.dfy`, `PathText.dfy`, `PathComponents.dfy`, `FolderRename.dfy`): recognising moved
  folders without comparing all pairs, also on the path texts themselves, and renaming exactly one subtree by string
  ranges.
- **Identity scan** (`Scan*.dfy`, `IdentityScanner.dfy`): a complete scan after any history of cancelled ones equals a
  scan from scratch.
- **Family trees** (`Family*.dfy`, `UnionFind.dfy`): bounded search, union-find with path halving and partition
  compute exactly the components of the visible graph.
- **Protocols** (`Reconcile*.dfy`, `SharedScans.dfy`, `DirectoryVisibility.dfy`, `ImageCache*.dfy`, `Thumbnail*.dfy`,
  `Label*.dfy`): resumable reconciliation, shared visibility scans, the image cache, the preview inventory as a
  journal of deletions, and labeling actions that are carried out at most once.
- **Search filters** (`SqlText.dfy`, `PersonFilter*.dfy`): the compiled SQL condition, evaluated in three-valued logic
  with its positional arguments, means what the expression means.
- **PDF printing** (`Pdf*.dfy`): a reader that follows the file's own offsets finds the wrapped lines again; the file
  has only one-byte characters, so its lengths and offsets count bytes.

`Pick.dfy`, `Batches.dfy` and `Sorting.dfy` hold shared helpers.

## Findings

Properties that do not hold of the code as it stands. Each has an exact condition and an input or a history that fails
it.

- Adding a smaller id to an image group while its chosen primary is missing shows two members
  (`ImageGroupMembers.JoiningKeepsFlagsExactly`, `ImageGroupExamples.AddingBelowStandInShowsTwo`).
- Removing a chosen primary from an image group without a live successor leaves it behind as primary; this also
  happens to a chosen primary that is itself missing, and later hides every member
  (`ImageGroupLeaving.RemovalKeepsExactly`, `ImageGroupExamples.RemovedPrimaryReturns`).
- An original that returns after its group was dissolved stays hidden (`ImageGroupInvariant.RestoreKeepsExactly`,
  `ImageGroupExamples.ReturningAfterDissolveStaysHidden`).
- The conflict query of a relocation looks at live faces only, so hand-edited faces of a private duplicate at the
  target are lost, although the comment beside the removal says that only unedited duplicates are dropped
  (`IdentityRelocation.LosesOnlyUnedited`, `IdentityExamples.ArchivedWorkIsLost`).
- The veto against merging two groups looks at visible photos only: a merge may leave a hidden photo that shows one
  person twice, or one that cannot be shown again because its folder is barred to the surviving person
  (`GroupMerges.MergeKeepsOnceAnywhereExactly`, `GroupMerges.MergeKeepsReturnExactly`,
  `GroupMerges.MergeOverHiddenPhoto`).
- An ignored face that was under review, or whose photo was private for a while, keeps its preview for good: ending
  the review and showing the photo again leave its deadline at 0 (`ThumbnailJournal.StepKeepsLimitedExactly`,
  `ThumbnailJournal.IgnoredPreviewKeptForGood`).
- A folder that is swapped with another, half scanned and swapped back keeps wrong fingerprints through every later
  scan, because its stored listing is still the right one; and a file that takes the place of a folder loses its row
  (`ScanResult.CompleteScanExactly`, `ScanExamples.SwappedFolderStaysWrong`, `ScanExamples.FolderBecomesFileIsLost`).
- The string interval of `prefixRange` is exact unless the last rune has no valid successor; every caller passes a
  prefix that ends in a slash, where it is exact (`PathText.PrefixRangeIsExact`, `PathText.SurrogatesLeak`,
  `PathText.LastRuneExcluded`).
- A face that becomes a candidate while a pass of the reconciliation runs is visited by it exactly when it had been
  visited already, is among the rows that an open batch commits, or lies between the cursor and the bound of the pass
  (`ReconcileQueue.ReturningIsVisitedExactly`, `ReconcileQueue.ReturningDuringBatchExactly`); one that returns behind
  the cursor waits for the next pass (`ReconcileQueue.ReturningBehindCursorIsMissed`), which its return has asked for
  (`ReconcileQueue.AskingCausesAnotherPass`).

## Model

| member | source | states |
|---|---|---|
| FaceTables.QueriesAgree | internal/photos/faces_match.go:49-120 | the query of the full rebuild and the query per person give the same references for every person exactly when each reference row of a usable face names its person and belongs to a public photo |
| FaceSync.SyncFoldIsSynced | internal/photos/faces_match.go:486-555 | visiting the people one by one, in any order, replaces exactly the slices of the visited people and leaves everybody else's references alone |
| FaceSync.VisitFilesRows | internal/photos/faces_match.go:486-555 | whoever has been visited has filed exactly the faces of its reference rows that are of the model, not ignored, chosen or not ruled out, and have an embedding |
| FaceSync.IncrementalSyncEqualsRebuild | internal/photos/faces_match.go:486-555 | for every visiting order, the incrementally updated graph is the full rebuild if and only if the people visited include the old and the new person of every changed reference |
| FaceSync.RebuiltSyncCovers | internal/photos/faces_match.go:486-555 | the other half: a sync that ends as the rebuild has covered every change |
| FaceRuntime.Runtime.Rebuild | internal/photos/faces_match.go:70-120 | whatever the row order, the five maps of the runtime show exactly the rebuilt graph; on an error no graph is left |
| FaceRuntime.Runtime.SyncPerson | internal/photos/faces_match.go:500-550 | forgetting a person's old entries and installing the new ones updates people, nodes, favorites, vectors and groups as one abstract step |
| FaceRuntime.Runtime.SyncFaceGraphPeople | internal/photos/faces_match.go:486-555 | the loop over the affected people, in any order and with writers in between, ends in the fold of those steps at the committed revision, or without a graph; under each visited person exactly the current references of its rows are filed |
| FaceRuntime.Runtime.EnsureFaceGraph | internal/photos/faces_match.go:49-120 | a graph is kept only when revision and model still match; otherwise the maps hold exactly the current references of public photos, each with its vector under its person |
| FaceRuntime.Runtime.SyncFaceMutation | internal/photos/faces_mutation.go:23-31 | a graph survives a commit only if it was current before the write, and then shows the synchronised graph at the committed revision |
| FaceGraphRuns.MutateKeepsFresh | internal/photos/faces_mutation.go:10-31 | one edit whose affected people cover its changes leaves a graph that is a rebuild whenever it carries the database revision |
| FaceGraphRuns.CachedGraphIsRebuild | internal/photos/faces_match.go:49-120 | over every run of edits, outside writers and lookups, a cached graph at the database revision is the rebuild of the database |
| FaceOrder.ComputeCosine | internal/photos/faces_match.go:38-47 | the loop computes the inner product, and -1 for vectors of different lengths |
| FaceOrder.TopIsUnique | internal/photos/faces_candidates.go:72-86 | the best `limit` people by score, ties by person id, are determined by the set of candidates |
| FaceOrder.TopOfUnion | internal/photos/faces_candidates.go:230-236 | cutting a list and later joining more candidates gives the same top as cutting once at the end |
| FaceCandidates.BestCosine | internal/photos/faces_candidates.go:103-141 | the rank of a person is the maximum over the person's vectors |
| FaceCandidates.RankFacePersonsInScope | internal/photos/faces_candidates.go:103-141 | the ranking holds exactly the people of the scope that are not excluded, each once with the maximum score, sorted |
| FaceCandidates.ValidateBatch | internal/photos/faces_candidates.go:168-210 | one query over the queued ids, rows in any order, makes the score map exact for all references seen so far |
| FaceCandidates.QueueReference | internal/photos/faces_candidates.go:211-224 | queueing and flushing at the batch limit loses no reference, even where one batch ends in the middle of a person |
| FaceCandidates.ScoreGroup | internal/photos/faces_candidates.go:163-229 | after the batches of a group every person has the best score over exactly the references the database still supports |
| FaceCandidates.StopsSafely | internal/photos/faces_candidates.go:159-162 | once the last kept score beats the next upper bound nobody later can enter the result, so stopping is safe |
| FaceCandidates.ValidateFaceCandidatesInScope | internal/photos/faces_candidates.go:152-238 | lazy validation returns the exact best `limit` people of an exhaustive validation, ties by person id, for every ranking with upper bounds; everybody in it has a reference that the database still confirms with that score, and whoever has one is in it or comes after a full result; no limit gives nothing |
| FaceCandidates.TopAnswersRows | internal/photos/faces_candidates.go:63-71 | the best people in terms of the rows: each has a confirmed reference with its score, and nobody with a confirmed reference is passed over |
| FaceDecisions.RebuiltIsCoherent | internal/photos/faces_candidates.go:53-61 | a rebuilt graph hands out each reference once and under its own person |
| FaceDecisions.RankingIsComplete | internal/photos/faces_candidates.go:103-141 | ranking drops nobody that validation could accept: validating the ranking is validating the whole graph |
| FaceDecisions.BestPeople | internal/photos/faces_candidates.go:144-150 | rank, then validate: the exact best people of the whole cached graph |
| FaceDecisions.NearestPersonInGroups | internal/photos/faces_match.go:145-167 | the winner among the named people, and among the unnamed groups only when there is none: the best score, ties by the smaller person, at least the similarity, and ahead of everybody else by the margin; nobody when neither has a winner |
| FaceDecisions.TopTwoDecide | internal/photos/faces_match.go:155-165 | looking at the best two is enough to find the winner of everybody, or that there is none |
| FaceDecisions.DecidesInTurnOnce | internal/photos/faces_match.go:145-167 | no row order or tie leaves a choice: two decisions on the same supported people are the same |
| FaceDecisions.FilterRanking | internal/photos/faces_reconcile.go:295-348 | filtering one ranking of everybody by scope and exclusions is the ranking of that scope |
| FaceDecisions.ScopeSuggestions | internal/photos/faces_reconcile.go:295-348 | the suggestions of one scope are the exact best three above the similarity, cut to a clear winner when a margin is asked for, sorted |
| FaceDecisions.FaceReconciliationSuggestions | internal/photos/faces_reconcile.go:295-348 | suggestions come from the named people, and from unconfirmed groups exactly when no named person is suggested |
| FaceDecisions.SuggestsOnce | internal/photos/faces_reconcile.go:295-348 | the suggestions of a scope are determined by what the references support |
| FaceDecisions.SuggestsMembers | internal/photos/faces_reconcile.go:295-348 | suggested people are similar enough; without a margin nobody better is left out, with one it is only somebody ahead of everybody by it |
| FaceTopTwo.FrontIsExact | internal/photos/faces_reconcile_groups.go:56-80 | whoever leads the merged list has there the maximum score over all references of the group |
| FaceTopTwo.TopTwoOfGroup | internal/photos/faces_reconcile_groups.go:56-80 | merging only the top two of each reference gives the exact best two people of the whole group, ties included |
| FaceDecisions.MergeShortList | internal/photos/faces_reconcile_groups.go:66-71 | the loop keeps for each person the best entry of all short lists merged so far |
| FaceDecisions.GroupCandidates | internal/photos/faces_reconcile_groups.go:56-77 | the loops over the references end in a sorted list whose first two are the exact best two of the group |
| FaceDecisions.ReconcileFaceGroup | internal/photos/faces_reconcile_groups.go:15-90 | the target is the winner among confirmed named people, else among unconfirmed groups, and nobody when there is none; it is not excluded and has a live supporting reference; an ineligible group moves nowhere |
| GroupReconciliation.ReconcileGroup | internal/photos/faces_reconcile_groups.go:15-90 | only the smallest active face of a group decides; with the exclusions read from the tables the decision for the winner is an allowed merge, and the tables end as that merge |
| GroupReconciliation.TargetIsAllowed | internal/photos/faces_reconcile_groups.go:25-50 | a target that the exclusions do not name makes an allowed run of one merge |
| GroupMerges.GroupTables.ExcludedPeople | internal/photos/faces_reconcile_groups.go:25-50 | the union of the query excludes exactly the people vetoed by a common visible photo, a barred folder on either side or a rejection |
| GroupMerges.MergeKeepsRejection | internal/photos/faces_reconcile_groups.go:170-180 | an allowed merge never joins two people that were rejected as one, and their heirs stay rejected |
| GroupMerges.VetoCoversConflicts | internal/photos/faces_reconcile_groups.go:154-199 | a merge that is not vetoed meets no folder conflict and no rejected pair when its statements run |
| GroupMerges.RunRespectsDecisions | internal/photos/faces_reconcile_groups.go:25-50 | over every run of automatic merges rejected people stay apart, no visible photo shows a person twice, and no face ends in a folder barred to its person |
| GroupMerges.RunKeepsFaces | internal/photos/faces_reconcile_groups.go:154-199 | a run of merges only changes the person of faces, to the heir, and each merge leaves one person less |
| GroupMerges.MergeKeepsOnceAnywhereExactly | internal/photos/faces_reconcile_groups.go:28-34 | hidden photos stay free of doubled people if and only if none of them shows both people of a merge |
| GroupMerges.MergeKeepsReturnExactly | internal/photos/person_folder.go:38-43 | a hidden face can be shown again after a merge if and only if its folder is not barred to the other person |
| GroupMerges.MergeOverHiddenPhoto | internal/photos/faces_reconcile_groups.go:28-34 | two people with active faces and a concrete allowed merge, after which a hidden photo shows one person twice and another cannot be shown again |
| GroupMerges.GroupTables.MergeAutomaticFaceGroup | internal/photos/faces_reconcile_groups.go:154-199 | the statements and deletion triggers amount to the merge; a conflict of families or folders, or a rejected pair, leaves everything as it was |
| ImageGroupInvariant.ExactlyOneVisible | internal/photos/image_groups_schema.go:45-54 | where flags are right, a group with any live member shows exactly one: the effective primary |
| ImageGroupInvariant.RefreshRepairs | internal/photos/image_groups_schema.go:51-54 | the refresh statement makes every flag of its group right and touches no other group |
| ImageGroupInvariant.SetPrimaryKeeps | internal/photos/image_groups_schema.go:26 | choosing another member as primary keeps the invariant |
| ImageGroupInvariant.VanishKeeps | internal/photos/image_groups_schema.go:34 | deleting the index row of an original re-elects the shown member |
| ImageGroupInvariant.RestoreKeepsExactly | internal/photos/identity_retention.go:86-135 | restoring an original keeps the invariant if and only if it is still grouped or its stored flag was clear |
| ImageGroupInvariant.NewOriginalKeeps | internal/photos/image_groups_schema.go:33 | an original that is indexed for the first time disturbs no group |
| ImageGroupMembers.InsertEffect | internal/photos/image_groups_schema.go:27 | inserting members changes membership of the new ids and the flag of nobody else |
| ImageGroupMembers.JoiningKeepsFlagsExactly | internal/photos/image_groups_schema.go:27 | adding keeps all flags right if and only if the chosen primary is present or no added id is below the stand-in |
| ImageGroupMembers.DeleteEffect | internal/photos/image_groups_schema.go:28-32 | without recursive triggers: a deleted member is shown, a group of more than two is refreshed, and a pair dissolves with the survivor's flag untouched |
| ImageGroupMembers.DeleteKeeps | internal/photos/image_groups_schema.go:28-32 | the invariant survives a deletion because the survivor of a pair is already shown |
| ImageGroupLeaving.RemovalKeepsExactly | internal/photos/image_groups.go:379-390 | removing a member keeps the invariant if and only if it is not a chosen primary that stays behind as one |
| ImageGroupLeaving.DanglingPrimaryHidesAll | internal/photos/image_groups_schema.go:47-54 | a present chosen primary outside its group makes the next refresh hide every live member |
| ImageGroupLeaving.DissolveKeeps | internal/photos/image_groups.go:391-393 | dissolving shows every former member, in whatever order the rows go |
| ImageGroupLeaving.PurgeKeeps | internal/photos/image_groups_schema.go:25 | purging a missing original keeps the invariant, also when it was the chosen primary |
| ImageGroupMoves.MoveKeeps | internal/photos/image_groups_schema.go:35 | a folder move keeps the invariant and every flag, in whatever order the entities follow their rows |
| ImageGroups.CreateKeeps | internal/photos/image_groups.go:32-82 | a created group of 2 to 500 ungrouped originals shows its primary only |
| ImageGroups.AddKeeps | internal/photos/image_groups.go:86-127 | an accepted addition keeps the invariant if and only if the stand-in is kept |
| ImageGroups.ActionKeeps | internal/photos/image_groups.go:337-402 | an accepted primary, removal or dissolution keeps the invariant if and only if the removed original may leave |
| ImageGroups.EventKeepsExactly | internal/photos/image_groups.go:32-402 | every possible event keeps the invariant exactly when it is rejected or meets its precondition |
| ImageGroups.CarefulRunsKeepGroups | internal/photos/image_groups_schema.go:19-54 | at every moment of every run of such events flags are right, groups have 2 to 500 members, no original is in two groups and each group with live members shows exactly one |
| ImageGroups.SecondEditorConflicts | internal/photos/image_groups.go:211-224 | of two requests with the same revision the second is rejected and changes nothing |
| ImageGroupEffects.ActionEffect | internal/photos/image_groups.go:337-402 | what choosing a primary, removing a member and dissolving do to groups, memberships and flags, row by row |
| ImageGroupEffects.CreatingEffect | internal/photos/image_groups.go:32-82 | the new group has exactly the given members and shows its primary alone; nothing else changes |
| ImageGroupEffects.AddingEffect | internal/photos/image_groups.go:86-127 | the given originals become members, old flags stay, and while the stand-in is kept a new member is shown only where nobody was present |
| ImageGroupStore.GroupStore.CreateImageGroup | internal/photos/image_groups.go:32-82 | done exactly for 2 to 500 distinct ungrouped present originals with the primary among them, and then they are a new group that shows the primary alone; otherwise the database is unchanged |
| ImageGroupStore.GroupStore.AddImageGroupMembers | internal/photos/image_groups.go:86-127 | done exactly when the revision is current and the size fits, and then the originals are members and the flags of the old members are as before; a stale revision conflicts and changes nothing |
| ImageGroupStore.GroupStore.ApplyImageGroupAction | internal/photos/image_groups.go:337-402 | a chosen primary is stored and shown alone; a removed member is in no group, and if it was shown the smallest other present member follows; a dissolved group is gone and its members are shown; other groups are untouched, and anything else is rolled back |
| ImageGroupExamples.AddingBelowStandInShowsTwo | internal/photos/image_groups_schema.go:27 | a concrete group that shows two members after adding a smaller id while its primary is missing |
| ImageGroupExamples.RemovingMissingPrimary | internal/photos/image_groups.go:379-390 | a concrete group from which a missing chosen primary is removed and stays its primary |
| ImageGroupExamples.RemovedPrimaryReturns | internal/photos/image_groups_schema.go:47-54 | ... and which later hides its only live member |
| ImageGroupExamples.ReturningAfterDissolveStaysHidden | internal/photos/identity_retention.go:86-135 | a concrete original that returns hidden although it is in no group any more |
| PathText.PrefixRangeIsExact | internal/photos/index_query_plan.go:246-253 | the interval holds exactly the strings with the prefix if and only if the last rune has a valid successor |
| PathText.SurrogatesLeak | internal/photos/index_query_plan.go:246-253 | with U+D7FF as last rune the interval holds strings without the prefix |
| PathText.LastRuneExcluded | internal/photos/index_query_plan.go:246-253 | with the largest rune as last rune the interval misses strings with the prefix |
| PathText.ParentBaseSplit | internal/photos/identity_relocation.go:286-291 | a path is its parent and its base name again |
| FolderRename.MatchesIsUnder | internal/photos/identity_relocation.go:270-291 | the condition `path=? OR (path>=? AND path<?)` selects exactly the folder and what is below it |
| FolderRename.MovedFacts | internal/photos/identity_relocation.go:270-273 | the rewrite lands in the target, is one-to-one and is undone by the opposite rewrite |
| FolderRename.RenameMovesOneSubtree | internal/photos/identity_relocation.go:270-295 | exactly one subtree moves; parent and name columns stay those of the path for every row, the moved root included, rows outside are untouched and none is lost |
| FolderRename.RenameBackUndoes | internal/photos/identity_relocation.go:270-295 | moving back from a target that was empty restores the table |
| PathComponents.UnderIsPrefix | internal/photos/identity_relocation.go:41-50 | lying below a folder in text is being its extension in components |
| PathComponents.ParentOfJoin | internal/photos/identity_relocation.go:99-116 | the parent of a joined path is the join without the last component |
| RelocationTexts.AncestorsArePrefixes | internal/photos/identity_relocation.go:99-116 | going from parent to parent in text visits exactly the proper beginnings of the path in components |
| RelocationTexts.MismatchInText | internal/photos/identity_relocation.go:99-116 | two moves contradict each other in text exactly when they do in components |
| RelocationRecognition.StripCommonSuffix | internal/photos/identity_relocation.go:41-48 | the loop takes off exactly the longest common ending |
| RelocationRecognition.StrippedIsUnique | internal/photos/identity_relocation.go:41-48 | the stripped pair is determined by the two paths |
| RelocationRecognition.CollectCandidates | internal/photos/identity_relocation.go:34-57 | each candidate collects up to two distinct fingerprints of the anchors that vote for it |
| RelocationRecognition.MarkContradictions | internal/photos/identity_relocation.go:91-116 | walking the ancestors through an index marks exactly the candidates a scan of all pairs would mark |
| RelocationTexts.MarkTextContradictions | internal/photos/identity_relocation.go:91-116 | the walk over the ancestors of path texts marks exactly the moves that the texts of some pair contradict |
| RelocationRecognition.NestedIsMismatch | internal/photos/identity_relocation.go:99-116 | because stripping leaves different last components, nesting on either side is always a contradiction |
| RelocationRecognition.ContradictoryIsNested | internal/photos/identity_relocation.go:91-116 | a candidate is marked exactly when it is nested with another |
| RelocationSelection.CountOne | internal/photos/identity_relocation.go:88-120 | a side counted once belongs to one candidate only |
| RelocationSelection.IsClear | internal/photos/identity_relocation.go:117-131 | the tests on counts, marks and already moved ancestors amount to overlapping no other eligible candidate |
| RelocationSelection.EligibleIsEvident | internal/photos/identity_relocation.go:58-90 | counting hashes and files below the folders is having two different contents at the same places, or one file on each side |
| RelocationSelection.RecognizeRelocations | internal/photos/identity_relocation.go:19-145 | exactly the evident moves that neither contain nor equal another evident move on either side are carried out, apart from refused ones: vanished and new folders with two different contents at the same places, or a single file on each side |
| FamilySearch.SearchComplete | internal/photos/family_tree.go:324-366 | when the queue is empty exactly the people reachable through visible people have been found |
| FamilySearch.Search | internal/photos/family_tree.go:324-366 | the bounded search is refused exactly when its limits are exceeded and otherwise finds everybody reachable and all their relations; batch order is irrelevant |
| FamilySearch.LookUp | internal/photos/family_tree.go:182-305 | one batch is refused exactly when its relations, counted once per end that was asked for, exceed the query limit of 100000 rows, and otherwise queues every unseen end once |
| FamilySearch.RowsCountEnds | internal/photos/family_tree.go:182-305 | a relation counts once, and twice if both of its ends are asked for |
| FamilyGraph.ClosedIsReached | internal/photos/family_tree.go:310-362 | a closed set of reached visible people is the set of all of them: hidden people never bridge |
| UnionFind.Find | internal/photos/family_tree.go:372-378 | path halving ends because parents never grow, returns the representative and changes nobody's |
| UnionFind.JoinRoots | internal/photos/family_tree.go:386-389 | hanging the larger root below the smaller joins exactly the two classes |
| UnionFind.BuildForest | internal/photos/family_tree.go:367-390 | the forest represents exactly the links between people of the search, whatever the order of the edges |
| FamilyTrees.ClassIsComponent | internal/photos/family_tree.go:367-390 | a class of the forest is a component of the visible graph |
| FamilyTrees.PlaceRoots | internal/photos/family_tree.go:391-404 | one tree per family with a visible selected person, named by its smallest |
| FamilyTrees.PlacePeople | internal/photos/family_tree.go:405-409 | every person joins the tree of the family, in any map order |
| FamilyTrees.PlaceRelations | internal/photos/family_tree.go:410-420 | every relation with both ends reached joins its tree once |
| FamilyTrees.Trees | internal/photos/family_tree.go:310-435 | the page is exactly the components of the visible graph that hold a visible selected person, each with its people and inner relations in order; refused exactly when the search is |
| FamilyTrees.PageIsUnique | internal/photos/family_tree.go:421-463 | there is only one such page, so no iteration order shows |
| FamilyTrees.TreeIsListed | internal/photos/family_tree.go:421-463 | a tree lists the selected people of its component in their order, its people by id and its relations by ends, kind and id |
| FamilyTrees.EachPersonOnce | internal/photos/family_tree.go:310-435 | a person is in some tree exactly when reachable from a selected one, and never in two |
| IdentityInvariant.SetAdminKeeps | internal/photos/identity_privacy_schema.go:18-30 | hiding and showing a photo moves its faces between the tables and loses none |
| IdentityInvariant.RestoreKeeps | internal/photos/identity_retention.go:86-135 | restoring returns the faces to the table the photo's visibility asks for |
| IdentityInvariant.PurgeKeeps | internal/photos/identity_retention.go:196-215 | purging a missing photo loses exactly its own faces |
| IdentityInvariant.MergeKeeps | internal/photos/identity_merge.go:10-26 | merging people gives the faces of the one to the other, live and retained alike, and nothing else changes |
| IdentityVanishing.RetainAllIs | internal/photos/identity_retention.go:44-84 | retaining in batches is retaining the whole selection at once |
| IdentityVanishing.VanishKeeps | internal/photos/identity_retention.go:44-84 | copying and deleting in one transaction keeps every face, each in exactly one table |
| IdentityRelocation.RemoveAllKeeps | internal/photos/identity_relocation.go:355-375 | removing the duplicates loses exactly their faces |
| IdentityRelocation.MoveKeeps | internal/photos/identity_relocation.go:270-295 | rewriting the paths keeps every face under the path of its photo |
| IdentityRelocation.DropIsVanish | internal/photos/identity_relocation.go:302-310 | retaining what was not found and deleting the missing is a vanishing of exactly those photos |
| IdentityRelocation.RelocateKeeps | internal/photos/identity_relocation.go:210-353 | a relocation keeps every face except those of the duplicates, under its new path and in the table its photo now asks for |
| IdentityRelocation.LosesOnlyUnedited | internal/photos/identity_relocation.go:235-244 | a relocation loses no edited face if and only if no private duplicate at the target has one |
| IdentityRelocation.RelocationProtects | internal/photos/identity_relocation.go:235-244 | after a relocation every photo edited by hand is still there, and every live face that was edited, marked, or named after somebody the source does not show |
| IdentityExamples.ArchivedWorkIsLost | internal/photos/identity_relocation.go:235-244 | a concrete accepted relocation that loses a face edited by hand |
| IdentityRuns.StepKeeps | internal/photos/identity_retention.go:44-135 | every accepted event keeps the invariant and acts on the faces as if nothing had ever been hidden |
| IdentityRuns.RunKeeps | internal/photos/identity_retention.go:44-135 | over every run each face is in exactly one table, live exactly when its photo is present and public, and the faces are those of the run without the hiding |
| IdentityRuns.HidingMakesNoDifference | internal/photos/identity_privacy_schema.go:18-30 | two runs that differ only in what was hidden or missing in between end with the same faces, people and marks |
| IdentityRuns.OnlyRemovalLoses | internal/photos/identity_retention.go:196-215 | a face disappears exactly when its photo is purged or removed as a duplicate at a target |
| IdentityPrivacy.RunKeepsAlbum | internal/photos/identity_privacy_schema.go:18-30 | over every run each photo has exactly the path, presence and visibility that the events gave it, in whichever table its row lies meanwhile |
| IdentityPrivacy.PrivateStaysPrivate | internal/photos/identity_retention.go:44-135 | a private photo that vanishes and returns is still private, and none of its faces is live |
| IdentityStore.Identities.RetainSelection | internal/photos/identity_retention.go:44-84 | the batched loop retains every selected photo once, by ascending id |
| IdentityStore.Identities.DeleteIndexBatch | internal/photos/index_store_rebuild.go:458-478 | copy and deletion amount to one vanishing |
| IdentityStore.Identities.RestorePresent | internal/photos/identity_retention.go:149-190 | every missing photo the scan has found again is present again; no other photo changes its state |
| IdentityStore.Identities.RemoveCopies | internal/photos/identity_relocation.go:252-267 | each source photo's duplicate at the target is removed once; one without a live row refuses the whole relocation |
| IdentityStore.Identities.RelocateFolder | internal/photos/identity_relocation.go:210-353 | carried out exactly for unrelated folders without conflict: no photo edited by hand, no live face edited or marked, and none named by hand after somebody the source does not show is lost, and only such work refuses; a refused relocation leaves the database as it was |
| ReconcileQueue.CommitKeepsPass | internal/photos/faces_reconcile.go:274-285 | committing any prefix of a batch keeps the invariant of the running pass |
| ReconcileQueue.PassEndsExactly | internal/photos/faces_reconcile.go:255-290 | a pass ends exactly with a batch that came up short and was processed as a whole, or with the last id; otherwise the cursor is at the last processed one |
| ReconcileQueue.PassVisitsAll | internal/photos/faces_reconcile.go:47-290 | a pass visits in ascending order, nobody twice, every id that stays a candidate, under any batch sizes, time cuts, failures and edits |
| ReconcileQueue.ReturningIsVisitedExactly | internal/photos/faces_reconcile.go:47-290 | an id that is a candidate from a moment without an open batch to the end of the pass is visited if and only if it was visited already or lies after the cursor and not above the bound |
| ReconcileQueue.ReturningDuringBatchExactly | internal/photos/faces_reconcile.go:47-290 | the same with a batch open: what counts is what the batch visits and the cursor it leaves |
| ReconcileQueue.BatchIsClosed | internal/photos/faces_reconcile.go:47-290 | within a pass every open batch is committed or abandoned by some step, so one of the two conditions always applies |
| ReconcileQueue.ReturningBehindCursorIsMissed | internal/photos/faces_reconcile.go:47-290 | a concrete pass that ends without visiting a face that returned behind its cursor, with another pass due |
| ReconcileQueue.AskingCausesAnotherPass | internal/photos/faces_reconcile_schema.go:10-73 | whatever is asked for during a pass keeps the queue pending until another pass begins |
| ReconcileQueue.EditAsksExactly | internal/photos/faces_reconcile_schema.go:10-73 | an edit asks for a pass exactly when it changes a mark, or moves a face that is or was assigned by hand |
| ReconcileQueue.RestIsComplete | internal/photos/faces_reconcile.go:274-285 | at rest every candidate has been visited by the last pass, except faces inserted while it ran |
| ReconcileWorker.Worker.ReconcileFacesBatch | internal/photos/faces_reconcile.go:47-290 | one call is a begin if none is running and a commit of a nonempty prefix of a batch of 1 to 100 rows |
| ReconcileWorker.Worker.RunToRest | internal/photos/faces_reconcile.go:47-290 | without outside edits the worker reaches rest: people, outstanding passes and the distance to the bound decrease lexicographically |
| SharedScans.ResultsAreFresh | internal/photos/faces_visibility.go:49-81 | in every interleaving a returned result is that of a finished scan begun no earlier than the call, or the caller's own cancellation |
| SharedScans.OneScanPerKey | internal/photos/faces_visibility.go:49-81 | at most one scan per key is running |
| SharedScans.AtMostTwoWaits | internal/photos/faces_visibility.go:49-81 | in every interleaving a caller begins to wait at most twice, not counting recent scans that it found cancelled |
| SharedScans.ClockRuns | internal/photos/faces_visibility.go:49-81 | the clock by which scans and calls are compared moves on with every tick |
| SharedScans.NobodyIsStuck | internal/photos/faces_visibility.go:49-81 | a waiter can always wake or the owner of its scan can finish |
| DirectoryVisibility.WithheldByAncestor | internal/photos/faces_visibility.go:182-216 | a directory is withheld exactly when it or one above it is hidden or unreadable |
| DirectoryVisibility.HiddenByAncestor | internal/photos/faces_visibility.go:182-216 | a directory is reported hidden only if it or one above it is |
| DirectoryVisibility.Visibility.CheckDir | internal/photos/faces_visibility.go:182-216 | the remembered check gives the result of the check without memory: withheld exactly if the directory or one above it is hidden, unreadable or not canonical |
| ImageCache.KeptIsLongest | internal/photos/faces_image_cache.go:92-99 | eviction keeps the longest run of recently used images that leaves enough room |
| ImageCache.Cache.Look | internal/photos/faces_image_cache.go:57-85 | a hit moves to the front and leaves the order of the others, a running decode is shared, otherwise the caller decodes |
| ImageCache.Cache.MakeRoom | internal/photos/faces_image_cache.go:93-99 | the eviction loop ends with room for the new image within both limits |
| ImageCache.Cache.Complete | internal/photos/faces_image_cache.go:87-109 | a decoded image is kept unless it failed, is too large or the cache was closed; sizes stay exact |
| ImageCache.Cache.Close | internal/photos/faces_image_cache.go:114-121 | closing drops every image and leaves running decodes to their callers |
| ImageCacheRuns.Interleave | internal/photos/faces_image_cache.go:52-121 | in every interleaving of lookups, decodes, waits and closing the cache stays valid |
| ImageCacheRuns.OneDecodePerKey | internal/photos/faces_image_cache.go:52-112 | at most one decode per key is running and every waiter has a finished or running decode |
| ThumbnailJournal.AlwaysSound | internal/photos/faces_cache.go:49-168 | at every point of every run, so at every crash: each file the cache wrote has an inventory row, files of gone faces have expired, and no deadline to come is later than two days after the later of writing and ignoring |
| ThumbnailJournal.StepKeepsLimitedExactly | internal/photos/identity_schema.go:113-128 | a step leaves every preview of an ignored face with a deadline if and only if it neither ends a review nor shows a private photo of such a face |
| ThumbnailJournal.ServedIsYoung | internal/photos/faces_cache.go:49-67 | over every careful run, what is shown of an ignored face is less than two days old, and nothing is shown of a face that is gone |
| ThumbnailJournal.DeadlineStaysWithBytes | internal/photos/faces_cache.go:69-86 | lookups, re-registration, publishing and purging never move the deadline of bytes that are there |
| ThumbnailJournal.ExpiredCanBePurged | internal/photos/faces_cache_cleanup.go:95-136 | an expired preview is never pinned, so a purge can always remove its file and then its row |
| ThumbnailJournal.OnlyExpiredIsPurged | internal/photos/faces_cache_cleanup.go:95-136 | whatever happens between the check and the unlinking, a purge takes away only previews whose deadline has passed and whose face is neither under review nor retained |
| ThumbnailJournal.IgnoredPreviewKeptForGood | internal/photos/identity_schema.go:113-118 | an ignored face that was under review, or whose photo was private, keeps its preview for good |
| ThumbnailStore.ThumbnailCache.Read | internal/photos/faces_cache.go:49-67 | shows bytes exactly when the row has no deadline or it has not passed after reading |
| ThumbnailStore.ThumbnailCache.Register | internal/photos/faces_cache.go:71-86 | registers only a live face; a deadline still to come stays, any other is set anew |
| ThumbnailStore.ThumbnailCache.Publish | internal/photos/faces_cache.go:129-168 | remove, register, retire the old format, write: a run of journal steps whatever fails, and a written preview has its row and no superseded file |
| ThumbnailStore.ThumbnailCache.PurgeExpired | internal/photos/faces_cache_cleanup.go:52-136 | a complete purge has handled exactly the expired unpinned previews; what could not be removed keeps its row and holds up nothing; a purge that ends early leaves out only previews that expire after all it handled |
| ScanInvariant.RunKeepsSound | internal/photos/identity_scan.go:84-271 | through cancelled and failed scans of a changing library each stored fingerprint belongs to its metadata and a stored listing is right or left for good |
| ScanResult.CompleteScanExactly | internal/photos/identity_scan.go:148-269 | a complete scan of a library at rest equals a scan from scratch if and only if the skipped folders are right and no path once read as a folder is a file |
| ScanResult.ScanHasResult | internal/photos/identity_scan.go:148-269 | every stored inventory and library has a result of a complete scan |
| ScanResult.CompleteScanForgetsThePast | internal/photos/identity_scan.go:84-271 | after any such history, where no folder takes on a listing again that it left and no folder becomes a file, one complete scan equals a scan from scratch |
| IdentityScanner.Inventory.PersistFiles | internal/photos/identity_scan.go:302-317 | a block of verified files is stored as a whole or not at all |
| IdentityScanner.Inventory.ReadFolder | internal/photos/identity_scan.go:148-223 | reading a folder stores its listing and drops the rows of its vanished files; stopped halfway it leaves a sound inventory |
| IdentityScanner.Inventory.Walk | internal/photos/identity_scan.go:88-238 | the recursive walk reads every folder below once, parents first; a failing folder makes the scan incomplete |
| IdentityScanner.Inventory.Scan | internal/photos/identity_scan.go:84-271 | a scan that reports completion has stored exactly a row for each file with its metadata and content and one for each folder, as a scan from scratch would |
| ScanExamples.SwappedFolderStaysWrong | internal/photos/identity_scan.go:142-148 | a folder that was swapped, half scanned and swapped back keeps the other folder's fingerprints through every complete scan, of which there is one |
| ScanExamples.FolderBecomesFileIsLost | internal/photos/identity_scan.go:265-269 | removing a stale folder removes the row of the file that took its place |
| LabelRuns.RaisesExactly | internal/photos/index_labeling_actions.go:77-162 | an action raises the revision of its source exactly when it changes it |
| LabelRuns.AskEffect | internal/photos/index_labeling_actions.go:24-198 | a request that is not carried out changes nothing; one that is leaves its receipt, a higher library revision and no lower person revision |
| LabelRuns.ReceiptStays | internal/photos/index_labeling_actions.go:44-55 | a receipt stays as long as its dataset |
| LabelRuns.AtMostOnce | internal/photos/index_labeling_actions.go:24-198 | no actor carries out an operation of a dataset twice, whatever happens in between |
| LabelRuns.ReplayReturnsReceipt | internal/photos/index_labeling_actions.go:44-55 | a repeated request gets the stored receipt and changes nothing; after a reset it is rejected |
| LabelRuns.WithoutReplays | internal/photos/index_labeling_actions.go:24-198 | the final database is that of the run without replayed and rejected requests |
| LabelRuns.StaleRevisionIsRefused | internal/photos/index_labeling_actions.go:66-69 | of all requests that saw the same revision of a person at most one that changes it is carried out |
| LabelEffects.DoneIsPermitted | internal/photos/index_labeling_actions.go:60-162 | an action is carried out exactly when its source, its faces, its target and its name allow it |
| LabelEffects.MutateEffect | internal/photos/index_labeling_actions.go:77-162 | exactly the addressed faces change, each as the action says, and of the people only the named and the new one do, apart from revisions |
| LabelEffects.ApplyEffect | internal/photos/index_labeling_actions.go:24-198 | one request is replayed, refused without a trace, or carried out with its effect, its receipt and one revision more |
| LabelStore.Labels.ApplyLabelAction | internal/photos/index_labeling_actions.go:24-198 | carried out exactly when permitted and not seen before, and then with the effect on people, faces and receipt that the action stands for; anything else leaves the database as it was |
| LabelStore.Labels.CarryBatch | internal/photos/labeling_face_batch.go:50-111 | a batch is checked as a whole before anything is written |
| SqlText.JoinMeans | internal/photos/index_query_plan.go:257-310 | conditions joined by AND, OR or + evaluate to the combination of their values, each with its own arguments |
| SqlText.ThreeValued | internal/photos/index_query_plan.go:257-310 | the logic in which the text is evaluated: true, false and NULL under AND, OR, NOT, sums and comparisons |
| SqlText.CaseMeans | internal/photos/index_query_plan.go:257-310 | CASE WHEN ... THEN 1 ELSE 0 END counts a condition once when it is true, and not when it is false or NULL |
| PersonFilterMeaning.TermMeans | internal/photos/index_query_media.go:467-523 | the SQL of one term, negated or not, takes exactly its own arguments and has the value of the term |
| PersonFilterMeaning.ExpressionMeans | internal/photos/index_query_plan.go:257-310 | the compiled text with its positional arguments consumes both completely and is true exactly for the rows the expression selects |
| PersonFilterMeaning.EachTakesOne | internal/photos/index_query_plan.go:257-310 | at every level of the grammar each placeholder takes one argument |
| PersonFilterMeaning.PlaceholdersMatch | internal/photos/index_query_plan.go:257-310 | there are as many placeholders as arguments |
| PersonFilterCompiler.AppendIndexTermWhere | internal/photos/index_query_media.go:467-523 | the appended conditions and arguments of one term |
| PersonFilterCompiler.PersonExpressionSQL | internal/photos/index_query_plan.go:257-310 | the loops produce text and arguments of the specified translation, or fail with it |
| PersonFilterCompiler.TranslatesExactly | internal/photos/index_query_plan.go:257-310 | the translation succeeds exactly when there is a group and every group has something to say, all of it in SQL |
| PdfText.SplitIsExact | internal/documentconvert/plaintext_pdf.go:119-122 | splitting at line breaks loses nothing |
| PdfText.CutsAtLastBlank | internal/documentconvert/plaintext_pdf.go:140-155 | a line is cut at the last blank in the second half of the width, and inside a word only when there is none |
| PdfText.WrappingDropsOnlyBlanks | internal/documentconvert/plaintext_pdf.go:119-155 | wrapping ends, every part fits the width, and the parts with the dropped blanks are the line again |
| PdfText.EscapeReadsBack | internal/documentconvert/plaintext_pdf.go:188-190 | a literal string (section 7.3.4.2 of ISO 32000-1) read back gives the line and ends at its own parenthesis |
| PdfMeaning.OneBreakEach | internal/documentconvert/plaintext_pdf.go:119-121 | each carriage return, alone or before a line feed, is one line break, whatever stands around it |
| PdfMeaning.EachCharacter | internal/documentconvert/plaintext_pdf.go:157-186 | printable ASCII stays, a tab becomes four blanks, German letters are spelled out, everything else becomes a question mark or a blank |
| PdfMeaning.LayoutIsLargest | internal/documentconvert/plaintext_pdf.go:47-51 | the width and the number of lines are the largest that fit the page inside its margins |
| PdfWriter.PagesHoldAllLines | internal/documentconvert/plaintext_pdf.go:52-66 | the pages hold all lines of all sections in order |
| PdfWriter.PagesFit | internal/documentconvert/plaintext_pdf.go:47-66 | every page has one to 52 lines and every line fits the width |
| PdfReader.StartIsFound | internal/documentconvert/plaintext_pdf.go:93-98 | `startxref` gives the offset of the cross-reference table (section 7.5.4 of ISO 32000-1) |
| PdfReader.ObjectIsFound | internal/documentconvert/plaintext_pdf.go:86-98 | a reader that follows the table finds every object at its offset |
| PdfReader.SmallFilesFit | internal/documentconvert/plaintext_pdf.go:94-97 | in files of up to 10^10 characters, which are bytes, every offset fits its ten digits |
| PdfBytes.FileIsOneByte | internal/documentconvert/plaintext_pdf.go:78-155 | every character of the printed file, whatever the sections, is a single byte, and so is its stream, whose length is written |
| PdfBytes.OffsetsAreBytes | internal/documentconvert/plaintext_pdf.go:86-98 | the offset of every object counts the bytes before it |
| PdfRoundTrip.StreamIsRead | internal/documentconvert/plaintext_pdf.go:81-83 | `/Length` is the size of the stream, and its end marker follows |
| PdfSample.SampleFile | internal/documentconvert/plaintext_pdf.go:43-100 | the whole file for one short line, written out byte by byte |
| PdfRoundTrip.ShownAreRead | internal/documentconvert/plaintext_pdf.go:106-117 | the shown strings of a page are its lines in order |
| PdfRoundTrip.DocumentReadsBack | internal/documentconvert/plaintext_pdf.go:43-155 | a reader that follows `startxref`, the table and the references finds exactly the wrapped lines of all sections, page by page |
| PdfMeaning.PrintedIsRead | internal/documentconvert/plaintext_pdf.go:43-186 | of plain sections the reader finds their own lines, some cut where only blanks were dropped |
| PdfPrinting.WrapPlainTextLines | internal/documentconvert/plaintext_pdf.go:119-138 | the lines of the text, cleaned of what the font cannot show and cut only where blanks are dropped; a plain text gives its own lines |
| PdfPrinting.WriteObjects | internal/documentconvert/plaintext_pdf.go:86-92 | the objects are written one after the other and the remembered offsets are where they begin |
| PdfPrinting.PlainTextPDFSections | internal/documentconvert/plaintext_pdf.go:43-100 | a reader that follows the offsets of the printed file finds the wrapped lines of all sections; of plain sections it finds their own lines |

## Left out

- SQLite itself, its indexes, query plans and schema migrations: transactions are atomic and serial, and each
  predicate of a query is taken as its meaning.
- Image decoding, scaling, embeddings as 32-bit floats and NaN scores: a vector is a sequence of reals, so that
  rounding and the comparison of NaN are not modelled.
- Search tables, page counters, thumbnails of originals and revisions of people that the transactions of other areas
  also refresh.
- People's names in the identity model: names taken from a photo's metadata and the table of hidden names move beside
  the faces and are not part of it.
- Videos, folders, blog entries and GPX files as identities: the identity model has photos with their index rows and
  faces, keyed by the photo, so that each table holds at most one row per photo.
- The review mark, embedding and box of a face in the identity model; the review mark is part of the preview
  inventory.
- Privacy checks of the image group requests and the selection of candidates for a new group: a request arrives with
  identities that the caller may see.
- `CommitFaceResult` beyond its effect on the reference graph: matching new detections with old boxes and the checks
  of its job are not modelled.
- Open merge suggestions and the tags, families and details that a merge of groups also joins: only rejections,
  folders and faces are followed; in the queue a merged group counts as one person less.
- The eligibility query of a group: given to the decision as a parameter.
- Labeling actions on merge suggestions, groups, tags and families: the model has naming, assigning, ignoring,
  detaching, favourites and the batch actions on single faces.
- SHA-256 digests: a request's fingerprint, a cache key and a file's hash stand for what was hashed.
- German case folding, LIKE patterns and the normalisation of types and tags: given functions of a search term.
- File times, inodes and symbolic links: a file's metadata is one value that determines its content; a folder's
  listing is its signature.
- The splitting of long argument lists where it only bounds memory; where the end of a batch could change a result,
  the batches are modelled.
- The order of the hashes in which one batch of expired previews is read: any total order of the keys stands for it.
- The background worker's timers and the bounded adoption pass over previews from before the inventory: adopting one
  file is a step that may happen at any time.
- The check of Unicode classes in the PDF writer: which characters are printable is a parameter.
- A PDF reader in general: the one in the model follows `startxref`, the table and the references between the
  catalogue's pages, and reads the strings of the text operators the writer emits.
- Logging, HTTP handlers, mail, document conversion by external programs and configuration: no property above depends
  on them.
- PdfRoundTrip.DocumentReadsBack: for files of up to 10^10 bytes, beyond which an offset does not fit the ten digits
  of its table entry; that characters are bytes here is stated by PdfBytes.FileIsOneByte.
- ReconcileQueue.PassVisitsAll: about ids that stay candidates from the beginning of the pass; those that become
  candidates later are the subject of the two lemmas on returning faces.
- ReconcileQueue.AskingCausesAnotherPass: edits are those of the flags that the queue's row filter reads; other
  changes that could make a group eligible are no events.
- ReconcileWorker.Worker.ReconcileFacesBatch: the decision about each row is left free, because the queue's results do
  not depend on it.
- FaceDecisions.ReconcileFaceGroup: the exclusions and whether the group is eligible are given; GroupReconciliation
  computes the former from the tables.
- GroupReconciliation.ReconcileGroup: whether the group is eligible and whether two families are in conflict are
  given.
- GroupMerges.GroupTables.MergeAutomaticFaceGroup: a conflict of families is given; tags, details and open suggestions
  of the two people are not followed.
- ImageGroupStore.GroupStore.CreateImageGroup: without the check that the caller may see the identities.
- ImageGroupStore.GroupStore.AddImageGroupMembers: without the check that the caller may see the identities.
- ImageGroupStore.GroupStore.ApplyImageGroupAction: without the check that the caller may see the identities.
- IdentityStore.Identities.RelocateFolder: without the check of the source revision and the look at the filesystem,
  which refuse a relocation before it touches the tables.
- LabelStore.Labels.ApplyLabelAction: without the actions that merge people or change groups, tags and families.
