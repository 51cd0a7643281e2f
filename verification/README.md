# Verification of the profile storage engine

A Dafny model of the storage engine that stitches records of travellers into profiles (`source/storage`), with proofs about it.
`dafny verify dfyconfig.toml` checks all of it.

The engine keeps a master table (which connect id a profile id belongs to now, and which it was created with), a search table
with one row of profile fields for each connect id, one interaction table per object type, a history of merges, unmerges and
deletes, a counter spread over 10000 shards, an index that rules are matched against, and rule sets in a key store behind a
cache. Each table is a map, a set or a list, and each SQL statement is modelled by what its text says, NULLs and conflict
clauses included.

## How the model is built

- `MergeHistory`, `LineageQuery`, `UpwardQuery`, `Lineage` and `LineageExact` model the history table: the forest of connect
  ids, the two recursive queries as a database evaluates them, the counting and breadth-first search that decide which ids an
  unmerge takes along, and exactly which rows they can follow. A history is linked if every row respects its callers' duties,
  and well-formed if every row can be traced by the lineage queries besides.
- `ProfileTables` says what a put, a merge, an unmerge and a delete do to all the tables together. `IdentityInvariant`,
  `Confidence`, `ConfidenceRevert`, `ConfidenceRuns`, `UndoMerge`, `ProfileRequests` and `SearchRebuild` prove what runs of them
  keep, and `FailingRuns` gives allowed runs after which one more operation goes wrong. `FieldResolution` and `ProfileCount` are
  the two pieces of arithmetic they rest on.
- `OperationEffects` says what an operation leaves of every table, told by the tables before and after it alone.
- `IdentityStore` has the operations as the engine runs them, statement by statement over mutable tables, with any statement
  failing, and proves that they do what `ProfileTables` says, with the effects named, and that each keeps the invariant, a failed one included as
  long as the compensation of a failed merge goes through.
- `RuleMatching` is what a rule indexes and finds for single records, `NormalizedValues` which values it takes for the same,
  `RuleSymmetry` when that does not depend on which record
  arrives first, `RuleIndexTable` the index as a table.
- `UuidPartition` and `ByteOrder` split the space of version 4 UUIDs (RFC 9562, sections 4, 4.1, 4.2 and 5.4).
- `InteractionMerge`, `LatestInteractions`, `Placeholders`, `Lists`, `RuleSetKeys` and `RuleSetStore` are the list and
  key-store algorithms.

Ids are fresh values, a drawn shard is an argument, times are numbers, and confidence factors are real numbers. A fault
argument names the statement of a transaction that fails; a negative one means that none does.

## Where the code does not do what it says

Each of these is proved, as an exact condition where there is one.

- A merge keeps the tables consistent only if the surviving id is live; the request looks up the other id only
  (`MergeConsistentIffSurvivorLive`, `DeadSurvivorIsReached`).
- Lineage is not right after every merge that follows an unmerge. Merging an id again into the id it was merged into before is
  what the counts are made for, and works (`MergedAgainIsFound`); merged into another id it is lost (`RemergedIdIsLost`). A caller
  can check before the merge or the unmerge whether the lineage of every id stays right (`LineageStaysRightIff`).
- The upward query does not end on a history in which the ids above an id form a cycle (`UpwardQueryEndsIff`), as they do after a
  merge, its unmerge and a merge the other way round (`UpwardQueryDiverges`).
- An unmerge misses ids that hang more than 1001 merges below, one more than the depth bound, unless a repeated merge gives a
  shorter way down, and then leaves rows behind (`UnmergeConsistentIff`, `ChainFitsIff`, `DeepChainIff`).
- An unmerge divides out factors that an interaction recorded later never received (`TopDownScoreIff`, `LatePutLosesScore`),
  and after unmerges that did not go from the top down it divides out a wrong factor (`AllStayRightIff`, `BottomUpLosesScore`).
- The priority list is read from opposite ends by the two ways to compute a profile field; they agree exactly when no two
  different types are listed (`PrioritiesAgreeIff`, `TwoListedTypesDisagree`).
- A put that was filed under a match before its profile was inserted is counted as a new profile (`PreMatchPutOvercounts`).
- A put that fails deletes the search row of a profile that goes on living: the one it was filed under if its profile id was new,
  and its own if the object was new and was already written (`FailedPutAgreesIff`).
- A merge that gets no connection after the master update, or whose compensation fails, leaves the moved rows moved
  (`MergeProfileTables`, `FailedMergeConsistentIff`).
- A delete that fails in an interaction table reports success (`DeleteProfile`).
- The check whether two profiles were merged before is always refused (`HaveBeenMergedAndNotUnmerged`).
- Joining index segments with an underscore confuses records when two compared fields may keep one (`SameFieldRuleExactIff`).
  A rule between two object types that names a field twice on one side finds records that differ, or misses records that agree
  (`TwoTypeRuleExactIff`, `UnevenRuleFindsDiffering`). A rule whose fields one record may hold depends on the order of
  arrival unless, whatever fields two records hold, each field is compared with the same one either way round (`SymmetricIff`). One
  pair named both ways round does not depend on it (`SwappedPairIsSymmetric`); two such pairs do, where fields are blank
  (`BlankFieldsBreakSymmetry`), and so does a field compared with itself and with another (`RepeatedFieldIsAsymmetric`).
- Reindexing after a merge fails when there are profile-level rules but none applies to the combined profile, since its INSERT
  then has no rows (`ReindexProfileAfterMerge`).
- The comment on merging interactions promises sorted output; the caller's lists are sorted the other way round
  (`DescendingListsAscendIff`).
- A failure to empty the rule index leaves a replaced rule set in the cache (`ActivateIdResRuleSet`).

## Model

| member | source | states |
|---|---|---|
| MergeHistory.PathIsTheOnlyClimb | source/storage/customerprofiles_lowcost_datahandler.go:1294-1302 | in any history that respects its callers' duties, merges after unmerges included, the path by which connect ids are followed is the one and only climb along merges that were not undone, so its end is the id an original id now belongs to |
| MergeHistory.MergesAlternate | source/storage/customerprofiles_lowcost_datahandler.go:2609-2618 | merges and unmerges of an id alternate: it was merged as often as it was unmerged, and once more exactly while it belongs to another id |
| LineageQuery.RetrievedCount | source/storage/customerprofiles_lowcost_datahandler.go:2620-2642 | for every history: the downward recursive query returns a row as often as its parent id is led to within the depth, and once more if that is the given id itself, except that unmerge rows directly under the id are left out |
| LineageQuery.LevelFeedsClimbs | source/storage/customerprofiles_lowcost_datahandler.go:2620-2642 | for every history: after k joins an id is led to as often as there are ways to climb from it to the given id over k + 1 rows that are not unmerges |
| LineageQuery.ChainIsFed | source/storage/customerprofiles_lowcost_datahandler.go:2620-2642 | for every history: a chain of merges is followed down to its lowest id, and at least twice if one of its merges was made twice |
| UpwardQuery.UpwardQueryEndsIff | source/storage/customerprofiles_lowcost_datahandler.go:3451-3473 | for every history: the upward recursive query, which has no depth bound, ends exactly if neither the id nor any id reached from it is reached again from itself, and then within as many joins as there are rows |
| UpwardQuery.QueryMergesLeadingToParent | source/storage/customerprofiles_lowcost_datahandler.go:3451-3473 | wherever it ends, its evaluation with a working table returns the rows level by level |
| UpwardQuery.WellFormedEnds | source/storage/customerprofiles_lowcost_datahandler.go:3451-3473 | it ends on every history that the lineage queries can follow |
| UpwardQuery.MergesLeadingToParentIsThePath | source/storage/customerprofiles_lowcost_datahandler.go:3451-3473 | where nothing was undone on the way up it returns the single path to the root, one merge for each step, each recorded later than the one below it, whatever was unmerged elsewhere |
| UpwardQuery.UpwardQueryDiverges | source/storage/customerprofiles_lowcost_datahandler.go:3454-3463 | after a merge, its unmerge and a merge the other way round the query does not end |
| Lineage.BuildDescendantsFromMap | source/storage/customerprofiles_lowcost_datahandler.go:2922-2950 | for any edge counts, cyclic ones included, the breadth-first search ends and returns each id reachable over positive counts exactly once, and no other |
| Lineage.EnqueueChildren | source/storage/customerprofiles_lowcost_datahandler.go:2932-2940 | the queue keeps its front, gains only children with a positive count, and then holds every such child that was not visited |
| Lineage.CountMerges | source/storage/customerprofiles_lowcost_datahandler.go:3006-3016 | the two nested maps count every row, one under its parent and one under its child, and hold the same counts |
| Lineage.SubtractUnmerges | source/storage/customerprofiles_lowcost_datahandler.go:3025-3035 | each unmerge row takes one off every counted edge into the unmerged id, and creates no edge |
| Lineage.BuildLineage | source/storage/customerprofiles_lowcost_datahandler.go:2977-3038 | queries, counting and search together return exactly the ids reachable over edges whose count stays positive, each once |
| Lineage.NetFormula | source/storage/customerprofiles_lowcost_datahandler.go:2992-3035 | for every history: what the counting leaves of an edge is the number of its rows returned, less one for each unmerge of the child |
| Lineage.LineageIsWhatHangsBelow | source/storage/customerprofiles_lowcost_datahandler.go:2977-3040 | the lineage of an id holds only ids that still hang below it by merges not undone, and all of them down to the depth bound, although unmerge rows are counted as edges below the first level; merges after unmerges are allowed as far as they can be traced |
| Lineage.LineageReachesExactly | source/storage/customerprofiles_lowcost_datahandler.go:2977-3040 | and exactly which ones: those no deeper than the bound and one, and those to which an unmerge row that is returned more often than the id was unmerged gives a shorter way |
| LineageExact.LineageStaysRightIff | source/storage/customerprofiles_lowcost_datahandler.go:2977-3040 | one more merge, unmerge or delete leaves the lineage of every id right, the depth bound aside, if and only if it can be traced: a merge goes where the id was merged before, if it was, with no other cut id below it, no id freed directly from it still cut, and not into an id below it; an unmerge has nothing merged twice between the id and its holder, and was made from its direct parent before only if that is the holder |
| ProfileRequests.MergedAgainIsFound | source/storage/customerprofiles_lowcost_datahandler.go:2999-3004 | merge, unmerge and the same merge again: the id is found, as the comment in the code has it |
| ProfileRequests.RemergedIdIsLost | source/storage/customerprofiles_lowcost_datahandler.go:3018-3035 | merged into a, unmerged and merged into another id c: it is missing from the lineage of c, since the old unmerge cancels the new merge |
| IdentityInvariant.RunKeepsInv | source/storage/customerprofiles_lowcost.go:1943-2078 | over every run of puts, puts with a match, merges, unmerges and deletes, merges after unmerges included as far as they can be traced: each master row names the root of its original id, each interaction row carries the connect id of its master row, the search table holds exactly the live ids, and the count shards add up to their number and one for each new profile id that was filed under a match |
| IdentityInvariant.PutKeepsInv | source/storage/customerprofiles_lowcost_datahandler.go:1345-1363 | a put with a fresh id keeps that invariant, whether its profile id is new or known |
| IdentityInvariant.PreMatchPutKeepsGrounded | source/storage/customerprofiles_lowcost.go:1855-1915 | a put that found a match keeps all of it but the count |
| IdentityInvariant.PreMatchPutOvercounts | source/storage/customerprofiles_lowcost.go:2003-2022 | and moves the count one ahead of the live profiles exactly if its profile id is new |
| IdentityInvariant.MergeKeepsInv | source/storage/customerprofiles_lowcost_datahandler.go:1086-1182 | a merge into a live id that can be traced keeps it, and so does a refused merge |
| IdentityInvariant.MergeConsistentIffSurvivorLive | source/storage/customerprofiles_lowcost.go:1203-1217 | over any history that respects its callers' duties a merge leaves the tables consistent exactly when the surviving id is live; the request checks the other id only |
| IdentityInvariant.UnmergeKeepsInv | source/storage/customerprofiles_lowcost_datahandler.go:3076-3193 | an unmerge that names the current holder and can be traced, with chains within the depth bound, keeps it |
| IdentityInvariant.UnmergeConsistentIffLineageFits | source/storage/customerprofiles_lowcost_datahandler.go:3104-3132 | over any history that respects its callers' duties an unmerge of a held id leaves the tables consistent exactly when the id it is taken from is live, the id is not a profile of its own, and its lineage holds the right ones of the held ids |
| IdentityInvariant.UnmergeConsistentIff | source/storage/customerprofiles_lowcost_datahandler.go:3104-3132 | over a history that can be followed the last condition is that no held id hangs deeper below than the bound reaches |
| IdentityInvariant.ChainFitsIff | source/storage/customerprofiles_lowcost_datahandler.go:2620-2642 | where nothing below the id was merged twice that is a bound of depth plus one on the number of merges |
| IdentityInvariant.DeleteKeepsInv | source/storage/customerprofiles_lowcost.go:928-1001 | a delete keeps the invariant whatever id is asked for |
| ProfileCount.BumpMovesTotal | source/storage/customerprofiles_lowcost_counter.go:97-115 | whichever shard is drawn, the total over all shards moves by the amount |
| ConfidenceRuns.RunKeepsScores | source/storage/customerprofiles_lowcost_datahandler.go:1304-1316 | over every run of all operations, unmerges in any number included, each score is the product of the factors merged onto the interaction and not divided out, as long as no unmerge takes back an interaction that was filed after the merge and unmerges on one way up go from the top down |
| Confidence.StepsAfterUnmerge | source/storage/customerprofiles_lowcost_datahandler.go:3046-3067 | an unmerge splits the product along a path into the part below the id, which is left, and the part above, which must be divided out |
| Confidence.UnmergedScoreIff | source/storage/customerprofiles_lowcost_datahandler.go:3360-3380 | in any state, an unmerge of an id whose lineage is right leaves a score that the history explains exactly if the interaction is not below the id or the revert factor is the product above it since the interaction was recorded |
| Confidence.RecordedBeforeMerge | source/storage/customerprofiles_lowcost_datahandler.go:3046-3067 | for an interaction recorded before the id was merged away that product is the whole product above the id |
| ConfidenceRevert.RevertIsThrough | source/storage/customerprofiles_lowcost_datahandler.go:3046-3067 | for every history on which the upward query ends the revert factor is the product over the rows of the id, each with the revert factor of the id it leads to |
| ConfidenceRuns.TopDownScoreIff | source/storage/customerprofiles_lowcost_datahandler.go:3360-3380 | and after unmerges from the top down exactly if the interaction is not below the id, or the factors above the id that were recorded before the interaction multiply to one |
| ConfidenceRevert.TopDownIsRight | source/storage/customerprofiles_lowcost_datahandler.go:3046-3067 | in every history that can be followed the revert factor of an id is the product of the merges on its live path, if above it nothing was merged or unmerged once something on the way was unmerged |
| ConfidenceRevert.AllStayRightIff | source/storage/customerprofiles_lowcost_datahandler.go:3046-3067 | with positive factors one more row keeps the revert factors of all ids right if and only if its own factor is one or no other id that was ever unmerged has the moved id above it |
| UndoMerge.MergeThenUnmergeRestoresIff | source/storage/customerprofiles_lowcost_datahandler.go:3076-3133 | merging b into a and at once unmerging b from a keeps the invariant and restores every master connect id, and every interaction row with its score exactly if nothing of older unmerges is left to divide out or there was no score to restore |
| UndoMerge.NothingLeftTopDown | source/storage/customerprofiles_lowcost_datahandler.go:3046-3067 | nothing is left where unmerges went from the top down |
| UndoMerge.UndoIsAllowedIff | source/storage/customerprofiles_lowcost_datahandler.go:3076-3133 | an unmerge right after its merge is allowed exactly when no chain below the merged id is too deep to be found |
| FailingRuns.DeadSurvivorIsReached | source/storage/customerprofiles_lowcost.go:1203-1217 | a run of three puts and a merge ends in a state where a merge into the merged-away id goes through and loses a profile |
| FailingRuns.DeepChainIff | source/storage/customerprofiles_lowcost_datahandler.go:2977-2984 | after m merges in a row, each run of them allowed, the last merged id can be taken out without leaving rows behind exactly if m is at most the depth bound plus two |
| FailingRuns.LatePutLosesScore | source/storage/customerprofiles_lowcost_datahandler.go:3360-3380 | two puts, a merge and a later object of the merged profile: the unmerge is allowed and leaves that object's score right only if the factor was one |
| FailingRuns.BottomUpLosesScore | source/storage/customerprofiles_lowcost_datahandler.go:3046-3067 | three merges in a row and two unmerges from the bottom up, all allowed and with every score right: the third unmerge leaves the first profile's score right only if the last factor was one |
| ProfileRequests.ResolvesToOne | source/storage/customerprofiles_lowcost_datahandler.go:2077-2098 | an original id that was not deleted resolves to exactly one search row, that of its root, and any other id to none |
| ProfileRequests.RepeatedMergeChangesNothing | source/storage/customerprofiles_lowcost.go:1203-1217 | repeating a merge request into a still live id changes nothing, whatever puts, merges and deletes came in between |
| ProfileRequests.PathsGrow | source/storage/customerprofiles_lowcost.go:1203-1217 | over any run without an unmerge the live path of an id only grows at its end |
| IdentityStore.Store.MergeProfileTables | source/storage/customerprofiles_lowcost_datahandler.go:1086-1182 | a merge does all it should or leaves every table as it was, whichever statement or the commit fails, apart from the master timestamps; without a connection, and with a failing compensation, exactly the rows that were not moved back stay moved |
| IdentityStore.Store.RollbackMasterTableChanges | source/storage/customerprofiles_lowcost_datahandler.go:1042-1081 | the compensation moves back exactly the rows of the batches of 5000 before the one that fails |
| IdentityStore.FailedMergeConsistentIff | source/storage/customerprofiles_lowcost_datahandler.go:1027-1040 | a failed merge leaves the tables consistent exactly when its compensation reached every row it had moved |
| IdentityStore.Store.MergeProfilesInSearchTable | source/storage/customerprofiles_lowcost_datahandler.go:1184-1251 | merging batches of 100 columns writes the row that one statement over all columns would write |
| IdentityStore.Store.MergeInteractions | source/storage/customerprofiles_lowcost_datahandler.go:1137-1151 | table by table, the interactions of the merged id move to the survivor with their scores multiplied, each once |
| IdentityStore.Store.MergeProfiles | source/storage/customerprofiles_lowcost.go:1171-1240 | a merge request resolves the id to merge, succeeds without a change when it already is the survivor, fails when it resolves to nothing, and otherwise merges the resolved id; when that fails, what stays moved is what the compensation did not reach |
| IdentityStore.Store.UnmergeProfiles | source/storage/customerprofiles_lowcost_datahandler.go:3076-3193 | wherever the upward query ends, an unmerge does all it should or nothing, whichever statement fails, and fails without a fault only for blank or equal ids or an empty lineage |
| IdentityStore.Store.ConfidenceRevertFactor | source/storage/customerprofiles_lowcost_datahandler.go:3046-3067 | the loop over the upward query multiplies merges, divides by unmerges and skips zero factors |
| IdentityStore.Store.DeleteProfile | source/storage/customerprofiles_lowcost.go:928-1001 | a delete removes the profile that holds the id now from every table and leaves all others, or does nothing; one that fails in an interaction table still reports success |
| OperationEffects.DeleteEffect | source/storage/customerprofiles_lowcost.go:934-1001 | from tables that agree, a delete by any original id that is held: the id its merges lead to is gone from the master, search and interaction tables, with it every original id it held, the history gains one row of that id, and everything of other profiles is as it was |
| OperationEffects.PutEffect | source/storage/customerprofiles_lowcost_datahandler.go:953-1000 | a put on any tables: of the object every field put has its new value and every other its old one, a known object keeps owner, score and time and a new one belongs to the holder with score one, each search column put is the better of the old one and the new, and all else is as it was |
| OperationEffects.PreMatchPutEffect | source/storage/customerprofiles_lowcost.go:1855-1915 | the same for a put that found a match, which is filed under the match with one history row of factor one if the profile id is new or the match holds it already |
| OperationEffects.MergeEffect | source/storage/customerprofiles_lowcost_datahandler.go:1086-1182 | from tables that agree, a merge: every row and interaction whose merges lead to the merged id belongs to the survivor, its score multiplied, each search column is the better of the two, and all else is as it was |
| OperationEffects.UnmergeEffect | source/storage/customerprofiles_lowcost_datahandler.go:3076-3193 | an unmerge whose lineage is right: every row and interaction whose original id hangs below the unmerged id belongs to it, its score divided by the factor the history records, and all else is as it was |
| IdentityStore.Store.PutProfileObject | source/storage/customerprofiles_lowcost.go:1843-2078 | a put, with the match found or without one, writes the object, the search row, the master row, the history and the count as it should and nothing else; when a statement fails, what was filed before the transaction stays and the search row is deleted if the profile, or from the object statement on the object, was new |
| IdentityStore.FailedPutAgreesIff | source/storage/customerprofiles_lowcost_datahandler.go:634-650 | a put that fails leaves the tables in agreement exactly if it had not begun, or was filed under a match and had not begun its transaction, or the profile id was known and, once the object was written, the object was known too |
| IdentityStore.FailedPutEffect | source/storage/customerprofiles_lowcost_datahandler.go:634-650 | a put that fails leaves objects, counts and all other rows as they were: only the master row and the history row filed before the transaction stay, and the search row of its profile may be gone |
| IdentityStore.Store.SplitProfileMap | source/storage/customerprofiles_lowcost_datahandler.go:935-951 | every non-empty field goes into exactly one of the two maps, the first of which has at most the given size |
| IdentityStore.Store.UpsertProfileInSearchTable | source/storage/customerprofiles_lowcost_datahandler.go:900-930 | an upsert of 20 fields and an update of the rest write the row that one statement over all fields would write, whatever the split |
| IdentityStore.InsertIsUpdateOfEmpty | source/storage/customerprofiles_lowcost_datahandler.go:1365-1420 | the INSERT branch of the upsert writes what its own UPDATE would write over an empty row |
| IdentityStore.Store.GetCount | source/storage/customerprofiles_lowcost_counter.go:117-140 | the sum of the shards, which is the number of live profiles in a consistent store |
| Lists.Chunk | source/tah-core/core/utils.go:41-51 | full pieces followed by at most one shorter, never empty, piece, which together are the list |
| FieldResolution.ResolveIsMax | source/storage/customerprofiles_lowcost_datahandler.go:2799-2833 | under three-valued logic the per-field update is a maximum on rank and timestamp that prefers the incoming value on ties, with NULL below everything |
| FieldResolution.TruthsAreOrdered | source/storage/customerprofiles_lowcost_datahandler.go:2799-2833 | AND is the lesser and OR the greater of two SQL truths, from false over unknown to true |
| FieldResolution.KeptValue | source/storage/customerprofiles_lowcost_datahandler.go:2754-2833 | told by the priority list and the times alone: of two written values a column keeps that of a listed type over one that is not listed, of two listed types that of the one further back, and else the later one, the second on a tie |
| FieldResolution.ResolveAssociates | source/storage/customerprofiles_lowcost_datahandler.go:1562-1608 | merge grouping never matters |
| FieldResolution.ResolveCommutesIff | source/storage/customerprofiles_lowcost_datahandler.go:1562-1608 | the order of two updates matters exactly when they tie without being equal |
| FieldResolution.SplitUpdate | source/storage/customerprofiles_lowcost_datahandler.go:1217-1251 | an update split into statements over any two sets of columns writes the row of the one statement |
| SearchRebuild.RunKeepsBest | source/storage/customerprofiles_lowcost_datahandler.go:900-930 | over every run of puts, puts with a match, merges and deletes with each object put once, every search column is what the best interaction of the profile offers |
| SearchRebuild.BuildProfileFromInteractions | source/storage/customerprofiles_lowcost_datahandler.go:253-320 | the fold keeps, for each field, the last record that gives it, and its object type |
| SearchRebuild.PrioritiesAgreeIff | source/storage/customerprofiles_lowcost_datahandler.go:2754-2778 | the rank used incrementally and the position used by the sort order all types alike exactly when no two different types are listed |
| SearchRebuild.SortsBeforeIff | source/storage/customerprofiles_lowcost_datahandler.go:323-375 | which of two records the sort puts first, told by the priority list and the times alone: one of a type that is not listed before one of a listed type, of two listed types the one further back, and else the earlier one |
| SearchRebuild.RebuildEqualsIncremental | source/storage/customerprofiles_lowcost_datahandler.go:323-375 | with at most one type listed and distinct times, the column kept incrementally is the value rebuilt from the sorted interactions |
| SearchRebuild.TwoListedTypesDisagree | source/storage/customerprofiles_lowcost_datahandler.go:334-338 | with two different types listed two objects suffice for the two sides to disagree |
| Placeholders.PrepQuery | source/tah-core/aurora/aurora_postgresql.go:221-242 | a statement is accepted exactly when it has as many placeholders as arguments, and then the text between the placeholders is kept and the i-th of them, counted from one, becomes a dollar sign and the decimal digits of i |
| Placeholders.HaveBeenMergedAndNotUnmerged | source/storage/customerprofiles_lowcost_datahandler.go:2860-2892 | the check always fails: three arguments for two placeholders |
| Placeholders.WhereClauseMarks | source/storage/customerprofiles_lowcost_utils.go:412-442 | however the criteria nest, a clause has one placeholder per parameter besides those in column names |
| Placeholders.OperatorSaysWhatIsMeant | source/storage/customerprofiles_lowcost_model.go:416-425 | each comparison is written as the SQL operator that holds for the same orders of two values |
| Placeholders.ClauseOfParts | source/storage/customerprofiles_lowcost_utils.go:412-442 | the clause of two lists of criteria is the clause of the first followed by that of the second, text and parameters alike |
| Placeholders.ClauseOfOne | source/storage/customerprofiles_lowcost_utils.go:412-442 | a criterion is the quoted column, the operator and one placeholder for its value, a group its clause in brackets, a connective its word |
| Placeholders.ClauseOfList | source/storage/customerprofiles_lowcost_utils.go:416-425 | IN and NOT IN have one placeholder for each text of their list, in its order |
| Placeholders.BuildParameterizedWhereClause | source/storage/customerprofiles_lowcost_utils.go:412-442 | the text and the parameter list grown side by side are the clause of the criteria; IN without a list is refused |
| Placeholders.PrepareSearch | source/storage/customerprofiles_lowcost_utils.go:412-442 | a search is accepted with its own parameters exactly when no column name holds a question mark |
| RuleMatching.NormalizeForIRIndex | source/storage/customerprofiles_lowcost_id_resolution.go:564-586 | the running string applies the settings in order, and holds no underscore when one of the two filters is on |
| NormalizedValues.NormalizedReads | source/storage/customerprofiles_lowcost_id_resolution.go:564-586 | a normalized value is made of exactly the characters the settings let through, without blanks at the ends and leading zeros where these are taken off, in their order, capitals small where they are not kept |
| NormalizedValues.NormalizedAlikeIff | source/storage/customerprofiles_lowcost_id_resolution.go:564-586 | two values are normalized to the same if and only if they differ in nothing but what the settings drop |
| NormalizedValues.SameFieldRuleFindsAlike | source/storage/customerprofiles_lowcost_id_resolution.go:705-741 | a rule that compares fields with themselves finds a record exactly when every compared field differs in nothing but what its settings drop, if at most one may keep an underscore |
| NormalizedValues.TwoTypeRuleFindsAlike | source/storage/customerprofiles_lowcost_id_resolution.go:705-741 | and a rule between two types a record of the other type exactly when every kept pair does |
| RuleMatching.LeavesMarkIff | source/storage/customerprofiles_lowcost_id_resolution.go:573-578 | no value keeps an underscore exactly when one of the two filters is on |
| RuleMatching.JoinInjective | source/storage/customerprofiles_lowcost_id_resolution.go:428-429 | lists of one length are told apart by their join when at most one position may hold an underscore |
| RuleMatching.CreateIndexSegment | source/storage/customerprofiles_lowcost_id_resolution.go:527-557 | the segment of a side, with the type and field it comes from, or none for a blank value |
| RuleMatching.CreateRuleIndex | source/storage/customerprofiles_lowcost_id_resolution.go:390-470 | the loop with its used-field sets gives the two joined values, or nothing when a skip condition is met or a match condition finds neither field |
| RuleMatching.AppliesIff | source/storage/customerprofiles_lowcost_id_resolution.go:393-425 | a rule applies to a record exactly if the record meets none of its skip conditions and has, for each match condition, something other than blanks in one of the two fields |
| RuleMatching.SameFieldRuleFinds | source/storage/customerprofiles_lowcost_id_resolution.go:705-741 | a rule that compares fields with themselves finds a record exactly when all compared fields, normalized, agree, if at most one may keep an underscore |
| RuleMatching.SameFieldRuleExactIff | source/storage/customerprofiles_lowcost_id_resolution.go:428-429 | and the condition is sharp: with two such fields there are records that differ and find each other |
| RuleMatching.EffectiveIsAll | source/storage/customerprofiles_lowcost_id_resolution.go:414-421 | comparing the first condition of each field is comparing all, when conditions with one field key agree |
| RuleMatching.SameFieldRuleIsSymmetric | source/storage/customerprofiles_lowcost_id_resolution.go:716-725 | such a rule does not depend on which record arrives first, whatever the normalization |
| RuleMatching.TwoTypeRuleExactIff | source/storage/customerprofiles_lowcost_id_resolution.go:705-741 | a rule between two object types finds exactly the records that agree in all the pairs it names, among all it applies to, if and only if two conditions share their incoming field exactly when they share their existing field and at most one pair may keep an underscore |
| RuleMatching.TwoTypeRuleFinds | source/storage/customerprofiles_lowcost_id_resolution.go:705-741 | for such a rule two given records find each other exactly if the pairs kept agree |
| RuleMatching.UnevenRuleFindsDiffering | source/storage/customerprofiles_lowcost_id_resolution.go:414-421 | a = x, a = y and b = x: a record with a = 1, b = 2 finds one with x = 1, y = 2 |
| RuleMatching.UnequalSidesNeverFind | source/storage/customerprofiles_lowcost_id_resolution.go:414-421 | a rule that leaves out more repeated fields on one side than on the other finds nothing |
| RuleMatching.TwoTypeRuleSymmetricIff | source/storage/customerprofiles_lowcost_id_resolution.go:716-725 | between two types finding is symmetric exactly when the second value is not empty or both are |
| RuleMatching.TwoTypeRuleWithinAType | source/storage/customerprofiles_lowcost_id_resolution.go:716-725 | records of one side find each other only with empty values |
| RuleSymmetry.OneConditionSymmetricIff | source/storage/customerprofiles_lowcost_id_resolution.go:716-725 | a rule with one match condition whose fields one record may hold does not depend on the order of arrival if and only if it compares a field with itself |
| RuleSymmetry.SymmetricIff | source/storage/customerprofiles_lowcost_id_resolution.go:414-425 | a rule of any number of conditions whose fields one record may hold, of one object type, of the profile or of both, does not depend on the order of arrival, on any records, blank fields included, if and only if for any two sets of fields that two records may hold the same number of fields is compared either way round, or not either way, and if so, each field with the same one |
| RuleSymmetry.UnbalancedIsAsymmetric | source/storage/customerprofiles_lowcost_id_resolution.go:414-425 | and that this is necessary holds also where values may keep underscores |
| RuleSymmetry.SymmetricBetweenIff | source/storage/customerprofiles_lowcost_id_resolution.go:716-725 | between records that hold one set of fields and records that hold another the order does not matter if and only if these two sets are balanced so |
| RuleSymmetry.FullSymmetricIff | source/storage/customerprofiles_lowcost_id_resolution.go:716-725 | on records that hold something in every field named: if and only if the sides keep different numbers of fields or every kept pair is kept both ways round |
| RuleSymmetry.SwappedPairIsSymmetric | source/storage/customerprofiles_lowcost_id_resolution.go:716-725 | a = b and b = a: the order never matters, blank fields or not |
| RuleSymmetry.RepeatedFieldIsAsymmetric | source/storage/customerprofiles_lowcost_id_resolution.go:414-421 | a = a and a = b: it does, although the sides keep different numbers of fields of a full record |
| RuleSymmetry.BlankFieldsBreakSymmetry | source/storage/customerprofiles_lowcost_id_resolution.go:414-421 | a = b, b = a, c = d and d = c: it does, between a record without a and a record without c |
| RuleIndexTable.IndexTable.FindMatches | source/storage/customerprofiles_lowcost_id_resolution.go:108-148 | for each rule the other profiles with a row that the rule selects, each once for every such row, and no rule without one |
| RuleIndexTable.IndexTable.IndexInIRTable | source/storage/customerprofiles_lowcost_id_resolution.go:154-168 | the keys of the record are added, rows already there stay as they are |
| RuleIndexTable.HoldsOneMore | source/storage/customerprofiles_lowcost_id_resolution.go:154-168 | a table that holds the rows of some records holds those of one more after indexing it |
| RuleIndexTable.HoldsAfterMerge | source/storage/customerprofiles_lowcost_id_resolution.go:194-262 | after a merge of b into a the table holds, by rules that are not profile-level, the rows of the same records, those of b as records of a, and by profile-level rules, of the two, those of the combined profile |
| RuleIndexTable.RunHolds | source/storage/customerprofiles_lowcost_id_resolution.go:154-262 | over every run of indexing and merging from an empty table, failed merges included: by rules that are not profile-level it holds the rows of all the records indexed, each under the profile that holds it now; by profile-level rules, of a merged profile, those of the combined profile and of what was indexed since; and nothing else |
| RuleIndexTable.MatchedIffFinds | source/storage/customerprofiles_lowcost_id_resolution.go:108-148 | over such a table a search returns the other profiles with a record that the rule finds |
| RuleIndexTable.MatchedIffAgree | source/storage/customerprofiles_lowcost_id_resolution.go:108-148 | for a rule that compares fields with themselves: exactly the other profiles with an indexed record whose compared fields all agree |
| RuleIndexTable.IndexTable.ReindexProfileAfterMerge | source/storage/customerprofiles_lowcost_id_resolution.go:194-262 | succeeds exactly when there is no profile-level rule or one applies; then the merged-away id has no row, the survivor has the keys of both for other rules and the recomputed ones for profile-level rules, and no other id is touched; otherwise nothing changes |
| RuleIndexTable.ReindexFailsIff | source/storage/customerprofiles_lowcost_id_resolution.go:222-254 | reindexing fails exactly if some rule has conditions on the profile only and none of these applies to the combined profile |
| RuleIndexTable.ReindexedRows | source/storage/customerprofiles_lowcost_id_resolution.go:292-332 | the rows of the survivor stay as they are, those of the merged id join them with their times unless the survivor has the same row already, and for profile-level rules only rows of the combined profile are left |
| RuleIndexTable.BreaksKeyIffConflicting | source/storage/customerprofiles_lowcost_id_resolution.go:285-323 | re-keying would break the primary key exactly when there are conflicting rows |
| RuleIndexTable.RekeyedKeys | source/storage/customerprofiles_lowcost_id_resolution.go:297-332 | deleting the conflicting rows and re-keying gives the survivor the union of both ids' keys |
| RuleIndexTable.OrganizeRules | source/storage/customerprofiles_lowcost_id_resolution.go:265-282 | profile-level and object-level rules apart, empty and mixed rules in neither list |
| RuleIndexTable.MatchesSurviveMerge | source/storage/customerprofiles_lowcost_id_resolution.go:186-193 | by rules that are not profile-level the survivor is found by exactly the records that found one of the two before, and everyone else as before |
| RuleIndexTable.ProfileRulesSeeTheCombinedProfile | source/storage/customerprofiles_lowcost_id_resolution.go:228-247 | by a profile-level rule the survivor is found exactly when its combined profile is what the rule looks for |
| ByteOrder.TextOrderIsNumeric | source/storage/customerprofiles_lowcost_datahandler.go:3535-3540 | the order of hexadecimal texts with dashes is the order of the numbers |
| ByteOrder.UuidText | source/storage/customerprofiles_lowcost_datahandler.go:3535-3540 | the text of 16 bytes has 36 characters, dashes at 8, 13, 18 and 23, and the two hexadecimal digits of each byte in order in between |
| UuidPartition.CreateUuid4 | source/storage/batch_id_resolution.go:89-103 | the 16-byte array holds the word, most significant byte first, and then the low bytes |
| UuidPartition.CreateUuid4Partition | source/storage/batch_id_resolution.go:68-87 | mask, shift and complement give the least and the greatest version 4 UUID of the prefix, so a version 4 UUID lies within exactly when it has the prefix |
| UuidPartition.PartitionIterator.Next | source/storage/batch_id_resolution.go:43-57 | the captured counter yields partition after partition and then stops |
| UuidPartition.AllPartitions | source/storage/batch_id_resolution.go:25-57 | 2^numBits partitions for 0 to 31 bits, an error and none at all otherwise |
| UuidPartition.PartitionsCoverExactly | source/storage/batch_id_resolution.go:16-24 | every version 4 UUID lies in exactly one partition, that of its prefix |
| UuidPartition.PartitionsIncrease | source/storage/batch_id_resolution.go:16-24 | partitions increase and are disjoint |
| UuidPartition.BetweenSelectsPartition | source/storage/customerprofiles_lowcost_datahandler.go:2175-2197 | BETWEEN on the texts selects exactly what the interval holds |
| InteractionMerge.MergeInteractionRecords | source/storage/customerprofiles_lowcost_datahandler.go:1919-1959 | the insertion into a growing list terminates and is the two-list merge applied list after list |
| InteractionMerge.MergeAllItems | source/storage/customerprofiles_lowcost_datahandler.go:1918-1959 | nothing is lost and nothing invented |
| InteractionMerge.MergeAllAscendingIff | source/storage/customerprofiles_lowcost_datahandler.go:1918-1959 | the result ascends exactly when every list does |
| InteractionMerge.TiesKeepListOrder | source/storage/customerprofiles_lowcost_datahandler.go:1918-1959 | among items of one time those of earlier lists come first, each list in its own order |
| InteractionMerge.DescendingListsAscendIff | source/storage/customerprofiles_lowcost_datahandler.go:1867-1907 | for lists that come newest first, as the caller's do, the result ascends only if all times within each list are equal |
| InteractionMerge.Merge2Interleaves | source/storage/customerprofiles_lowcost_datahandler.go:1925-1955 | for lists in any order: inserting a list keeps the order of both, and each of its elements stands before the first later element of the result so far from where the one before it stands |
| LatestInteractions.FilterDuplicatesKeepLatest | source/storage/customerprofiles_lowcost_utils.go:445-485 | one item for each type and key in order of first occurrence, each the first with the greatest timestamp; items without readable type, key or time are left out |
| LatestInteractions.KeepsLatestIsUnique | source/storage/customerprofiles_lowcost_utils.go:445-485 | that description fixes the result |
| LatestInteractions.OneOfEachKey | source/storage/customerprofiles_lowcost_utils.go:445-485 | no key is kept twice and none is lost |
| LatestInteractions.KeyOfIff | source/storage/customerprofiles_lowcost_utils.go:445-485 | an item is known by its type and the text in the key field of its type, if both and its time can be read |
| RuleSetKeys.TextOrderIsIndexOrder | source/storage/customerprofiles_lowcost_confighandler.go:442-458 | padded to five digits, keys of one set sort by index below 100000 |
| RuleSetKeys.LimitIsSharp | source/storage/customerprofiles_lowcost_confighandler.go:446 | the index 100000 sorts before 99999 |
| RuleSetKeys.ScanMeetsOneSet | source/storage/customerprofiles_lowcost_confighandler.go:294-308 | a scan for the active or the draft set meets no key of another set |
| RuleSetKeys.TextInjective | source/storage/customerprofiles_lowcost_confighandler.go:446 | different rules of different sets have different keys |
| RuleSetKeys.KeyTexts | source/storage/customerprofiles_lowcost_confighandler.go:442-458 | the texts of a key of the active, the draft and a historical set |
| RuleSetStore.Handler.GetRuleSet | source/storage/customerprofiles_lowcost_confighandler.go:338-399 | with a sound cache the set read is the stored one in index order, and the cache stays sound |
| RuleSetStore.Handler.SaveRuleSet | source/storage/customerprofiles_lowcost.go:2486-2504 | a save replaces the draft and changes neither the active nor a historical set |
| RuleSetStore.Handler.ActivateRuleSet | source/storage/customerprofiles_lowcost.go:2361-2412 | the draft becomes version n + 1, activated now, the set that was active joins v1 to vn with its own time of activation, and there is no draft any more; without a draft nothing changes |
| RuleSetStore.Handler.ActivateIdResRuleSet | source/storage/customerprofiles_lowcost.go:2330-2353 | the cached active set is the stored one afterwards, unless emptying the index of the old rules failed: exactly then a replaced set stays cached |
| RuleSetStore.Handler.ActivateCacheRuleSet | source/storage/customerprofiles_lowcost.go:2355-2359 | the same for caching rules, where the cache is always dropped |
| RuleSetStore.Serve | source/storage/customerprofiles_lowcost.go:2330-2412 | over every list of saves and activations from an empty store: the draft is the last set saved and not yet activated, the active set is the last one activated under its number as version, every earlier one is kept as its version, and the cache is sound |

## Left out

- UndoMerge.MergeThenUnmergeRestoresIff: the contents of the two rebuilt search rows are not claimed, since the rebuild reads on another connection; only that the rows exist.
- ConfidenceRevert.TopDownIsRight: states that going from the top down suffices for the one id; the exact condition is stated for all ids together, by `AllStayRightIff`.
- RuleSymmetry.SymmetricIff: conditions that share a field are under one normalization, and none leaves an underscore; where one may, the condition is shown to be necessary only, by `UnbalancedIsAsymmetric`.
- SearchRebuild.RunKeepsBest: runs without an unmerge, because an unmerge writes rows read on another connection.
- SearchRebuild.BuildProfileFromInteractions: takes the interactions in the order of the sort, and keeps the object type of each field but not the map of timestamps.
- IdentityStore.Store.PutProfileObject: a put uses the first match; further matches are sent to a queue that is not part of this model.
- RuleSetStore.Handler.ActivateRuleSet: failing writes to the key store and disabling a rule set are not modelled.
- RuleMatching.CreateRuleIndex: filter conditions and template fields are not modelled, and which skip conditions a record meets is given with the record.
- RuleMatching.NormalizeForIRIndex: lower-casing is modelled for ASCII letters only.
- UuidPartition.AllPartitions: starting a job for each partition is not modelled, only the partitions it starts jobs for.
- InteractionMerge.MergeInteractionRecords: the slice is a sequence, so sharing of its backing memory is not modelled.
- Interactions hold the profile fields their objects map to; the mapping from object attributes to profile fields is not modelled.
- Interleaved operations: each put, merge, unmerge and delete is one step, although the master update of a merge runs outside its transaction.
- Connect ids, rows and rule sets are values; only tables, the iterator, the cache and arrays are updated in place.
- Counts per object type, the object history tables and the optional purge on delete.
- The timestamp columns of the search table after an unmerge, which are written and read under different keys.
- Paging through a partition, whose key is not unique per row.
- The lifetime of cache entries, the collation of the database (texts compare by character code) and the rounding of floating-point factors.
- Cloud services, streams, logging, metrics and the creation of tables: nothing in them is hard.
