/** A merge followed at once by the unmerge of the same pair. */
module UndoMerge {
  import opened MergeHistory
  import opened LineageQuery
  import opened UpwardQuery
  import opened Lineage
  import opened FieldResolution
  import opened ProfileCount
  import opened ProfileTables
  import opened IdentityInvariant
  import opened Confidence
  import opened ConfidenceRevert

  /** Owners and scores are as before. What may differ is the master timestamp, the contents of the two rebuilt search rows,
      the history, and which shard holds which part of the count. */
  ghost predicate SameOwnersAndScores(t: Tables, t': Tables) {
    && SameHolders(t.master, t'.master)
    && t'.interactions == t.interactions
    && t'.search.Keys == t.search.Keys
    && Total(t'.shards) == Total(t.shards)
  }

  ghost predicate Undoes(m: MergeArgs, u: UnmergeArgs) {
    u.from == m.survivor && u.unmerged == m.merged
  }

  /** After the merge of b, what hangs below b is what b held before. */
  lemma LineageAfterMerge(t: Tables, m: MergeArgs, x: Id)
    requires Grounded(t) && MergeAllowed(t, m) && !MergeRejected(t, m)
    ensures HangsBelow(AfterMerge(t, m).history, m.merged, x) <==> Root(t.history, x) == m.merged
  {
    hide WellFormed, Linked, LivePath;
    GroundedIsLinked(t);
    MergeLinks(t, m);
    EndsAtRoot(t.history, m.merged, x);
    Snoc(t.history, MergeRow(m));
  }

  /** What the undo divides out: the factor of the merge, and whatever older unmerges of the two ids left to divide. */
  lemma RevertOfLastMerge(t: Tables, m: MergeArgs)
    requires Grounded(t) && MergeAllowed(t, m) && !MergeRejected(t, m) && m.factor != 0.0
    ensures Revert(AfterMerge(t, m).history, m.merged)
         == Mul(Revert(t.history, m.merged), Mul(m.factor, Revert(t.history, m.survivor)))
  {
    hide Revert, Mul, Agrees, MergeTraceable, WellFormed;
    MergeKeepsGrounded(t, m);
    RevertOfMoved(t.history, MergeRow(m));
  }

  /** The rows taken back are the rows the merge moved. */
  lemma SameRowsBack(t: Tables, m: MergeArgs, pid: ProfileId)
    requires Grounded(t) && MergeAllowed(t, m) && !MergeRejected(t, m) && ChainsFit(AfterMerge(t, m), m.merged)
    requires pid in t.master
    ensures pid in ProfileIdsToUnmerge(AfterMerge(t, m), m.merged) <==> t.master[pid].connectId == m.merged
  {
    hide WellFormed, InLineage, ChainsFit, MergeTraceable, HangsBelow, LivePath;
    var t1, x := AfterMerge(t, m), t.master[pid].originalId;
    MergeKeepsGrounded(t, m);
    GroundedIsLinked(t);
    LiveIsRoot(t, m.merged);
    LineageFitsIff(t1, m.merged);
    LineageAfterMerge(t, m, x);
    RepointedIds(t, m);
    assert x in Originals(t1) && t1.master[pid].originalId == x;
  }

  lemma AllRowsBack(t: Tables, m: MergeArgs)
    requires Grounded(t) && MergeAllowed(t, m) && !MergeRejected(t, m) && ChainsFit(AfterMerge(t, m), m.merged)
    ensures forall pid :: pid in t.master ==>
      (pid in ProfileIdsToUnmerge(AfterMerge(t, m), m.merged) <==> t.master[pid].connectId == m.merged)
    ensures ProfileIdsToUnmerge(AfterMerge(t, m), m.merged) != {}
  {
    hide Grounded, MergeAllowed, ChainsFit;
    forall pid | pid in t.master
      ensures pid in ProfileIdsToUnmerge(AfterMerge(t, m), m.merged) <==> t.master[pid].connectId == m.merged
    {
      SameRowsBack(t, m, pid);
    }
    var pid := HolderRow(t, m.merged);
    assert pid in ProfileIdsToUnmerge(AfterMerge(t, m), m.merged);
  }

  /** Nothing the merge would move has a score. */
  ghost predicate NothingScored(t: Tables, b: Id) {
    forall k :: k in t.interactions && t.interactions[k].connectId == b ==> t.interactions[k].score == 0.0
  }

  lemma InteractionBack(t: Tables, m: MergeArgs, k: ObjectKey, pids: set<ProfileId>, d: real)
    requires InteractionsFollowMaster(t) && k in t.interactions && m.factor != 0.0 && d != 0.0
    requires k.profileId in pids <==> t.master[k.profileId].connectId == m.merged
    ensures RescoreUnmerged(RescoreMerged(t.interactions, m), pids, m.merged, d)[k] == t.interactions[k]
       <==> (t.interactions[k].connectId == m.merged && t.interactions[k].score != 0.0 ==> d == m.factor)
  {
    if t.interactions[k].connectId == m.merged {
      ScoreBack(t.interactions[k].score, m.factor, d);
    }
  }

  lemma ScoreBack(s: real, f: real, d: real)
    requires f != 0.0 && d != 0.0
    ensures s * f / d == s <==> (s != 0.0 ==> d == f)
  {
    if s * f / d == s {
      assert s * f == s * d;
      assert s * (f - d) == 0.0;
    }
  }

  lemma InteractionsBack(t: Tables, m: MergeArgs, pids: set<ProfileId>, d: real)
    requires InteractionsFollowMaster(t) && m.factor != 0.0 && d != 0.0
    requires forall pid :: pid in t.master ==> (pid in pids <==> t.master[pid].connectId == m.merged)
    ensures RescoreUnmerged(RescoreMerged(t.interactions, m), pids, m.merged, d) == t.interactions
       <==> d == m.factor || NothingScored(t, m.merged)
  {
    var back := RescoreUnmerged(RescoreMerged(t.interactions, m), pids, m.merged, d);
    forall k | k in t.interactions
      ensures back[k] == t.interactions[k] <==> (t.interactions[k].connectId == m.merged && t.interactions[k].score != 0.0 ==> d == m.factor)
    {
      InteractionBack(t, m, k, pids, d);
    }
    assert back.Keys == t.interactions.Keys;
  }

  lemma MasterBack(t: Tables, m: MergeArgs, pids: set<ProfileId>)
    requires forall pid :: pid in t.master ==> (pid in pids <==> t.master[pid].connectId == m.merged)
    ensures SameHolders(t.master, AssignMaster(RepointMaster(t.master, m.survivor, m.merged, m.now), pids, m.merged))
  {}

  /** What the unmerge does, once its profile ids and its revert factor are known. */
  lemma AfterUndo(t1: Tables, m: MergeArgs, u: UnmergeArgs)
    requires Undoes(m, u) && m.survivor != Blank && m.merged != Blank && m.survivor != m.merged
    requires ProfileIdsToUnmerge(t1, m.merged) != {}
    ensures var t', pids := AfterUnmerge(t1, u), ProfileIdsToUnmerge(t1, m.merged);
      && Revert(t1.history, m.merged) != 0.0
      && t'.master == AssignMaster(t1.master, pids, m.merged)
      && t'.interactions == RescoreUnmerged(t1.interactions, pids, m.merged, Revert(t1.history, m.merged))
      && t'.search.Keys == t1.search.Keys + {m.survivor, m.merged}
      && t'.shards == Bump(t1.shards, u.shard, 1)
  {
    hide ProfileIdsToUnmerge, RevertFactor, MergesLeadingToParent, AssignMaster, RescoreUnmerged, Bump;
  }

  lemma AfterDoing(t: Tables, m: MergeArgs)
    requires Inv(t) && MergeAllowed(t, m) && !MergeRejected(t, m)
    ensures var t1 := AfterMerge(t, m);
      && t1.master == RepointMaster(t.master, m.survivor, m.merged, m.now) && t1.interactions == RescoreMerged(t.interactions, m)
      && t1.search.Keys + {m.survivor, m.merged} == t.search.Keys && t1.shards == Bump(t.shards, m.shard, -1)
    ensures m.survivor != Blank && m.merged != Blank && m.survivor != m.merged && InteractionsFollowMaster(t)
    ensures 1 <= m.shard <= |t.shards| == COUNT_TABLE_PARTITIONS
  {
    hide WellFormed, MergeTraceable, RepointMaster, RescoreMerged, MergeSearch, Bump, MasterFollows, PathsWithin, Live, Originals;
    BothWereSearched(t, m);
  }

  lemma BothWereSearched(t: Tables, m: MergeArgs)
    requires SearchHoldsLive(t) && m.survivor in Live(t) && m.merged in Live(t)
    ensures MergeSearch(t.config, t.search, m).Keys + {m.survivor, m.merged} == t.search.Keys
  {
    hide UpdateColumns, Live;
  }

  /** Undoing a merge at once is allowed exactly when no chain below the merged id is too deep to be found. */
  lemma UndoIsAllowedIff(t: Tables, m: MergeArgs, u: UnmergeArgs)
    requires Grounded(t) && MergeAllowed(t, m) && !MergeRejected(t, m) && Undoes(m, u) && 1 <= u.shard <= COUNT_TABLE_PARTITIONS
    ensures UnmergeAllowed(AfterMerge(t, m), u) <==> ChainsFit(AfterMerge(t, m), m.merged)
  {
    var h, e := t.history, MergeRow(m);
    GroundedIsLinked(t);
    MergeLinks(t, m);
    LiveIsRoot(t, m.merged);
    RepointedIds(t, m);
    UndoIsTraceable(h, e);
    hide WellFormed, LivePath, ChainsFit, Agrees, UnmergeTraceable, MergeTraceable, Linkable;
  }

  lemma UndoIsTraceable(h: History, e: Row)
    requires e.kind.Merge? && MergeTraceable(h, e.toMerge, e.mergedInto) && LivePath(h, e.toMerge) == [e.toMerge]
    ensures LivePath(h + [e], e.toMerge) == [e.toMerge, e.mergedInto] && UnmergeTraceable(h + [e], e.toMerge, e.mergedInto)
  {
    hide FullPath, Rows;
    assert (h + [e])[..|h|] == h;
    forall p | HasRow(h + [e], Merge, p, e.toMerge) ensures p == e.mergedInto {
      HasRowSnoc(h, e, Merge, p, e.toMerge);
    }
  }

  /** No older unmerge of the two ids is left to be divided out. */
  ghost predicate NothingLeftToRevert(t: Tables, m: MergeArgs) {
    Mul(Revert(t.history, m.merged), Revert(t.history, m.survivor)) == 1.0
  }

  lemma DividedOut(r: real, f: real, q: real)
    requires f != 0.0
    ensures Mul(r, Mul(f, q)) == f <==> Mul(r, q) == 1.0
  {
    assert Mul(r, Mul(f, q)) == f * (r * q);
    if Mul(r, Mul(f, q)) == f {
      assert f * (r * q - 1.0) == 0.0;
    }
  }

  /** Merging b into a and then unmerging b from a restores every owner, and restores every score exactly if there was no
      score to restore or nothing of older unmerges is left to divide out. */
  lemma MergeThenUnmergeRestoresIff(t: Tables, m: MergeArgs, u: UnmergeArgs)
    requires Inv(t) && MergeAllowed(t, m) && !MergeRejected(t, m) && m.factor != 0.0
    requires Undoes(m, u) && 1 <= u.shard <= COUNT_TABLE_PARTITIONS && ChainsFit(AfterMerge(t, m), m.merged)
    ensures var t' := AfterUnmerge(AfterMerge(t, m), u);
      && Inv(t') && SameHolders(t.master, t'.master)
      && (SameOwnersAndScores(t, t') <==> NothingLeftToRevert(t, m) || NothingScored(t, m.merged))
  {
    hide Inv, Grounded, MergeAllowed, MergeRejected, AfterMerge, AfterUnmerge, ChainsFit, ProfileIdsToUnmerge, Revert, NothingScored,
         UnmergeAllowed, RepointMaster, RescoreMerged, RescoreUnmerged, AssignMaster, SameHolders, InteractionsFollowMaster, Mul;
    var t1 := AfterMerge(t, m);
    InvIsGrounded(t);
    AfterDoing(t, m);
    AllRowsBack(t, m);
    RevertOfLastMerge(t, m);
    DividedOut(Revert(t.history, m.merged), m.factor, Revert(t.history, m.survivor));
    AfterUndo(t1, m, u);
    MasterBack(t, m, ProfileIdsToUnmerge(t1, m.merged));
    InteractionsBack(t, m, ProfileIdsToUnmerge(t1, m.merged), Revert(t1.history, m.merged));
    BumpMovesTotal(t.shards, m.shard, -1);
    BumpMovesTotal(t1.shards, u.shard, 1);
    UndoIsAllowedIff(t, m, u);
    MergeKeepsInv(t, m);
    UnmergeKeepsInv(t1, u);
  }

  lemma InvIsGrounded(t: Tables)
    requires Inv(t)
    ensures Grounded(t)
  {}

  /** Where unmerges went from the top down, nothing is left to be divided out. */
  lemma NothingLeftTopDown(t: Tables, m: MergeArgs)
    requires Grounded(t) && MergeAllowed(t, m) && !MergeRejected(t, m)
    requires Recorded(t.history) && TopDown(t.history, m.merged) && TopDown(t.history, m.survivor)
    ensures NothingLeftToRevert(t, m)
  {
    hide WellFormed, Linked, Recorded, TopDown, Revert, LiveProduct, MergeTraceable;
    GroundedIsLinked(t);
    MergeLinks(t, m);
    TopDownIsRight(t.history, m.merged);
    TopDownIsRight(t.history, m.survivor);
    RootProduct(t.history, m.merged);
    RootProduct(t.history, m.survivor);
  }
}
