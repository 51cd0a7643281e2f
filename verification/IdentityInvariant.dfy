/** What every run of puts, merges, unmerges and deletes keeps. */
module IdentityInvariant {
  import opened MergeHistory
  import opened LineageQuery
  import opened UpwardQuery
  import opened Lineage
  import opened FieldResolution
  import opened ProfileCount
  import opened ProfileTables

  ghost predicate MasterFollowsHistory(t: Tables) {
    MasterFollows(t.history, t.master)
  }

  /** Each row's connect id is the root reached from its original id by merges not undone. */
  ghost predicate MasterFollows(h: History, master: map<ProfileId, MasterRow>) {
    forall pid :: pid in master ==> master[pid].connectId == Root(h, master[pid].originalId)
  }

  /** The master table holds a row for every id met on the way up from an id it holds. */
  ghost predicate PathsAreHeld(t: Tables) {
    PathsWithin(t.history, Originals(t))
  }

  ghost predicate PathsWithin(h: History, ids: set<Id>) {
    forall x :: x in ids ==> AllIn(LivePath(h, x), ids)
  }

  ghost predicate AllIn(p: seq<Id>, ids: set<Id>) {
    forall y :: y in p ==> y in ids
  }

  ghost predicate OneRowPerOriginal(t: Tables) {
    forall p, q :: p in t.master && q in t.master && t.master[p].originalId == t.master[q].originalId ==> p == q
  }

  ghost predicate OriginalsExist(t: Tables) {
    Originals(t) !! Deleted(t.history) && NIL_UUID !in Originals(t) && Blank !in Originals(t)
  }

  /** Each interaction row carries the connect id of the master row of its profile. */
  ghost predicate InteractionsFollowMaster(t: Tables) {
    InteractionsFollow(t.master, t.interactions)
  }

  ghost predicate InteractionsFollow(master: map<ProfileId, MasterRow>, interactions: map<ObjectKey, Interaction>) {
    forall k :: k in interactions ==> k.profileId in master && interactions[k].connectId == master[k.profileId].connectId
  }

  ghost predicate SearchHoldsLive(t: Tables) {
    t.search.Keys == Live(t)
  }

  /** The shards add up to n more than there are live profiles. */
  ghost predicate CountExceeds(t: Tables, n: nat) {
    |t.shards| == COUNT_TABLE_PARTITIONS && Total(t.shards) == |Live(t)| + n
  }

  ghost predicate CountIsLive(t: Tables) {
    CountExceeds(t, 0)
  }

  /** The observable agreement of the tables with each other and with the history, the count aside. */
  ghost predicate Agrees(t: Tables) {
    && MasterFollowsHistory(t) && PathsAreHeld(t) && OneRowPerOriginal(t) && OriginalsExist(t)
    && InteractionsFollowMaster(t) && SearchHoldsLive(t)
  }

  ghost predicate Consistent(t: Tables) {
    Agrees(t) && CountIsLive(t)
  }

  /** Tables that agree, over a history that the lineage queries can follow. */
  ghost predicate Grounded(t: Tables) {
    WellFormed(t.history) && Agrees(t)
  }

  ghost predicate Inv(t: Tables) {
    Grounded(t) && CountIsLive(t)
  }

  lemma GroundedIsLinked(t: Tables)
    requires Grounded(t)
    ensures Linked(t.history)
  {
    WellFormedIsLinked(t.history);
  }

  lemma RowOf(t: Tables, x: Id) returns (pid: ProfileId)
    requires x in Originals(t)
    ensures pid in t.master && t.master[pid].originalId == x
  {
    pid :| pid in t.master && t.master[pid].originalId == x;
  }

  lemma HolderRow(t: Tables, id: Id) returns (pid: ProfileId)
    requires id in Live(t)
    ensures pid in t.master && t.master[pid].connectId == id
  {
    pid :| pid in t.master && t.master[pid].connectId == id;
  }

  /** A live id is a root of the forest and has its own row, pointing at itself. */
  lemma LiveIsRoot(t: Tables, id: Id)
    requires Linked(t.history) && MasterFollowsHistory(t) && PathsAreHeld(t) && OriginalsExist(t) && id in Live(t)
    ensures id in Originals(t) && IsRoot(t.history, id) && LivePath(t.history, id) == [id]
    ensures id != Blank && id != NIL_UUID
  {
    var pid := HolderRow(t, id);
    var x := t.master[pid].originalId;
    assert x in Originals(t);
    RootOfHeld(t.history, Originals(t), x);
  }

  lemma RootOfHeld(h: History, ids: set<Id>, x: Id)
    requires Linked(h) && PathsWithin(h, ids) && x in ids
    ensures Root(h, x) in ids && LivePath(h, Root(h, x)) == [Root(h, x)]
  {
    var p := LivePath(h, x);
    assert AllIn(p, ids) && p[|p| - 1] in p;
    LiveSuffix(h, x, |p| - 1);
  }

  lemma RootIsLive(t: Tables, x: Id)
    requires Agrees(t) && x in Originals(t)
    ensures Root(t.history, x) in Live(t)
  {}

  // ---- put ----

  predicate InHistory(h: History, id: Id) {
    exists r :: r in h && (r.toMerge == id || r.mergedInto == id)
  }

  /** A generated id has not been seen before, and the drawn shard exists. */
  predicate PutAllowed(t: Tables, a: PutArgs) {
    && a.freshId != Blank && a.freshId != NIL_UUID
    && a.freshId !in Originals(t) && !InHistory(t.history, a.freshId)
    && 1 <= a.shard <= COUNT_TABLE_PARTITIONS
    && a.fields.Keys <= t.config.columns
  }

  lemma {:induction false} UnseenIsAlone(h: History, id: Id)
    requires !InHistory(h, id)
    ensures LivePath(h, id) == [id]
  {
    if h != [] {
      var h', e := Unsnoc(h);
      assert e in h && forall r :: r in h' ==> r in h;
      UnseenIsAlone(h', id);
    }
  }

  lemma FreshIsRoot(h: History, id: Id)
    requires !InHistory(h, id)
    ensures id !in MergedAway(h) && id !in Cuts(h) && id !in Deleted(h)
    ensures LivePath(h, id) == [id] && FullPath(h, id) == [id]
  {
    UnseenIsAlone(h, id);
    FullOfUnmerged(h, id);
    CutsAreUnmerged(h);
  }

  lemma {:induction false} CutsAreUnmerged(h: History)
    ensures Cuts(h) <= EverUnmerged(h)
  {
    if h != [] {
      var h', e := Unsnoc(h);
      CutsAreUnmerged(h');
    }
  }

  lemma PutIds(t: Tables, a: PutArgs)
    ensures var t', added := AfterPut(t, a), (if a.key.profileId in t.master then {} else {a.freshId});
            Originals(t') == Originals(t) + added && Live(t') == Live(t) + added
  {
    var t', pid := AfterPut(t, a), a.key.profileId;
    if pid !in t.master {
      assert t'.master[pid] == MasterRow(a.freshId, a.freshId, a.now);
      forall q | q in t.master ensures t'.master[q] == t.master[q] {}
      SameRowsSameIds(t, t', pid);
    }
  }

  lemma SameRowsSameIds(t: Tables, t': Tables, pid: ProfileId)
    requires pid !in t.master && t'.master.Keys == t.master.Keys + {pid}
    requires forall q :: q in t.master ==> t'.master[q] == t.master[q]
    ensures Originals(t') == Originals(t) + {t'.master[pid].originalId}
    ensures Live(t') == Live(t) + {t'.master[pid].connectId}
  {}

  lemma PutRowFollows(t: Tables, a: PutArgs)
    requires MasterFollowsHistory(t) && InteractionsFollowMaster(t)
    requires a.key.profileId in t.master || Root(t.history, a.freshId) == a.freshId
    ensures MasterFollowsHistory(AfterPut(t, a)) && InteractionsFollowMaster(AfterPut(t, a))
  {}

  /** The keys of the search table and the shards after a put. */
  lemma PutKeysAndShards(t: Tables, a: PutArgs)
    ensures AfterPut(t, a).search.Keys == t.search.Keys + {HolderOf(t, a.key.profileId, a.freshId)}
    ensures AfterPut(t, a).shards == if a.key.profileId in t.master then t.shards else Bump(t.shards, a.shard, 1)
  {
    hide UpdateColumns, Offered, RowOrEmpty, PutInteraction, Bump, HolderOf;
  }

  lemma PutKeepsSearchKeys(t: Tables, a: PutArgs)
    requires SearchHoldsLive(t)
    ensures SearchHoldsLive(AfterPut(t, a))
  {
    if a.key.profileId in t.master {
      assert HolderOf(t, a.key.profileId, a.freshId) in Live(t);
    }
    hide AfterPut, Live, Originals;
    PutIds(t, a);
    PutKeysAndShards(t, a);
  }

  lemma PutKeepsCount(t: Tables, a: PutArgs, n: nat)
    requires CountExceeds(t, n) && (a.key.profileId in t.master || a.freshId !in Live(t)) && 1 <= a.shard <= COUNT_TABLE_PARTITIONS
    ensures CountExceeds(AfterPut(t, a), n)
  {
    hide AfterPut, Live, Originals, Total, Bump;
    PutIds(t, a);
    PutKeysAndShards(t, a);
    BumpMovesTotal(t.shards, a.shard, 1);
  }

  lemma PutOriginals(t: Tables, a: PutArgs)
    requires OneRowPerOriginal(t) && OriginalsExist(t) && PathsAreHeld(t)
    requires a.key.profileId in t.master || PutAllowed(t, a)
    ensures OneRowPerOriginal(AfterPut(t, a)) && OriginalsExist(AfterPut(t, a)) && PathsAreHeld(AfterPut(t, a))
  {
    PutIds(t, a);
    if a.key.profileId !in t.master {
      FreshIsRoot(t.history, a.freshId);
      PathsWithinMore(t.history, Originals(t), a.freshId);
      forall p | p in t.master ensures t.master[p].originalId != a.freshId {
        assert t.master[p].originalId in Originals(t);
      }
    }
  }

  lemma PathsWithinMore(h: History, ids: set<Id>, y: Id)
    requires PathsWithin(h, ids) && LivePath(h, y) == [y]
    ensures PathsWithin(h, ids + {y})
  {}

  lemma PutKeepsAgrees(t: Tables, a: PutArgs)
    requires Agrees(t) && (a.key.profileId in t.master || PutAllowed(t, a))
    ensures Agrees(AfterPut(t, a)) && AfterPut(t, a).history == t.history
  {
    if a.key.profileId !in t.master {
      FreshIsRoot(t.history, a.freshId);
    }
    PutRowFollows(t, a);
    PutKeepsSearchKeys(t, a);
    PutOriginals(t, a);
  }

  lemma FreshIsNotLive(t: Tables, a: PutArgs)
    requires Linked(t.history) && Agrees(t) && PutAllowed(t, a)
    ensures a.freshId !in Live(t)
  {
    if a.freshId in Live(t) {
      LiveIsRoot(t, a.freshId);
    }
  }

  /** A put with a fresh id keeps the invariant. */
  lemma PutKeepsInv(t: Tables, a: PutArgs)
    requires Inv(t) && PutAllowed(t, a)
    ensures Inv(AfterPut(t, a))
  {
    GroundedIsLinked(t);
    FreshIsNotLive(t, a);
    PutKeepsAgrees(t, a);
    PutKeepsCount(t, a, 0);
  }

  // ---- puts that find a match before the profile is inserted ----

  /** The row that says a fresh id went into the match may follow any history. */
  lemma PreMatchRowFollows(h: History, e: Row)
    requires WellFormed(h) && e.kind.Merge? && !InHistory(h, e.toMerge) && e.toMerge != NIL_UUID
    requires IsRoot(h, e.mergedInto) && e.mergedInto != NIL_UUID && e.mergedInto != e.toMerge
    ensures MayFollow(h, e)
  {
    FreshIsRoot(h, e.toMerge);
    FullNodesMerged(h, e.mergedInto);
    FullEndUnseen(h, e.mergedInto, e.toMerge);
    forall c ensures !HasRow(h, Merge, e.toMerge, c) {}
  }

  lemma {:induction false} FullEndUnseen(h: History, x: Id, id: Id)
    requires !InHistory(h, id) && x != id
    ensures id !in FullPath(h, x)
  {
    if h != [] {
      var h', e := Unsnoc(h);
      assert e in h && forall r :: r in h' ==> r in h;
      FullEndUnseen(h', x, id);
      FullEndUnseen(h', e.mergedInto, id);
    }
  }

  /** The row of an id that no path meets changes no path but its own. */
  lemma PathsPastUnseen(h: History, e: Row, ids: set<Id>)
    requires PathsWithin(h, ids) && e.kind.Merge? && e.toMerge !in ids
    ensures forall x :: x in ids ==> LivePath(h + [e], x) == LivePath(h, x)
  {
    Snoc(h, e);
    forall x | x in ids ensures LivePath(h + [e], x) == LivePath(h, x) {
      assert AllIn(LivePath(h, x), ids) && Last(LivePath(h, x)) in LivePath(h, x);
    }
  }

  lemma FiledIds(t: Tables, a: PutArgs, found: Id)
    requires found in Live(t)
    ensures Live(FiledUnder(t, a, found)) == Live(t)
    ensures Originals(FiledUnder(t, a, found)) == Originals(t) + if a.key.profileId in t.master then {} else {a.freshId}
  {
    var t' := FiledUnder(t, a, found);
    if a.key.profileId !in t.master {
      forall q | q in t.master ensures t'.master[q] == t.master[q] {}
      SameRowsSameIds(t, t', a.key.profileId);
    }
  }

  /** What the row of a fresh id makes of the paths. */
  lemma UnseenMerged(h: History, e: Row, ids: set<Id>)
    requires e.kind.Merge? && !InHistory(h, e.toMerge) && e.toMerge !in ids && PathsWithin(h, ids) && e.mergedInto in ids
    ensures LivePath(h + [e], e.toMerge) == [e.toMerge, e.mergedInto]
    ensures PathsWithin(h + [e], ids + {e.toMerge})
    ensures forall x :: x in ids ==> LivePath(h + [e], x) == LivePath(h, x)
  {
    Snoc(h, e);
    FreshIsRoot(h, e.toMerge);
    PathsPastUnseen(h, e, ids);
  }

  lemma MasterOfFiled(h: History, h': History, master: map<ProfileId, MasterRow>, pid: ProfileId, row: MasterRow, ids: set<Id>)
    requires MasterFollows(h, master) && forall q :: q in master ==> master[q].originalId in ids
    requires forall x :: x in ids ==> LivePath(h', x) == LivePath(h, x)
    requires pid !in master && row.connectId == Root(h', row.originalId)
    ensures MasterFollows(h', master[pid := row]) && MasterFollows(h', master)
  {}

  lemma FiledFollows(t: Tables, a: PutArgs, found: Id)
    requires Linked(t.history) && Agrees(t) && PutAllowed(t, a) && found in Live(t)
    ensures MasterFollowsHistory(FiledUnder(t, a, found)) && PathsAreHeld(FiledUnder(t, a, found))
  {
    var e, row := Row(Kind.Merge, a.freshId, found, 1.0), MasterRow(found, a.freshId, a.now);
    FiledIds(t, a, found);
    LiveIsRoot(t, found);
    UnseenMerged(t.history, e, Originals(t));
    assert forall q :: q in t.master ==> t.master[q].originalId in Originals(t);
    hide LivePath, PathsWithin, MasterFollows, Originals;
    if a.key.profileId in t.master {
      KnownStays(t, a, found, e);
    } else {
      MasterOfFiled(t.history, t.history + [e], t.master, a.key.profileId, row, Originals(t));
    }
  }

  lemma KnownStays(t: Tables, a: PutArgs, found: Id, e: Row)
    requires MasterFollowsHistory(t) && PathsAreHeld(t) && a.key.profileId in t.master && e == Row(Kind.Merge, a.freshId, found, 1.0)
    requires forall x :: x in Originals(t) ==> LivePath(t.history + [e], x) == LivePath(t.history, x)
    ensures MasterFollowsHistory(FiledUnder(t, a, found)) && PathsAreHeld(FiledUnder(t, a, found))
  {
    var t' := FiledUnder(t, a, found);
    assert Originals(t') == Originals(t);
    forall pid | pid in t.master ensures t'.master[pid].connectId == Root(t'.history, t'.master[pid].originalId) {
      assert t.master[pid].originalId in Originals(t);
    }
  }

  lemma FiledKeepsRows(t: Tables, a: PutArgs, found: Id)
    requires Agrees(t) && PutAllowed(t, a) && found in Live(t)
    ensures var t' := FiledUnder(t, a, found);
      OneRowPerOriginal(t') && OriginalsExist(t') && InteractionsFollowMaster(t') && SearchHoldsLive(t')
  {
    hide MasterFollows, PathsWithin, Bump, LivePath;
    FiledKeepsOriginals(t, a, found);
    FiledIds(t, a, found);
    hide Live;
  }

  lemma FiledKeepsOriginals(t: Tables, a: PutArgs, found: Id)
    requires OneRowPerOriginal(t) && OriginalsExist(t) && PutAllowed(t, a) && found in Live(t)
    ensures OneRowPerOriginal(FiledUnder(t, a, found)) && OriginalsExist(FiledUnder(t, a, found))
  {
    hide LivePath, Bump, Deleted, InHistory;
    var t' := FiledUnder(t, a, found);
    FiledIds(t, a, found);
    FreshIsRoot(t.history, a.freshId);
    SnocSets(t.history, Row(Kind.Merge, a.freshId, found, 1.0));
    forall p | p in t.master ensures t.master[p].originalId != a.freshId {
      assert t.master[p].originalId in Originals(t);
    }
  }

  lemma FiledHistory(t: Tables, a: PutArgs, found: Id)
    requires Grounded(t) && PutAllowed(t, a) && found in Live(t)
    ensures WellFormed(FiledUnder(t, a, found).history)
  {
    hide MasterFollows, PathsWithin, InteractionsFollow, MayFollow;
    var e := Row(Kind.Merge, a.freshId, found, 1.0);
    GroundedIsLinked(t);
    LiveIsRoot(t, found);
    PreMatchRowFollows(t.history, e);
    Snoc(t.history, e);
  }

  /** Such a put keeps all but the count. */
  lemma PreMatchPutKeepsGrounded(t: Tables, a: PutArgs, found: Id)
    requires Grounded(t) && PutAllowed(t, a) && found in Live(t)
    ensures Grounded(AfterPreMatchPut(t, a, found))
  {
    GroundedIsLinked(t);
    FiledFollows(t, a, found);
    FiledKeepsRows(t, a, found);
    FiledHistory(t, a, found);
    hide AfterPut;
    PutKeepsAgrees(FiledUnder(t, a, found), a);
  }

  /** It counts a new profile id as a new profile: the count runs ahead by one. */
  lemma PreMatchPutOvercounts(t: Tables, a: PutArgs, found: Id, n: nat)
    requires CountExceeds(t, n) && found in Live(t) && 1 <= a.shard <= COUNT_TABLE_PARTITIONS
    ensures CountExceeds(AfterPreMatchPut(t, a, found), n + if a.key.profileId in t.master then 0 else 1)
  {
    hide Total, Bump, AfterPut;
    FiledIds(t, a, found);
    BumpMovesTotal(t.shards, a.shard, 1);
    PutKeepsCount(FiledUnder(t, a, found), a, n + if a.key.profileId in t.master then 0 else 1);
  }

  // ---- merge ----

  lemma RepointedIds(t: Tables, a: MergeArgs)
    requires !MergeRejected(t, a)
    ensures Originals(AfterMerge(t, a)) == Originals(t)
    ensures Live(AfterMerge(t, a)) == Live(t) - {a.merged} + {a.survivor}
  {
    var t' := AfterMerge(t, a);
    var pid := HolderRow(t, a.merged);
    assert t'.master[pid].connectId == a.survivor;
    forall x | x in Originals(t) ensures x in Originals(t') {
      var q := RowOf(t, x);
      assert t'.master[q].originalId == x;
    }
    forall x | x in Live(t) && x != a.merged ensures x in Live(t') {
      var q := HolderRow(t, x);
      assert t'.master[q].connectId == x;
    }
  }

  /** The survivor is live, and the lineage queries can follow the merge. */
  ghost predicate MergeAllowed(t: Tables, a: MergeArgs) {
    && a.survivor in Live(t) && 1 <= a.shard <= COUNT_TABLE_PARTITIONS
    && (MergeRejected(t, a) || MergeTraceable(t.history, a.merged, a.survivor))
  }

  function MergeRow(a: MergeArgs): Row {
    Row(Kind.Merge, a.merged, a.survivor, a.factor)
  }

  lemma MergeLinks(t: Tables, a: MergeArgs)
    requires Linked(t.history) && Agrees(t) && !MergeRejected(t, a) && a.survivor in Live(t)
    ensures Linkable(t.history, MergeRow(a)) && Linked(t.history + [MergeRow(a)])
    ensures LivePath(t.history, a.merged) == [a.merged] && LivePath(t.history, a.survivor) == [a.survivor]
  {
    LiveIsRoot(t, a.survivor);
    LiveIsRoot(t, a.merged);
    Snoc(t.history, MergeRow(a));
  }

  lemma MergeKeepsPaths(h: History, e: Row, ids: set<Id>)
    requires PathsWithin(h, ids) && e.kind.Merge? && e.mergedInto in ids
    ensures PathsWithin(h + [e], ids)
  {
    Snoc(h, e);
  }

  lemma MergeKeepsMaster(h: History, e: Row, master: map<ProfileId, MasterRow>, now: nat)
    requires MasterFollows(h, master) && e.kind.Merge?
    ensures MasterFollows(h + [e], RepointMaster(master, e.mergedInto, e.toMerge, now))
  {
    Snoc(h, e);
  }

  lemma MergeKeepsInteractions(t: Tables, a: MergeArgs)
    requires InteractionsFollowMaster(t)
    ensures InteractionsFollow(RepointMaster(t.master, a.survivor, a.merged, a.now), RescoreMerged(t.interactions, a))
  {}

  lemma MergeKeepsOriginals(t: Tables, a: MergeArgs)
    requires OneRowPerOriginal(t) && OriginalsExist(t) && !MergeRejected(t, a)
    ensures OneRowPerOriginal(AfterMerge(t, a)) && OriginalsExist(AfterMerge(t, a))
  {
    RepointedIds(t, a);
    Snoc(t.history, MergeRow(a));
  }

  lemma MergeKeepsSearch(t: Tables, a: MergeArgs)
    requires SearchHoldsLive(t) && !MergeRejected(t, a) && a.survivor in Live(t)
    ensures SearchHoldsLive(AfterMerge(t, a)) && Live(AfterMerge(t, a)) == Live(t) - {a.merged}
  {
    RepointedIds(t, a);
  }

  lemma MergeKeepsCount(t: Tables, a: MergeArgs, n: nat)
    requires CountExceeds(t, n) && !MergeRejected(t, a) && a.survivor in Live(t) && 1 <= a.shard <= COUNT_TABLE_PARTITIONS
    ensures CountExceeds(AfterMerge(t, a), n)
  {
    RepointedIds(t, a);
    BumpMovesTotal(t.shards, a.shard, -1);
    assert Live(AfterMerge(t, a)) == Live(t) - {a.merged};
  }

  /** A merge into a live id keeps the tables in agreement, whatever was unmerged before. */
  lemma MergeKeepsAgrees(t: Tables, a: MergeArgs)
    requires Linked(t.history) && Agrees(t) && !MergeRejected(t, a) && a.survivor in Live(t)
    ensures Agrees(AfterMerge(t, a)) && Linked(AfterMerge(t, a).history)
  {
    MergeLinks(t, a);
    LiveIsRoot(t, a.survivor);
    RepointedIds(t, a);
    MergeKeepsPaths(t.history, MergeRow(a), Originals(t));
    MergeKeepsMaster(t.history, MergeRow(a), t.master, a.now);
    MergeKeepsOriginals(t, a);
    MergeKeepsInteractions(t, a);
    MergeKeepsSearch(t, a);
  }

  lemma MergeKeepsGrounded(t: Tables, a: MergeArgs)
    requires Grounded(t) && MergeAllowed(t, a)
    ensures Grounded(AfterMerge(t, a))
  {
    hide MergeTraceable, Linkable, Agrees;
    if !MergeRejected(t, a) {
      GroundedIsLinked(t);
      MergeKeepsAgrees(t, a);
      MergeLinks(t, a);
      Snoc(t.history, MergeRow(a));
    }
  }

  lemma MergeKeepsInv(t: Tables, a: MergeArgs)
    requires Inv(t) && MergeAllowed(t, a)
    ensures Inv(AfterMerge(t, a))
  {
    hide WellFormed, Agrees, MergeTraceable;
    MergeKeepsGrounded(t, a);
    if !MergeRejected(t, a) {
      MergeKeepsCount(t, a, 0);
    }
  }

  lemma DeadSurvivorIsNotFound(t: Tables, a: MergeArgs)
    requires SearchHoldsLive(t) && !MergeRejected(t, a) && a.survivor !in Live(t)
    ensures !SearchHoldsLive(AfterMerge(t, a))
  {
    RepointedIds(t, a);
    assert AfterMerge(t, a).search.Keys == Live(t) - {a.merged};
  }

  /** A merge of two different ids keeps the tables consistent exactly when the survivor is live,
      over any history that respects its callers' duties. */
  lemma MergeConsistentIffSurvivorLive(t: Tables, a: MergeArgs)
    requires Linked(t.history) && Consistent(t) && !MergeRejected(t, a) && 1 <= a.shard <= COUNT_TABLE_PARTITIONS
    ensures Consistent(AfterMerge(t, a)) <==> a.survivor in Live(t)
  {
    if a.survivor in Live(t) {
      MergeKeepsAgrees(t, a);
      MergeKeepsCount(t, a, 0);
    } else {
      DeadSurvivorIsNotFound(t, a);
    }
  }

  // ---- unmerge ----

  /** What the lineage query finds for b among the held ids is what hangs below b. */
  ghost predicate LineageFits(t: Tables, b: Id) {
    forall x :: x in Originals(t) ==> (InLineage(t.history, b, PROFILE_HISTORY_DEPTH, x) <==> HangsBelow(t.history, b, x))
  }

  /** No held id hangs deeper below b than the lineage query reaches, unless a repeated merge gives a shorter way down. */
  ghost predicate ChainsFit(t: Tables, b: Id) {
    forall x :: x in Originals(t) && HangsBelow(t.history, b, x) ==> ChainFits(t.history, b, x)
  }

  ghost predicate ChainFits(h: History, b: Id, x: Id) {
    HangsWithin(h, b, x, PROFILE_HISTORY_DEPTH + 1) || HasShortcut(h, b, PROFILE_HISTORY_DEPTH, x)
  }

  /** Over a history that can be followed, the lineage is right exactly when no chain is too deep. */
  lemma LineageFitsIff(t: Tables, b: Id)
    requires WellFormed(t.history) && b != NIL_UUID
    ensures LineageFits(t, b) <==> ChainsFit(t, b)
  {
    hide WellFormed, HangsWithin, HasShortcut, InLineage, HangsBelow, Originals;
    forall x | x in Originals(t)
      ensures (InLineage(t.history, b, PROFILE_HISTORY_DEPTH, x) <==> HangsBelow(t.history, b, x))
         <==> (HangsBelow(t.history, b, x) ==> ChainFits(t.history, b, x))
    {
      LineageReachesExactly(t.history, b, PROFILE_HISTORY_DEPTH, x);
      LineageIsWhatHangsBelow(t.history, b, PROFILE_HISTORY_DEPTH, x);
    }
  }

  /** Where nothing below b was merged more than once, that is a bound on the number of merges alone. */
  lemma ChainFitsIff(h: History, b: Id, x: Id)
    requires WellFormed(h) && NoneDoubledBelow(h, b)
    ensures ChainFits(h, b, x) <==> HangsWithin(h, b, x, PROFILE_HISTORY_DEPTH + 1)
  {
    NoShortcuts(h, b, PROFILE_HISTORY_DEPTH, x);
  }

  /** The unmerge names the id that holds the profile now, every chain below it can be found,
      and the lineage queries can follow it. */
  ghost predicate UnmergeAllowed(t: Tables, a: UnmergeArgs) {
    && a.unmerged in Originals(t) && Root(t.history, a.unmerged) == a.from && a.from != a.unmerged
    && ChainsFit(t, a.unmerged) && 1 <= a.shard <= COUNT_TABLE_PARTITIONS
    && UnmergeTraceable(t.history, a.unmerged, a.from)
  }

  ghost function UnmergeRow(t: Tables, a: UnmergeArgs): Row {
    Row(Kind.Unmerge, a.unmerged, a.from, RevertFactor(MergesLeadingToParent(t.history, a.unmerged)))
  }

  lemma RootAfterCut(h: History, e: Row, x: Id)
    requires e.kind.Unmerge?
    ensures Root(h + [e], x) == if HangsBelow(h, e.toMerge, x) then e.toMerge else Root(h, x)
  {
    Snoc(h, e);
  }

  lemma RootBelow(h: History, x: Id, b: Id)
    requires Linked(h) && b in LivePath(h, x)
    ensures Root(h, x) == Root(h, b)
  {
    hide Linked, LivePath;
    var p := LivePath(h, x);
    var k :| 0 <= k < |p| && p[k] == b;
    LiveSuffix(h, x, k);
    assert Last(p[k..]) == Last(p);
  }

  lemma OwnLineage(h: History, b: Id)
    ensures InLineage(h, b, PROFILE_HISTORY_DEPTH, b) && HangsBelow(h, b, b)
  {
    assert LineageStep(h, b, PROFILE_HISTORY_DEPTH, b, 0);
    assert LivePath(h, b)[0] == b;
  }

  lemma CutKeepsPaths(h: History, e: Row, ids: set<Id>)
    requires e.kind.Unmerge? && PathsWithin(h, ids)
    ensures PathsWithin(h + [e], ids)
  {
    Snoc(h, e);
  }

  lemma UnmergeKeepsMaster(t: Tables, a: UnmergeArgs)
    requires MasterFollowsHistory(t) && !UnmergeRejected(t, a) && LineageFits(t, a.unmerged)
    ensures MasterFollowsHistory(AfterUnmerge(t, a))
  {
    hide LivePath, InLineage, HangsBelow, RevertFactor;
    var t', e := AfterUnmerge(t, a), UnmergeRow(t, a);
    forall pid | pid in t.master ensures t'.master[pid].connectId == Root(t'.history, t'.master[pid].originalId) {
      assert t.master[pid].originalId in Originals(t);
      RootAfterCut(t.history, e, t.master[pid].originalId);
    }
  }

  lemma UnmergedIds(t: Tables, a: UnmergeArgs)
    requires !UnmergeRejected(t, a)
    ensures Originals(AfterUnmerge(t, a)) == Originals(t)
    ensures a.unmerged in Live(AfterUnmerge(t, a)) && Live(AfterUnmerge(t, a)) <= Live(t) + {a.unmerged}
    ensures AfterUnmerge(t, a).search.Keys == t.search.Keys + {a.from, a.unmerged}
  {
    var t', pids := AfterUnmerge(t, a), ProfileIdsToUnmerge(t, a.unmerged);
    var pid :| pid in pids;
    assert t'.master[pid].connectId == a.unmerged;
    forall x | x in Originals(t) ensures x in Originals(t') {
      var q := RowOf(t, x);
      assert t'.master[q].originalId == x;
    }
    forall x | x in Live(t') ensures x in Live(t) + {a.unmerged} {
      var q := HolderRow(t', x);
      assert q in t.master && t.master[q].connectId in Live(t);
    }
  }

  /** A live id other than b keeps its own row. */
  lemma OthersStayLive(t: Tables, a: UnmergeArgs, id: Id)
    requires Linked(t.history) && Agrees(t) && !UnmergeRejected(t, a) && LineageFits(t, a.unmerged)
    requires id in Live(t) && id != a.unmerged
    ensures id in Live(AfterUnmerge(t, a))
  {
    LiveIsRoot(t, id);
    var pid := RowOf(t, id);
    assert AfterUnmerge(t, a).master[pid].connectId == id;
  }

  lemma AllOthersStayLive(t: Tables, a: UnmergeArgs)
    requires Linked(t.history) && Agrees(t) && !UnmergeRejected(t, a) && LineageFits(t, a.unmerged)
    ensures forall id :: id in Live(t) && id != a.unmerged ==> id in Live(AfterUnmerge(t, a))
  {
    forall id | id in Live(t) && id != a.unmerged ensures id in Live(AfterUnmerge(t, a)) {
      OthersStayLive(t, a, id);
    }
  }

  lemma OneMore(small: set<Id>, large: set<Id>, x: Id)
    requires x in large && large <= small + {x} && forall y :: y in small && y != x ==> y in large
    ensures large == small + {x}
  {}

  lemma UnmergeAddsOneLive(t: Tables, a: UnmergeArgs)
    requires Linked(t.history) && Agrees(t) && !UnmergeRejected(t, a) && LineageFits(t, a.unmerged)
    requires Root(t.history, a.unmerged) != a.unmerged
    ensures Live(AfterUnmerge(t, a)) == Live(t) + {a.unmerged} && a.unmerged !in Live(t)
  {
    UnmergedIds(t, a);
    AllOthersStayLive(t, a);
    OneMore(Live(t), Live(AfterUnmerge(t, a)), a.unmerged);
    if a.unmerged in Live(t) {
      LiveIsRoot(t, a.unmerged);
    }
  }

  lemma UnmergeKeepsOriginals(t: Tables, a: UnmergeArgs)
    requires OneRowPerOriginal(t) && OriginalsExist(t) && PathsAreHeld(t) && InteractionsFollowMaster(t) && !UnmergeRejected(t, a)
    ensures OneRowPerOriginal(AfterUnmerge(t, a)) && OriginalsExist(AfterUnmerge(t, a))
    ensures PathsAreHeld(AfterUnmerge(t, a)) && InteractionsFollowMaster(AfterUnmerge(t, a))
  {
    hide RevertFactor, MergesLeadingToParent, InLineage, LivePath, PathsWithin, Deleted, Bump;
    UnmergedIds(t, a);
    SnocSets(t.history, UnmergeRow(t, a));
    CutKeepsPaths(t.history, UnmergeRow(t, a), Originals(t));
  }

  lemma UnmergeKeepsCount(t: Tables, a: UnmergeArgs, n: nat)
    requires CountExceeds(t, n) && !UnmergeRejected(t, a) && 1 <= a.shard <= COUNT_TABLE_PARTITIONS
    requires Live(AfterUnmerge(t, a)) == Live(t) + {a.unmerged} && a.unmerged !in Live(t)
    ensures CountExceeds(AfterUnmerge(t, a), n)
  {
    BumpMovesTotal(t.shards, a.shard, 1);
  }

  /** An unmerge of an id whose lineage is right keeps the tables in agreement. */
  lemma UnmergeKeepsAgrees(t: Tables, a: UnmergeArgs)
    requires Linked(t.history) && Agrees(t) && !UnmergeRejected(t, a) && LineageFits(t, a.unmerged)
    requires a.from in Live(t) && Root(t.history, a.unmerged) != a.unmerged
    ensures Agrees(AfterUnmerge(t, a)) && Live(AfterUnmerge(t, a)) == Live(t) + {a.unmerged} && a.unmerged !in Live(t)
  {
    UnmergeKeepsMaster(t, a);
    UnmergeKeepsOriginals(t, a);
    UnmergeAddsOneLive(t, a);
    UnmergedIds(t, a);
  }

  lemma UnmergeLinks(t: Tables, a: UnmergeArgs)
    requires Linked(t.history) && Agrees(t) && a.unmerged in Originals(t)
    requires Root(t.history, a.unmerged) == a.from && a.from != a.unmerged
    ensures Linkable(t.history, UnmergeRow(t, a)) && a.from in Live(t) && a.unmerged != NIL_UUID && a.unmerged != Blank
  {
    hide RevertFactor, MergesLeadingToParent;
    RootIsLive(t, a.unmerged);
    LiveIsRoot(t, a.from);
  }

  lemma UnmergeKeepsGrounded(t: Tables, a: UnmergeArgs)
    requires Grounded(t) && UnmergeAllowed(t, a) && !UnmergeRejected(t, a)
    ensures Grounded(AfterUnmerge(t, a)) && Live(AfterUnmerge(t, a)) == Live(t) + {a.unmerged} && a.unmerged !in Live(t)
  {
    hide WellFormed, Linkable, UnmergeTraceable, ChainsFit, LineageFits, RevertFactor, MergesLeadingToParent, LivePath, Agrees, Originals;
    GroundedIsLinked(t);
    UnmergeLinks(t, a);
    LineageFitsIff(t, a.unmerged);
    UnmergeKeepsAgrees(t, a);
    Snoc(t.history, UnmergeRow(t, a));
  }

  lemma UnmergeKeepsInv(t: Tables, a: UnmergeArgs)
    requires Inv(t) && UnmergeAllowed(t, a)
    ensures Inv(AfterUnmerge(t, a))
  {
    hide Grounded, UnmergeRejected, ChainsFit, UnmergeTraceable;
    if !UnmergeRejected(t, a) {
      UnmergeKeepsGrounded(t, a);
      UnmergeKeepsCount(t, a, 0);
    }
  }

  /** A wrong lineage leaves a master row behind, or takes one along. */
  lemma WrongLineageShows(t: Tables, a: UnmergeArgs)
    requires Linked(t.history) && MasterFollowsHistory(t) && !UnmergeRejected(t, a)
    requires Root(t.history, a.unmerged) != a.unmerged && !LineageFits(t, a.unmerged)
    ensures !MasterFollowsHistory(AfterUnmerge(t, a))
  {
    hide InLineage, RevertFactor;
    var h, b, t' := t.history, a.unmerged, AfterUnmerge(t, a);
    var x :| x in Originals(t) && !(InLineage(h, b, PROFILE_HISTORY_DEPTH, x) <==> HangsBelow(h, b, x));
    var pid := RowOf(t, x);
    RootAfterCut(h, UnmergeRow(t, a), x);
    if HangsBelow(h, b, x) {
      RootBelow(h, x, b);
      assert t'.master[pid].connectId == Root(h, b);
    } else {
      assert Root(h, x) in LivePath(h, x);
      assert t'.master[pid].connectId == b;
    }
  }

  /** For an id the master table holds, over any history that respects its callers' duties, an unmerge keeps the tables
      consistent exactly when the profile it is taken from is live, the id is not a profile of its own already,
      and its lineage is right. */
  lemma UnmergeConsistentIffLineageFits(t: Tables, a: UnmergeArgs)
    requires Linked(t.history) && Consistent(t) && a.unmerged in Originals(t) && 1 <= a.shard <= COUNT_TABLE_PARTITIONS
    requires a.from != Blank && a.from != a.unmerged
    ensures Consistent(AfterUnmerge(t, a)) <==>
      a.from in Live(t) && Root(t.history, a.unmerged) != a.unmerged && LineageFits(t, a.unmerged)
  {
    hide LineageFits, Agrees, Originals, Live, LivePath, AfterUnmerge, UnmergeRejected, Total, Bump;
    AgreesParts(t);
    HeldIsNotRejected(t, a);
    UnmergeBumps(t, a);
    UnmergedIds(t, a);
    BumpMovesTotal(t.shards, a.shard, 1);
    AgreesParts(AfterUnmerge(t, a));
    if Root(t.history, a.unmerged) == a.unmerged {
      RootIsLive(t, a.unmerged);
      FewerIds(Live(AfterUnmerge(t, a)), Live(t));
    } else if !LineageFits(t, a.unmerged) {
      WrongLineageShows(t, a);
    } else if a.from in Live(t) {
      UnmergeKeepsAgrees(t, a);
      UnmergeKeepsCount(t, a, 0);
    }
  }

  lemma AgreesParts(t: Tables)
    ensures Agrees(t) ==> MasterFollowsHistory(t) && SearchHoldsLive(t) && OriginalsExist(t)
  {}

  /** The profile id that has the unmerged id as its original is always found. */
  lemma HeldIsNotRejected(t: Tables, a: UnmergeArgs)
    requires OriginalsExist(t) && a.unmerged in Originals(t) && a.from != Blank && a.from != a.unmerged
    ensures !UnmergeRejected(t, a)
  {
    hide InLineage;
    var pid := RowOf(t, a.unmerged);
    OwnLineage(t.history, a.unmerged);
    assert pid in ProfileIdsToUnmerge(t, a.unmerged);
  }

  lemma UnmergeBumps(t: Tables, a: UnmergeArgs)
    requires !UnmergeRejected(t, a)
    ensures AfterUnmerge(t, a).shards == Bump(t.shards, a.shard, 1)
  {
    hide Bump, RevertFactor, MergesLeadingToParent;
  }

  /** Over a history that can be followed, the last condition is that no chain below the id is too deep. */
  lemma UnmergeConsistentIff(t: Tables, a: UnmergeArgs)
    requires Inv(t) && a.unmerged in Originals(t) && 1 <= a.shard <= COUNT_TABLE_PARTITIONS
    requires a.from != Blank && a.from != a.unmerged
    ensures Consistent(AfterUnmerge(t, a)) <==>
      a.from in Live(t) && Root(t.history, a.unmerged) != a.unmerged && ChainsFit(t, a.unmerged)
  {
    hide LineageFits, ChainsFit, RevertFactor, AfterUnmerge;
    GroundedIsLinked(t);
    LineageFitsIff(t, a.unmerged);
    UnmergeConsistentIffLineageFits(t, a);
  }

  // ---- delete ----

  lemma RemovedLive(t: Tables, id: Id, shard: int)
    ensures Live(RemoveProfile(t, id, shard)) == Live(t) - {id}
  {
    var t' := RemoveProfile(t, id, shard);
    forall x | x in Live(t) && x != id ensures x in Live(t') {
      var q := HolderRow(t, x);
      assert t'.master[q].connectId == x;
    }
  }

  lemma RemovedOriginals(t: Tables, id: Id, shard: int)
    requires MasterFollowsHistory(t) && OneRowPerOriginal(t)
    ensures forall x :: x in Originals(RemoveProfile(t, id, shard)) <==> x in Originals(t) && Root(t.history, x) != id
  {
    var t' := RemoveProfile(t, id, shard);
    forall x | x in Originals(t) && Root(t.history, x) != id ensures x in Originals(t') {
      var q := RowOf(t, x);
      assert t'.master[q].originalId == x;
    }
    forall x | x in Originals(t') ensures x in Originals(t) && Root(t.history, x) != id {
      var q := RowOf(t', x);
      assert q in t.master && t'.master[q] == t.master[q];
    }
  }

  function DeleteRow(id: Id): Row {
    Row(Kind.Delete, id, NIL_UUID, 0.0)
  }

  lemma DeleteRowKeepsPaths(h: History, id: Id)
    ensures Deleted(h + [DeleteRow(id)]) == Deleted(h) + {id}
    ensures forall x :: LivePath(h + [DeleteRow(id)], x) == LivePath(h, x)
  {
    Snoc(h, DeleteRow(id));
  }

  lemma DeleteKeepsOriginals(t: Tables, id: Id, shard: int)
    requires Linked(t.history) && Agrees(t) && id in Live(t)
    ensures PathsAreHeld(RemoveProfile(t, id, shard)) && OriginalsExist(RemoveProfile(t, id, shard))
  {
    var h, t' := t.history, RemoveProfile(t, id, shard);
    RemovedOriginals(t, id, shard);
    DeleteRowKeepsPaths(h, id);
    LiveIsRoot(t, id);
    forall x | x in Originals(t') ensures AllIn(LivePath(t'.history, x), Originals(t')) {
      assert AllIn(LivePath(h, x), Originals(t));
      forall y | y in LivePath(h, x) ensures y in Originals(t') {
        RootBelow(h, x, y);
      }
    }
  }

  lemma RemoveKeepsRows(t: Tables, id: Id, shard: int)
    requires MasterFollowsHistory(t) && InteractionsFollowMaster(t) && OneRowPerOriginal(t)
    ensures MasterFollowsHistory(RemoveProfile(t, id, shard)) && InteractionsFollowMaster(RemoveProfile(t, id, shard))
    ensures OneRowPerOriginal(RemoveProfile(t, id, shard))
  {
    DeleteRowKeepsPaths(t.history, id);
  }

  lemma RemoveKeepsGrounded(t: Tables, id: Id, shard: int)
    requires Grounded(t) && id in Live(t)
    ensures Grounded(RemoveProfile(t, id, shard))
  {
    GroundedIsLinked(t);
    LiveIsRoot(t, id);
    Snoc(t.history, DeleteRow(id));
    RemoveKeepsRows(t, id, shard);
    DeleteKeepsOriginals(t, id, shard);
    RemovedLive(t, id, shard);
  }

  lemma RemoveKeepsCount(t: Tables, id: Id, shard: int, n: nat)
    requires CountExceeds(t, n) && id in Live(t) && 1 <= shard <= COUNT_TABLE_PARTITIONS
    ensures CountExceeds(RemoveProfile(t, id, shard), n)
  {
    RemovedLive(t, id, shard);
    BumpMovesTotal(t.shards, shard, -1);
  }

  lemma DeletedProfile(t: Tables, a: DeleteArgs) returns (pid: ProfileId)
    requires AfterDelete(t, a) != t
    ensures pid in t.master && AfterDelete(t, a) == RemoveProfile(t, t.master[pid].connectId, a.shard)
    ensures t.master[pid].connectId in Live(t)
  {
    pid :| RowsOfOriginal(t, a.id) == {pid} && AfterDelete(t, a) == RemoveProfile(t, t.master[pid].connectId, a.shard);
    assert pid in RowsOfOriginal(t, a.id);
  }

  lemma DeleteKeepsGrounded(t: Tables, a: DeleteArgs)
    requires Grounded(t)
    ensures Grounded(AfterDelete(t, a))
  {
    hide Grounded, RemoveProfile;
    if AfterDelete(t, a) != t {
      var pid := DeletedProfile(t, a);
      RemoveKeepsGrounded(t, t.master[pid].connectId, a.shard);
    }
  }

  lemma DeleteKeepsCount(t: Tables, a: DeleteArgs, n: nat)
    requires CountExceeds(t, n) && 1 <= a.shard <= COUNT_TABLE_PARTITIONS
    ensures CountExceeds(AfterDelete(t, a), n)
  {
    hide CountExceeds, RemoveProfile;
    if AfterDelete(t, a) != t {
      var pid := DeletedProfile(t, a);
      RemoveKeepsCount(t, t.master[pid].connectId, a.shard, n);
    }
  }

  /** A delete keeps the invariant whatever id it is asked for. */
  lemma DeleteKeepsInv(t: Tables, a: DeleteArgs)
    requires Inv(t) && 1 <= a.shard <= COUNT_TABLE_PARTITIONS
    ensures Inv(AfterDelete(t, a))
  {
    DeleteKeepsGrounded(t, a);
    DeleteKeepsCount(t, a, 0);
  }

  // ---- runs ----

  datatype Op =
    | Put(put: PutArgs)
    | PreMatchPut(put: PutArgs, found: Id)
    | MergeOp(merge: MergeArgs)
    | UnmergeOp(unmerge: UnmergeArgs)
    | DeleteOp(delete: DeleteArgs)

  ghost function Apply(t: Tables, op: Op): Tables {
    match op
    case Put(a) => AfterPut(t, a)
    case PreMatchPut(a, found) => AfterPreMatchPut(t, a, found)
    case MergeOp(a) => AfterMerge(t, a)
    case UnmergeOp(a) => AfterUnmerge(t, a)
    case DeleteOp(a) => AfterDelete(t, a)
  }

  ghost predicate Allowed(t: Tables, op: Op) {
    match op
    case Put(a) => PutAllowed(t, a)
    case PreMatchPut(a, found) => PutAllowed(t, a) && found in Live(t)
    case MergeOp(a) => MergeAllowed(t, a)
    case UnmergeOp(a) => UnmergeAllowed(t, a)
    case DeleteOp(a) => 1 <= a.shard <= COUNT_TABLE_PARTITIONS
  }

  ghost function Run(t: Tables, ops: seq<Op>): Tables {
    if ops == [] then t else Apply(Run(t, ops[..|ops| - 1]), ops[|ops| - 1])
  }

  /** Puts use fresh ids, matches and survivors are live, unmerges name the current holder,
      and merges and unmerges can be followed by the lineage queries; deletes are free. */
  ghost predicate RunAllowed(t: Tables, ops: seq<Op>) {
    ops == [] || (RunAllowed(t, ops[..|ops| - 1]) && Allowed(Run(t, ops[..|ops| - 1]), ops[|ops| - 1]))
  }

  ghost predicate WithoutUnmerge(ops: seq<Op>) {
    forall i :: 0 <= i < |ops| ==> !ops[i].UnmergeOp?
  }

  /** What one operation adds to the count beyond the profiles it creates. */
  function Overcount(t: Tables, op: Op): nat {
    if op.PreMatchPut? && op.put.key.profileId !in t.master then 1 else 0
  }

  /** How many puts of a run filed a new profile id under a match. */
  ghost function Overcounts(t: Tables, ops: seq<Op>): nat {
    if ops == [] then 0 else Overcounts(t, ops[..|ops| - 1]) + Overcount(Run(t, ops[..|ops| - 1]), ops[|ops| - 1])
  }

  lemma EmptyTablesInv(config: Config)
    ensures Inv(EmptyTables(config))
  {
    ZerosTotal(InitialShards());
  }

  lemma StepKeepsGrounded(t: Tables, op: Op)
    requires Grounded(t) && Allowed(t, op)
    ensures Grounded(Apply(t, op))
  {
    match op
    case Put(a) => PutKeepsAgrees(t, a);
    case PreMatchPut(a, found) => PreMatchPutKeepsGrounded(t, a, found);
    case MergeOp(a) => MergeKeepsGrounded(t, a);
    case UnmergeOp(a) => if !UnmergeRejected(t, a) { UnmergeKeepsGrounded(t, a); }
    case DeleteOp(a) => DeleteKeepsGrounded(t, a);
  }

  lemma StepMovesCount(t: Tables, op: Op, n: nat)
    requires Grounded(t) && Allowed(t, op) && CountExceeds(t, n)
    ensures CountExceeds(Apply(t, op), n + Overcount(t, op))
  {
    hide Agrees, WellFormed;
    match op
    case Put(a) => CountAfterPut(t, a, n);
    case PreMatchPut(a, found) => PreMatchPutOvercounts(t, a, found, n);
    case MergeOp(a) => if !MergeRejected(t, a) { MergeKeepsCount(t, a, n); }
    case UnmergeOp(a) => if !UnmergeRejected(t, a) { UnmergeKeepsGrounded(t, a); UnmergeKeepsCount(t, a, n); }
    case DeleteOp(a) => DeleteKeepsCount(t, a, n);
  }

  lemma CountAfterPut(t: Tables, a: PutArgs, n: nat)
    requires Grounded(t) && PutAllowed(t, a) && CountExceeds(t, n)
    ensures CountExceeds(AfterPut(t, a), n)
  {
    GroundedIsLinked(t);
    FreshIsNotLive(t, a);
    PutKeepsCount(t, a, n);
  }

  /** Safety over every run: master rows point at the root of their original id, interactions follow them,
      the search table holds exactly the live ids, and the shards add up to their number
      and one more for each new profile id that was filed under a match. */
  lemma {:induction false} RunKeepsInv(config: Config, ops: seq<Op>)
    requires RunAllowed(EmptyTables(config), ops)
    ensures var t := Run(EmptyTables(config), ops); Grounded(t) && CountExceeds(t, Overcounts(EmptyTables(config), ops))
  {
    hide Grounded, CountExceeds, Allowed, Apply;
    if ops == [] {
      InvParts(config);
    } else {
      var ops', op := ops[..|ops| - 1], ops[|ops| - 1];
      RunKeepsInv(config, ops');
      StepKeepsGrounded(Run(EmptyTables(config), ops'), op);
      StepMovesCount(Run(EmptyTables(config), ops'), op, Overcounts(EmptyTables(config), ops'));
    }
  }

  lemma InvParts(config: Config)
    ensures Grounded(EmptyTables(config)) && CountExceeds(EmptyTables(config), 0)
  {
    EmptyTablesInv(config);
  }
}
