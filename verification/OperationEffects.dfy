/** What an operation leaves of every table, told by the tables before and after it. */
module OperationEffects {
  import opened MergeHistory
  import opened LineageQuery
  import opened UpwardQuery
  import opened Lineage
  import opened FieldResolution
  import opened ProfileCount
  import opened ProfileTables
  import opened IdentityInvariant

  /** Search columns as puts leave them. */
  ghost predicate SearchSound(t: Tables) {
    forall id, f :: id in t.search && f in t.search[id] ==> Sound(t.search[id][f])
  }

  /** The better of two columns, the newcomer if they tie. */
  function Better(prio: seq<ObjectType>, old_: Column, newcomer: Column): Column
    requires Sound(old_) && Sound(newcomer)
  {
    if Beats(prio, old_, newcomer) then old_ else newcomer
  }

  // ---- put ----

  /** The object as it was written: the new values win, fields not put stay, and a known object keeps owner, score and time. */
  ghost predicate ObjectWritten(t: Tables, written: Interaction, a: PutArgs, owner: Id, recorded: nat) {
    && (forall f :: f in a.fields ==> f in written.fields && written.fields[f] == a.fields[f])
    && written.lastUpdated == a.lastUpdated
    && if a.key in t.interactions then
         var before := t.interactions[a.key];
         && (forall f :: f !in a.fields ==> (f in written.fields <==> f in before.fields))
         && (forall f :: f in before.fields && f !in a.fields ==> written.fields[f] == before.fields[f])
         && written.connectId == before.connectId && written.score == before.score && written.recorded == before.recorded
       else
         && written.fields.Keys == a.fields.Keys
         && written.connectId == owner && written.score == 1.0 && written.recorded == recorded
  }

  /** The search row: a field that was put with a value is the better of what it was and what is put. */
  ghost predicate RowWritten(config: Config, row: SearchRow, before: SearchRow, a: PutArgs)
    requires forall f :: f in before ==> Sound(before[f])
  {
    && row.Keys == before.Keys
    && forall f :: f in row ==>
         if f in a.fields && a.fields[f] != Text("")
         then row[f] == Better(config.priority, before[f], Filled(a.fields[f], a.lastUpdated, a.key.objectType))
         else row[f] == before[f]
  }

  ghost predicate PutDone(t: Tables, t': Tables, a: PutArgs, found: Option<Id>)
    requires SearchSound(t)
  {
    var pid := a.key.profileId;
    var id := if pid in t.master then t.master[pid].connectId else if found.Some? then found.value else a.freshId;
    && t'.config == t.config
    && t'.master == (if pid in t.master then t.master else t.master[pid := MasterRow(id, a.freshId, a.now)])
    && t'.history == t.history + (if found == Some(id) then [Row(Kind.Merge, a.freshId, id, 1.0)] else [])
    && (forall k :: k in t'.interactions <==> k in t.interactions || k == a.key)
    && (forall k :: k in t.interactions && k != a.key ==> t'.interactions[k] == t.interactions[k])
    && ObjectWritten(t, t'.interactions[a.key], a, id, |t'.history|)
    && t'.search.Keys == t.search.Keys + {id}
    && (forall s :: s in t.search && s != id ==> t'.search[s] == t.search[s])
    && (id in t.search ==> RowWritten(t.config, t'.search[id], t.search[id], a))
    && (id !in t.search ==> RowWritten(t.config, t'.search[id], map f | f in t.config.columns :: NULL, a))
    && (1 <= a.shard <= |t.shards| ==> Total(t'.shards) == Total(t.shards) + if pid in t.master then 0 else 1)
  }

  lemma RowIsWritten(t: Tables, a: PutArgs, before: SearchRow)
    requires forall f :: f in before ==> Sound(before[f])
    ensures var offered := Offered(a.fields, a.lastUpdated, a.key.objectType);
      RowWritten(t.config, UpdateColumns(t.config.priority, before, offered, offered.Keys), before, a)
  {
    forall f | f in before && f in a.fields && a.fields[f] != Text("")
      ensures Resolve(t.config.priority, before[f], Filled(a.fields[f], a.lastUpdated, a.key.objectType))
           == Better(t.config.priority, before[f], Filled(a.fields[f], a.lastUpdated, a.key.objectType))
    {
      ResolveIsMax(t.config.priority, before[f], Filled(a.fields[f], a.lastUpdated, a.key.objectType));
    }
  }

  /** A put, of a known object or a new one, and on any tables whose search columns are as puts leave them. */
  lemma PutEffect(t: Tables, a: PutArgs)
    requires SearchSound(t)
    ensures PutDone(t, AfterPut(t, a), a, None) && SearchSound(AfterPut(t, a))
  {
    hide UpdateColumns, Offered, Bump, RowWritten;
    var id := HolderOf(t, a.key.profileId, a.freshId);
    RowIsWritten(t, a, RowOrEmpty(t, id));
    if 1 <= a.shard <= |t.shards| {
      BumpMovesTotal(t.shards, a.shard, 1);
    }
    PutSound(t, a);
  }

  lemma PutSound(t: Tables, a: PutArgs)
    requires SearchSound(t)
    ensures SearchSound(AfterPut(t, a))
  {
    var id, offered := HolderOf(t, a.key.profileId, a.freshId), Offered(a.fields, a.lastUpdated, a.key.objectType);
    forall f | f in RowOrEmpty(t, id) && f in offered ensures Sound(Resolve(t.config.priority, RowOrEmpty(t, id)[f], offered[f])) {}
  }

  /** A put that found a match before its profile id was inserted. */
  lemma PreMatchPutEffect(t: Tables, a: PutArgs, found: Id)
    requires SearchSound(t)
    ensures PutDone(t, AfterPreMatchPut(t, a, found), a, Some(found)) && SearchSound(AfterPreMatchPut(t, a, found))
  {
    hide AfterPut, Bump, RowWritten;
    if 1 <= a.shard <= |t.shards| {
      BumpMovesTotal(t.shards, a.shard, 1);
    }
    PutEffect(FiledUnder(t, a, found), a);
  }

  // ---- merge ----

  /** The id that the history gives the profile of a master row. */
  ghost function HolderIn(t: Tables, pid: ProfileId): Id
    requires pid in t.master
  {
    Root(t.history, t.master[pid].originalId)
  }

  /** Everything that belonged to the merged id belongs to the survivor, its scores multiplied; each search column is the better of
      the two; all else is as it was. */
  ghost predicate MergeDone(t: Tables, t': Tables, a: MergeArgs)
    requires SearchSound(t) && InteractionsFollowMaster(t)
  {
    && RowsMerged(t, t', a) && SearchMerged(t, t', a)
    && t'.history == t.history + [Row(Kind.Merge, a.merged, a.survivor, a.factor)] && t'.config == t.config
    && (1 <= a.shard <= |t.shards| ==> Total(t'.shards) == Total(t.shards) - 1)
  }

  ghost predicate RowsMerged(t: Tables, t': Tables, a: MergeArgs)
    requires InteractionsFollowMaster(t)
  {
    && t'.master.Keys == t.master.Keys && t'.interactions.Keys == t.interactions.Keys
    && (forall pid :: pid in t.master ==>
          t'.master[pid] == if HolderIn(t, pid) == a.merged then MasterRow(a.survivor, t.master[pid].originalId, a.now) else t.master[pid])
    && (forall k :: k in t.interactions ==>
          t'.interactions[k] == if HolderIn(t, k.profileId) == a.merged
          then t.interactions[k].(connectId := a.survivor, score := t.interactions[k].score * a.factor)
          else t.interactions[k])
  }

  ghost predicate SearchMerged(t: Tables, t': Tables, a: MergeArgs)
    requires SearchSound(t)
  {
    && a.survivor != a.merged && {a.survivor, a.merged} <= t.search.Keys && t'.search.Keys == t.search.Keys - {a.merged}
    && (forall s :: s in t'.search && s != a.survivor ==> t'.search[s] == t.search[s])
    && var x, y, z := t.search[a.survivor], t.search[a.merged], t'.search[a.survivor];
    && z.Keys == x.Keys
    && (forall f :: f in x && f in y && f in t.config.columns ==> z[f] == Better(t.config.priority, x[f], y[f]))
    && (forall f :: f in x && f !in t.config.columns ==> z[f] == x[f])
  }

  lemma SearchIsMerged(t: Tables, a: MergeArgs)
    requires SearchSound(t) && SearchHoldsLive(t) && !MergeRejected(t, a) && a.survivor in Live(t)
    ensures SearchMerged(t, AfterMerge(t, a), a) && SearchSound(AfterMerge(t, a))
  {
    hide Live, RescoreMerged, RepointMaster, Bump, Rank, Beats;
    var prio, x, y := t.config.priority, t.search[a.survivor], t.search[a.merged];
    forall f | f in x ensures Sound(Resolve(prio, x[f], Get(y, f))) && Resolve(prio, x[f], Get(y, f)) == Better(prio, x[f], Get(y, f)) {
      ResolveIsMax(prio, x[f], Get(y, f));
    }
  }

  lemma RowsAreMerged(t: Tables, a: MergeArgs)
    requires MasterFollowsHistory(t) && InteractionsFollowMaster(t) && !MergeRejected(t, a)
    ensures RowsMerged(t, AfterMerge(t, a), a)
  {
    hide LivePath, Bump, MergeSearch;
  }

  /** A merge of one live id into another, on any tables that agree. */
  lemma MergeEffect(t: Tables, a: MergeArgs)
    requires SearchSound(t) && Agrees(t) && !MergeRejected(t, a) && a.survivor in Live(t)
    ensures MergeDone(t, AfterMerge(t, a), a) && SearchSound(AfterMerge(t, a))
  {
    SearchIsMerged(t, a);
    RowsAreMerged(t, a);
    hide Bump, MergeSearch, RescoreMerged, RepointMaster, RowsMerged, SearchMerged, SearchSound, PathsAreHeld, MergeRejected, Live,
         MasterFollowsHistory, OneRowPerOriginal, OriginalsExist, SearchHoldsLive;
    if 1 <= a.shard <= |t.shards| {
      BumpMovesTotal(t.shards, a.shard, -1);
    }
  }

  // ---- unmerge ----

  /** Everything whose original id hangs below b belongs to b, its scores divided by the factor the history records; the two
      search rows are the rebuilt ones; all else is as it was. */
  ghost predicate UnmergeDone(t: Tables, t': Tables, a: UnmergeArgs)
    requires InteractionsFollowMaster(t)
  {
    && t'.config == t.config && t'.master.Keys == t.master.Keys && t'.interactions.Keys == t.interactions.Keys
    && |t'.history| == |t.history| + 1
    && var e := t'.history[|t.history|];
    && t'.history == t.history + [e] && e == Row(Kind.Unmerge, a.unmerged, a.from, e.factor) && e.factor != 0.0
    && (forall pid :: pid in t.master ==>
          t'.master[pid] == if HangsBelow(t.history, a.unmerged, t.master[pid].originalId) then t.master[pid].(connectId := a.unmerged) else t.master[pid])
    && (forall k :: k in t.interactions ==>
          t'.interactions[k] == if HangsBelow(t.history, a.unmerged, t.master[k.profileId].originalId)
          then t.interactions[k].(connectId := a.unmerged, score := t.interactions[k].score / e.factor)
          else t.interactions[k])
    && t'.search.Keys == t.search.Keys + {a.unmerged, a.from}
    && t'.search[a.unmerged] == a.unmergedRow && t'.search[a.from] == a.fromRow
    && (forall s :: s in t.search && s != a.unmerged && s != a.from ==> t'.search[s] == t.search[s])
    && (1 <= a.shard <= |t.shards| ==> Total(t'.shards) == Total(t.shards) + 1)
  }

  /** An unmerge whose lineage is right, on any tables. */
  lemma UnmergeEffect(t: Tables, a: UnmergeArgs)
    requires InteractionsFollowMaster(t) && !UnmergeRejected(t, a) && LineageFits(t, a.unmerged)
    ensures UnmergeDone(t, AfterUnmerge(t, a), a)
  {
    hide LivePath, Bump, InLineage, RevertFactor, MergesLeadingToParent, HangsBelow;
    var t' := AfterUnmerge(t, a);
    forall pid | pid in t.master
      ensures pid in ProfileIdsToUnmerge(t, a.unmerged) <==> HangsBelow(t.history, a.unmerged, t.master[pid].originalId)
    {
      assert t.master[pid].originalId in Originals(t);
    }
    if 1 <= a.shard <= |t.shards| {
      BumpMovesTotal(t.shards, a.shard, 1);
    }
  }

  // ---- delete ----

  /** The profile that the history gives x is gone from every table, and with it every original id it held; all else is as it was. */
  ghost predicate DeleteDone(t: Tables, t': Tables, x: Id, shard: int)
    requires InteractionsFollowMaster(t)
  {
    var r := Root(t.history, x);
    && t'.config == t.config && t'.history == t.history + [Row(Kind.Delete, r, NIL_UUID, 0.0)]
    && r !in Live(t') && r !in t'.search && (forall k :: k in t'.interactions ==> t'.interactions[k].connectId != r)
    && (forall y :: Root(t.history, y) == r ==> y !in Originals(t'))
    && (forall pid :: pid in t'.master <==> pid in t.master && HolderIn(t, pid) != r)
    && (forall pid :: pid in t'.master ==> t'.master[pid] == t.master[pid])
    && t'.search.Keys == t.search.Keys - {r} && (forall s :: s in t'.search ==> t'.search[s] == t.search[s])
    && (forall k :: k in t'.interactions <==> k in t.interactions && HolderIn(t, k.profileId) != r)
    && (forall k :: k in t'.interactions ==> t'.interactions[k] == t.interactions[k])
    && (1 <= shard <= |t.shards| ==> Total(t'.shards) == Total(t.shards) - 1)
  }

  /** A delete by any original id that is held, on any tables that agree. */
  lemma DeleteEffect(t: Tables, a: DeleteArgs)
    requires MasterFollowsHistory(t) && InteractionsFollowMaster(t) && OneRowPerOriginal(t) && a.id in Originals(t)
    ensures DeleteDone(t, AfterDelete(t, a), a.id, a.shard)
  {
    hide LivePath, Bump;
    var pid := RowOf(t, a.id);
    assert RowsOfOriginal(t, a.id) == {pid};
    if 1 <= a.shard <= |t.shards| {
      BumpMovesTotal(t.shards, a.shard, -1);
    }
  }
}
