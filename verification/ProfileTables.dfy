/** The tables of one domain, and what one put, merge, unmerge or delete does to them. */
module ProfileTables {
  import opened MergeHistory
  import opened LineageQuery
  import opened UpwardQuery
  import opened Lineage
  import opened FieldResolution
  import opened ProfileCount

  type ProfileId = Text

  /** Domain configuration: object type priority and the columns of the search table. */
  datatype Config = Config(priority: seq<ObjectType>, columns: set<Field>)

  datatype MasterRow = MasterRow(connectId: Id, originalId: Id, updated: nat)

  datatype ObjectKey = ObjectKey(objectType: ObjectType, profileId: ProfileId, objectId: Text)

  /** A row of an interaction table. `recorded` is its timestamp, measured as the number of history rows then present. */
  datatype Interaction = Interaction(connectId: Id, score: real, recorded: nat, fields: map<Field, Text>, lastUpdated: int)

  datatype Tables = Tables(
    config: Config,
    master: map<ProfileId, MasterRow>,
    search: map<Id, SearchRow>,
    interactions: map<ObjectKey, Interaction>,
    history: History,
    shards: seq<int>)

  function EmptyTables(config: Config): Tables {
    Tables(config, map[], map[], map[], [], InitialShards())
  }

  function Originals(t: Tables): set<Id> {
    set pid | pid in t.master :: t.master[pid].originalId
  }

  function Live(t: Tables): set<Id> {
    set pid | pid in t.master :: t.master[pid].connectId
  }

  /** Rows that differ in their timestamp at most. */
  ghost predicate SameHolders(master: map<ProfileId, MasterRow>, master': map<ProfileId, MasterRow>) {
    && master'.Keys == master.Keys
    && forall pid :: pid in master ==> master'[pid].connectId == master[pid].connectId && master'[pid].originalId == master[pid].originalId
  }

  // ---- put ----

  datatype PutArgs = PutArgs(key: ObjectKey, fields: map<Field, Text>, lastUpdated: int, freshId: Id, now: nat, shard: int)

  function HolderOf(t: Tables, pid: ProfileId, freshId: Id): Id {
    if pid in t.master then t.master[pid].connectId else freshId
  }

  function RowOrEmpty(t: Tables, id: Id): SearchRow {
    if id in t.search then t.search[id] else EmptyRow(t.config.columns)
  }

  function PutInteraction(t: Tables, a: PutArgs): Interaction {
    if a.key in t.interactions then t.interactions[a.key].(fields := t.interactions[a.key].fields + a.fields, lastUpdated := a.lastUpdated)
    else Interaction(HolderOf(t, a.key.profileId, a.freshId), 1.0, |t.history|, a.fields, a.lastUpdated)
  }

  /** An object for a known or a new profile id. */
  function AfterPut(t: Tables, a: PutArgs): Tables {
    var pid := a.key.profileId;
    var id := HolderOf(t, pid, a.freshId);
    var offered := Offered(a.fields, a.lastUpdated, a.key.objectType);
    t.(
      master := if pid in t.master then t.master else t.master[pid := MasterRow(a.freshId, a.freshId, a.now)],
      search := t.search[id := UpdateColumns(t.config.priority, RowOrEmpty(t, id), offered, offered.Keys)],
      interactions := t.interactions[a.key := PutInteraction(t, a)],
      shards := if pid in t.master then t.shards else Bump(t.shards, a.shard, 1))
  }

  /** A profile id whose record matched a profile is filed under the match at once, unless it is known already;
      if the match holds it then, a history row says so, and a new profile id is counted as a new profile. */
  function FiledUnder(t: Tables, a: PutArgs, found: Id): Tables {
    var pid := a.key.profileId;
    var filed := if pid in t.master then t.master else t.master[pid := MasterRow(found, a.freshId, a.now)];
    t.(
      master := filed,
      history := if filed[pid].connectId == found then t.history + [Row(Kind.Merge, a.freshId, found, 1.0)] else t.history,
      shards := if pid in t.master then t.shards else Bump(t.shards, a.shard, 1))
  }

  /** A put that found a match before the profile id was inserted. */
  function AfterPreMatchPut(t: Tables, a: PutArgs, found: Id): Tables {
    AfterPut(FiledUnder(t, a, found), a)
  }

  // ---- merge ----

  datatype MergeArgs = MergeArgs(survivor: Id, merged: Id, factor: real, now: nat, shard: int)

  function RepointMaster(master: map<ProfileId, MasterRow>, to: Id, from: Id, now: nat): map<ProfileId, MasterRow> {
    map pid | pid in master :: if master[pid].connectId == from then master[pid].(connectId := to, updated := now) else master[pid]
  }

  function RescoreMerged(interactions: map<ObjectKey, Interaction>, a: MergeArgs): map<ObjectKey, Interaction> {
    map k | k in interactions ::
      if interactions[k].connectId == a.merged
      then interactions[k].(connectId := a.survivor, score := interactions[k].score * a.factor)
      else interactions[k]
  }

  function MergeSearch(config: Config, search: map<Id, SearchRow>, a: MergeArgs): map<Id, SearchRow> {
    (if a.survivor in search && a.merged in search
     then search[a.survivor := UpdateColumns(config.priority, search[a.survivor], search[a.merged], config.columns)]
     else search) - {a.merged}
  }

  predicate MergeRejected(t: Tables, a: MergeArgs) {
    a.survivor == Blank || a.merged == Blank || a.survivor == a.merged || a.merged !in Live(t)
  }

  function AfterMerge(t: Tables, a: MergeArgs): Tables {
    if MergeRejected(t, a) then t
    else t.(
      master := RepointMaster(t.master, a.survivor, a.merged, a.now),
      search := MergeSearch(t.config, t.search, a),
      interactions := RescoreMerged(t.interactions, a),
      history := t.history + [Row(Kind.Merge, a.merged, a.survivor, a.factor)],
      shards := Bump(t.shards, a.shard, -1))
  }

  // ---- unmerge ----

  /** The search rows of both profiles are rebuilt from interactions read on another connection, so they are inputs here. */
  datatype UnmergeArgs = UnmergeArgs(from: Id, unmerged: Id, fromRow: SearchRow, unmergedRow: SearchRow, shard: int)

  ghost function ProfileIdsToUnmerge(t: Tables, b: Id): set<ProfileId> {
    set pid | pid in t.master && InLineage(t.history, b, PROFILE_HISTORY_DEPTH, t.master[pid].originalId)
  }

  /** Merges multiply, unmerges divide, zero factors are skipped. */
  function RevertFactor(rows: seq<Row>): (f: real)
    ensures f != 0.0
  {
    if rows == [] then 1.0
    else
      var f, e := RevertFactor(rows[..|rows| - 1]), rows[|rows| - 1];
      if e.factor == 0.0 then f
      else if e.kind.Unmerge? then NonZeroQuotient(f, e.factor)
      else NonZeroProduct(f, e.factor)
  }

  function NonZeroProduct(x: real, y: real): (z: real)
    requires x != 0.0 && y != 0.0
    ensures z != 0.0 && z == x * y
  {
    assert x * y / y == x;
    x * y
  }

  function NonZeroQuotient(x: real, y: real): (z: real)
    requires x != 0.0 && y != 0.0
    ensures z != 0.0 && z == x / y
  {
    assert x / y * y == x;
    x / y
  }

  ghost function RescoreUnmerged(interactions: map<ObjectKey, Interaction>, pids: set<ProfileId>, b: Id, revert: real): map<ObjectKey, Interaction>
    requires revert != 0.0
  {
    map k | k in interactions ::
      if k.profileId in pids
      then interactions[k].(connectId := b, score := interactions[k].score / revert)
      else interactions[k]
  }

  ghost function AssignMaster(master: map<ProfileId, MasterRow>, pids: set<ProfileId>, b: Id): map<ProfileId, MasterRow> {
    map pid | pid in master :: if pid in pids then master[pid].(connectId := b) else master[pid]
  }

  /** An empty list of profile ids makes the statement malformed, which rolls the unmerge back. */
  ghost predicate UnmergeRejected(t: Tables, a: UnmergeArgs) {
    a.from == Blank || a.unmerged == Blank || a.from == a.unmerged || ProfileIdsToUnmerge(t, a.unmerged) == {}
  }

  ghost function AfterUnmerge(t: Tables, a: UnmergeArgs): Tables {
    if UnmergeRejected(t, a) then t
    else
      var pids := ProfileIdsToUnmerge(t, a.unmerged);
      var revert := RevertFactor(MergesLeadingToParent(t.history, a.unmerged));
      t.(
        master := AssignMaster(t.master, pids, a.unmerged),
        search := t.search[a.unmerged := a.unmergedRow][a.from := a.fromRow],
        interactions := RescoreUnmerged(t.interactions, pids, a.unmerged, revert),
        history := t.history + [Row(Kind.Unmerge, a.unmerged, a.from, revert)],
        shards := Bump(t.shards, a.shard, 1))
  }

  // ---- delete ----

  datatype DeleteArgs = DeleteArgs(id: Id, shard: int)

  function RowsOfOriginal(t: Tables, x: Id): set<ProfileId> {
    set pid | pid in t.master && t.master[pid].originalId == x
  }

  function RemoveProfile(t: Tables, id: Id, shard: int): Tables {
    t.(
      master := map pid | pid in t.master && t.master[pid].connectId != id :: t.master[pid],
      search := t.search - {id},
      interactions := map k | k in t.interactions && t.interactions[k].connectId != id :: t.interactions[k],
      history := t.history + [Row(Kind.Delete, id, NIL_UUID, 0.0)],
      shards := Bump(t.shards, shard, -1))
  }

  /** The id asked for is an original id; what is deleted is the profile that holds it now.
      No row is a delete already done, and two rows are refused. */
  ghost function AfterDelete(t: Tables, a: DeleteArgs): Tables {
    if exists pid :: RowsOfOriginal(t, a.id) == {pid}
    then var pid :| RowsOfOriginal(t, a.id) == {pid}; RemoveProfile(t, t.master[pid].connectId, a.shard)
    else t
  }
}
