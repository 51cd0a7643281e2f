/** The storage engine over its tables: each operation is the sequence of statements the source runs,
    proved to do to the tables what ProfileTables says. */
module IdentityStore {
  import opened Lists
  import opened MergeHistory
  import opened LineageQuery
  import opened UpwardQuery
  import opened Lineage
  import opened FieldResolution
  import opened ProfileCount
  import opened ProfileTables
  import opened IdentityInvariant
  import opened ProfileRequests
  import opened OperationEffects
  import Placeholders

  const ROLLBACK_BATCH: nat := 5000
  const COLUMN_BATCH: nat := 100
  const UPSERT_FIELDS: nat := 20

  // the statements of a put, in order
  const MASTER_INSERT := 0
  const MATCH_ROW := 1
  const START := 2
  const SEARCH_UPSERT := 3
  const SEARCH_UPDATE := 4
  const PROFILE_COUNT := 5
  const OBJECT_UPSERT := 6
  const OBJECT_COUNT := 7
  const COMMIT := 8

  function AfterPutOf(t: Tables, a: PutArgs, found: Option<Id>): Tables {
    if found.Some? then AfterPreMatchPut(t, a, found.value) else AfterPut(t, a)
  }

  /** The id that holds the profile id once it is filed. */
  function PutHolder(t: Tables, a: PutArgs, found: Option<Id>): Id {
    HolderOf(t, a.key.profileId, if found.Some? then found.value else a.freshId)
  }

  /** The master row alone. */
  function RowFiled(t: Tables, a: PutArgs, found: Option<Id>): Tables {
    var pid := a.key.profileId;
    if pid in t.master then t else t.(master := t.master[pid := MasterRow(PutHolder(t, a, found), a.freshId, a.now)])
  }

  /** The master row, and the history row of a match. */
  function Filed(t: Tables, a: PutArgs, found: Option<Id>): Tables {
    var t1, id := RowFiled(t, a, found), PutHolder(t, a, found);
    if found == Some(id) then t1.(history := t.history + [Row(Kind.Merge, a.freshId, id, 1.0)]) else t1
  }

  /** What a put leaves whose statement `fault` failed. */
  function FailedPut(t: Tables, a: PutArgs, found: Option<Id>, fault: int): Tables {
    var deletes := if fault < OBJECT_COUNT then a.key.profileId !in t.master else a.key !in t.interactions;
    if fault == MASTER_INSERT then t
    else if fault == MATCH_ROW then RowFiled(t, a, found)
    else if fault == START || !deletes then Filed(t, a, found)
    else Filed(t, a, found).(search := t.search - {PutHolder(t, a, found)})
  }

  /** A failed put, told by the tables before and after it: objects and counts are as they were, no row is lost but a search row,
      and what was filed before the transaction stays. */
  ghost predicate PutFailed(t: Tables, t': Tables, a: PutArgs, found: Option<Id>, fault: int) {
    var pid := a.key.profileId;
    var id := if pid in t.master then t.master[pid].connectId else if found.Some? then found.value else a.freshId;
    && t'.config == t.config && t'.interactions == t.interactions && t'.shards == t.shards
    && t'.master == (if pid in t.master || fault == MASTER_INSERT then t.master else t.master[pid := MasterRow(id, a.freshId, a.now)])
    && t'.history == (if found == Some(id) && fault > MATCH_ROW then t.history + [Row(Kind.Merge, a.freshId, id, 1.0)] else t.history)
    && (t'.search == t.search || t'.search == t.search - {id})
    && (fault <= START || (pid in t.master && (fault <= OBJECT_UPSERT || a.key in t.interactions)) ==> t'.search == t.search)
    && (fault > START && pid !in t.master && (fault <= OBJECT_UPSERT || a.key !in t.interactions) ==> id !in t'.search)
  }

  lemma FailedPutEffect(t: Tables, a: PutArgs, found: Option<Id>, fault: int)
    requires MASTER_INSERT <= fault <= COMMIT && (fault == MATCH_ROW ==> found == Some(PutHolder(t, a, found)))
    ensures PutFailed(t, FailedPut(t, a, found, fault), a, found, fault)
  {}

  /** What the statements of the transaction do once the profile id is filed under id. */
  function Executed(t: Tables, id: Id, inserted: bool, a: PutArgs): Tables {
    t.(
      search := t.search[id := WithOffered(t.config.priority, RowOrEmpty(t, id), a.fields, a.lastUpdated, a.key.objectType)],
      shards := if inserted then Bump(t.shards, a.shard, 1) else t.shards,
      interactions := t.interactions[a.key :=
        if a.key in t.interactions
        then t.interactions[a.key].(fields := t.interactions[a.key].fields + a.fields, lastUpdated := a.lastUpdated)
        else Interaction(id, 1.0, |t.history|, a.fields, a.lastUpdated)])
  }

  lemma CommittedPut(t: Tables, a: PutArgs, found: Option<Id>)
    ensures AfterPutOf(t, a, found) == Executed(Filed(t, a, found), PutHolder(t, a, found), a.key.profileId !in t.master, a)
  {
    hide UpdateColumns, Offered, Bump;
    var t1 := Filed(t, a, found);
    if found.None? && a.key.profileId !in t.master {
      assert Executed(t1, a.freshId, true, a) == AfterPut(t, a);
    }
  }

  /** How many of the moved rows a compensation reaches whose batch `undoFault` fails. */
  function Reached(undoFault: int, moved: nat): (n: nat)
    ensures n <= moved
  {
    if 0 <= undoFault && undoFault * ROLLBACK_BATCH < moved then undoFault * ROLLBACK_BATCH else moved
  }

  /** The rows a merge moves. */
  function Moved(master: map<ProfileId, MasterRow>, id: Id): set<ProfileId> {
    set pid | pid in master && master[pid].connectId == id
  }

  /** The master table after a failed merge whose compensation reached only some of the moved rows. */
  function Compensated(master: map<ProfileId, MasterRow>, a: MergeArgs, restored: set<ProfileId>): map<ProfileId, MasterRow> {
    map pid | pid in master ::
      if master[pid].connectId == a.merged
      then master[pid].(connectId := if pid in restored then a.merged else a.survivor, updated := a.now)
      else master[pid]
  }

  function SetConnectId(master: map<ProfileId, MasterRow>, pids: seq<ProfileId>, id: Id): map<ProfileId, MasterRow> {
    map pid | pid in master :: if pid in pids then master[pid].(connectId := id) else master[pid]
  }

  /** UPDATE of the interaction tables of the listed types. */
  function RescoreOfTypes(interactions: map<ObjectKey, Interaction>, a: MergeArgs, types: seq<ObjectType>): map<ObjectKey, Interaction> {
    map k | k in interactions ::
      if k.objectType in types && interactions[k].connectId == a.merged
      then interactions[k].(connectId := a.survivor, score := interactions[k].score * a.factor)
      else interactions[k]
  }

  lemma RescoreOneMore(interactions: map<ObjectKey, Interaction>, a: MergeArgs, types: seq<ObjectType>, one: ObjectType)
    requires a.survivor != a.merged
    ensures RescoreOfTypes(RescoreOfTypes(interactions, a, types), a, [one]) == RescoreOfTypes(interactions, a, types + [one])
  {
    forall k | k in interactions
      ensures RescoreOfTypes(RescoreOfTypes(interactions, a, types), a, [one])[k] == RescoreOfTypes(interactions, a, types + [one])[k]
    {
      assert k.objectType in types + [one] <==> k.objectType in types || k.objectType == one;
    }
  }

  /** UPDATE of the interaction tables of the listed types by an unmerge. */
  function UnmergeOfTypes(interactions: map<ObjectKey, Interaction>, pids: set<ProfileId>, b: Id, revert: real, types: seq<ObjectType>): map<ObjectKey, Interaction>
    requires revert != 0.0
  {
    map k | k in interactions ::
      if k.objectType in types && k.profileId in pids
      then interactions[k].(connectId := b, score := interactions[k].score / revert)
      else interactions[k]
  }

  lemma UnmergeOneMore(interactions: map<ObjectKey, Interaction>, pids: set<ProfileId>, b: Id, revert: real, types: seq<ObjectType>, one: ObjectType)
    requires revert != 0.0 && one !in types
    ensures UnmergeOfTypes(UnmergeOfTypes(interactions, pids, b, revert, types), pids, b, revert, [one])
         == UnmergeOfTypes(interactions, pids, b, revert, types + [one])
  {}

  /** DELETE from the interaction tables of the listed types. */
  function WithoutOfTypes(interactions: map<ObjectKey, Interaction>, id: Id, types: seq<ObjectType>): map<ObjectKey, Interaction> {
    map k | k in interactions && !(k.objectType in types && interactions[k].connectId == id) :: interactions[k]
  }

  function WithoutProfile(interactions: map<ObjectKey, Interaction>, id: Id): map<ObjectKey, Interaction> {
    map k | k in interactions && interactions[k].connectId != id :: interactions[k]
  }

  lemma WithoutOneMore(interactions: map<ObjectKey, Interaction>, id: Id, types: seq<ObjectType>, one: ObjectType)
    ensures WithoutOfTypes(WithoutOfTypes(interactions, id, types), id, [one]) == WithoutOfTypes(interactions, id, types + [one])
  {}

  function RowsIn(master: map<ProfileId, MasterRow>, ids: seq<Id>): set<ProfileId> {
    set pid | pid in master && master[pid].originalId in ids
  }

  /** INSERT of a search row: the columns that are not offered are NULL. */
  function InsertedRow(columns: set<Field>, offered: SearchRow): SearchRow {
    map f | f in columns :: Get(offered, f)
  }

  /** One UPDATE of a search row with what an object offers. */
  function WithOffered(prio: seq<ObjectType>, row: SearchRow, fields: map<Field, Text>, ts: int, objType: ObjectType): SearchRow {
    UpdateColumns(prio, row, Offered(fields, ts, objType), Offered(fields, ts, objType).Keys)
  }

  /** The upsert inserts what its own update would have written over an empty row. */
  lemma InsertIsUpdateOfEmpty(prio: seq<ObjectType>, columns: set<Field>, fields: map<Field, Text>, ts: int, objType: ObjectType)
    ensures InsertedRow(columns, Offered(fields, ts, objType)) == WithOffered(prio, EmptyRow(columns), fields, ts, objType)
  {
    var offered := Offered(fields, ts, objType);
    forall f | f in columns && f in offered ensures Resolve(prio, NULL, offered[f]) == offered[f] {
      ResolveIsMax(prio, NULL, offered[f]);
    }
  }

  predicate IsPart(fields: map<Field, Text>, part: map<Field, Text>) {
    forall f :: f in part ==> f in fields && part[f] == fields[f] && fields[f] != Text("")
  }

  /** The non-empty fields, each in one of the two maps. */
  predicate SplitsInTwo(fields: map<Field, Text>, first: map<Field, Text>, second: map<Field, Text>) {
    && IsPart(fields, first) && IsPart(fields, second) && first.Keys !! second.Keys
    && forall f :: f in fields && fields[f] != Text("") ==> f in first || f in second
  }

  predicate SplitsSoFar(fields: map<Field, Text>, first: map<Field, Text>, second: map<Field, Text>, rest: set<Field>) {
    && IsPart(fields, first) && IsPart(fields, second)
    && (forall f :: f in rest ==> f in fields && f !in first && f !in second)
    && (forall f :: f in first ==> f !in second)
    && forall f :: f in fields && fields[f] != Text("") && f !in rest ==> f in first || f in second
  }

  lemma SplitsOneMore(fields: map<Field, Text>, first: map<Field, Text>, second: map<Field, Text>, rest: set<Field>, k: Field)
    requires SplitsSoFar(fields, first, second, rest + {k}) && k !in rest && k in fields && fields[k] != Text("")
    ensures SplitsSoFar(fields, first[k := fields[k]], second, rest) && SplitsSoFar(fields, first, second[k := fields[k]], rest)
    ensures k !in first
  {}

  /** Splitting a put, whatever the split, writes the same row. */
  lemma SplitUpsert(prio: seq<ObjectType>, row: SearchRow, fields: map<Field, Text>, first: map<Field, Text>, second: map<Field, Text>, ts: int, objType: ObjectType)
    requires SplitsInTwo(fields, first, second)
    ensures WithOffered(prio, WithOffered(prio, row, first, ts, objType), second, ts, objType) == WithOffered(prio, row, fields, ts, objType)
    ensures second == map[] ==> WithOffered(prio, row, first, ts, objType) == WithOffered(prio, row, fields, ts, objType)
  {}

  lemma RevertOneMore(rows: seq<Row>, e: Row)
    ensures RevertFactor([]) == 1.0
    ensures RevertFactor(rows + [e]) ==
      if e.factor == 0.0 then RevertFactor(rows)
      else if e.kind.Unmerge? then RevertFactor(rows) / e.factor else RevertFactor(rows) * e.factor
  {}

  lemma PutStaysInv(t: Tables, a: PutArgs, found: Option<Id>)
    ensures Inv(t) && PutAllowed(t, a) && found.None? ==> Inv(AfterPutOf(t, a, found))
  {
    hide Inv, PutAllowed, AfterPut, AfterPreMatchPut;
    if Inv(t) && PutAllowed(t, a) && found.None? {
      PutKeepsInv(t, a);
    }
  }

  lemma PutHasEffect(t: Tables, a: PutArgs, found: Option<Id>)
    ensures SearchSound(t) ==> PutDone(t, AfterPutOf(t, a, found), a, found) && SearchSound(AfterPutOf(t, a, found))
  {
    hide PutDone, SearchSound, AfterPut, AfterPreMatchPut;
    if SearchSound(t) {
      if found.Some? {
        PreMatchPutEffect(t, a, found.value);
      } else {
        PutEffect(t, a);
      }
    }
  }

  lemma MergeHasEffect(t: Tables, a: MergeArgs)
    ensures SearchSound(t) && Agrees(t) && !MergeRejected(t, a) && a.survivor in Live(t) ==>
      MergeDone(t, AfterMerge(t, a), a) && SearchSound(AfterMerge(t, a))
  {
    hide MergeDone, SearchSound, AfterMerge, Live, MergeRejected;
    if SearchSound(t) && Agrees(t) && !MergeRejected(t, a) && a.survivor in Live(t) {
      MergeEffect(t, a);
    }
  }

  lemma UnmergeHasEffect(t: Tables, a: UnmergeArgs)
    ensures InteractionsFollowMaster(t) && !UnmergeRejected(t, a) && LineageFits(t, a.unmerged) ==> UnmergeDone(t, AfterUnmerge(t, a), a)
  {
    hide UnmergeDone, InteractionsFollow, AfterUnmerge, UnmergeRejected, LineageFits;
    if InteractionsFollowMaster(t) && !UnmergeRejected(t, a) && LineageFits(t, a.unmerged) {
      UnmergeEffect(t, a);
    }
  }

  lemma DeleteHasEffect(t: Tables, a: DeleteArgs)
    ensures Agrees(t) && a.id in Originals(t) ==> DeleteDone(t, AfterDelete(t, a), a.id, a.shard)
  {
    hide DeleteDone, AfterDelete, Originals;
    if Agrees(t) && a.id in Originals(t) {
      DeleteEffect(t, a);
    }
  }

  /** After a failed merge no row has lost its original id; those that were moved and not moved back belong to the survivor. */
  lemma CompensatedRows(master: map<ProfileId, MasterRow>, a: MergeArgs, restored: set<ProfileId>)
    ensures var master' := Compensated(master, a, restored);
      && master'.Keys == master.Keys && (forall pid :: pid in master ==> master'[pid].originalId == master[pid].originalId)
      && (forall pid :: pid in master && master[pid].connectId != a.merged ==> master'[pid] == master[pid])
      && forall pid :: pid in master && master[pid].connectId == a.merged ==>
           master'[pid].connectId == if pid in restored then a.merged else a.survivor
  {}

  lemma MergeStaysInv(t: Tables, a: MergeArgs)
    ensures Inv(t) && MergeAllowed(t, a) ==> Inv(AfterMerge(t, a))
  {
    hide *;
    if Inv(t) && MergeAllowed(t, a) {
      MergeKeepsInv(t, a);
    }
  }

  lemma UnmergeStaysInv(t: Tables, a: UnmergeArgs)
    ensures Inv(t) && UnmergeAllowed(t, a) ==> Inv(AfterUnmerge(t, a))
  {
    hide *;
    if Inv(t) && UnmergeAllowed(t, a) {
      UnmergeKeepsInv(t, a);
    }
  }

  lemma DeleteStaysInv(t: Tables, a: DeleteArgs)
    ensures Inv(t) && 1 <= a.shard <= COUNT_TABLE_PARTITIONS ==> Inv(AfterDelete(t, a))
  {
    hide *;
    if Inv(t) && 1 <= a.shard <= COUNT_TABLE_PARTITIONS {
      DeleteKeepsInv(t, a);
    }
  }

  /** A merge that was moved back leaves rows that differ in their timestamp at most. */
  lemma RestoredMergeStaysInv(t: Tables, a: MergeArgs)
    ensures Inv(t) ==> Inv(t.(master := Compensated(t.master, a, Moved(t.master, a.merged))))
  {
    hide Inv;
    if Inv(t) {
      SameHoldersSameInv(t, Compensated(t.master, a, Moved(t.master, a.merged)));
    }
  }

  class Store {
    const config: Config
    const columns: seq<Field>
    const objectTypes: seq<ObjectType>
    const historyTable: string

    var master: map<ProfileId, MasterRow>
    var search: map<Id, SearchRow>
    var interactions: map<ObjectKey, Interaction>
    var history: History
    var shards: seq<int>

    /** What a rollback returns to. */
    var saved: Tables

    function Contents(): Tables
      reads this
    {
      Tables(config, master, search, interactions, history, shards)
    }

    ghost predicate Valid()
      reads this
    {
      && (forall f :: f in columns <==> f in config.columns)
      && NoRepeats(objectTypes)
      && (forall k :: k in interactions ==> k.objectType in objectTypes)
      && Placeholders.Marks(historyTable) == 0
    }

    constructor (config: Config, columns: seq<Field>, objectTypes: seq<ObjectType>, historyTable: string)
      requires forall f :: f in columns <==> f in config.columns
      requires NoRepeats(objectTypes) && Placeholders.Marks(historyTable) == 0
      ensures Valid() && Contents() == EmptyTables(config)
      ensures this.columns == columns && this.objectTypes == objectTypes
    {
      this.config, this.columns, this.objectTypes, this.historyTable := config, columns, objectTypes, historyTable;
      master, search, interactions, history := map[], map[], map[], [];
      shards := InitialShards();
      saved := EmptyTables(config);
    }

    method StartTransaction()
      modifies this`saved
      ensures saved == Contents()
    {
      saved := Contents();
    }

    method RollbackTransaction()
      requires saved.config == config
      modifies this
      ensures Contents() == old(saved) && saved == old(saved)
    {
      master, search, interactions, history, shards := saved.master, saved.search, saved.interactions, saved.history, saved.shards;
    }

    /** One shard row is changed in place. */
    method UpdateCount(partition: int, n: int)
      modifies this`shards
      ensures shards == Bump(old(shards), partition, n)
    {
      if 1 <= partition <= |shards| {
        shards := shards[partition - 1 := shards[partition - 1] + n];
      }
    }

    /** The sum over all shards. */
    method GetCount() returns (count: int)
      ensures count == Total(shards)
      ensures CountIsLive(Contents()) ==> count == |Live(Contents())|
    {
      count := 0;
      var i := 0;
      while i < |shards|
        invariant 0 <= i <= |shards| && count == Total(shards[..i])
      {
        assert shards[..i + 1][..i] == shards[..i];
        count := count + shards[i];
        i := i + 1;
      }
      assert shards[..i] == shards;
    }

    // ---- put ----

    /** INSERT ... ON CONFLICT (profile_id): a new row gets the ids it is given, a known row is left as it is. */
    method InsertProfileInMasterTable(pid: ProfileId, id: Id, originalId: Id, now: nat) returns (connectId: Id, inserted: bool)
      modifies this`master
      ensures inserted <==> pid !in old(master)
      ensures connectId == HolderOf(old(Contents()), pid, id)
      ensures master == if inserted then old(master)[pid := MasterRow(id, originalId, now)] else old(master)
    {
      if pid in master {
        return master[pid].connectId, false;
      }
      master := master[pid := MasterRow(id, originalId, now)];
      return id, true;
    }

    /** The non-empty fields, at most maxMapSize of them in the first map, in whatever order the map is walked. */
    method SplitProfileMap(fields: map<Field, Text>, maxMapSize: nat) returns (upsert: map<Field, Text>, update: map<Field, Text>)
      ensures SplitsInTwo(fields, upsert, update)
      ensures |upsert| <= maxMapSize && (update != map[] ==> |upsert| == maxMapSize)
    {
      upsert, update := map[], map[];
      var i, rest := 0, fields.Keys;
      while rest != {}
        invariant SplitsSoFar(fields, upsert, update, rest)
        invariant |upsert| == (if i < maxMapSize then i else maxMapSize) && (i < maxMapSize ==> update == map[])
      {
        var k :| k in rest;
        ghost var old_ := rest;
        rest := rest - {k};
        assert rest + {k} == old_;
        if fields[k] != Text("") {
          SplitsOneMore(fields, upsert, update, rest, k);
          if i < maxMapSize {
            upsert := upsert[k := fields[k]];
          } else {
            update := update[k := fields[k]];
          }
          i := i + 1;
        }
      }
    }

    /** An upsert of the first fields and an update of the rest write the row that one statement would write. */
    method UpsertProfileInSearchTable(id: Id, a: PutArgs, fault: int) returns (failed: bool)
      requires Valid()
      modifies this`search
      ensures fault != SEARCH_UPSERT && fault != SEARCH_UPDATE ==> !failed
      ensures !failed ==>
        search == old(search)[id := WithOffered(config.priority, RowOrEmpty(old(Contents()), id), a.fields, a.lastUpdated, a.key.objectType)]
    {
      hide WithOffered, SplitsInTwo, InsertedRow, Offered;
      if fault == SEARCH_UPSERT {
        return true;
      }
      var upsertFields, updateFields := SplitProfileMap(a.fields, UPSERT_FIELDS);
      ghost var row := RowOrEmpty(Contents(), id);
      SplitUpsert(config.priority, row, a.fields, upsertFields, updateFields, a.lastUpdated, a.key.objectType);
      if id in search {
        search := search[id := WithOffered(config.priority, search[id], upsertFields, a.lastUpdated, a.key.objectType)];
      } else {
        InsertIsUpdateOfEmpty(config.priority, config.columns, upsertFields, a.lastUpdated, a.key.objectType);
        search := search[id := InsertedRow(config.columns, Offered(upsertFields, a.lastUpdated, a.key.objectType))];
      }
      if |updateFields| > 0 {
        if fault == SEARCH_UPDATE {
          return true;
        }
        search := search[id := WithOffered(config.priority, search[id], updateFields, a.lastUpdated, a.key.objectType)];
      }
      return false;
    }

    /** The master row of the profile id, and the history row of a match, both outside the transaction.
        The match is used for a profile id that is not known yet. */
    method FileProfile(a: PutArgs, found: Option<Id>, fault: int) returns (connectId: Id, inserted: bool, failed: bool)
      requires fault != MASTER_INSERT
      modifies this`master, this`history
      ensures inserted <==> a.key.profileId !in old(master)
      ensures connectId == PutHolder(old(Contents()), a, found)
      ensures failed <==> fault == MATCH_ROW && found == Some(connectId)
      ensures Contents() == if failed then RowFiled(old(Contents()), a, found) else Filed(old(Contents()), a, found)
    {
      connectId, inserted := InsertProfileInMasterTable(a.key.profileId, if found.Some? then found.value else a.freshId, a.freshId, a.now);
      if found == Some(connectId) {
        if fault == MATCH_ROW {
          return connectId, inserted, true;
        }
        history := history + [Row(Kind.Merge, a.freshId, connectId, 1.0)];
      }
      return connectId, inserted, false;
    }

    /** The statements of a put from the search table to the commit, until the one that fails. `isNew` is what the rollback
        goes by: whether the profile was new, and from the object statement on whether the object was. */
    method ExecutePut(connectId: Id, inserted: bool, a: PutArgs, fault: int) returns (failed: bool, isNew: bool)
      requires Valid() && a.key.objectType in objectTypes
      modifies this`search, this`interactions, this`shards
      ensures Valid() && (fault < 0 ==> !failed)
      ensures failed ==> SEARCH_UPSERT <= fault <= COMMIT
      ensures isNew == if failed && fault < OBJECT_COUNT then inserted else a.key !in old(interactions)
      ensures !failed ==> Contents() == Executed(old(Contents()), connectId, inserted, a)
    {
      hide WithOffered;
      isNew := inserted;
      failed := UpsertProfileInSearchTable(connectId, a, fault);
      if failed {
        return;
      }
      if inserted {
        if fault == PROFILE_COUNT {
          return true, isNew;
        }
        UpdateCount(a.shard, 1);
      }
      if fault == OBJECT_UPSERT {
        return true, isNew;
      }
      isNew := a.key !in interactions;
      if isNew {
        interactions := interactions[a.key := Interaction(connectId, 1.0, |history|, a.fields, a.lastUpdated)];
        if fault == OBJECT_COUNT {
          return true, isNew;
        }
      } else {
        var row := interactions[a.key];
        interactions := interactions[a.key := row.(fields := row.fields + a.fields, lastUpdated := a.lastUpdated)];
      }
      return fault == COMMIT, isNew;
    }

    /** A put, with the match its record found, if any. When a statement fails the transaction is rolled back, and
        if something was new the search row of the profile is deleted; what was filed before the transaction stays. */
    method PutProfileObject(a: PutArgs, found: Option<Id>, fault: int) returns (status: Status)
      requires Valid() && a.key.objectType in objectTypes
      modifies this
      ensures Valid() && (fault < 0 ==> status == Success)
      ensures status == Success ==> Contents() == AfterPutOf(old(Contents()), a, found)
      ensures status == Failure ==> Contents() == FailedPut(old(Contents()), a, found, fault) && MASTER_INSERT <= fault <= COMMIT
      ensures status == Failure && fault == MATCH_ROW ==> found == Some(PutHolder(old(Contents()), a, found))
      ensures status == Failure ==> PutFailed(old(Contents()), Contents(), a, found, fault)
      ensures status == Success && found.None? && Inv(old(Contents())) && PutAllowed(old(Contents()), a) ==> Inv(Contents())
      ensures status == Success && SearchSound(old(Contents())) ==> PutDone(old(Contents()), Contents(), a, found) && SearchSound(Contents())
    {
      hide Inv, PutAllowed, Executed, AfterPutOf, Filed, RowFiled, PutHolder, SearchSound, PutDone, PutFailed;
      if MASTER_INSERT <= fault <= COMMIT && (fault == MATCH_ROW ==> found == Some(PutHolder(Contents(), a, found))) {
        FailedPutEffect(Contents(), a, found, fault);
      }
      PutStaysInv(Contents(), a, found);
      PutHasEffect(Contents(), a, found);
      if fault == MASTER_INSERT {
        return Failure;
      }
      var connectId, inserted, failed := FileProfile(a, found, fault);
      if failed || fault == START {
        return Failure;
      }
      StartTransaction();
      var isNew;
      failed, isNew := ExecutePut(connectId, inserted, a, fault);
      if failed {
        RollbackTransaction();
        if isNew {
          search := search - {connectId};
        }
        return Failure;
      }
      CommittedPut(old(Contents()), a, found);
      return Success;
    }

    // ---- merge ----

    /** UPDATE ... SET connect_id = survivor WHERE connect_id = merged RETURNING profile_id */
    method MergeProfilesInMasterTable(a: MergeArgs) returns (profileIds: seq<ProfileId>)
      modifies this`master
      ensures NoRepeats(profileIds) && forall pid :: pid in profileIds <==> pid in Moved(old(master), a.merged)
      ensures master == RepointMaster(old(master), a.survivor, a.merged, a.now)
    {
      profileIds := ListOf(Moved(master, a.merged));
      master := RepointMaster(master, a.survivor, a.merged, a.now);
    }

    /** The search rows are merged a batch of columns at a time; any batch may fail. */
    method MergeProfilesInSearchTable(a: MergeArgs, fault: int) returns (failed: bool, statements: nat)
      requires Valid() && a.survivor != a.merged
      modifies this`search
      ensures fault < 0 ==> !failed
      ensures !failed ==> search - {a.merged} == MergeSearch(config, old(search), a)
    {
      failed, statements := false, 0;
      var batches := Chunk(columns, COLUMN_BATCH);
      ghost var done: set<Field> := {};
      ghost var both := a.survivor in search && a.merged in search;
      if both {
        assert UpdateColumns(config.priority, search[a.survivor], search[a.merged], {}) == search[a.survivor];
      }
      var i := 0;
      while i < |batches|
        invariant 0 <= i <= |batches| && statements == i
        invariant forall f :: f in done <==> f in Flatten(batches[..i])
        invariant both == (a.survivor in old(search) && a.merged in old(search))
        invariant both ==> search == old(search)[a.survivor := UpdateColumns(config.priority, old(search)[a.survivor], old(search)[a.merged], done)]
        invariant !both ==> search == old(search)
      {
        if statements == fault {
          return true, statements;
        }
        var batch := set f | f in batches[i];
        assert batches[..i + 1][..i] == batches[..i] && batches[..i + 1][i] == batches[i];
        if a.survivor in search && a.merged in search {
          if both {
            SplitUpdate(config.priority, old(search)[a.survivor], old(search)[a.merged], done, batch);
          }
          search := search[a.survivor := UpdateColumns(config.priority, search[a.survivor], search[a.merged], batch)];
        }
        done := done + batch;
        i, statements := i + 1, statements + 1;
      }
      assert batches[..i] == batches;
      assert done == config.columns;
    }

    /** One interaction table after the other; any of the statements may fail. */
    method MergeInteractions(a: MergeArgs, fault: int, first: nat) returns (failed: bool, statements: nat)
      requires Valid() && a.survivor != a.merged
      modifies this`interactions
      ensures Valid() && (fault < 0 ==> !failed)
      ensures !failed ==> interactions == RescoreMerged(old(interactions), a)
    {
      failed, statements := false, first;
      var i := 0;
      while i < |objectTypes|
        invariant 0 <= i <= |objectTypes|
        invariant interactions == RescoreOfTypes(old(interactions), a, objectTypes[..i])
      {
        if statements == fault {
          return true, statements;
        }
        RescoreOneMore(old(interactions), a, objectTypes[..i], objectTypes[i]);
        assert objectTypes[..i + 1] == objectTypes[..i] + [objectTypes[i]];
        interactions := RescoreOfTypes(interactions, a, [objectTypes[i]]);
        i, statements := i + 1, statements + 1;
      }
      assert objectTypes[..i] == objectTypes;
    }

    /** The statements of the merge transaction up to its commit, until the one that fails. */
    method ExecuteMerge(a: MergeArgs, fault: int) returns (failed: bool)
      requires Valid() && a.survivor != a.merged
      modifies this`search, this`interactions, this`history, this`shards
      ensures Valid() && (fault < 0 ==> !failed)
      ensures !failed ==>
        && search == MergeSearch(config, old(search), a)
        && interactions == RescoreMerged(old(interactions), a)
        && history == old(history) + [Row(Kind.Merge, a.merged, a.survivor, a.factor)]
        && shards == Bump(old(shards), a.shard, -1)
    {
      var statements;
      failed, statements := MergeProfilesInSearchTable(a, fault);
      if failed || statements == fault {
        return true;
      }
      search := search - {a.merged};
      failed, statements := MergeInteractions(a, fault, statements + 1);
      if failed || statements == fault {
        return true;
      }
      history := history + [Row(Kind.Merge, a.merged, a.survivor, a.factor)];
      if statements + 1 == fault {
        return true;
      }
      UpdateCount(a.shard, -1);
      return statements + 2 == fault;
    }

    /** The compensating update of the master table, a batch of profile ids at a time, until a batch fails. */
    method RollbackMasterTableChanges(id: Id, profileIds: seq<ProfileId>, undoFault: int) returns (ghost restored: set<ProfileId>)
      requires NoRepeats(profileIds)
      modifies this`master
      ensures master == AssignMaster(old(master), restored, id)
      ensures forall pid :: pid in restored <==> pid in profileIds[..Reached(undoFault, |profileIds|)]
      ensures |restored| == Reached(undoFault, |profileIds|)
    {
      hide AssignMaster, SetConnectId, Flatten;
      restored := {};
      NothingAssigned(master, id);
      var batches := Chunk(profileIds, ROLLBACK_BATCH);
      var i := 0;
      while i < |batches|
        invariant 0 <= i <= |batches| && (undoFault >= 0 ==> i <= undoFault)
        invariant forall pid :: pid in restored <==> pid in Flatten(batches[..i])
        invariant master == AssignMaster(old(master), restored, id)
      {
        if i == undoFault {
          RestoredSize(batches, i, restored, profileIds);
          return;
        }
        FlattenNext(batches, i);
        AssignedNext(old(master), restored, batches[i], id);
        master := SetConnectId(master, batches[i], id);
        restored := restored + set pid | pid in batches[i];
        i := i + 1;
      }
      assert batches[..i] == batches && profileIds[..|profileIds|] == profileIds;
      ListSize(profileIds, restored);
      AtMostSize(batches, |batches|, profileIds);
    }

    /** The transaction is rolled back, and then the moved rows are moved back. */
    method RollbackMerge(a: MergeArgs, profileIds: seq<ProfileId>, undoFault: int, ghost before: Tables) returns (ghost restored: set<ProfileId>)
      requires before.config == config && a.survivor != a.merged
      requires saved == before.(master := RepointMaster(before.master, a.survivor, a.merged, a.now))
      requires NoRepeats(profileIds) && forall pid :: pid in profileIds <==> pid in Moved(before.master, a.merged)
      modifies this
      ensures Contents() == before.(master := Compensated(before.master, a, restored)) && restored <= Moved(before.master, a.merged)
      ensures |restored| == Reached(undoFault, |Moved(before.master, a.merged)|)
      ensures undoFault < 0 ==> restored == Moved(before.master, a.merged)
    {
      hide Moved, Compensated, RepointMaster;
      RollbackTransaction();
      restored := RollbackMasterTableChanges(a.merged, profileIds, undoFault);
      ListSize(profileIds, Moved(before.master, a.merged));
      assert profileIds[..|profileIds|] == profileIds;
      assert forall pid :: pid in restored ==> pid in profileIds;
      MovedBack(before.master, a, restored);
    }

    /** A merge of two profile ids. The master table is changed at once and outside the transaction; when a later
        statement or the commit fails the transaction is rolled back and the moved rows are moved back.
        When no connection can be acquired for the transaction, nothing is moved back. */
    method MergeProfileTables(a: MergeArgs, acquired: bool, fault: int, undoFault: int) returns (status: Status, ghost restored: set<ProfileId>)
      requires Valid()
      modifies this
      ensures Valid()
      ensures MergeRejected(old(Contents()), a) ==> status == Failure && Contents() == old(Contents())
      ensures acquired && fault < 0 && !MergeRejected(old(Contents()), a) ==> status == Success
      ensures status == Success ==> Contents() == AfterMerge(old(Contents()), a)
      ensures status == Failure && !MergeRejected(old(Contents()), a) ==>
        Contents() == old(Contents()).(master := Compensated(old(master), a, restored))
      ensures restored <= Moved(old(master), a.merged)
      ensures acquired && undoFault < 0 && Inv(old(Contents())) && MergeAllowed(old(Contents()), a) ==> Inv(Contents())
      ensures !acquired ==> restored == {}
      ensures acquired && undoFault < 0 && status == Failure && !MergeRejected(old(Contents()), a) ==> restored == Moved(old(master), a.merged)
      ensures acquired && status == Failure && !MergeRejected(old(Contents()), a) ==>
        |restored| == Reached(undoFault, |Moved(old(master), a.merged)|)
    {
      hide Inv, MergeAllowed, Compensated, MergeSearch, RescoreMerged, RepointMaster, Bump, Reached;
      MergeStaysInv(Contents(), a);
      NothingCompensated(master, a);
      restored := {};
      if a.survivor == Blank || a.merged == Blank {
        return Failure, restored;
      }
      if a.survivor == a.merged {
        return Failure, restored;
      }
      MovedIsLive(Contents(), a.merged);
      var profileIds := MergeProfilesInMasterTable(a);
      if |profileIds| == 0 {
        assert Moved(old(master), a.merged) == {};
        return Failure, restored;
      }
      assert profileIds[0] in Moved(old(master), a.merged);
      if !acquired {
        return Failure, restored;
      }
      StartTransaction();
      var failed := ExecuteMerge(a, fault);
      if failed {
        restored := RollbackMerge(a, profileIds, undoFault, old(Contents()));
        if restored == Moved(old(master), a.merged) {
          RestoredMergeStaysInv(old(Contents()), a);
        }
        return Failure, restored;
      }
      return Success, restored;
    }

    /** A merge request. When the merge fails the source asks whether the two were merged before, and that query is always refused. */
    method MergeProfiles(a: MergeArgs, acquired: bool, fault: int, undoFault: int)
      returns (status: Status, ghost id: Id, ghost restored: set<ProfileId>)
      requires Valid()
      modifies this
      ensures Valid()
      ensures Resolved(old(Contents()), a.merged) == {} ==> status == Failure && Contents() == old(Contents())
      ensures Resolved(old(Contents()), a.merged) != {} ==> id in Resolved(old(Contents()), a.merged)
      ensures Resolved(old(Contents()), a.merged) != {} && id == a.survivor ==> status == Success && Contents() == old(Contents())
      ensures status == Success && id != a.survivor ==> Contents() == AfterMerge(old(Contents()), a.(merged := id))
      ensures status == Failure && MergeRejected(old(Contents()), a.(merged := id)) ==> Contents() == old(Contents())
      ensures status == Failure && Resolved(old(Contents()), a.merged) != {} && !MergeRejected(old(Contents()), a.(merged := id)) ==>
        && Contents() == old(Contents()).(master := Compensated(old(master), a.(merged := id), restored))
        && restored <= Moved(old(master), id)
        && |restored| == if acquired then Reached(undoFault, |Moved(old(master), id)|) else 0
      ensures status == Success && Inv(old(Contents())) ==> Contents() == AfterMergeRequest(old(Contents()), a)
      ensures acquired && fault < 0 && Inv(old(Contents())) && a.merged in Originals(old(Contents())) && a.survivor in Live(old(Contents())) ==> status == Success
      ensures status == Success && id != a.survivor && SearchSound(old(Contents())) && Agrees(old(Contents())) && a.survivor in Live(old(Contents())) ==>
        MergeDone(old(Contents()), Contents(), a.(merged := id)) && SearchSound(Contents())
    {
      hide MergeDone, SearchSound;
      id, restored := a.merged, {};
      var found := Resolved(Contents(), a.merged);
      if Inv(Contents()) {
        ResolvesToOne(Contents(), a.merged);
      }
      if found == {} {
        return Failure, id, restored;
      }
      var connectIdToMerge :| connectIdToMerge in found;
      id := connectIdToMerge;
      if a.survivor == connectIdToMerge {
        return Success, id, restored;
      }
      if Inv(Contents()) && a.survivor in Live(Contents()) {
        GroundedIsLinked(Contents());
        LiveIsRoot(Contents(), a.survivor);
      }
      if Inv(Contents()) {
        GroundedIsLinked(Contents());
        RootIsLive(Contents(), a.merged);
        LiveIsRoot(Contents(), id);
      }
      MergeHasEffect(Contents(), a.(merged := id));
      status, restored := MergeProfileTables(a.(merged := connectIdToMerge), acquired, fault, undoFault);
      if status == Failure {
        var mergedBefore := Placeholders.HaveBeenMergedAndNotUnmerged(historyTable);
        assert mergedBefore.None?;
      }
    }

    // ---- unmerge ----

    method ConfidenceRevertFactor(b: Id) returns (revert: real)
      requires !ReachesCycle(history, b)
      ensures revert == RevertFactor(MergesLeadingToParent(history, b))
    {
      hide ReachesCycle, MergesLeadingToParent, RevertFactor;
      var rows := QueryMergesLeadingToParent(history, b);
      RevertOneMore([], Row(Kind.Merge, b, b, 0.0));
      revert := 1.0;
      var i := 0;
      while i < |rows|
        invariant 0 <= i <= |rows| && revert == RevertFactor(rows[..i])
      {
        assert rows[..i + 1] == rows[..i] + [rows[i]];
        RevertOneMore(rows[..i], rows[i]);
        if rows[i].factor != 0.0 {
          if rows[i].kind.Unmerge? {
            revert := revert / rows[i].factor;
          } else {
            revert := revert * rows[i].factor;
          }
        }
        i := i + 1;
      }
      assert rows[..i] == rows;
    }

    method UnmergeInteractions(b: Id, pids: set<ProfileId>, revert: real, fault: int, first: nat) returns (failed: bool, statements: nat)
      requires Valid() && revert != 0.0
      modifies this`interactions
      ensures fault < 0 ==> !failed
      ensures !failed ==> interactions == RescoreUnmerged(old(interactions), pids, b, revert)
    {
      failed, statements := false, first;
      var i := 0;
      while i < |objectTypes|
        invariant 0 <= i <= |objectTypes|
        invariant interactions == UnmergeOfTypes(old(interactions), pids, b, revert, objectTypes[..i])
      {
        if statements == fault {
          return true, statements;
        }
        UnmergeOneMore(old(interactions), pids, b, revert, objectTypes[..i], objectTypes[i]);
        assert objectTypes[..i + 1] == objectTypes[..i] + [objectTypes[i]];
        interactions := UnmergeOfTypes(interactions, pids, b, revert, [objectTypes[i]]);
        i, statements := i + 1, statements + 1;
      }
      assert objectTypes[..i] == objectTypes;
    }

    /** The statements of an unmerge after the lineage is known, until the one that fails. */
    method ExecuteUnmerge(a: UnmergeArgs, pids: set<ProfileId>, revert: real, fault: int) returns (failed: bool)
      requires Valid() && revert != 0.0
      modifies this`master, this`search, this`interactions, this`history, this`shards
      ensures pids == {} ==> failed
      ensures pids != {} && fault < 0 ==> !failed
      ensures !failed ==>
        && master == AssignMaster(old(master), pids, a.unmerged)
        && interactions == RescoreUnmerged(old(interactions), pids, a.unmerged, revert)
        && history == old(history) + [Row(Kind.Unmerge, a.unmerged, a.from, revert)]
        && search == old(search)[a.unmerged := a.unmergedRow][a.from := a.fromRow]
        && shards == Bump(old(shards), a.shard, 1)
    {
      if pids == {} || fault == 1 {
        return true;
      }
      var profileIds := ListOf(pids);
      master := SetConnectId(master, profileIds, a.unmerged);
      var statements;
      failed, statements := UnmergeInteractions(a.unmerged, pids, revert, fault, 2);
      if failed || statements == fault {
        return true;
      }
      history := history + [Row(Kind.Unmerge, a.unmerged, a.from, revert)];
      search := search[a.unmerged := a.unmergedRow];
      if statements + 1 == fault {
        return true;
      }
      search := search[a.from := a.fromRow];
      if statements + 2 == fault {
        return true;
      }
      UpdateCount(a.shard, 1);
      return statements + 3 <= fault;
    }

    /** An unmerge either does all that AfterUnmerge says or nothing, whichever statement fails,
        on every history on which the upward history query ends. */
    method UnmergeProfiles(a: UnmergeArgs, fault: int) returns (status: Status)
      requires Valid() && !ReachesCycle(history, a.unmerged)
      modifies this
      ensures Valid()
      ensures status == Failure ==> Contents() == old(Contents())
      ensures status == Success ==> Contents() == AfterUnmerge(old(Contents()), a)
      ensures fault < 0 ==> (status == Failure <==> UnmergeRejected(old(Contents()), a))
      ensures Inv(old(Contents())) && UnmergeAllowed(old(Contents()), a) ==> Inv(Contents())
      ensures status == Success && InteractionsFollowMaster(old(Contents())) && LineageFits(old(Contents()), a.unmerged) ==>
        UnmergeDone(old(Contents()), Contents(), a)
    {
      hide Inv, UnmergeAllowed, ReachesCycle, InteractionsFollow, LineageFits, UnmergeDone;
      UnmergeStaysInv(Contents(), a);
      UnmergeHasEffect(Contents(), a);
      if a.from == Blank || a.unmerged == Blank {
        return Failure;
      }
      if a.from == a.unmerged {
        return Failure;
      }
      StartTransaction();
      if fault == 0 {
        RollbackTransaction();
        return Failure;
      }
      var filteredIds := BuildLineage(history, a.unmerged, PROFILE_HISTORY_DEPTH);
      var pids := RowsIn(master, filteredIds);
      assert pids == ProfileIdsToUnmerge(Contents(), a.unmerged);
      var revert := ConfidenceRevertFactor(a.unmerged);
      var failed := ExecuteUnmerge(a, pids, revert, fault);
      if failed {
        RollbackTransaction();
        return Failure;
      }
      return Success;
    }

    // ---- delete ----

    /** One interaction table after the other, until the one that fails. */
    method DeleteInteractions(id: Id, fault: int) returns (failed: bool)
      requires Valid()
      modifies this`interactions
      ensures failed <==> 0 <= fault < |objectTypes|
      ensures !failed ==> interactions == WithoutProfile(old(interactions), id)
    {
      var i := 0;
      while i < |objectTypes|
        invariant 0 <= i <= |objectTypes| && !(0 <= fault < i)
        invariant interactions == WithoutOfTypes(old(interactions), id, objectTypes[..i])
      {
        if i == fault {
          return true;
        }
        WithoutOneMore(old(interactions), id, objectTypes[..i], objectTypes[i]);
        assert objectTypes[..i + 1] == objectTypes[..i] + [objectTypes[i]];
        interactions := WithoutOfTypes(interactions, id, [objectTypes[i]]);
        i := i + 1;
      }
      assert objectTypes[..i] == objectTypes;
      return false;
    }

    /** The statements of a delete, until the one that fails. The interaction tables come first. */
    method ExecuteDelete(id: Id, shard: int, fault: int) returns (failed: bool, inInteractions: bool)
      requires Valid()
      modifies this`master, this`search, this`interactions, this`history, this`shards
      ensures failed <==> 0 <= fault < |objectTypes| + 5
      ensures inInteractions <==> 0 <= fault < |objectTypes|
      ensures !failed ==> Contents() == RemoveProfile(old(Contents()), id, shard)
    {
      inInteractions := DeleteInteractions(id, fault);
      if inInteractions {
        return true, true;
      }
      var n := |objectTypes|;
      if n == fault {
        return true, false;
      }
      history := history + [Row(Kind.Delete, id, NIL_UUID, 0.0)];
      // the rule index of id is deleted here
      if n + 1 == fault || n + 2 == fault {
        return true, false;
      }
      master := map pid | pid in master && master[pid].connectId != id :: master[pid];
      UpdateCount(shard, -1);
      if n + 3 == fault {
        return true, false;
      }
      search := search - {id};
      return n + 4 == fault, false;
    }

    /** A delete does all that AfterDelete says or nothing; but one that fails in an interaction table reports success,
        since what is returned there is the outcome of the rollback. */
    method DeleteProfile(a: DeleteArgs, fault: int) returns (status: Status, deleted: bool)
      requires Valid()
      modifies this
      ensures Valid()
      ensures Contents() == if deleted then AfterDelete(old(Contents()), a) else old(Contents())
      ensures deleted <==> |RowsOfOriginal(old(Contents()), a.id)| == 1 && !(0 <= fault < |objectTypes| + 5)
      ensures status == Failure <==>
        (|RowsOfOriginal(old(Contents()), a.id)| > 1 || (|RowsOfOriginal(old(Contents()), a.id)| == 1 && |objectTypes| <= fault < |objectTypes| + 5))
      ensures Inv(old(Contents())) && 1 <= a.shard <= COUNT_TABLE_PARTITIONS ==> Inv(Contents())
      ensures deleted && Agrees(old(Contents())) ==> DeleteDone(old(Contents()), Contents(), a.id, a.shard)
    {
      hide Inv, DeleteDone;
      DeleteStaysInv(Contents(), a);
      DeleteHasEffect(Contents(), a);
      var rows := RowsOfOriginal(Contents(), a.id);
      if |rows| > 1 {
        return Failure, false;
      }
      if |rows| == 0 {
        return Success, false;
      }
      var pid :| pid in rows;
      SingleElement(rows, pid);
      StartTransaction();
      var failed, inInteractions := ExecuteDelete(master[pid].connectId, a.shard, fault);
      if failed {
        RollbackTransaction();
        return if inInteractions then Success else Failure, false;
      }
      return Success, true;
    }
  }

  lemma SingleElement<T>(s: set<T>, x: T)
    requires |s| == 1 && x in s
    ensures s == {x}
  {
    assert |s - {x}| == 0;
  }

  lemma MovedIsLive(t: Tables, id: Id)
    ensures id in Live(t) <==> Moved(t.master, id) != {}
  {
    if id in Live(t) {
      var pid := HolderRow(t, id);
      assert pid in Moved(t.master, id);
    }
  }

  lemma NothingAssigned(master: map<ProfileId, MasterRow>, id: Id)
    ensures AssignMaster(master, {}, id) == master && forall pid :: pid !in Flatten<ProfileId>([])
  {}

  lemma AssignedNext(master: map<ProfileId, MasterRow>, restored: set<ProfileId>, batch: seq<ProfileId>, id: Id)
    ensures SetConnectId(AssignMaster(master, restored, id), batch, id) == AssignMaster(master, restored + (set pid | pid in batch), id)
  {}

  lemma NothingCompensated(master: map<ProfileId, MasterRow>, a: MergeArgs)
    ensures Compensated(master, a, {}) == RepointMaster(master, a.survivor, a.merged, a.now)
    ensures Moved(master, a.merged) == {} ==> RepointMaster(master, a.survivor, a.merged, a.now) == master
  {
    if Moved(master, a.merged) == {} {
      forall pid | pid in master ensures master[pid].connectId != a.merged {
        assert pid !in Moved(master, a.merged);
      }
    }
  }

  lemma MovedBack(master: map<ProfileId, MasterRow>, a: MergeArgs, restored: set<ProfileId>)
    requires restored <= Moved(master, a.merged)
    ensures AssignMaster(RepointMaster(master, a.survivor, a.merged, a.now), restored, a.merged) == Compensated(master, a, restored)
  {}

  lemma FirstBatches(batches: seq<seq<ProfileId>>, n: nat, profileIds: seq<ProfileId>)
    requires n < |batches| && Flatten(batches) == profileIds
    requires forall i :: 0 <= i < |batches| - 1 ==> |batches[i]| == ROLLBACK_BATCH
    requires |batches[n]| > 0
    ensures n * ROLLBACK_BATCH < |profileIds| && Flatten(batches[..n]) == profileIds[..n * ROLLBACK_BATCH]
  {
    hide Flatten;
    FlattenPrefix(batches, n);
    FlattenPrefix(batches, n + 1);
    FlattenNext(batches, n);
    FullPiecesLength(batches[..n], ROLLBACK_BATCH);
  }

  lemma FlattenNext(batches: seq<seq<ProfileId>>, n: nat)
    requires n < |batches|
    ensures Flatten(batches[..n + 1]) == Flatten(batches[..n]) + batches[n]
  {
    assert batches[..n + 1][..n] == batches[..n];
  }

  lemma RestoredSize(batches: seq<seq<ProfileId>>, n: nat, restored: set<ProfileId>, profileIds: seq<ProfileId>)
    requires n < |batches| && Flatten(batches) == profileIds && NoRepeats(profileIds)
    requires forall i :: 0 <= i < |batches| - 1 ==> |batches[i]| == ROLLBACK_BATCH
    requires forall i :: 0 <= i < |batches| ==> |batches[i]| > 0
    requires forall pid :: pid in restored <==> pid in Flatten(batches[..n])
    ensures |restored| == n * ROLLBACK_BATCH < |profileIds| && Flatten(batches[..n]) == profileIds[..n * ROLLBACK_BATCH]
  {
    hide Flatten;
    FirstBatches(batches, n, profileIds);
    ListSize(profileIds[..n * ROLLBACK_BATCH], restored);
  }

  lemma AtMostSize(batches: seq<seq<ProfileId>>, n: nat, profileIds: seq<ProfileId>)
    requires n == |batches| && Flatten(batches) == profileIds
    requires forall i :: 0 <= i < |batches| ==> |batches[i]| <= ROLLBACK_BATCH
    ensures |profileIds| <= n * ROLLBACK_BATCH
    decreases n
  {
    if n > 0 {
      AtMostSize(batches[..n - 1], n - 1, Flatten(batches[..n - 1]));
    }
  }

  lemma SameHoldersSameSets(t: Tables, t': Tables)
    requires SameHolders(t.master, t'.master)
    ensures Originals(t') <= Originals(t) && Live(t') <= Live(t)
  {}

  lemma SameHoldersSameInv(t: Tables, master': map<ProfileId, MasterRow>)
    requires Inv(t) && SameHolders(t.master, master')
    ensures Inv(t.(master := master'))
  {
    hide WellFormed, LivePath, Originals, Live;
    var t' := t.(master := master');
    SameHoldersSameSets(t, t');
    SameHoldersSameSets(t', t);
    assert Originals(t') == Originals(t) && Live(t') == Live(t);
    assert MasterFollows(t.history, master') && InteractionsFollow(master', t.interactions);
  }

  /** A failed merge leaves the tables consistent exactly when its compensation reached every row it had moved. */
  lemma FailedMergeConsistentIff(t: Tables, a: MergeArgs, restored: set<ProfileId>)
    requires Inv(t) && !MergeRejected(t, a) && restored <= Moved(t.master, a.merged)
    ensures Consistent(t.(master := Compensated(t.master, a, restored))) <==> restored == Moved(t.master, a.merged)
  {
    hide WellFormed, LivePath, MayFollow;
    var master' := Compensated(t.master, a, restored);
    if restored == Moved(t.master, a.merged) {
      SameHoldersSameInv(t, master');
    } else {
      var pid :| pid in Moved(t.master, a.merged) && pid !in restored;
      assert master'[pid].connectId != t.master[pid].connectId && master'[pid].originalId == t.master[pid].originalId;
      assert t.master[pid].connectId == Root(t.history, t.master[pid].originalId);
      assert !MasterFollows(t.history, master');
    }
  }

  // ---- failed puts ----

  /** Whether a put that fails at this statement leaves tables that agree. */
  predicate FailsCleanly(t: Tables, a: PutArgs, found: Option<Id>, fault: int) {
    || fault == MASTER_INSERT
    || (fault == START && found.Some?)
    || (a.key.profileId in t.master && (fault < OBJECT_COUNT || a.key in t.interactions))
  }

  /** For a known profile id at most a history row is added. */
  lemma FiledKnown(t: Tables, a: PutArgs, found: Option<Id>)
    requires Linked(t.history) && Agrees(t) && PutAllowed(t, a) && (found.Some? ==> found.value in Live(t))
    requires a.key.profileId in t.master
    ensures Agrees(Filed(t, a, found))
  {
    if found.Some? {
      FiledFollows(t, a, found.value);
      FiledKeepsRows(t, a, found.value);
      assert Filed(t, a, found) == FiledUnder(t, a, found.value);
    }
  }

  /** A new profile id under a match agrees as long as its object is still to come. */
  lemma FiledNew(t: Tables, a: PutArgs, found: Id)
    requires Linked(t.history) && Agrees(t) && PutAllowed(t, a) && found in Live(t) && a.key.profileId !in t.master
    ensures Agrees(Filed(t, a, Some(found)))
  {
    hide PathsWithin, MasterFollows, InteractionsFollow;
    FiledFollows(t, a, found);
    FiledKeepsRows(t, a, found);
    var t', t1 := Filed(t, a, Some(found)), FiledUnder(t, a, found);
    assert t'.master == t1.master && t'.history == t1.history && t'.interactions == t1.interactions && t'.search == t1.search;
    assert Originals(t') == Originals(t1) && Live(t') == Live(t1);
  }

  /** The holder of a filed profile id is live, so it must be in the search table. */
  lemma MissingHolder(t: Tables, a: PutArgs, found: Option<Id>, t': Tables)
    requires t'.master == Filed(t, a, found).master && PutHolder(t, a, found) !in t'.search
    ensures !Agrees(t')
  {
    var pid := a.key.profileId;
    assert t'.master[pid].connectId == PutHolder(t, a, found);
    assert PutHolder(t, a, found) in Live(t');
  }

  lemma UnrecordedMatch(t: Tables, a: PutArgs, found: Id)
    requires PutAllowed(t, a) && found != a.freshId && a.key.profileId !in t.master
    ensures !MasterFollowsHistory(RowFiled(t, a, Some(found)))
  {
    FreshIsRoot(t.history, a.freshId);
    assert RowFiled(t, a, Some(found)).master[a.key.profileId].connectId == found;
  }

  /** A put that fails leaves the tables in agreement exactly if it had not begun, if it was filed under a match and had not
      begun its transaction, or if the profile id was known and, from the object statement on, the object was known. */
  lemma FailedPutAgreesIff(t: Tables, a: PutArgs, found: Option<Id>, fault: int)
    requires Linked(t.history) && Agrees(t) && PutAllowed(t, a) && (found.Some? ==> found.value in Live(t))
    requires MASTER_INSERT <= fault <= COMMIT && (fault == MATCH_ROW ==> found == Some(PutHolder(t, a, found)))
    ensures Agrees(FailedPut(t, a, found, fault)) <==> FailsCleanly(t, a, found, fault)
  {
    hide Agrees, Linked, PutAllowed, Live;
    var known := a.key.profileId in t.master;
    FreshIsNotLive(t, a);
    if fault == MASTER_INSERT {
    } else if fault == MATCH_ROW {
      if !known {
        UnrecordedMatch(t, a, found.value);
        NotFollowing(RowFiled(t, a, found));
      }
    } else if known {
      if fault < OBJECT_COUNT || a.key in t.interactions {
        FiledKnown(t, a, found);
      } else {
        MissingHolder(t, a, found, FailedPut(t, a, found, fault));
      }
    } else if fault == START && found.Some? {
      FiledNew(t, a, found.value);
    } else {
      UnknownObject(t, a);
      FreshIsUnsearched(t, a);
      MissingHolder(t, a, found, FailedPut(t, a, found, fault));
    }
  }

  lemma NotFollowing(t: Tables)
    requires !MasterFollowsHistory(t)
    ensures !Agrees(t)
  {}

  lemma UnknownObject(t: Tables, a: PutArgs)
    requires Agrees(t) && a.key.profileId !in t.master
    ensures a.key !in t.interactions
  {}

  lemma FreshIsUnsearched(t: Tables, a: PutArgs)
    requires Agrees(t) && a.freshId !in Live(t)
    ensures a.freshId !in t.search
  {}
}
