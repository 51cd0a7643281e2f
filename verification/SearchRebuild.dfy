/** The profile fields kept incrementally in the search table against the same fields
    rebuilt by sorting all interactions of the profile and folding them. */
module SearchRebuild {
  import opened MergeHistory
  import opened FieldResolution
  import opened ProfileCount
  import opened ProfileTables
  import opened IdentityInvariant

  // ---- what the incremental updates keep ----

  predicate Has(i: Interaction, f: Field) {
    f in i.fields && i.fields[f] != Text("")
  }

  function Offer(k: ObjectKey, i: Interaction, f: Field): Column
    requires Has(i, f)
  {
    Filled(i.fields[f], i.lastUpdated, k.objectType)
  }

  /** Interaction k of profile r offers column c for f. */
  ghost predicate Offers(t: Tables, r: Id, f: Field, k: ObjectKey, c: Column) {
    k in t.interactions && t.interactions[k].connectId == r && Has(t.interactions[k], f) && Offer(k, t.interactions[k], f) == c
  }

  /** c is what the best of r's interactions offers for f, or NULL if none offers anything. */
  ghost predicate IsBest(t: Tables, r: Id, f: Field, c: Column) {
    && Sound(c)
    && (c == NULL || exists k :: Offers(t, r, f, k, c))
    && forall k, d :: Offers(t, r, f, k, d) ==> !Beats(t.config.priority, d, c)
  }

  ghost predicate RowIsBest(t: Tables, r: Id, row: SearchRow) {
    row.Keys == t.config.columns && forall f :: f in row ==> IsBest(t, r, f, row[f])
  }

  ghost predicate SearchIsBest(t: Tables) {
    forall r :: r in t.search ==> RowIsBest(t, r, t.search[r])
  }

  /** Each object is put once, with the fields the search table has. */
  ghost predicate PutOnce(t: Tables, a: PutArgs) {
    a.key !in t.interactions && a.fields.Keys <= t.config.columns
  }

  lemma ResolvedIsBest(prio: seq<ObjectType>, old_: Column, offer: Column, rest: Column)
    requires Sound(old_) && Sound(offer) && Sound(rest)
    requires !Beats(prio, rest, old_) || !Beats(prio, rest, offer)
    ensures !Beats(prio, rest, Resolve(prio, old_, offer))
  {
    ResolveIsMax(prio, old_, offer);
  }

  ghost predicate OnlyMoreOffer(t: Tables, t': Tables, r: Id, f: Field, key: ObjectKey, offer: Column) {
    && t'.config == t.config
    && forall k, d :: Offers(t', r, f, k, d) <==> Offers(t, r, f, k, d) || (k == key && d == offer)
  }

  lemma OneMoreOffer(t: Tables, t': Tables, r: Id, f: Field, old_: Column, key: ObjectKey, offer: Column)
    requires IsBest(t, r, f, old_) && OnlyMoreOffer(t, t', r, f, key, offer) && Sound(offer)
    ensures IsBest(t', r, f, Resolve(t.config.priority, old_, offer))
  {
    var prio := t.config.priority;
    ResolveIsMax(prio, old_, offer);
    forall k, d | Offers(t', r, f, k, d) ensures !Beats(prio, d, Resolve(prio, old_, offer)) {
      ResolvedIsBest(prio, old_, offer, d);
    }
    assert Offers(t', r, f, key, offer);
    if old_ != NULL {
      var k :| Offers(t, r, f, k, old_);
      assert Offers(t', r, f, k, old_);
    }
  }

  lemma PutOffers(t: Tables, a: PutArgs, f: Field)
    requires PutOnce(t, a)
    ensures AfterPut(t, a).config == t.config
    ensures var t', r, i := AfterPut(t, a), HolderOf(t, a.key.profileId, a.freshId), PutInteraction(t, a);
            if Has(i, f) then OnlyMoreOffer(t, t', r, f, a.key, Offer(a.key, i, f))
            else forall k, d :: Offers(t', r, f, k, d) <==> Offers(t, r, f, k, d)
  {}

  lemma PutFieldIsBest(t: Tables, a: PutArgs, f: Field, old_: Column)
    requires PutOnce(t, a) && IsBest(t, HolderOf(t, a.key.profileId, a.freshId), f, old_)
    ensures var r, offered := HolderOf(t, a.key.profileId, a.freshId), Offered(a.fields, a.lastUpdated, a.key.objectType);
            IsBest(AfterPut(t, a), r, f, if f in offered then Resolve(t.config.priority, old_, offered[f]) else old_)
  {
    hide AfterPut, IsBest;
    var t', r, i := AfterPut(t, a), HolderOf(t, a.key.profileId, a.freshId), PutInteraction(t, a);
    PutOffers(t, a, f);
    if Has(i, f) {
      OneMoreOffer(t, t', r, f, old_, a.key, Offer(a.key, i, f));
    } else {
      SameOffers(t, t', r, r, f, old_);
    }
  }

  lemma SameOffers(t: Tables, t': Tables, r: Id, r': Id, f: Field, c: Column)
    requires IsBest(t, r, f, c) && t'.config == t.config
    requires forall k, d :: Offers(t', r', f, k, d) <==> Offers(t, r, f, k, d)
    ensures IsBest(t', r', f, c)
  {}

  lemma NoInteractionOfFresh(t: Tables, a: PutArgs)
    requires Agrees(t) && SearchIsBest(t) && (a.key.profileId in t.master || (Linked(t.history) && PutAllowed(t, a)))
    ensures RowIsBest(t, HolderOf(t, a.key.profileId, a.freshId), RowOrEmpty(t, HolderOf(t, a.key.profileId, a.freshId)))
  {
    if a.key.profileId !in t.master {
      FreshIsNotLive(t, a);
    }
  }

  lemma PutKeepsBest(t: Tables, a: PutArgs)
    requires Agrees(t) && SearchIsBest(t) && PutOnce(t, a)
    requires a.key.profileId in t.master || (Linked(t.history) && PutAllowed(t, a))
    ensures SearchIsBest(AfterPut(t, a))
  {
    hide Linked, LivePath, MasterFollows, PathsWithin;
    var t', r := AfterPut(t, a), HolderOf(t, a.key.profileId, a.freshId);
    forall s | s in t'.search ensures RowIsBest(t', s, t'.search[s]) {
      if s == r {
        NoInteractionOfFresh(t, a);
        forall f | f in t'.search[s] ensures IsBest(t', s, f, t'.search[s][f]) {
          PutFieldIsBest(t, a, f, RowOrEmpty(t, s)[f]);
        }
      } else {
        assert RowIsBest(t, s, t.search[s]);
        forall f, k, d ensures Offers(t', s, f, k, d) <==> Offers(t, s, f, k, d) {}
        SameOffersSameBest(t, t', s, s, t.search[s]);
      }
    }
  }

  /** A put that found a match before the profile was inserted. */
  lemma PreMatchPutKeepsBest(t: Tables, a: PutArgs, found: Id)
    requires Grounded(t) && SearchIsBest(t) && PutAllowed(t, a) && found in Live(t) && PutOnce(t, a)
    ensures SearchIsBest(AfterPreMatchPut(t, a, found))
  {
    hide AfterPut, PathsWithin, MasterFollows, WellFormed, Linked, PutAllowed, UpdateColumns;
    var t1 := FiledUnder(t, a, found);
    GroundedIsLinked(t);
    FiledFollows(t, a, found);
    FiledKeepsRows(t, a, found);
    forall s | s in t1.search ensures RowIsBest(t1, s, t1.search[s]) {
      forall f, k, d ensures Offers(t1, s, f, k, d) <==> Offers(t, s, f, k, d) {}
      SameOffersSameBest(t, t1, s, s, t.search[s]);
    }
    PutKeepsBest(t1, a);
  }

  lemma SameOffersSameBest(t: Tables, t': Tables, r: Id, r': Id, row: SearchRow)
    requires RowIsBest(t, r, row) && t'.config == t.config
    requires forall f, k, d :: Offers(t', r', f, k, d) <==> Offers(t, r, f, k, d)
    ensures RowIsBest(t', r', row)
  {}

  lemma MergedOffers(t: Tables, a: MergeArgs, s: Id, f: Field)
    requires !MergeRejected(t, a) && s != a.merged
    ensures forall k, d :: Offers(AfterMerge(t, a), s, f, k, d) <==>
      (Offers(t, s, f, k, d) || (s == a.survivor && Offers(t, a.merged, f, k, d)))
  {}

  lemma MergedFieldIsBest(t: Tables, a: MergeArgs, f: Field, x: Column, y: Column)
    requires !MergeRejected(t, a) && IsBest(t, a.survivor, f, x) && IsBest(t, a.merged, f, y)
    ensures IsBest(AfterMerge(t, a), a.survivor, f, Resolve(t.config.priority, x, y))
  {
    var prio, t' := t.config.priority, AfterMerge(t, a);
    ResolveIsMax(prio, x, y);
    MergedOffers(t, a, a.survivor, f);
    forall k, d | Offers(t', a.survivor, f, k, d) ensures !Beats(prio, d, Resolve(prio, x, y)) {
      ResolvedIsBest(prio, x, y, d);
    }
    if x != NULL {
      var k :| Offers(t, a.survivor, f, k, x);
      assert Offers(t', a.survivor, f, k, x);
    }
    if y != NULL {
      var k :| Offers(t, a.merged, f, k, y);
      assert Offers(t', a.survivor, f, k, y);
    }
  }

  lemma SurvivorRowIsBest(t: Tables, a: MergeArgs, x: SearchRow, y: SearchRow)
    requires !MergeRejected(t, a) && RowIsBest(t, a.survivor, x) && RowIsBest(t, a.merged, y)
    ensures RowIsBest(AfterMerge(t, a), a.survivor, UpdateColumns(t.config.priority, x, y, t.config.columns))
  {
    hide IsBest;
    forall f | f in x ensures IsBest(AfterMerge(t, a), a.survivor, f, Resolve(t.config.priority, x[f], y[f])) {
      MergedFieldIsBest(t, a, f, x[f], y[f]);
    }
  }

  lemma OtherRowIsBest(t: Tables, a: MergeArgs, s: Id, row: SearchRow)
    requires !MergeRejected(t, a) && s != a.survivor && s != a.merged && RowIsBest(t, s, row)
    ensures RowIsBest(AfterMerge(t, a), s, row)
  {
    forall f, k, d ensures Offers(AfterMerge(t, a), s, f, k, d) <==> Offers(t, s, f, k, d) {
      MergedOffers(t, a, s, f);
    }
    SameOffersSameBest(t, AfterMerge(t, a), s, s, row);
  }

  lemma MergeKeepsBest(t: Tables, a: MergeArgs)
    requires Agrees(t) && SearchIsBest(t) && a.survivor in Live(t)
    ensures SearchIsBest(AfterMerge(t, a))
  {
    hide LivePath, MasterFollows, PathsWithin, RowIsBest;
    if !MergeRejected(t, a) {
      var t' := AfterMerge(t, a);
      SurvivorRowIsBest(t, a, t.search[a.survivor], t.search[a.merged]);
      forall s | s in t'.search ensures RowIsBest(t', s, t'.search[s]) {
        if s != a.survivor {
          OtherRowIsBest(t, a, s, t.search[s]);
        }
      }
    }
  }

  lemma DeleteKeepsBest(t: Tables, a: DeleteArgs)
    requires SearchIsBest(t)
    ensures SearchIsBest(AfterDelete(t, a))
  {
    var t' := AfterDelete(t, a);
    forall s | s in t'.search ensures RowIsBest(t', s, t'.search[s]) {
      assert RowIsBest(t, s, t.search[s]);
      forall f, k, d ensures Offers(t', s, f, k, d) <==> Offers(t, s, f, k, d) {}
      SameOffersSameBest(t, t', s, s, t.search[s]);
    }
  }

  ghost predicate ObjectsPutOnce(t: Tables, ops: seq<Op>) {
    ops == [] || (ObjectsPutOnce(t, ops[..|ops| - 1]) &&
      (ops[|ops| - 1].Put? || ops[|ops| - 1].PreMatchPut? ==> PutOnce(Run(t, ops[..|ops| - 1]), ops[|ops| - 1].put)))
  }

  /** Over every run of puts, merges and deletes in which each object is put once, every search row
      holds for every field what the best interaction of its profile offers. */
  lemma {:induction false} RunKeepsBest(config: Config, ops: seq<Op>)
    requires var t := EmptyTables(config); RunAllowed(t, ops) && WithoutUnmerge(ops) && ObjectsPutOnce(t, ops)
    ensures SearchIsBest(Run(EmptyTables(config), ops))
  {
    if ops != [] {
      var t, op := Run(EmptyTables(config), ops[..|ops| - 1]), ops[|ops| - 1];
      RunKeepsBest(config, ops[..|ops| - 1]);
      RunKeepsInv(config, ops[..|ops| - 1]);
      GroundedIsLinked(t);
      hide SearchIsBest, Agrees, WellFormed, CountExceeds;
      match op
      case Put(a) => PutKeepsBest(t, a);
      case PreMatchPut(a, found) => PreMatchPutKeepsBest(t, a, found);
      case MergeOp(a) => MergeKeepsBest(t, a);
      case DeleteOp(a) => DeleteKeepsBest(t, a);
    }
  }

  // ---- the rebuild from interactions ----

  datatype Record = Record(objectType: ObjectType, fields: map<Field, Text>, lastUpdated: int)

  /** Position in the priority list, or its length for an object type that is not listed. */
  function FindPriority(prio: seq<ObjectType>, objType: ObjectType): nat {
    if prio == [] then 0 else if prio[0] == objType then 0 else 1 + FindPriority(prio[1..], objType)
  }

  /** The comparison the records are sorted by: least important object types first, then oldest first. */
  predicate SortsBefore(prio: seq<ObjectType>, x: Record, y: Record) {
    var px, py := FindPriority(prio, x.objectType), FindPriority(prio, y.objectType);
    if px != py then px > py else x.lastUpdated < y.lastUpdated
  }

  predicate Arranged(prio: seq<ObjectType>, records: seq<Record>) {
    forall i, j :: 0 <= i < j < |records| ==> !SortsBefore(prio, records[j], records[i])
  }

  predicate Gives(r: Record, f: Field) {
    f in r.fields && r.fields[f] != Text("")
  }

  datatype ProfileField = ProfileField(value: Text, objectType: ObjectType)

  /** The last record that gives the field. */
  function LastGiven(records: seq<Record>, f: Field): Option<ProfileField> {
    if records == [] then None
    else
      var r := records[|records| - 1];
      if Gives(r, f) then Some(ProfileField(r.fields[f], r.objectType)) else LastGiven(records[..|records| - 1], f)
  }

  /** The fold over the arranged records: later records overwrite, empty values are skipped. */
  method BuildProfileFromInteractions(records: seq<Record>) returns (profile: map<Field, ProfileField>)
    ensures forall f :: f in profile <==> LastGiven(records, f).Some?
    ensures forall f :: f in profile ==> LastGiven(records, f) == Some(profile[f])
  {
    profile := map[];
    var i := 0;
    while i < |records|
      invariant 0 <= i <= |records|
      invariant forall f :: f in profile <==> LastGiven(records[..i], f).Some?
      invariant forall f :: f in profile ==> LastGiven(records[..i], f) == Some(profile[f])
    {
      assert records[..i + 1][..i] == records[..i] && records[..i + 1][i] == records[i];
      profile := SetFields(profile, records[i]);
      i := i + 1;
    }
    assert records[..i] == records;
  }

  method SetFields(profile: map<Field, ProfileField>, record: Record) returns (result: map<Field, ProfileField>)
    ensures forall f :: f in result <==> f in profile || Gives(record, f)
    ensures forall f :: f in result ==>
      result[f] == if Gives(record, f) then ProfileField(record.fields[f], record.objectType) else profile[f]
  {
    result := profile;
    var keys := record.fields.Keys;
    while keys != {}
      invariant keys <= record.fields.Keys
      invariant forall f :: f in result <==> f in profile || (Gives(record, f) && f !in keys)
      invariant forall f :: f in result ==>
        result[f] == if Gives(record, f) && f !in keys then ProfileField(record.fields[f], record.objectType) else profile[f]
    {
      var key :| key in keys;
      keys := keys - {key};
      if record.fields[key] != Text("") {
        result := result[key := ProfileField(record.fields[key], record.objectType)];
      }
    }
  }

  // ---- the two priority orders ----

  predicate AtMostOneTypeListed(prio: seq<ObjectType>) {
    forall i, j :: 0 <= i < |prio| && 0 <= j < |prio| ==> prio[i] == prio[j]
  }

  /** Both sides order these two object types the same way. */
  predicate OrdersAgree(prio: seq<ObjectType>, x: ObjectType, y: ObjectType) {
    Rank(prio, Some(x)) < Rank(prio, Some(y)) <==> FindPriority(prio, x) > FindPriority(prio, y)
  }

  lemma {:induction false} RankOfOne(prio: seq<ObjectType>, x: ObjectType, i: nat)
    requires AtMostOneTypeListed(prio) && i <= |prio|
    ensures RankFrom(prio, Some(x), i) == if i < |prio| && prio[i] == x then i + 1 else 0
    decreases |prio| - i
  {
    if i < |prio| && prio[i] != x {
      RankOfOne(prio, x, i + 1);
    }
  }

  lemma {:induction false} PriorityOfOne(prio: seq<ObjectType>, x: ObjectType)
    requires AtMostOneTypeListed(prio)
    ensures FindPriority(prio, x) == if prio != [] && prio[0] == x then 0 else |prio|
  {
    if prio != [] && prio[0] != x {
      forall i | 0 <= i < |prio| - 1 ensures prio[1..][i] == prio[0] {
        assert prio[1..][i] == prio[i + 1];
      }
      PriorityOfOne(prio[1..], x);
    }
  }

  lemma {:induction false} RankAtFirst(prio: seq<ObjectType>, n: nat, i: nat)
    requires i <= n < |prio| && forall j :: i <= j < n ==> prio[j] != prio[n]
    ensures RankFrom(prio, Some(prio[n]), i) == n + 1
    decreases n - i
  {
    if i < n {
      RankAtFirst(prio, n, i + 1);
    }
  }

  lemma {:induction false} PriorityAtFirst(prio: seq<ObjectType>, n: nat)
    requires n < |prio| && forall j :: 0 <= j < n ==> prio[j] != prio[n]
    ensures FindPriority(prio, prio[n]) == n
  {
    if n > 0 {
      PriorityAtFirst(prio[1..], n - 1);
    }
  }

  /** The first entry that differs from the first of the list. */
  lemma {:induction false} FirstOther(prio: seq<ObjectType>, n: nat) returns (m: nat)
    requires 0 < n < |prio| && prio[n] != prio[0]
    ensures 0 < m < |prio| && prio[m] != prio[0] && forall j :: 0 <= j < m ==> prio[j] == prio[0]
    decreases n
  {
    if j :| 0 < j < n && prio[j] != prio[0] {
      m := FirstOther(prio, j);
    } else {
      m := n;
    }
  }

  lemma TwoTypes(prio: seq<ObjectType>) returns (m: nat)
    requires !AtMostOneTypeListed(prio)
    ensures 0 < m < |prio| && prio[m] != prio[0]
    ensures Rank(prio, Some(prio[0])) == 1 && Rank(prio, Some(prio[m])) == m + 1
    ensures FindPriority(prio, prio[0]) == 0 && FindPriority(prio, prio[m]) == m
  {
    var i, j :| 0 <= i < |prio| && 0 <= j < |prio| && prio[i] != prio[j];
    m := FirstOther(prio, if prio[i] != prio[0] then i else j);
    RankAtFirst(prio, 0, 0);
    RankAtFirst(prio, m, 0);
    PriorityAtFirst(prio, 0);
    PriorityAtFirst(prio, m);
  }

  /** The SQL rank grows along the list while the sort lets earlier entries win:
      the two agree exactly when the list does not hold two different types. */
  lemma PrioritiesAgreeIff(prio: seq<ObjectType>)
    ensures (forall x, y :: OrdersAgree(prio, x, y)) <==> AtMostOneTypeListed(prio)
  {
    if AtMostOneTypeListed(prio) {
      forall x, y ensures OrdersAgree(prio, x, y) {
        RankOfOne(prio, x, 0);
        RankOfOne(prio, y, 0);
        PriorityOfOne(prio, x);
        PriorityOfOne(prio, y);
      }
    } else {
      var m := TwoTypes(prio);
      assert !OrdersAgree(prio, prio[0], prio[m]);
    }
  }

  /** A listed type stands at its first position, and one that is not listed behind the whole list. */
  lemma {:induction false} PriorityIs(prio: seq<ObjectType>, x: ObjectType)
    ensures FindPriority(prio, x) <= |prio| && (FindPriority(prio, x) == |prio| <==> x !in prio)
    ensures x in prio ==> prio[FindPriority(prio, x)] == x && forall j :: 0 <= j < FindPriority(prio, x) ==> prio[j] != x
  {
    if prio != [] && prio[0] != x {
      assert prio == [prio[0]] + prio[1..];
      PriorityIs(prio[1..], x);
    }
  }

  /** Which of two records the sort puts first, told by the priority list and the times alone. */
  lemma SortsBeforeIff(prio: seq<ObjectType>, x: Record, y: Record)
    ensures SortsBefore(prio, x, y) <==>
      var a, b := x.objectType, y.objectType;
      if a == b || (a !in prio && b !in prio) then x.lastUpdated < y.lastUpdated
      else a !in prio || (b in prio && ListedBefore(prio, b, a))
  {
    var a, b := x.objectType, y.objectType;
    PriorityIs(prio, a);
    PriorityIs(prio, b);
    if a != b && a in prio && b in prio {
      var m, n := FindPriority(prio, a), FindPriority(prio, b);
      assert prio[m] == a && prio[n] == b;
    }
  }

  // ---- rebuild and incremental value ----

  function RecordOf(k: ObjectKey, i: Interaction): Record {
    Record(k.objectType, i.fields, i.lastUpdated)
  }

  ghost predicate BelongsTo(t: Tables, r: Id, k: ObjectKey) {
    k in t.interactions && t.interactions[k].connectId == r
  }

  /** The records are those of r's interactions, in some order. */
  ghost predicate RecordsOf(t: Tables, r: Id, records: seq<Record>) {
    && (forall k :: BelongsTo(t, r, k) ==> RecordOf(k, t.interactions[k]) in records)
    && (forall rec :: rec in records ==> exists k :: BelongsTo(t, r, k) && RecordOf(k, t.interactions[k]) == rec)
  }

  ghost predicate DistinctTimes(t: Tables, r: Id) {
    forall k, l :: BelongsTo(t, r, k) && BelongsTo(t, r, l) && t.interactions[k].lastUpdated == t.interactions[l].lastUpdated ==> k == l
  }

  function Shown(c: Column): Option<ProfileField>
    requires Sound(c)
  {
    if c == NULL then None else Some(ProfileField(c.value.value, c.objType.value))
  }

  lemma {:induction false} LastGivenIs(records: seq<Record>, f: Field) returns (i: int)
    ensures -1 <= i < |records|
    ensures i == -1 <==> LastGiven(records, f) == None
    ensures i >= 0 ==> Gives(records[i], f) && LastGiven(records, f) == Some(ProfileField(records[i].fields[f], records[i].objectType))
    ensures forall j :: i < j < |records| ==> !Gives(records[j], f)
  {
    if records == [] {
      i := -1;
    } else if Gives(records[|records| - 1], f) {
      i := |records| - 1;
    } else {
      i := LastGivenIs(records[..|records| - 1], f);
    }
  }

  /** Two records where neither side may come later: the same rank and the same time. */
  lemma LastIsBest(prio: seq<ObjectType>, x: Record, y: Record)
    requires AtMostOneTypeListed(prio) && !SortsBefore(prio, y, x)
    requires Rank(prio, Some(y.objectType)) <= Rank(prio, Some(x.objectType))
    requires Rank(prio, Some(y.objectType)) == Rank(prio, Some(x.objectType)) ==> y.lastUpdated <= x.lastUpdated
    ensures x.lastUpdated == y.lastUpdated
  {
    PrioritiesAgreeIff(prio);
    assert OrdersAgree(prio, x.objectType, y.objectType) && OrdersAgree(prio, y.objectType, x.objectType);
  }

  /** The value a search row has accumulated is the value rebuilt from the interactions of the profile,
      however the sort arranges them, provided update times differ and at most one object type has priority. */
  lemma RebuildEqualsIncremental(t: Tables, r: Id, f: Field, records: seq<Record>)
    requires SearchIsBest(t) && r in t.search && f in t.config.columns
    requires AtMostOneTypeListed(t.config.priority) && DistinctTimes(t, r)
    requires RecordsOf(t, r, records) && Arranged(t.config.priority, records)
    ensures f in t.search[r] && Sound(t.search[r][f]) && LastGiven(records, f) == Shown(t.search[r][f])
  {
    assert RowIsBest(t, r, t.search[r]);
    var c := t.search[r][f];
    assert IsBest(t, r, f, c);
    var i := LastGivenIs(records, f);
    if i >= 0 {
      assert records[i] in records;
      var k :| BelongsTo(t, r, k) && RecordOf(k, t.interactions[k]) == records[i];
      BestRecord(t, r, f, c, records, i, k);
    } else if c != NULL {
      var l :| Offers(t, r, f, l, c);
      assert BelongsTo(t, r, l) && Gives(RecordOf(l, t.interactions[l]), f);
    }
  }

  lemma BestRecord(t: Tables, r: Id, f: Field, c: Column, records: seq<Record>, i: nat, k: ObjectKey)
    requires IsBest(t, r, f, c) && AtMostOneTypeListed(t.config.priority) && DistinctTimes(t, r)
    requires RecordsOf(t, r, records) && Arranged(t.config.priority, records)
    requires i < |records| && Gives(records[i], f) && forall j :: i < j < |records| ==> !Gives(records[j], f)
    requires BelongsTo(t, r, k) && RecordOf(k, t.interactions[k]) == records[i]
    ensures c == Offer(k, t.interactions[k], f)
  {
    var prio, d := t.config.priority, Offer(k, t.interactions[k], f);
    assert Offers(t, r, f, k, d) && !Beats(prio, d, c);
    var l :| Offers(t, r, f, l, c);
    assert BelongsTo(t, r, l);
    var rec := RecordOf(l, t.interactions[l]);
    var j :| 0 <= j < |records| && records[j] == rec;
    assert Gives(rec, f) && j <= i;
    if j < i {
      LastIsBest(prio, rec, records[i]);
    }
    assert k == l;
  }

  /** With two different types listed, two objects are enough for the two sides to disagree. */
  lemma TwoListedTypesDisagree(prio: seq<ObjectType>, f: Field, v: Text, w: Text) returns (x: ObjectType, y: ObjectType)
    requires !AtMostOneTypeListed(prio) && v != w && v != Text("") && w != Text("")
    ensures var rx, ry := Record(x, map[f := v], 1), Record(y, map[f := w], 2);
            && Arranged(prio, [ry, rx])
            && LastGiven([ry, rx], f) == Some(ProfileField(v, x))
            && Resolve(prio, Filled(v, 1, x), Filled(w, 2, y)) == Resolve(prio, Filled(w, 2, y), Filled(v, 1, x)) == Filled(w, 2, y)
  {
    var m := TwoTypes(prio);
    x, y := prio[0], prio[m];
    ResolveIsMax(prio, Filled(v, 1, x), Filled(w, 2, y));
    ResolveIsMax(prio, Filled(w, 2, y), Filled(v, 1, x));
  }
}
