/** Requests by original id: how they resolve, why repeating a merge is harmless,
    and two histories in which an id is merged again after an unmerge. */
module ProfileRequests {
  import opened MergeHistory
  import opened LineageQuery
  import opened UpwardQuery
  import opened Lineage
  import opened LineageExact
  import opened FieldResolution
  import opened ProfileCount
  import opened ProfileTables
  import opened IdentityInvariant

  /** The search rows that join with the master rows of an original id. */
  function Resolved(t: Tables, x: Id): set<Id> {
    set pid | pid in t.master && t.master[pid].originalId == x && t.master[pid].connectId in t.search :: t.master[pid].connectId
  }

  datatype Status = Success | Failure

  /** A merge request: the id to merge is looked up first, the survivor is taken as given.
      An id that already resolves to the survivor is a success that changes nothing. */
  ghost function AfterMergeRequest(t: Tables, a: MergeArgs): Tables {
    if Resolved(t, a.merged) == {} then t
    else
      var id :| id in Resolved(t, a.merged);
      if id == a.survivor then t else AfterMerge(t, a.(merged := id))
  }

  /** Every original id that was not deleted resolves to exactly one search row, that of its root; any other id to none. */
  lemma ResolvesToOne(t: Tables, x: Id)
    requires Agrees(t)
    ensures Resolved(t, x) == if x in Originals(t) then {Root(t.history, x)} else {}
  {}

  /** Without unmerges, live paths are extended at their end only. */
  lemma {:induction false} PathsGrow(t: Tables, ops: seq<Op>, x: Id)
    requires Grounded(t) && RunAllowed(t, ops) && WithoutUnmerge(ops)
    ensures Grounded(Run(t, ops)) && LivePath(t.history, x) <= LivePath(Run(t, ops).history, x)
  {
    hide Grounded, Allowed, Apply, LivePath;
    if ops != [] {
      var op := ops[|ops| - 1];
      PathsGrow(t, ops[..|ops| - 1], x);
      var t1 := Run(t, ops[..|ops| - 1]);
      StepKeepsGrounded(t1, op);
      PathGrowsInStep(t1, op, x);
    }
  }

  lemma PathGrowsInStep(t: Tables, op: Op, x: Id)
    requires !op.UnmergeOp?
    ensures LivePath(t.history, x) <= LivePath(Apply(t, op).history, x)
  {}

  /** The id to merge has been looked up, and the lineage queries can follow the merge. */
  ghost predicate MergeRequestAllowed(t: Tables, a: MergeArgs) {
    && a.survivor in Live(t) && 1 <= a.shard <= COUNT_TABLE_PARTITIONS
    && (a.merged in Originals(t) && Root(t.history, a.merged) != a.survivor
        ==> MergeTraceable(t.history, Root(t.history, a.merged), a.survivor))
  }

  lemma MergeRequestIsMerge(t: Tables, a: MergeArgs)
    requires Grounded(t) && MergeRequestAllowed(t, a)
    ensures var t' := AfterMergeRequest(t, a);
            Grounded(t') && (a.merged in Originals(t) ==> a.survivor in LivePath(t'.history, a.merged))
  {
    hide WellFormed, LivePath, PathsWithin, MasterFollows, InteractionsFollow, MergeTraceable;
    ResolvesToOne(t, a.merged);
    GroundedIsLinked(t);
    LiveIsRoot(t, a.survivor);
    if a.merged in Originals(t) {
      var id := Root(t.history, a.merged);
      RootIsLive(t, a.merged);
      LiveIsRoot(t, id);
      assert Last(LivePath(t.history, a.merged)) in LivePath(t.history, a.merged);
      if id != a.survivor {
        var m := a.(merged := id);
        MergeKeepsGrounded(t, m);
        Snoc(t.history, MergeRow(m));
      }
    }
  }

  /** Repeating a merge request changes nothing as long as the survivor is live,
      whatever puts, merges and deletes came in between. */
  lemma RepeatedMergeChangesNothing(t: Tables, a: MergeArgs, ops: seq<Op>, again: MergeArgs)
    requires Grounded(t) && MergeRequestAllowed(t, a) && a.merged in Originals(t)
    requires again.survivor == a.survivor && again.merged == a.merged
    requires RunAllowed(AfterMergeRequest(t, a), ops) && WithoutUnmerge(ops)
    requires a.survivor in Live(Run(AfterMergeRequest(t, a), ops))
    ensures var t' := Run(AfterMergeRequest(t, a), ops); AfterMergeRequest(t', again) == t'
  {
    hide WellFormed, LivePath, AfterMerge, MergeRequestAllowed;
    var t1 := AfterMergeRequest(t, a);
    var t' := Run(t1, ops);
    MergeRequestIsMerge(t, a);
    PathsGrow(t1, ops, a.merged);
    GroundedIsLinked(t');
    RootBelow(t'.history, a.merged, a.survivor);
    LiveIsRoot(t', a.survivor);
    ResolvesToOne(t', a.merged);
  }

  // ---- a merge after an unmerge ----

  lemma MergedOnce(a: Id, b: Id, c: Id, f: real)
    requires a != b && b != c && NIL_UUID !in {a, b, c}
    ensures var h := [Row(Merge, b, a, f)];
      && WellFormed(h) && LivePath(h, b) == [b, a] && LivePath(h, a) == [a] && LivePath(h, c) == [c] && FullPath(h, c) == [c]
      && MergedAway(h) == {b} && Deleted(h) == {}
  {
    var m := Row(Merge, b, a, f);
    assert WellFormed([]) && [] + [m] == [m];
    forall x ensures LivePath([], x) == [x] && FullPath([], x) == [x] {}
    NoRows();
    Snoc([], m);
  }

  /** Merged into a and unmerged: b is a profile of its own, and may be merged again into a or into any other id. */
  lemma MergedAndUnmerged(a: Id, b: Id, c: Id, f: real, g: real)
    requires a != b && b != c && NIL_UUID !in {a, b, c}
    ensures var h := [Row(Merge, b, a, f), Row(Unmerge, b, a, f)];
      && WellFormed(h) && Linkable(h, Row(Merge, b, c, g)) && FullPath(h, c) == [c] && LivePath(h, b) == [b]
      && MergedAway(h) == {b} && Cuts(h) == {b}
  {
    hide WellFormed, LivePath, FullPath, Cuts, Rows, EverUnmerged;
    var m, u := Row(Merge, b, a, f), Row(Unmerge, b, a, f);
    MergedOnce(a, b, c, f);
    assert [m] + [u] == [m, u];
    Snoc([m], u);
    SnocCuts([m], u);
    NothingCutYet(m);
  }

  lemma NothingCutYet(m: Row)
    requires m.kind.Merge?
    ensures Cuts([m]) == {}
  {
    assert [m][..0] == [];
  }

  lemma NoRows()
    ensures forall kind, p, x :: !HasRow([], kind, p, x)
  {}

  /** Merged into a, unmerged, and merged into a again: the two merges outnumber the unmerge, and a's lineage holds b. */
  lemma MergedAgainIsFound(a: Id, b: Id, f: real, g: real, depth: nat)
    requires a != b && NIL_UUID !in {a, b}
    ensures InLineage([Row(Merge, b, a, f), Row(Unmerge, b, a, f), Row(Merge, b, a, g)], a, depth, b)
  {
    hide WellFormed, Linkable;
    var h, e := [Row(Merge, b, a, f), Row(Unmerge, b, a, f)], Row(Merge, b, a, g);
    assert h + [e] == [Row(Merge, b, a, f), Row(Unmerge, b, a, f), Row(Merge, b, a, g)];
    MergedAndUnmerged(a, b, a, f, g);
    Snoc(h, e);
    assert LivePath(h + [e], b)[1] == a;
    LineageIsWhatHangsBelow(h + [e], a, depth, b);
  }

  /** Merged into a, unmerged, then merged into c: the old unmerge cancels the new merge,
      so the lineage of c misses an id that was last merged into c. */
  lemma RemergedIdIsLost(a: Id, b: Id, c: Id, f: real, g: real, depth: nat)
    requires a != b && b != c && a != c && NIL_UUID !in {a, b, c}
    ensures !InLineage([Row(Merge, b, a, f), Row(Unmerge, b, a, f), Row(Merge, b, c, g)], c, depth, b)
  {
    hide WellFormed, Linkable;
    var h, e := [Row(Merge, b, a, f), Row(Unmerge, b, a, f)], Row(Merge, b, c, g);
    assert h + [e] == [Row(Merge, b, a, f), Row(Unmerge, b, a, f), Row(Merge, b, c, g)];
    MergedAndUnmerged(a, b, c, f, g);
    assert h[0] in h;
    RemergedElsewhereIsMissed(h, e, depth, h[0]);
  }
}
