/** Runs of allowed operations after which one more operation goes wrong: the conditions that were found are met by
    states that can be reached. */
module FailingRuns {
  import opened Lists
  import opened MergeHistory
  import opened LineageQuery
  import opened UpwardQuery
  import opened Lineage
  import opened FieldResolution
  import opened ProfileCount
  import opened ProfileTables
  import opened IdentityInvariant
  import opened Confidence
  import opened ConfidenceRevert
  import opened ConfidenceRuns

  // ---- n profiles, merged one into the next ----

  /** The i-th profile id. */
  function Pid(i: nat): ProfileId { Text(seq(i, _ => 'p')) }

  function PutOf(i: nat): PutArgs {
    PutArgs(ObjectKey(Text("air"), Pid(i), Text("first")), map[], 0, Uuid(i), 0, 1)
  }

  /** Puts of the profiles 1 to n. */
  function Puts(n: nat): seq<Op> {
    if n == 0 then [] else Puts(n - 1) + [Put(PutOf(n))]
  }

  function ChainMerge(m: nat, factor: real): MergeArgs {
    MergeArgs(Uuid(m + 1), Uuid(m), factor, 0, 1)
  }

  /** The puts, and then merges of profile 1 into 2, 2 into 3, and so on. */
  function ChainRun(n: nat, factors: seq<real>): seq<Op> {
    if factors == [] then Puts(n)
    else ChainRun(n, factors[..|factors| - 1]) + [MergeOp(ChainMerge(|factors|, factors[|factors| - 1]))]
  }

  function ChainRows(factors: seq<real>): History {
    if factors == [] then []
    else ChainRows(factors[..|factors| - 1]) + [Row(Merge, Uuid(|factors|), Uuid(|factors| + 1), factors[|factors| - 1])]
  }

  function IdsBetween(i: nat, n: nat): set<Id> {
    set k: nat | i <= k <= n :: Uuid(k)
  }

  /** The ids i to n in order. */
  function Upward(i: nat, n: nat): seq<Id>
    requires i <= n
  {
    seq(n - i + 1, k requires 0 <= k => Uuid(i + k))
  }

  ghost predicate HoldsPuts(t: Tables, n: nat) {
    && (forall i: nat :: 1 <= i <= n ==> HoldsPut(t, i))
    && forall k :: k in t.interactions ==> k.objectId == Text("first") && t.interactions[k].recorded == 0
  }

  /** The row and the interaction of profile i. */
  ghost predicate HoldsPut(t: Tables, i: nat) {
    && Pid(i) in t.master && t.master[Pid(i)].originalId == Uuid(i)
    && PutOf(i).key in t.interactions && t.interactions[PutOf(i).key].recorded == 0
  }

  /** What n puts leave. */
  ghost predicate AfterPuts(t: Tables, config: Config, n: nat) {
    && t.config == config && t.history == []
    && Originals(t) == IdsBetween(1, n) && Live(t) == IdsBetween(1, n) && HoldsPuts(t, n)
    && (forall k :: k in t.interactions ==> k.profileId in t.master)
    && forall pid :: pid in t.master ==> exists i: nat :: 1 <= i <= n && pid == Pid(i)
  }

  lemma {:induction false} PutsState(config: Config, n: nat)
    ensures RunAllowed(EmptyTables(config), Puts(n)) && AfterPuts(Run(EmptyTables(config), Puts(n)), config, n)
  {
    hide Run, RunAllowed, EmptyTables, AfterPuts, AfterPut, PutAllowed, PutOf;
    if n == 0 {
      EmptyState(config);
      EmptyRun(EmptyTables(config));
    } else {
      PutsState(config, n - 1);
      RunSnoc(EmptyTables(config), Puts(n - 1), Put(PutOf(n)));
      NextPut(Run(EmptyTables(config), Puts(n - 1)), config, n);
    }
  }

  lemma EmptyRun(t: Tables)
    ensures Run(t, []) == t && RunAllowed(t, [])
  {}

  lemma EmptyState(config: Config)
    ensures AfterPuts(EmptyTables(config), config, 0)
  {}

  lemma NextPut(t: Tables, config: Config, n: nat)
    requires n >= 1 && AfterPuts(t, config, n - 1)
    ensures PutAllowed(t, PutOf(n)) && AfterPuts(AfterPut(t, PutOf(n)), config, n)
  {
    var a, pid := PutOf(n), Pid(n);
    assert |pid.chars| == n && forall i: nat :: |Pid(i).chars| == i;
    assert pid !in t.master;
    PutIds(t, a);
    assert IdsBetween(1, n) == IdsBetween(1, n - 1) + {Uuid(n)};
    var t' := AfterPut(t, a);
    forall q | q in t'.master ensures exists i: nat :: 1 <= i <= n && q == Pid(i) {
      if q in t.master {
        var i: nat :| 1 <= i <= n - 1 && q == Pid(i);
      } else {
        assert q == Pid(n);
      }
    }
    forall i: nat | 1 <= i <= n ensures HoldsPut(t', i) {
      assert i < n ==> HoldsPut(t, i);
    }
  }

  lemma {:induction false} ChainSets(factors: seq<real>)
    ensures var h, m := ChainRows(factors), |factors|;
      |h| == m && MergedAway(h) == IdsBetween(1, m) && EverUnmerged(h) == {} && Cuts(h) == {} && Deleted(h) == {}
  {
    hide LivePath, FullPath;
    var m := |factors|;
    if m > 0 {
      var before := factors[..m - 1];
      ChainSets(before);
      Snoc(ChainRows(before), Row(Merge, Uuid(m), Uuid(m + 1), factors[m - 1]));
      assert IdsBetween(1, m) == IdsBetween(1, m - 1) + {Uuid(m)};
    }
  }

  lemma {:induction false} ChainPath(factors: seq<real>, i: nat)
    requires 1 <= i <= |factors| + 1
    ensures LivePath(ChainRows(factors), Uuid(i)) == Upward(i, |factors| + 1)
  {
    var m := |factors|;
    if m == 0 {
      assert ChainRows(factors) == [];
    } else {
      var before := factors[..m - 1];
      var h', e := ChainRows(before), Row(Merge, Uuid(m), Uuid(m + 1), factors[m - 1]);
      assert ChainRows(factors) == h' + [e];
      hide ChainRows, LivePath, Upward;
      UpwardStep(if i <= m then i else m, m);
      if i <= m {
        ChainPath(before, i);
        SnocPaths(h', e, Uuid(i));
      } else {
        LastOfChain(before, e);
      }
    }
  }

  lemma UpwardStep(i: nat, n: nat)
    requires i <= n
    ensures Upward(i, n) != [] && Last(Upward(i, n)) == Uuid(n)
    ensures Upward(i, n + 1) == Upward(i, n) + [Uuid(n + 1)] && Upward(n + 1, n + 1) == [Uuid(n + 1)]
  {}

  /** The id after the last merge has not been seen yet. */
  lemma LastOfChain(factors: seq<real>, e: Row)
    requires e == Row(Merge, Uuid(|factors| + 1), Uuid(|factors| + 2), e.factor)
    ensures LivePath(ChainRows(factors) + [e], Uuid(|factors| + 2)) == [Uuid(|factors| + 2)]
  {
    var h := ChainRows(factors);
    ChainIsShort(factors, |factors| + 2);
    UnseenIsAlone(h, Uuid(|factors| + 2));
    assert (h + [e])[..|h|] == h;
  }

  lemma {:induction false} ChainIsShort(factors: seq<real>, i: nat)
    requires i > |factors| + 1
    ensures !InHistory(ChainRows(factors), Uuid(i))
  {
    if factors != [] {
      ChainIsShort(factors[..|factors| - 1], i);
    }
  }

  /** What a chain of merges after n puts leaves. */
  ghost predicate AfterChain(t: Tables, n: nat, factors: seq<real>) {
    && t.history == ChainRows(factors) && Originals(t) == IdsBetween(1, n) && Live(t) == IdsBetween(|factors| + 1, n) && HoldsPuts(t, n)
  }

  lemma {:induction false} ChainState(config: Config, n: nat, factors: seq<real>)
    requires |factors| < n
    ensures RunAllowed(EmptyTables(config), ChainRun(n, factors))
    ensures AfterChain(Run(EmptyTables(config), ChainRun(n, factors)), n, factors)
  {
    hide EmptyTables, AfterChain, HoldsPuts, Run, RunAllowed, MergeAllowed, AfterMerge;
    if factors == [] {
      PutsState(config, n);
      PutsAreChain(config, n);
    } else {
      var m := |factors|;
      var before, a := factors[..m - 1], ChainMerge(m, factors[m - 1]);
      ChainState(config, n, before);
      RunSnoc(EmptyTables(config), ChainRun(n, before), MergeOp(a));
      NextMerge(Run(EmptyTables(config), ChainRun(n, before)), n, factors);
    }
  }

  lemma RunSnoc(t: Tables, ops: seq<Op>, op: Op)
    ensures Run(t, ops + [op]) == Apply(Run(t, ops), op)
    ensures RunAllowed(t, ops + [op]) <==> RunAllowed(t, ops) && Allowed(Run(t, ops), op)
  {
    hide Apply, Allowed;
    assert (ops + [op])[..|ops|] == ops;
  }

  lemma PutsAreChain(config: Config, n: nat)
    requires AfterPuts(Run(EmptyTables(config), Puts(n)), config, n)
    ensures AfterChain(Run(EmptyTables(config), Puts(n)), n, [])
  {
    hide Run;
  }

  lemma NextMerge(t: Tables, n: nat, factors: seq<real>)
    requires 0 < |factors| < n && AfterChain(t, n, factors[..|factors| - 1])
    ensures var a := ChainMerge(|factors|, factors[|factors| - 1]);
      !MergeRejected(t, a) && MergeAllowed(t, a) && AfterChain(AfterMerge(t, a), n, factors)
  {
    var m := |factors|;
    var before, a := factors[..m - 1], ChainMerge(m, factors[m - 1]);
    assert Uuid(m) in Live(t) && Uuid(m + 1) in Live(t);
    NextMergeTraceable(before);
    RepointedIds(t, a);
    assert IdsBetween(m, n) - {Uuid(m)} + {Uuid(m + 1)} == IdsBetween(m + 1, n);
    var t' := AfterMerge(t, a);
    forall i: nat | 1 <= i <= n ensures HoldsPut(t', i) {
      assert HoldsPut(t, i);
    }
  }

  lemma NextMergeTraceable(factors: seq<real>)
    ensures MergeTraceable(ChainRows(factors), Uuid(|factors| + 1), Uuid(|factors| + 2))
  {
    hide FullPath, LivePath, ChainRows;
    var h, x, y := ChainRows(factors), Uuid(|factors| + 1), Uuid(|factors| + 2);
    ChainSets(factors);
    FullOfUnmerged(h, y);
    assert x !in MergedAway(h);
  }

  lemma {:induction false} NothingOvercounted(config: Config, n: nat, factors: seq<real>)
    ensures Overcounts(EmptyTables(config), ChainRun(n, factors)) == 0
  {
    hide Run;
    if factors != [] {
      assert ChainRun(n, factors)[..|ChainRun(n, factors)| - 1] == ChainRun(n, factors[..|factors| - 1]);
      NothingOvercounted(config, n, factors[..|factors| - 1]);
    } else if n > 0 {
      assert Puts(n)[..|Puts(n)| - 1] == Puts(n - 1) == ChainRun(n - 1, []);
      NothingOvercounted(config, n - 1, []);
    }
  }

  lemma ChainInv(config: Config, n: nat, factors: seq<real>)
    requires |factors| < n
    ensures Inv(Run(EmptyTables(config), ChainRun(n, factors)))
  {
    hide Run, EmptyTables, Grounded, CountExceeds, RunAllowed, AfterChain;
    ChainState(config, n, factors);
    RunKeepsInv(config, ChainRun(n, factors));
    NothingOvercounted(config, n, factors);
  }

  // ---- a merge into a survivor that is gone ----

  /** Three puts and a merge, and the merged id is named as the survivor of the next merge: that merge goes through,
      and its profile is no longer found. */
  lemma DeadSurvivorIsReached(config: Config, f: real, g: real)
    ensures var t, a := Run(EmptyTables(config), ChainRun(3, [f])), MergeArgs(Uuid(1), Uuid(3), g, 0, 1);
      && RunAllowed(EmptyTables(config), ChainRun(3, [f])) && Inv(t)
      && !MergeRejected(t, a) && !Consistent(AfterMerge(t, a))
  {
    hide Run, EmptyTables, Inv, RunAllowed, Consistent, AfterMerge;
    ChainState(config, 3, [f]);
    ChainInv(config, 3, [f]);
    DeadSurvivorFails(Run(EmptyTables(config), ChainRun(3, [f])), f, g);
  }

  lemma DeadSurvivorFails(t: Tables, f: real, g: real)
    requires Inv(t) && AfterChain(t, 3, [f])
    ensures var a := MergeArgs(Uuid(1), Uuid(3), g, 0, 1); !MergeRejected(t, a) && !Consistent(AfterMerge(t, a))
  {
    hide WellFormed, Agrees, AfterMerge, ChainRows, HoldsPuts;
    assert Uuid(3) in Live(t) && Uuid(1) !in Live(t);
    GroundedIsLinked(t);
    MergeConsistentIffSurvivorLive(t, MergeArgs(Uuid(1), Uuid(3), g, 0, 1));
  }

  // ---- an unmerge from below which a chain is too deep ----

  lemma ChainHangs(factors: seq<real>, i: nat, depth: nat)
    requires 1 <= i <= |factors|
    ensures var h, b := ChainRows(factors), Uuid(|factors|);
      && HangsBelow(h, b, Uuid(i)) && (HangsWithin(h, b, Uuid(i), depth) <==> |factors| - i <= depth)
  {
    hide LivePath, ChainRows;
    var m := |factors|;
    ChainPath(factors, i);
    assert Upward(i, m + 1)[m - i] == Uuid(m);
  }

  lemma NoUnmergesNoShortcut(h: History, b: Id, depth: nat, x: Id)
    requires EverUnmerged(h) == {}
    ensures !HasShortcut(h, b, depth, x)
  {
    hide LivePath, Count, Rows, Ways;
    assert forall r :: r in h && r.kind.Unmerge? ==> r.toMerge in EverUnmerged(h);
    forall j: nat, k: nat ensures !SkipsTo(h, b, depth, x, j, k) {
      var p := LivePath(h, x);
      if j < k < |p| {
        CountPositive(h, Unmerge, p[j], x);
        TimesSmall(Ways(h, p[j..], k - j), 0);
      }
    }
  }

  /** After m merges in a row over m + 1 puts the last merged id can be taken out again, with all that hangs below it,
      exactly if m does not exceed the depth of the lineage query by more than two. */
  lemma DeepChainIff(config: Config, factors: seq<real>, a: UnmergeArgs)
    requires |factors| > 0 && a.unmerged == Uuid(|factors|) && a.from == Uuid(|factors| + 1) && 1 <= a.shard <= COUNT_TABLE_PARTITIONS
    ensures var t := Run(EmptyTables(config), ChainRun(|factors| + 1, factors));
      && RunAllowed(EmptyTables(config), ChainRun(|factors| + 1, factors)) && Inv(t)
      && (Consistent(AfterUnmerge(t, a)) <==> |factors| <= PROFILE_HISTORY_DEPTH + 2)
  {
    hide Run, EmptyTables, Inv, RunAllowed, Consistent, AfterUnmerge;
    var m := |factors|;
    ChainState(config, m + 1, factors);
    ChainInv(config, m + 1, factors);
    DeepChainOf(Run(EmptyTables(config), ChainRun(m + 1, factors)), factors, a);
  }

  lemma DeepChainOf(t: Tables, factors: seq<real>, a: UnmergeArgs)
    requires Inv(t) && AfterChain(t, |factors| + 1, factors)
    requires |factors| > 0 && a.unmerged == Uuid(|factors|) && a.from == Uuid(|factors| + 1) && 1 <= a.shard <= COUNT_TABLE_PARTITIONS
    ensures Consistent(AfterUnmerge(t, a)) <==> |factors| <= PROFILE_HISTORY_DEPTH + 2
  {
    var m := |factors|;
    ChainPath(factors, m);
    assert Upward(m, m + 1) == [Uuid(m), Uuid(m + 1)];
    assert Uuid(m + 1) in Live(t) && Uuid(m) in Originals(t);
    DeepChainFits(t, factors);
    hide Inv, Consistent, AfterUnmerge, LivePath, ChainRows, ChainsFit;
    UnmergeConsistentIff(t, a);
  }

  lemma DeepChainFits(t: Tables, factors: seq<real>)
    requires AfterChain(t, |factors| + 1, factors) && |factors| > 0
    ensures ChainsFit(t, Uuid(|factors|)) <==> |factors| <= PROFILE_HISTORY_DEPTH + 2
  {
    hide LivePath, HangsWithin, HasShortcut, HangsBelow, ChainRows;
    var h, m := t.history, |factors|;
    ChainSets(factors);
    ChainPath(factors, m + 1);
    forall i: nat | 1 <= i <= m
      ensures HangsBelow(h, Uuid(m), Uuid(i)) && (ChainFits(h, Uuid(m), Uuid(i)) <==> m - i <= PROFILE_HISTORY_DEPTH + 1)
    {
      ChainHangs(factors, i, PROFILE_HISTORY_DEPTH + 1);
      NoUnmergesNoShortcut(h, Uuid(m), PROFILE_HISTORY_DEPTH, Uuid(i));
    }
    TopHangsNot(h, m);
    assert Uuid(1) in Originals(t);
  }

  lemma TopHangsNot(h: History, m: nat)
    requires LivePath(h, Uuid(m + 1)) == Upward(m + 1, m + 1)
    ensures !HangsBelow(h, Uuid(m), Uuid(m + 1))
  {}

  // ---- a put filed after the merge ----

  /** One more object of the first profile, filed when the profile is merged already. */
  function LatePut(): PutArgs {
    PutArgs(ObjectKey(Text("air"), Pid(1), Text("late")), map[], 0, Uuid(3), 0, 1)
  }

  /** Two puts, a merge with a factor other than one, and a later object of the merged profile: the unmerge is allowed, and
      divides a factor out of the later object's score that was never multiplied in. */
  lemma LatePutLosesScore(config: Config, f: real, a: UnmergeArgs)
    requires f != 0.0 && a.unmerged == Uuid(1) && a.from == Uuid(2) && 1 <= a.shard <= COUNT_TABLE_PARTITIONS
    ensures var ops, k := ChainRun(2, [f]) + [Put(LatePut())], LatePut().key;
      var t := Run(EmptyTables(config), ops);
      && RunAllowed(EmptyTables(config), ops) && Inv(t) && UnmergeAllowed(t, a)
      && k in t.interactions && k.profileId in t.master && ScoreFollows(t, k)
      && k.profileId in AfterUnmerge(t, a).master && k in AfterUnmerge(t, a).interactions
      && (ScoreFollows(AfterUnmerge(t, a), k) <==> f == 1.0)
  {
    hide Run, EmptyTables, Inv, RunAllowed, AfterUnmerge, AfterPut, UnmergeAllowed, AfterChain;
    var t0 := Run(EmptyTables(config), ChainRun(2, [f]));
    ChainState(config, 2, [f]);
    ChainInv(config, 2, [f]);
    RunSnoc(EmptyTables(config), ChainRun(2, [f]), Put(LatePut()));
    LatePutState(t0, f);
    PutKeepsInv(t0, LatePut());
    LateUnmerge(AfterPut(t0, LatePut()), f, a);
  }

  /** The late object: its score is one, and it was recorded after the merge. */
  ghost predicate AfterLatePut(t: Tables, f: real) {
    var k := LatePut().key;
    && t.history == ChainRows([f]) && Uuid(1) in Originals(t) && k in t.interactions && Pid(1) in t.master
    && t.master[Pid(1)].originalId == Uuid(1) && t.interactions[k].score == 1.0 && t.interactions[k].recorded == 1
  }

  lemma LatePutState(t: Tables, f: real)
    requires AfterChain(t, 2, [f])
    ensures PutAllowed(t, LatePut()) && AfterLatePut(AfterPut(t, LatePut()), f)
  {
    hide LivePath, FullPath, UpdateColumns;
    var a := LatePut();
    ChainIsShort([f], 3);
    ChainSets([f]);
    assert HoldsPut(t, 1);
    PutIds(t, a);
    assert Uuid(1) in IdsBetween(1, 2);
  }

  lemma ChainOfOne(f: real)
    ensures ChainRows([f]) == [Row(Merge, Uuid(1), Uuid(2), f)]
    ensures LivePath(ChainRows([f]), Uuid(1)) == [Uuid(1), Uuid(2)] && LiveSteps(ChainRows([f]), Uuid(1)) == [Step(0, f)]
  {
    assert [f][..0] == [];
    assert ChainRows([f])[..0] == [];
  }

  lemma ShortChainFits(t: Tables, b: Id)
    requires |t.history| <= PROFILE_HISTORY_DEPTH
    ensures ChainsFit(t, b)
  {
    forall x | x in Originals(t) && HangsBelow(t.history, b, x) ensures ChainFits(t.history, b, x) {
      var k :| 0 <= k < |LivePath(t.history, x)| && LivePath(t.history, x)[k] == b;
    }
  }

  lemma NothingRevertedYet(h: History, b: Id)
    requires WellFormed(h) && Recorded(h) && EverUnmerged(h) == {}
    ensures Right(h, b)
  {
    hide WellFormed, Recorded, FullPath, Right;
    assert forall r :: r in h && r.kind.Unmerge? ==> r.toMerge in EverUnmerged(h);
    forall s | 0 <= s < |h| ensures !h[s].kind.Unmerge? {
      assert h[s] in h;
    }
    TopDownIsRight(h, b);
  }

  lemma LateUnmergeAllowed(t: Tables, f: real, a: UnmergeArgs)
    requires AfterLatePut(t, f)
    requires a.unmerged == Uuid(1) && a.from == Uuid(2) && 1 <= a.shard <= COUNT_TABLE_PARTITIONS
    ensures UnmergeAllowed(t, a)
  {
    ChainOfOne(f);
    ShortChainFits(t, Uuid(1));
  }

  lemma LateUnmerge(t: Tables, f: real, a: UnmergeArgs)
    requires Inv(t) && AfterLatePut(t, f) && f != 0.0
    requires a.unmerged == Uuid(1) && a.from == Uuid(2) && 1 <= a.shard <= COUNT_TABLE_PARTITIONS
    ensures var k := LatePut().key;
      && UnmergeAllowed(t, a) && k in t.interactions && k.profileId in t.master && ScoreFollows(t, k)
      && k.profileId in AfterUnmerge(t, a).master && k in AfterUnmerge(t, a).interactions
      && (ScoreFollows(AfterUnmerge(t, a), k) <==> f == 1.0)
  {
    hide Agrees, WellFormed, CountExceeds, UnmergeAllowed, UnmergeRejected, LineageFits, ProfileIdsToUnmerge, Originals, AfterUnmerge,
         RevertsSince, FactorsNonZero, Linked, Recorded, EverUnmerged, LiveSteps, Since;
    LateUnmergeAllowed(t, f, a);
    AllowedFits(t, a);
    GroundedIsLinked(t);
    LateReverts(t, f);
    LatePutIsMoved(t, f, a);
    UnmergedScoreIff(t, a, LatePut().key);
    UnmergeKeepsKeys(t, a);
  }

  lemma UnmergeKeepsKeys(t: Tables, a: UnmergeArgs)
    ensures AfterUnmerge(t, a).master.Keys == t.master.Keys && AfterUnmerge(t, a).interactions.Keys == t.interactions.Keys
  {
    hide ProfileIdsToUnmerge, RevertFactor, MergesLeadingToParent;
  }

  lemma LatePutIsMoved(t: Tables, f: real, a: UnmergeArgs)
    requires AfterLatePut(t, f) && a.unmerged == Uuid(1) && a.from == Uuid(2) && f != 0.0
    ensures LatePut().key.profileId in ProfileIdsToUnmerge(t, Uuid(1)) && !UnmergeRejected(t, a)
    ensures ScoreFollows(t, LatePut().key)
  {
    hide InLineage, LivePath, ChainRows, LiveSteps, Since;
    ChainOfOne(f);
    LateFactors(f);
    OwnLineage(t.history, Uuid(1));
    assert Pid(1) in ProfileIdsToUnmerge(t, Uuid(1));
  }

  lemma LateReverts(t: Tables, f: real)
    requires Grounded(t) && t.history == ChainRows([f]) && f != 0.0
    ensures FactorsNonZero(t.history) && (RevertsSince(t, Uuid(1), 1) <==> f == 1.0)
  {
    hide Agrees, WellFormed, Recorded, ChainRows, LiveSteps, LivePath, RevertFactor, MergesLeadingToParent, Since, EverUnmerged, FactorsNonZero;
    ChainOfOne(f);
    LateFactors(f);
    NothingRevertedYet(t.history, Uuid(1));
  }

  lemma LateFactors(f: real)
    requires f != 0.0
    ensures var h := ChainRows([f]); Recorded(h) && FactorsNonZero(h) && EverUnmerged(h) == {}
    ensures Since([Step(0, f)], 1) == 1.0 && Since([Step(0, f)], 0) == f
  {
    ChainOfOne(f);
    assert [Row(Merge, Uuid(1), Uuid(2), f)][..0] == [] && [Step(0, f)][..0] == [];
    assert Recorded([]);
  }

  // ---- unmerges from the bottom up ----

  lemma NextStep(h: History, e: Row, x: Id)
    requires e.kind.Merge? && Last(LivePath(h, x)) == e.toMerge
    ensures LivePath(h + [e], x) == LivePath(h, x) + [e.mergedInto]
    ensures LiveSteps(h + [e], x) == LiveSteps(h, x) + [Step(|h|, e.factor)]
  {
    StepsSnoc(h, e, x);
    assert (h + [e])[..|h|] == h;
  }

  lemma ChainRowsSnoc(factors: seq<real>, f: real)
    ensures ChainRows(factors + [f]) == ChainRows(factors) + [Row(Merge, Uuid(|factors| + 1), Uuid(|factors| + 2), f)]
  {
    assert (factors + [f])[..|factors|] == factors;
  }

  lemma ChainOfThree(f: real, g: real, k: real)
    ensures var h := ChainRows([f, g, k]);
      && h == [Row(Merge, Uuid(1), Uuid(2), f), Row(Merge, Uuid(2), Uuid(3), g), Row(Merge, Uuid(3), Uuid(4), k)]
      && LivePath(h, Uuid(1)) == [Uuid(1), Uuid(2), Uuid(3), Uuid(4)]
      && LiveSteps(h, Uuid(1)) == [Step(0, f), Step(1, g), Step(2, k)]
  {
    hide LivePath, LiveSteps, ChainRows;
    ChainOfOne(f);
    ChainRowsSnoc([f], g);
    ChainRowsSnoc([f, g], k);
    assert [f] + [g] == [f, g] && [f, g] + [k] == [f, g, k];
    NextStep(ChainRows([f]), Row(Merge, Uuid(2), Uuid(3), g), Uuid(1));
    NextStep(ChainRows([f, g]), Row(Merge, Uuid(3), Uuid(4), k), Uuid(1));
  }

  /** Three merges in a row, then profile 2 is taken out of 4, then profile 3. */
  function BottomUp(f: real, g: real, k: real): History {
    ChainRows([f, g, k]) + [Row(Unmerge, Uuid(2), Uuid(4), g * k)] + [Row(Unmerge, Uuid(3), Uuid(4), k)]
  }

  lemma RowsOfBottomUp(f: real, g: real, k: real)
    ensures var h := BottomUp(f, g, k);
      && RowsFrom(h, Uuid(1)) == [Row(Merge, Uuid(1), Uuid(2), f)]
      && RowsFrom(h, Uuid(2)) == [Row(Merge, Uuid(2), Uuid(3), g), Row(Unmerge, Uuid(2), Uuid(4), g * k)]
      && RowsFrom(h, Uuid(3)) == [Row(Merge, Uuid(3), Uuid(4), k), Row(Unmerge, Uuid(3), Uuid(4), k)]
      && RowsFrom(h, Uuid(4)) == []
  {
    ChainOfThree(f, g, k);
    var r1, r2, r3 := Row(Merge, Uuid(1), Uuid(2), f), Row(Merge, Uuid(2), Uuid(3), g), Row(Merge, Uuid(3), Uuid(4), k);
    var u2, u3 := Row(Unmerge, Uuid(2), Uuid(4), g * k), Row(Unmerge, Uuid(3), Uuid(4), k);
    var h := [r1, r2, r3, u2, u3];
    assert BottomUp(f, g, k) == h;
    assert h[..4] == [r1, r2, r3, u2] && h[..4][..3] == [r1, r2, r3] && h[..4][..3][..2] == [r1, r2];
    assert h[..4][..3][..2][..1] == [r1] && [r1][..0] == [];
    forall x ensures RowsFrom(h, x) == (if r1.toMerge == x then [r1] else []) + (if r2.toMerge == x then [r2] else [])
      + (if r3.toMerge == x then [r3] else []) + (if u2.toMerge == x then [u2] else []) + (if u3.toMerge == x then [u3] else [])
    {
      RowsFromSnoc([], r1, x);
      RowsFromSnoc([r1], r2, x);
      RowsFromSnoc([r1, r2], r3, x);
      RowsFromSnoc([r1, r2, r3], u2, x);
      RowsFromSnoc([r1, r2, r3, u2], u3, x);
      assert [] + [r1] == [r1] && [r1] + [r2] == [r1, r2] && [r1, r2] + [r3] == [r1, r2, r3];
      assert [r1, r2, r3] + [u2] == [r1, r2, r3, u2] && [r1, r2, r3, u2] + [u3] == h;
    }
  }

  /** An id whose rows were all merges and unmerges with one target each. */
  lemma ThroughTwo(h: History, r: Row, u: Row)
    requires r.factor != 0.0 && u.factor != 0.0 && r.kind.Merge? && u.kind.Unmerge?
    ensures Through(h, [r, u]) == Mul(Mul(r.factor, Revert(h, r.mergedInto)), Mul(1.0 / u.factor, Revert(h, u.mergedInto)))
  {
    hide Revert, Mul;
    assert [] + [r] == [r] && [r] + [u] == [r, u];
    ThroughAppend(h, [], r);
    ThroughAppend(h, [r], u);
    MulAssoc(Mul(r.factor, Revert(h, r.mergedInto)), 1.0, 1.0);
  }

  /** For profile 1 not its one factor is divided out, but the quotient of the first and the last. */
  lemma BottomUpReverts(f: real, g: real, k: real)
    requires f != 0.0 && g != 0.0 && k != 0.0 && g * k != 0.0 && WellFormed(BottomUp(f, g, k))
    ensures Revert(BottomUp(f, g, k), Uuid(1)) * k == f
  {
    hide WellFormed, Revert, RowsFrom, BottomUp, Through;
    var h := BottomUp(f, g, k);
    RowsOfBottomUp(f, g, k);
    RevertOfRows(h, Uuid(4));
    EmptyThrough(h);
    RevertOfRows(h, Uuid(3));
    ThroughTwo(h, Row(Merge, Uuid(3), Uuid(4), k), Row(Unmerge, Uuid(3), Uuid(4), k));
    InverseTimes(k);
    assert Revert(h, Uuid(3)) == 1.0;
    RevertOfRows(h, Uuid(2));
    ThroughTwo(h, Row(Merge, Uuid(2), Uuid(3), g), Row(Unmerge, Uuid(2), Uuid(4), g * k));
    Quotients(g, k);
    assert Revert(h, Uuid(2)) * k == 1.0;
    RevertOfOnly(h, Uuid(1), Row(Merge, Uuid(1), Uuid(2), f));
    assert f * Revert(h, Uuid(2)) * k == f * (Revert(h, Uuid(2)) * k);
  }

  lemma EmptyThrough(h: History)
    ensures Through(h, []) == 1.0
  {}

  lemma Quotients(g: real, k: real)
    requires g != 0.0 && k != 0.0 && g * k != 0.0
    ensures g * (1.0 / (g * k)) * k == 1.0
  {
    assert g * (1.0 / (g * k)) * k == (g * k) * (1.0 / (g * k));
  }

  function TakeOut(x: nat, y: nat): UnmergeArgs {
    UnmergeArgs(Uuid(y), Uuid(x), EmptyRow({}), EmptyRow({}), 1)
  }

  /** The history, the held ids and the interactions, as far as the next unmerge needs them. */
  ghost predicate Holds(t: Tables, h: History, n: nat) {
    t.history == h && Originals(t) == IdsBetween(1, n) && HoldsPuts(t, n)
  }

  /** The profile of the id x may be taken out of y. */
  lemma MayTakeOut(t: Tables, h: History, n: nat, x: nat, y: nat)
    requires Holds(t, h, n) && 1 <= x <= n && x != y && |h| <= PROFILE_HISTORY_DEPTH
    requires Root(h, Uuid(x)) == Uuid(y) && UnmergeTraceable(h, Uuid(x), Uuid(y))
    ensures UnmergeAllowed(t, TakeOut(x, y)) && !UnmergeRejected(t, TakeOut(x, y))
    ensures PutOf(x).key.profileId in ProfileIdsToUnmerge(t, Uuid(x))
  {
    hide LivePath, LiveSteps, UnmergeTraceable, InLineage, ChainsFit, Originals, HangsBelow;
    ShortChainFits(t, Uuid(x));
    OwnLineage(h, Uuid(x));
    assert HoldsPut(t, x);
    assert Pid(x) in ProfileIdsToUnmerge(t, Uuid(x));
  }

  /** The profile of the id x is taken out of y, dividing out d. */
  lemma TakenOut(t: Tables, h: History, n: nat, x: nat, y: nat, d: real)
    requires Holds(t, h, n) && 1 <= x <= n && x != y && |h| <= PROFILE_HISTORY_DEPTH
    requires Root(h, Uuid(x)) == Uuid(y) && UnmergeTraceable(h, Uuid(x), Uuid(y)) && TopDown(h, Uuid(x)) && Revert(h, Uuid(x)) == d
    ensures UnmergeAllowed(t, TakeOut(x, y)) && ScoreSafe(t, UnmergeOp(TakeOut(x, y))) && !UnmergeRejected(t, TakeOut(x, y))
    ensures PutOf(x).key.profileId in ProfileIdsToUnmerge(t, Uuid(x))
    ensures Holds(AfterUnmerge(t, TakeOut(x, y)), h + [Row(Unmerge, Uuid(x), Uuid(y), d)], n)
  {
    hide LivePath, LiveSteps, UnmergeTraceable, TopDown, InLineage, ChainsFit, RevertFactor, MergesLeadingToParent, Originals,
         UnmergeAllowed, ProfileIdsToUnmerge;
    var a := TakeOut(x, y);
    MayTakeOut(t, h, n, x, y);
    UnmergedIds(t, a);
    forall i: nat | 1 <= i <= n ensures HoldsPut(AfterUnmerge(t, a), i) {
      assert HoldsPut(t, i);
    }
  }

  /** Paths, steps and products in the three histories of the example. */
  lemma ChainOfThreeUps(f: real, g: real, k: real)
    requires WellFormed(ChainRows([f, g, k]))
    ensures var h := ChainRows([f, g, k]);
      && LivePath(h, Uuid(2)) == [Uuid(2), Uuid(3), Uuid(4)] && LiveSteps(h, Uuid(2)) == [Step(1, g), Step(2, k)]
      && LivePath(h, Uuid(3)) == [Uuid(3), Uuid(4)] && LiveSteps(h, Uuid(3)) == [Step(2, k)]
  {
    hide WellFormed, LivePath, LiveSteps, ChainRows;
    ChainOfThree(f, g, k);
    var h := ChainRows([f, g, k]);
    WellFormedIsLinked(h);
    LiveSuffix(h, Uuid(1), 1);
    LiveSuffix(h, Uuid(1), 2);
    StepsSuffix(h, Uuid(1), 1);
    StepsSuffix(h, Uuid(1), 2);
  }

  lemma FirstTakeOut(t: Tables, f: real, g: real, k: real)
    requires Grounded(t) && Recorded(t.history) && Holds(t, ChainRows([f, g, k]), 4)
    ensures UnmergeAllowed(t, TakeOut(2, 4)) && ScoreSafe(t, UnmergeOp(TakeOut(2, 4)))
    ensures Holds(AfterUnmerge(t, TakeOut(2, 4)), ChainRows([f, g, k]) + [Row(Unmerge, Uuid(2), Uuid(4), g * k)], 4)
  {
    hide Holds, Grounded, LivePath, LiveSteps, WellFormed, Recorded, ChainRows, Originals, ScoreSafe, UnmergeAllowed, Right;
    HoldsHistory(t, ChainRows([f, g, k]), 4);
    var h := ChainRows([f, g, k]);
    ChainOfThree(f, g, k);
    ChainOfThreeUps(f, g, k);
    ChainSets([f, g, k]);
    NothingRevertedYet(h, Uuid(2));
    TwoStepProduct(h, g, k);
    ChainTopDown(h, Uuid(2));
    FirstIsTraceable(h, f, g, k);
    TakenOut(t, h, 4, 2, 4, g * k);
  }

  lemma HoldsHistory(t: Tables, h: History, n: nat)
    requires Holds(t, h, n) && Grounded(t)
    ensures t.history == h && WellFormed(h)
  {}

  lemma TwoStepProduct(h: History, g: real, k: real)
    requires LiveSteps(h, Uuid(2)) == [Step(1, g), Step(2, k)] && Right(h, Uuid(2))
    ensures Revert(h, Uuid(2)) == g * k
  {
    hide Revert;
    assert [Step(1, g)] + [Step(2, k)] == [Step(1, g), Step(2, k)];
    OneStepProduct(Step(1, g));
    SinceAppend([Step(1, g)], Step(2, k), 0);
  }

  lemma ChainTopDown(h: History, b: Id)
    requires EverUnmerged(h) == {}
    ensures TopDown(h, b)
  {
    hide FullPath;
    assert forall r :: r in h && r.kind.Unmerge? ==> r.toMerge in EverUnmerged(h);
    forall s | 0 <= s < |h| ensures !h[s].kind.Unmerge? {
      assert h[s] in h;
    }
  }

  lemma FirstIsTraceable(h: History, f: real, g: real, k: real)
    requires h == [Row(Merge, Uuid(1), Uuid(2), f), Row(Merge, Uuid(2), Uuid(3), g), Row(Merge, Uuid(3), Uuid(4), k)]
    requires LivePath(h, Uuid(2)) == [Uuid(2), Uuid(3), Uuid(4)]
    ensures UnmergeTraceable(h, Uuid(2), Uuid(4))
  {
    hide LivePath;
    assert h[..2] == [h[0], h[1]] && h[..2][..1] == [h[0]] && h[..2][..1][..0] == [];
    assert Rows([h[0]], Merge, Uuid(3)) == 0;
    assert Rows([h[0], h[1]], Merge, Uuid(3)) == 0;
  }

  lemma SecondPath(f: real, g: real, k: real)
    requires WellFormed(ChainRows([f, g, k]))
    ensures var h := ChainRows([f, g, k]) + [Row(Unmerge, Uuid(2), Uuid(4), g * k)];
      LivePath(h, Uuid(3)) == [Uuid(3), Uuid(4)] && LiveSteps(h, Uuid(3)) == [Step(2, k)]
  {
    hide WellFormed, ChainRows, LivePath, LiveSteps, FullPath;
    var h3, e := ChainRows([f, g, k]), Row(Unmerge, Uuid(2), Uuid(4), g * k);
    ChainOfThreeUps(f, g, k);
    Snoc(h3, e);
    StepsSnoc(h3, e, Uuid(3));
    StopAtNothing(Uuid(3), Uuid(4), Uuid(2));
  }

  lemma SecondRevert(f: real, g: real, k: real)
    requires var h := ChainRows([f, g, k]) + [Row(Unmerge, Uuid(2), Uuid(4), g * k)]; WellFormed(h) && Recorded(h)
    requires WellFormed(ChainRows([f, g, k]))
    ensures var h := ChainRows([f, g, k]) + [Row(Unmerge, Uuid(2), Uuid(4), g * k)];
      Revert(h, Uuid(3)) == k && TopDown(h, Uuid(3)) && UnmergeTraceable(h, Uuid(3), Uuid(4)) && |h| <= PROFILE_HISTORY_DEPTH
  {
    hide WellFormed, Recorded, ChainRows, LivePath, LiveSteps, FullPath, Revert, TopDown, UnmergeTraceable;
    var h3, e := ChainRows([f, g, k]), Row(Unmerge, Uuid(2), Uuid(4), g * k);
    ChainOfThree(f, g, k);
    SecondPath(f, g, k);
    OneUnmergeTopDown(h3, e, Uuid(3));
    TopDownIsRight(h3 + [e], Uuid(3));
    OneStepProduct(Step(2, k));
    SecondIsTraceable(h3 + [e], f, g, k);
  }

  lemma SecondTakeOut(t: Tables, f: real, g: real, k: real)
    requires Grounded(t) && Recorded(t.history)
    requires Holds(t, ChainRows([f, g, k]) + [Row(Unmerge, Uuid(2), Uuid(4), g * k)], 4) && WellFormed(ChainRows([f, g, k]))
    ensures UnmergeAllowed(t, TakeOut(3, 4)) && ScoreSafe(t, UnmergeOp(TakeOut(3, 4)))
    ensures Holds(AfterUnmerge(t, TakeOut(3, 4)), BottomUp(f, g, k), 4)
  {
    hide Holds, Grounded, WellFormed, Recorded, ChainRows, ScoreSafe, UnmergeAllowed, LivePath, LiveSteps, Revert, TopDown,
         UnmergeTraceable, AfterUnmerge, TakeOut, UnmergeRejected, ProfileIdsToUnmerge, PutOf;
    var h := ChainRows([f, g, k]) + [Row(Unmerge, Uuid(2), Uuid(4), g * k)];
    HoldsHistory(t, h, 4);
    SecondPath(f, g, k);
    SecondRevert(f, g, k);
    TakenOut(t, h, 4, 3, 4, k);
  }

  lemma StopAtNothing(x: Id, y: Id, z: Id)
    requires z != x && z != y
    ensures StopAt([x, y], z) == [x, y]
  {}

  lemma OneUnmergeTopDown(h: History, e: Row, b: Id)
    requires forall r :: r in h ==> !r.kind.Unmerge?
    ensures TopDown(h + [e], b)
  {
    hide FullPath;
    forall s | 0 <= s < |h| ensures !(h + [e])[s].kind.Unmerge? {
      assert h[s] in h;
    }
  }

  lemma SecondIsTraceable(h: History, f: real, g: real, k: real)
    requires h == [Row(Merge, Uuid(1), Uuid(2), f), Row(Merge, Uuid(2), Uuid(3), g), Row(Merge, Uuid(3), Uuid(4), k)]
      + [Row(Unmerge, Uuid(2), Uuid(4), g * k)]
    requires LivePath(h, Uuid(3)) == [Uuid(3), Uuid(4)]
    ensures UnmergeTraceable(h, Uuid(3), Uuid(4))
  {
    hide LivePath;
  }

  /** Profile 1 is left merged into profile 2 alone. */
  lemma BottomUpPath(f: real, g: real, k: real)
    ensures var h := BottomUp(f, g, k); LivePath(h, Uuid(1)) == [Uuid(1), Uuid(2)] && LiveSteps(h, Uuid(1)) == [Step(0, f)]
  {
    hide LivePath, LiveSteps, ChainRows;
    ChainOfThree(f, g, k);
    var h3, u2, u3 := ChainRows([f, g, k]), Row(Unmerge, Uuid(2), Uuid(4), g * k), Row(Unmerge, Uuid(3), Uuid(4), k);
    Snoc(h3, u2);
    Snoc(h3 + [u2], u3);
    StepsSnoc(h3, u2, Uuid(1));
    StepsSnoc(h3 + [u2], u3, Uuid(1));
    assert [Uuid(1), Uuid(2), Uuid(3), Uuid(4)][1..] == [Uuid(2), Uuid(3), Uuid(4)];
    assert StopAt([Uuid(1), Uuid(2), Uuid(3), Uuid(4)], Uuid(2)) == [Uuid(1), Uuid(2)];
    StopAtNothing(Uuid(1), Uuid(2), Uuid(3));
  }

  lemma BottomUpTraceable(f: real, g: real, k: real)
    requires LivePath(BottomUp(f, g, k), Uuid(1)) == [Uuid(1), Uuid(2)]
    ensures UnmergeTraceable(BottomUp(f, g, k), Uuid(1), Uuid(2))
  {
    hide LivePath;
    ChainOfThree(f, g, k);
  }

  lemma BottomUpAllowed(t: Tables, f: real, g: real, k: real)
    requires Grounded(t) && Holds(t, BottomUp(f, g, k), 4)
    ensures UnmergeAllowed(t, TakeOut(1, 2)) && !UnmergeRejected(t, TakeOut(1, 2)) && LineageFits(t, Uuid(1))
    ensures PutOf(1).key.profileId in ProfileIdsToUnmerge(t, Uuid(1)) && Linked(t.history)
  {
    hide LivePath, LiveSteps, WellFormed, BottomUp, LineageFits, Holds, UnmergeTraceable, UnmergeRejected, ProfileIdsToUnmerge, PutOf;
    var h := BottomUp(f, g, k);
    HoldsHistory(t, h, 4);
    GroundedIsLinked(t);
    BottomUpPath(f, g, k);
    BottomUpTraceable(f, g, k);
    ShortBottomUp(f, g, k);
    MayTakeOut(t, h, 4, 1, 2);
    AllowedFits(t, TakeOut(1, 2));
  }

  lemma AllowedFits(t: Tables, a: UnmergeArgs)
    requires Grounded(t) && UnmergeAllowed(t, a) && a.unmerged != NIL_UUID
    ensures LineageFits(t, a.unmerged)
  {
    hide WellFormed, Agrees, LineageFits, ChainsFit, LivePath;
    LineageFitsIff(t, a.unmerged);
  }

  lemma BottomUpReverted(t: Tables, f: real, g: real, k: real)
    requires Grounded(t) && Scored(t) && t.history == BottomUp(f, g, k) && f != 0.0 && g != 0.0 && k != 0.0
    ensures FactorsNonZero(t.history) && (RevertsSince(t, Uuid(1), 0) <==> k == 1.0)
  {
    hide LivePath, LiveSteps, WellFormed, Recorded, BottomUp, Agrees, ScoresFollow, RecordedInPast, RevertFactor, MergesLeadingToParent;
    var h := t.history;
    BottomUpPath(f, g, k);
    RecordedIsNonZero(h);
    var gk := NonZeroProduct(g, k);
    BottomUpReverts(f, g, k);
    OneStepProduct(Step(0, f));
    SameOnlyIfOne(Revert(h, Uuid(1)), f, k);
  }

  lemma FirstObject(t: Tables, h: History)
    requires Holds(t, h, 4) && Scored(t)
    ensures var key := PutOf(1).key;
      key in t.interactions && key.profileId in t.master && ScoreFollows(t, key) && t.interactions[key].recorded == 0
  {
    hide LiveSteps, Since, Recorded;
    assert HoldsPut(t, 1);
  }

  lemma BottomUpScore(t: Tables, f: real, g: real, k: real)
    requires Grounded(t) && Scored(t) && Holds(t, BottomUp(f, g, k), 4) && f != 0.0 && g != 0.0 && k != 0.0
    ensures var a, key := TakeOut(1, 2), PutOf(1).key;
      && UnmergeAllowed(t, a) && key in t.interactions && key.profileId in t.master && ScoreFollows(t, key)
      && key in AfterUnmerge(t, a).interactions && key.profileId in AfterUnmerge(t, a).master
      && (ScoreFollows(AfterUnmerge(t, a), key) <==> k == 1.0)
  {
    hide Grounded, Scored, BottomUp, HoldsPuts, UnmergeAllowed, UnmergeRejected, LineageFits, ScoreFollows, ProfileIdsToUnmerge,
         RevertsSince, FactorsNonZero, Linked, Originals, PutOf;
    BottomUpAllowed(t, f, g, k);
    BottomUpReverted(t, f, g, k);
    FirstObject(t, BottomUp(f, g, k));
    UnmergedScoreIff(t, TakeOut(1, 2), PutOf(1).key);
  }

  lemma SameOnlyIfOne(r: real, f: real, k: real)
    requires r * k == f && f != 0.0
    ensures r == f <==> k == 1.0
  {
    if r == f {
      assert f * (k - 1.0) == 0.0;
    }
  }

  lemma ShortBottomUp(f: real, g: real, k: real)
    ensures |BottomUp(f, g, k)| <= PROFILE_HISTORY_DEPTH
  {
    ChainSets([f, g, k]);
  }

  /** Three merges in a row, unmerged from the bottom up: every operation is allowed and every score follows the history,
      but the unmerge of the first profile leaves its score right only if the last factor was one. */
  lemma BottomUpLosesScore(config: Config, f: real, g: real, k: real)
    requires f != 0.0 && g != 0.0 && k != 0.0
    ensures var ops := ChainRun(4, [f, g, k]) + [UnmergeOp(TakeOut(2, 4))] + [UnmergeOp(TakeOut(3, 4))];
      var t, a, key := Run(EmptyTables(config), ops), TakeOut(1, 2), PutOf(1).key;
      && RunAllowed(EmptyTables(config), ops) && Scored(t) && UnmergeAllowed(t, a)
      && key in t.interactions && key.profileId in t.master
      && key in AfterUnmerge(t, a).interactions && key.profileId in AfterUnmerge(t, a).master
      && (ScoreFollows(AfterUnmerge(t, a), key) <==> k == 1.0)
  {
    hide Run, EmptyTables, RunAllowed, RunScoreSafe, AfterUnmerge, UnmergeAllowed, ScoreSafe, AfterChain, Grounded, Scored, Recorded,
         Holds, ChainRows, ChainRun, BottomUp, WellFormed, ScoreFollows, TakeOut;
    var t, ops := EmptyTables(config), ChainRun(4, [f, g, k]);
    var u2, u3 := UnmergeOp(TakeOut(2, 4)), UnmergeOp(TakeOut(3, 4));
    ChainState(config, 4, [f, g, k]);
    ChainScoreSafe(config, 4, [f, g, k]);
    ChainHolds(Run(t, ops), [f, g, k]);
    ReachedGrounded(config, ops);
    FirstTakeOut(Run(t, ops), f, g, k);
    HoldsHistory(Run(t, ops), ChainRows([f, g, k]), 4);
    SafeSnoc(t, ops, u2);
    ReachedGrounded(config, ops + [u2]);
    SecondTakeOut(Run(t, ops + [u2]), f, g, k);
    SafeSnoc(t, ops + [u2], u3);
    ReachedGrounded(config, ops + [u2] + [u3]);
    BottomUpScore(Run(t, ops + [u2] + [u3]), f, g, k);
  }

  lemma ReachedGrounded(config: Config, ops: seq<Op>)
    requires RunAllowed(EmptyTables(config), ops) && RunScoreSafe(EmptyTables(config), ops)
    ensures var t := Run(EmptyTables(config), ops); Grounded(t) && Scored(t) && Recorded(t.history)
  {
    hide Run, EmptyTables, RunAllowed, RunScoreSafe, Grounded, ScoresFollow, RecordedInPast;
    RunKeepsInv(config, ops);
    RunKeepsScores(config, ops);
  }

  lemma SafeSnoc(t: Tables, ops: seq<Op>, op: Op)
    requires RunAllowed(t, ops) && RunScoreSafe(t, ops) && Allowed(Run(t, ops), op) && ScoreSafe(Run(t, ops), op)
    ensures RunAllowed(t, ops + [op]) && RunScoreSafe(t, ops + [op]) && Run(t, ops + [op]) == Apply(Run(t, ops), op)
  {
    hide Apply, Allowed, ScoreSafe;
    assert (ops + [op])[..|ops|] == ops;
  }

  lemma ChainHolds(t: Tables, factors: seq<real>)
    requires AfterChain(t, |factors| + 1, factors)
    ensures Holds(t, ChainRows(factors), |factors| + 1)
  {}

  lemma {:induction false} ChainScoreSafe(config: Config, n: nat, factors: seq<real>)
    requires forall i :: 0 <= i < |factors| ==> factors[i] != 0.0
    ensures RunScoreSafe(EmptyTables(config), ChainRun(n, factors))
  {
    hide Run, EmptyTables;
    if factors != [] {
      assert ChainRun(n, factors)[..|ChainRun(n, factors)| - 1] == ChainRun(n, factors[..|factors| - 1]);
      ChainScoreSafe(config, n, factors[..|factors| - 1]);
    } else if n > 0 {
      assert Puts(n)[..|Puts(n)| - 1] == Puts(n - 1) == ChainRun(n - 1, []);
      ChainScoreSafe(config, n - 1, []);
    }
  }
}
