/** Scores over whole runs, unmerges included. */
module ConfidenceRuns {
  import opened MergeHistory
  import opened LineageQuery
  import opened UpwardQuery
  import opened Lineage
  import opened ProfileTables
  import opened IdentityInvariant
  import opened Confidence
  import opened ConfidenceRevert

  /** The scores agree with the history, and the history carries what was divided out. */
  ghost predicate Scored(t: Tables) {
    ScoresFollow(t) && RecordedInPast(t) && Recorded(t.history)
  }

  /** Every interaction to be taken along by an unmerge of b was recorded before b was last merged away. */
  ghost predicate FiledBeforeMerge(t: Tables, b: Id) {
    forall k :: k in t.interactions && k.profileId in ProfileIdsToUnmerge(t, b) ==> FiledBefore(t.history, b, t.interactions[k].recorded)
  }

  ghost predicate FiledBefore(h: History, b: Id, since: nat) {
    LiveSteps(h, b) == [] || LiveSteps(h, b)[0].at >= since
  }

  /** Merges have a factor; an unmerge takes back no later interaction, and unmerges above it went from the top down. */
  ghost predicate ScoreSafe(t: Tables, op: Op) {
    match op
    case MergeOp(a) => a.factor != 0.0
    case UnmergeOp(a) => TopDown(t.history, a.unmerged) && FiledBeforeMerge(t, a.unmerged)
    case _ => true
  }

  lemma StepKeepsRecorded(t: Tables, op: Op)
    requires Recorded(t.history) && ScoreSafe(t, op)
    ensures Recorded(Apply(t, op).history)
  {
    hide Recorded, Revert, RevertFactor, AfterPut, ProfileIdsToUnmerge;
    match op
    case Put(a) => PutKeepsHistory(t, a);
    case PreMatchPut(a, found) =>
      PutKeepsHistory(FiledUnder(t, a, found), a);
      RecordedSnoc(t.history, Row(Kind.Merge, a.freshId, found, 1.0));
    case MergeOp(a) => RecordedSnoc(t.history, MergeRow(a));
    case UnmergeOp(a) =>
      UnmergeRowIsRecorded(t, a);
      RecordedSnoc(t.history, UnmergeRow(t, a));
    case DeleteOp(a) =>
      if AfterDelete(t, a) != t {
        var pid := DeletedProfile(t, a);
        RecordedSnoc(t.history, DeleteRow(t.master[pid].connectId));
      }
  }

  lemma UnmergeRowIsRecorded(t: Tables, a: UnmergeArgs)
    ensures RowRecorded(t.history, UnmergeRow(t, a))
  {}

  lemma PutKeepsHistory(t: Tables, a: PutArgs)
    ensures AfterPut(t, a).history == t.history
  {}

  /** An unmerge leaves every score what the history says. */
  lemma UnmergeKeepsScores(t: Tables, a: UnmergeArgs)
    requires Grounded(t) && Scored(t) && UnmergeAllowed(t, a) && ScoreSafe(t, UnmergeOp(a))
    ensures ScoresFollow(AfterUnmerge(t, a)) && RecordedInPast(AfterUnmerge(t, a))
  {
    hide WellFormed, Linked, LiveSteps, LivePath, Since, InLineage, RevertFactor, MergesLeadingToParent, TopDown, UnmergeTraceable,
         ChainsFit, LineageFits, Recorded;
    if !UnmergeRejected(t, a) {
      var h, b := t.history, a.unmerged;
      GroundedIsLinked(t);
      UnmergeLinks(t, a);
      LineageFitsIff(t, b);
      RecordedIsNonZero(h);
      TopDownIsRight(h, b);
      forall k | k in t.interactions && k.profileId in t.master ensures ScoreFollows(AfterUnmerge(t, a), k) {
        assert ScoreFollows(t, k);
        if k.profileId in ProfileIdsToUnmerge(t, b) {
          assert FiledBefore(h, b, t.interactions[k].recorded);
          RecordedBeforeMerge(h, b, t.interactions[k].recorded);
        }
        UnmergedScoreIff(t, a, k);
      }
    }
  }

  lemma StepKeepsScores(t: Tables, op: Op)
    requires Grounded(t) && Scored(t) && Allowed(t, op) && ScoreSafe(t, op)
    ensures Scored(Apply(t, op))
  {
    hide WellFormed, ScoresFollow, RecordedInPast, Recorded;
    StepKeepsRecorded(t, op);
    hide ScoreSafe;
    match op
    case Put(a) => PutKeepsScores(t, a);
    case PreMatchPut(a, found) => PreMatchPutKeepsScores(t, a, found);
    case MergeOp(a) => MergeKeepsScores(t, a);
    case UnmergeOp(a) => UnmergeKeepsScores(t, a);
    case DeleteOp(a) => DeleteKeepsScores(t, a);
  }

  ghost predicate RunScoreSafe(t: Tables, ops: seq<Op>) {
    ops == [] || (RunScoreSafe(t, ops[..|ops| - 1]) && ScoreSafe(Run(t, ops[..|ops| - 1]), ops[|ops| - 1]))
  }

  /** Over every such run, merges and unmerges in any number, each score is the product of the factors on the live path of
      the interaction's first owner. */
  lemma {:induction false} RunKeepsScores(config: Config, ops: seq<Op>)
    requires RunAllowed(EmptyTables(config), ops) && RunScoreSafe(EmptyTables(config), ops)
    ensures Scored(Run(EmptyTables(config), ops))
  {
    hide Scored, Grounded, Allowed, ScoreSafe, Apply, CountExceeds;
    if ops == [] {
      EmptyIsScored(config);
    } else {
      var ops', op := ops[..|ops| - 1], ops[|ops| - 1];
      RunKeepsScores(config, ops');
      RunKeepsInv(config, ops');
      StepKeepsScores(Run(EmptyTables(config), ops'), op);
    }
  }

  lemma EmptyIsScored(config: Config)
    ensures Scored(EmptyTables(config))
  {}

  // ---- one unmerge after unmerges from the top down ----

  /** The product of the factors recorded before position `since`. */
  function Before(steps: seq<Step>, since: nat): real {
    if steps == [] then 1.0
    else
      var s := steps[|steps| - 1];
      Mul(Before(steps[..|steps| - 1], since), if s.at < since then s.factor else 1.0)
  }

  lemma {:induction false} BeforeAndSince(steps: seq<Step>, since: nat)
    ensures Since(steps, 0) == Mul(Before(steps, since), Since(steps, since))
  {
    hide Mul;
    MulAssoc(1.0, 1.0, 1.0);
    if steps != [] {
      var init, s := steps[..|steps| - 1], steps[|steps| - 1];
      BeforeAndSince(init, since);
      var f := if s.at < since then s.factor else 1.0;
      MulSwap(Before(init, since), Since(init, since), f, FactorSince(s, since));
      MulAssoc(s.factor, 1.0, 1.0);
      MulAssoc(1.0, s.factor, 1.0);
    }
  }

  lemma SinceIsAllIff(steps: seq<Step>, since: nat)
    requires forall i :: 0 <= i < |steps| ==> steps[i].factor != 0.0
    ensures Since(steps, 0) == Since(steps, since) <==> Before(steps, since) == 1.0
  {
    BeforeAndSince(steps, since);
    SinceNonZero(steps, since);
    var q := Since(steps, since);
    MulAssoc(Before(steps, since), q, 1.0);
    MulAssoc(q, 1.0, 1.0);
    if Since(steps, 0) == q {
      Cancel(q, Before(steps, since), 1.0);
    }
  }

  /** After unmerges from the top down, an unmerge of b leaves a score that the history explains exactly if the interaction is
      not below b, or the factors above b that were recorded before it multiply to one. */
  lemma TopDownScoreIff(t: Tables, a: UnmergeArgs, k: ObjectKey)
    requires WellFormed(t.history) && Recorded(t.history) && TopDown(t.history, a.unmerged)
    requires !UnmergeRejected(t, a) && a.unmerged != NIL_UUID && ChainsFit(t, a.unmerged)
    requires k in t.interactions && k.profileId in t.master && ScoreFollows(t, k)
    ensures ScoreFollows(AfterUnmerge(t, a), k) <==>
      (HangsBelow(t.history, a.unmerged, t.master[k.profileId].originalId) ==>
         Before(LiveSteps(t.history, a.unmerged), t.interactions[k].recorded) == 1.0)
  {
    hide WellFormed, Recorded, TopDown, ChainsFit, UnmergeRejected, AfterUnmerge, ScoreFollows, LiveSteps, InLineage, HangsBelow;
    var h, b := t.history, a.unmerged;
    WellFormedIsLinked(h);
    RecordedIsNonZero(h);
    LineageFitsIff(t, b);
    TopDownIsRight(h, b);
    StepsNonZero(h, b);
    SinceIsAllIff(LiveSteps(h, b), t.interactions[k].recorded);
    assert t.master[k.profileId].originalId in Originals(t);
    UnmergedScoreIff(t, a, k);
  }
}
