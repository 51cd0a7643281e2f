/** Confidence scores: merges multiply them, an unmerge divides the merges above it back out. */
module Confidence {
  import opened Lists
  import opened MergeHistory
  import opened LineageQuery
  import opened UpwardQuery
  import opened Lineage
  import opened FieldResolution
  import opened ProfileCount
  import opened ProfileTables
  import opened IdentityInvariant

  // ---- the merges on a live path ----

  /** A merge on a path: its position in the history and its factor. */
  datatype Step = Step(at: nat, factor: real)

  function StepsAfterRow(p: seq<Id>, steps: seq<Step>, e: Row, at: nat): (r: seq<Step>)
    requires |steps| + 1 == |p|
    ensures |r| + 1 == |AfterRow(p, e)|
  {
    match e.kind
    case Merge => if Last(p) == e.toMerge then steps + [Step(at, e.factor)] else steps
    case Unmerge => steps[..|StopAt(p, e.toMerge)| - 1]
    case Delete => steps
  }

  /** The merges along x's live path, from the bottom up. */
  function LiveSteps(h: History, x: Id): (steps: seq<Step>)
    ensures |steps| + 1 == |LivePath(h, x)|
  {
    if h == [] then []
    else StepsAfterRow(LivePath(h[..|h| - 1], x), LiveSteps(h[..|h| - 1], x), h[|h| - 1], |h| - 1)
  }

  /** The product of the factors recorded at position `since` or later. */
  function Since(steps: seq<Step>, since: nat): real {
    if steps == [] then 1.0
    else
      var s := steps[|steps| - 1];
      Mul(Since(steps[..|steps| - 1], since), FactorSince(s, since))
  }

  function LiveProduct(h: History, x: Id): real {
    Since(LiveSteps(h, x), 0)
  }

  lemma StepsSnoc(h: History, e: Row, x: Id)
    ensures LiveSteps(h + [e], x) == StepsAfterRow(LivePath(h, x), LiveSteps(h, x), e, |h|)
  {
    assert (h + [e])[..|h|] == h;
  }

  function Mul(a: real, b: real): real { a * b }

  lemma MulAssoc(a: real, b: real, c: real)
    ensures Mul(Mul(a, b), c) == Mul(a, Mul(b, c)) && Mul(a, b) == Mul(b, a) && Mul(a, 1.0) == a
  {
    assert (a * b) * c == a * (b * c);
  }

  function FactorSince(s: Step, since: nat): real {
    if s.at >= since then s.factor else 1.0
  }

  lemma SinceAppend(steps: seq<Step>, s: Step, since: nat)
    ensures Since(steps + [s], since) == Mul(Since(steps, since), FactorSince(s, since))
  {
    assert (steps + [s])[..|steps|] == steps;
  }

  lemma {:induction false} SinceConcat(a: seq<Step>, b: seq<Step>, since: nat)
    ensures Since(a + b, since) == Mul(Since(a, since), Since(b, since))
  {
    if b == [] {
      assert a + b == a;
    } else {
      var b', s := b[..|b| - 1], b[|b| - 1];
      assert b == b' + [s] && a + b == (a + b') + [s];
      hide Since, Mul, FactorSince;
      SinceConcat(a, b', since);
      SinceAppend(a + b', s, since);
      SinceAppend(b', s, since);
      MulAssoc(Since(a, since), Since(b', since), FactorSince(s, since));
    }
  }

  lemma KeptPrefix(p: seq<Id>, e: Row, k: nat)
    requires k < |p| && k < |AfterRow(p, e)|
    ensures AfterRow(p, e)[k] == p[k]
  {
    if e.kind.Unmerge? {
      StopAtSuffix(p, e.toMerge, k);
    }
  }

  lemma {:induction false} StepsIncrease(h: History, x: Id)
    ensures forall i :: 0 <= i < |LiveSteps(h, x)| ==> LiveSteps(h, x)[i].at < |h|
    ensures forall i, j :: 0 <= i < j < |LiveSteps(h, x)| ==> LiveSteps(h, x)[i].at < LiveSteps(h, x)[j].at
  {
    hide LivePath, StopAt;
    if h != [] {
      StepsIncrease(h[..|h| - 1], x);
    }
  }

  /** A step of x's path is the merge of the id it starts from. */
  ghost predicate StepOf(h: History, x: Id, i: int)
    requires 0 <= i < |LiveSteps(h, x)|
  {
    var s := LiveSteps(h, x)[i];
    s.at < |h| && h[s.at].kind.Merge? && h[s.at].toMerge == LivePath(h, x)[i] && h[s.at].factor == s.factor
  }

  lemma StepKept(h: History, e: Row, x: Id, i: nat)
    requires i < |LiveSteps(h, x)| && StepOf(h, x, i) && i < |LiveSteps(h + [e], x)|
    ensures StepOf(h + [e], x, i)
  {
    hide LivePath, LiveSteps;
    StepsSnoc(h, e, x);
    SnocPaths(h, e, x);
    KeptPrefix(LivePath(h, x), e, i);
  }

  lemma StepAdded(h: History, e: Row, x: Id)
    requires |LiveSteps(h, x)| < |LiveSteps(h + [e], x)|
    ensures |LiveSteps(h + [e], x)| == |LiveSteps(h, x)| + 1 && StepOf(h + [e], x, |LiveSteps(h, x)|)
  {
    hide LivePath, LiveSteps;
    StepsSnoc(h, e, x);
    SnocPaths(h, e, x);
  }

  lemma {:induction false} StepsInHistory(h: History, x: Id)
    ensures forall i :: 0 <= i < |LiveSteps(h, x)| ==> StepOf(h, x, i)
  {
    hide LiveSteps, LivePath, StepOf;
    if h == [] {
      NoSteps(x);
    } else {
      var h', e := h[..|h| - 1], h[|h| - 1];
      assert h == h' + [e];
      StepsInHistory(h', x);
      forall i | 0 <= i < |LiveSteps(h, x)| ensures StepOf(h, x, i) {
        if i < |LiveSteps(h', x)| {
          StepKept(h', e, x, i);
        } else {
          StepAdded(h', e, x);
        }
      }
    }
  }

  lemma NoSteps(x: Id)
    ensures LiveSteps([], x) == []
  {}

  lemma StepsSuffixAfter(p: seq<Id>, steps: seq<Step>, e: Row, at: nat, k: nat)
    requires |steps| + 1 == |p| && k < |p| && k < |AfterRow(p, e)|
    ensures StepsAfterRow(p[k..], steps[k..], e, at) == StepsAfterRow(p, steps, e, at)[k..]
  {
    match e.kind
    case Merge => assert Last(p[k..]) == Last(p);
    case Unmerge => StopAtSuffix(p, e.toMerge, k);
    case Delete =>
  }

  /** Above an id of the path the merges are those of that id's own path. */
  lemma {:induction false} StepsSuffix(h: History, x: Id, k: nat)
    requires Linked(h) && k < |LivePath(h, x)|
    ensures LiveSteps(h, LivePath(h, x)[k]) == LiveSteps(h, x)[k..]
  {
    hide Linked;
    if h != [] {
      var h', e := Unsnoc(h);
      var p, y := LivePath(h', x), LivePath(h, x)[k];
      StepsSnoc(h', e, x);
      StepsSnoc(h', e, y);
      hide LiveSteps, LivePath, StepsAfterRow;
      if k < |p| {
        StepsSuffix(h', x, k);
        LiveSuffix(h', x, k);
        StepsSuffixAfter(p, LiveSteps(h', x), e, |h'|, k);
        KeptPrefix(p, e, k);
      } else {
        NewEndHasNoSteps(h', e, x);
      }
    }
  }

  lemma NewEndHasNoSteps(h: History, e: Row, x: Id)
    requires Linked(h) && Linkable(h, e) && |AfterRow(LivePath(h, x), e)| == |LivePath(h, x)| + 1
    ensures Last(AfterRow(LivePath(h, x), e)) == e.mergedInto && StepsAfterRow(LivePath(h, e.mergedInto), LiveSteps(h, e.mergedInto), e, |h|) == []
  {
    MergesAlternate(h, e.mergedInto);
    assert LivePath(h, e.mergedInto)[0] == e.mergedInto;
  }

  lemma {:induction false} NothingSince(steps: seq<Step>, since: nat)
    requires forall i :: 0 <= i < |steps| ==> steps[i].at < since
    ensures Since(steps, since) == 1.0
  {
    if steps != [] {
      NothingSince(steps[..|steps| - 1], since);
    }
  }

  // ---- scores ----

  /** Each score is the product of the factors that were merged onto it and not divided out: those on the live path of the
      interaction's first owner, from the time the interaction was recorded. */
  ghost predicate ScoresFollow(t: Tables) {
    forall k :: k in t.interactions && k.profileId in t.master ==> ScoreFollows(t, k)
  }

  ghost predicate ScoreFollows(t: Tables, k: ObjectKey)
    requires k in t.interactions && k.profileId in t.master
  {
    t.interactions[k].score == Since(LiveSteps(t.history, t.master[k.profileId].originalId), t.interactions[k].recorded)
  }

  /** No interaction claims to be recorded in the future. */
  ghost predicate RecordedInPast(t: Tables) {
    forall k :: k in t.interactions ==> t.interactions[k].recorded <= |t.history|
  }

  lemma PutKeepsScores(t: Tables, a: PutArgs)
    requires InteractionsFollowMaster(t) && ScoresFollow(t) && RecordedInPast(t)
    ensures ScoresFollow(AfterPut(t, a)) && RecordedInPast(AfterPut(t, a))
  {
    hide LiveSteps, LivePath, Since;
    var t' := AfterPut(t, a);
    forall k | k in t'.interactions ensures ScoreFollows(t', k) {
      if k in t.interactions {
        assert ScoreFollows(t, k);
      } else {
        var x := t'.master[k.profileId].originalId;
        StepsIncrease(t.history, x);
        NothingSince(LiveSteps(t.history, x), |t.history|);
      }
    }
  }

  lemma StepsPastUnseen(h: History, e: Row, x: Id)
    requires e.kind.Merge? && Last(LivePath(h, x)) != e.toMerge
    ensures LiveSteps(h + [e], x) == LiveSteps(h, x)
  {
    StepsSnoc(h, e, x);
  }

  lemma FiledKeepsScores(t: Tables, a: PutArgs, found: Id)
    requires Agrees(t) && ScoresFollow(t) && RecordedInPast(t) && PutAllowed(t, a) && found in Live(t)
    ensures var t' := FiledUnder(t, a, found); ScoresFollow(t') && RecordedInPast(t') && InteractionsFollowMaster(t')
  {
    hide LiveSteps, LivePath, Since, MasterFollows;
    FiledKeepsRows(t, a, found);
    var t', e := FiledUnder(t, a, found), Row(Kind.Merge, a.freshId, found, 1.0);
    forall k | k in t'.interactions ensures ScoreFollows(t', k) {
      var x := t.master[k.profileId].originalId;
      assert ScoreFollows(t, k) && x in Originals(t) && AllIn(LivePath(t.history, x), Originals(t));
      assert Last(LivePath(t.history, x)) in LivePath(t.history, x);
      StepsPastUnseen(t.history, e, x);
    }
  }

  lemma PreMatchPutKeepsScores(t: Tables, a: PutArgs, found: Id)
    requires Agrees(t) && ScoresFollow(t) && RecordedInPast(t) && PutAllowed(t, a) && found in Live(t)
    ensures ScoresFollow(AfterPreMatchPut(t, a, found)) && RecordedInPast(AfterPreMatchPut(t, a, found))
  {
    hide ScoresFollow, RecordedInPast, AfterPut, FiledUnder, Agrees, PutAllowed;
    FiledKeepsScores(t, a, found);
    PutKeepsScores(FiledUnder(t, a, found), a);
  }

  lemma MergedScore(t: Tables, a: MergeArgs, k: ObjectKey)
    requires !MergeRejected(t, a) && k in t.interactions && k.profileId in t.master && ScoreFollows(t, k)
    requires t.interactions[k].recorded <= |t.history|
    requires t.interactions[k].connectId == Root(t.history, t.master[k.profileId].originalId)
    ensures ScoreFollows(AfterMerge(t, a), k)
  {
    hide LivePath, Since, LiveSteps, MergeSearch, Bump;
    var x := t.master[k.profileId].originalId;
    StepsSnoc(t.history, MergeRow(a), x);
    SinceAppend(LiveSteps(t.history, x), Step(|t.history|, a.factor), t.interactions[k].recorded);
  }

  lemma MergeKeepsScores(t: Tables, a: MergeArgs)
    requires Agrees(t) && ScoresFollow(t) && RecordedInPast(t)
    ensures ScoresFollow(AfterMerge(t, a)) && RecordedInPast(AfterMerge(t, a))
  {
    hide LivePath, Since, LiveSteps, MergeSearch, Bump, PathsWithin, ScoreFollows;
    if !MergeRejected(t, a) {
      forall k | k in AfterMerge(t, a).interactions && k.profileId in AfterMerge(t, a).master
        ensures ScoreFollows(AfterMerge(t, a), k)
      {
        MergedScore(t, a, k);
      }
    }
  }

  lemma DeleteKeepsScores(t: Tables, a: DeleteArgs)
    requires ScoresFollow(t) && RecordedInPast(t)
    ensures ScoresFollow(AfterDelete(t, a)) && RecordedInPast(AfterDelete(t, a))
  {
    hide LivePath, Since, LiveSteps;
    if AfterDelete(t, a) != t {
      var pid := DeletedProfile(t, a);
      var t', id := AfterDelete(t, a), t.master[pid].connectId;
      hide AfterDelete;
      forall k | k in t'.interactions && k.profileId in t'.master ensures ScoreFollows(t', k) {
        assert ScoreFollows(t, k);
        StepsSnoc(t.history, DeleteRow(id), t.master[k.profileId].originalId);
      }
    }
  }

  // ---- the score an unmerge leaves ----

  ghost predicate FactorsNonZero(h: History) {
    forall r :: r in h && r.kind.Merge? ==> r.factor != 0.0
  }

  lemma {:induction false} SinceNonZero(steps: seq<Step>, since: nat)
    requires forall i :: 0 <= i < |steps| ==> steps[i].factor != 0.0
    ensures Since(steps, since) != 0.0
  {
    if steps != [] {
      var s := steps[|steps| - 1];
      SinceNonZero(steps[..|steps| - 1], since);
      var z := NonZeroProduct(Since(steps[..|steps| - 1], since), if s.at >= since then s.factor else 1.0);
    }
  }

  lemma StepsNonZero(h: History, x: Id)
    requires FactorsNonZero(h)
    ensures forall i :: 0 <= i < |LiveSteps(h, x)| ==> LiveSteps(h, x)[i].factor != 0.0
  {
    StepsInHistory(h, x);
    forall i | 0 <= i < |LiveSteps(h, x)| ensures LiveSteps(h, x)[i].factor != 0.0 {
      assert StepOf(h, x, i) && h[LiveSteps(h, x)[i].at] in h;
    }
  }

  /** The merges up to b are left, those from b up are taken off. */
  lemma StepsAfterUnmerge(h: History, e: Row, x: Id, since: nat)
    requires Linked(h) && e.kind.Unmerge?
    ensures var left := LiveSteps(h + [e], x);
      if HangsBelow(h, e.toMerge, x)
      then Since(LiveSteps(h, x), since) == Since(left, since) * Since(LiveSteps(h, e.toMerge), since)
      else left == LiveSteps(h, x)
  {
    hide Linked, Since, LiveSteps, LivePath;
    var p, steps := LivePath(h, x), LiveSteps(h, x);
    StepsSnoc(h, e, x);
    if HangsBelow(h, e.toMerge, x) {
      var k := |StopAt(p, e.toMerge)| - 1;
      assert p[k] == e.toMerge;
      StepsSuffix(h, x, k);
      SinceConcat(steps[..k], steps[k..], since);
      assert steps == steps[..k] + steps[k..];
    }
  }

  lemma Quotient(s: real, p: real, q: real, r: real)
    requires s == p * q && p != 0.0 && r != 0.0
    ensures s / r == p <==> q == r
  {
    if q == r {
      assert p * q / q == p;
    }
    if s / r == p {
      assert p * r == p * q;
    }
  }

  lemma ScoreAfterUnmerge(t: Tables, a: UnmergeArgs, k: ObjectKey)
    requires k in t.interactions && k.profileId in t.master && !UnmergeRejected(t, a)
    ensures var t', revert := AfterUnmerge(t, a), UnmergeRow(t, a).factor;
            && t'.master[k.profileId].originalId == t.master[k.profileId].originalId
            && t'.history == t.history + [UnmergeRow(t, a)] && revert != 0.0
            && t'.interactions[k] == if InLineage(t.history, a.unmerged, PROFILE_HISTORY_DEPTH, t.master[k.profileId].originalId)
                 then t.interactions[k].(connectId := a.unmerged, score := t.interactions[k].score / revert)
                 else t.interactions[k]
  {}

  /** What is divided out for b is what was multiplied in above b since an interaction was recorded. */
  ghost predicate RevertsSince(t: Tables, b: Id, since: nat) {
    RevertFactor(MergesLeadingToParent(t.history, b)) == Since(LiveSteps(t.history, b), since)
  }

  /** In any state, an unmerge of an id whose lineage is right leaves a score that the history explains exactly if the
      interaction is not below b, or the revert factor is the product of the factors above b since it was recorded. */
  lemma UnmergedScoreIff(t: Tables, a: UnmergeArgs, k: ObjectKey)
    requires Linked(t.history) && FactorsNonZero(t.history) && !UnmergeRejected(t, a) && LineageFits(t, a.unmerged)
    requires k in t.interactions && k.profileId in t.master && ScoreFollows(t, k)
    ensures ScoreFollows(AfterUnmerge(t, a), k) <==>
      (k.profileId in ProfileIdsToUnmerge(t, a.unmerged) ==> RevertsSince(t, a.unmerged, t.interactions[k].recorded))
  {
    hide LivePath, LiveSteps, Since, MergesLeadingToParent, RevertFactor, AfterUnmerge, InLineage, Linked, HangsBelow, FactorsNonZero;
    var h, b, x, n := t.history, a.unmerged, t.master[k.profileId].originalId, t.interactions[k].recorded;
    var e := UnmergeRow(t, a);
    assert x in Originals(t);
    StepsAfterUnmerge(h, e, x, n);
    ScoreAfterUnmerge(t, a, k);
    if HangsBelow(h, b, x) {
      LeftNonZero(h, e, x, n);
      Quotient(t.interactions[k].score, Since(LiveSteps(h + [e], x), n), Since(LiveSteps(h, b), n), e.factor);
    }
  }

  lemma LeftNonZero(h: History, e: Row, x: Id, since: nat)
    requires FactorsNonZero(h) && e.kind.Unmerge?
    ensures Since(LiveSteps(h + [e], x), since) != 0.0
  {
    assert forall r :: r in h + [e] ==> r in h || r == e;
    StepsNonZero(h + [e], x);
    SinceNonZero(LiveSteps(h + [e], x), since);
  }

  /** An interaction recorded before b was last merged away has everything above b multiplied in. */
  lemma RecordedBeforeMerge(h: History, b: Id, since: nat)
    requires LiveSteps(h, b) == [] || LiveSteps(h, b)[0].at >= since
    ensures Since(LiveSteps(h, b), since) == LiveProduct(h, b)
  {
    StepsIncrease(h, b);
    SinceEarlier(LiveSteps(h, b), since);
  }

  lemma {:induction false} SinceEarlier(steps: seq<Step>, since: nat)
    requires forall i :: 0 <= i < |steps| ==> steps[i].at >= since
    ensures Since(steps, since) == Since(steps, 0)
  {
    if steps != [] {
      SinceEarlier(steps[..|steps| - 1], since);
    }
  }
}
