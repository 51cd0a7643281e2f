/** When one more merge or unmerge leaves the lineage of every id right: exactly when the row can be traced. */
module LineageExact {
  import opened MergeHistory
  import opened LineageQuery
  import opened Lineage
  import opened Lists

  /** Every lineage holds what hangs below its id and nothing else. */
  ghost predicate LineageRight(h: History, depth: nat) {
    forall b, x :: b != NIL_UUID ==> (InLineage(h, b, depth, x) <==> HangsBelow(h, b, x))
  }

  // ---- edges that are kept ----

  /** An edge with all the merges of its child is kept if it is led to twice, even when the last merge was undone. */
  lemma TwiceLedIsKept(h: History, b: Id, depth: nat, p: Id, x: Id)
    requires Linked(h) && Led(h, b, depth, p) >= 2 && Count(h, Merge, p, x) == Rows(h, Merge, x) >= 1
    ensures Net(h, b, depth, p, x) > 0
  {
    MergesAlternate(h, x);
    ProductAtLeast(Led(h, b, depth, p), Count(h, Merge, p, x), 2, Rows(h, Merge, x));
    EdgeIsKept(h, b, depth, p, x);
  }

  /** It is kept if it is led to at all and the last merge was not undone. */
  lemma LedIsKept(h: History, b: Id, depth: nat, p: Id, x: Id)
    requires Led(h, b, depth, p) >= 1 && Count(h, Merge, p, x) == Rows(h, Merge, x) > Rows(h, Unmerge, x)
    ensures Net(h, b, depth, p, x) > 0
  {
    ProductAtLeast(Led(h, b, depth, p), Count(h, Merge, p, x), 1, Rows(h, Merge, x));
    EdgeIsKept(h, b, depth, p, x);
  }

  lemma {:induction false} ChainFound(h: History, q: seq<Id>, depth: nat)
    requires q != [] && forall i :: 0 <= i < |q| - 1 ==> Net(h, Last(q), depth, q[i + 1], q[i]) > 0
    ensures LineageStep(h, Last(q), depth, q[0], |q| - 1)
  {
    hide Net;
    if |q| > 1 {
      var rest := q[1..];
      forall i | 0 <= i < |rest| - 1 ensures Net(h, Last(rest), depth, rest[i + 1], rest[i]) > 0 {
        var j := i + 1;
        assert Net(h, Last(q), depth, q[j + 1], q[j]) > 0;
      }
      ChainFound(h, rest, depth);
      assert Net(h, Last(q), depth, q[0 + 1], q[0]) > 0;
    }
  }

  lemma ChainIsVisited(h: History, q: seq<Id>, depth: nat)
    requires |q| >= 2 && MergeChain(h, q) && |q| - 2 < depth
    ensures Visits(h, Last(q), depth, q[0]) >= 1
    ensures HasDoubledStep(h, q) ==> Visits(h, Last(q), depth, q[0]) >= 2
  {
    ChainIsFed(h, q);
    VisitsAtLeast(h, Last(q), depth, q[0], |q| - 2);
  }

  // ---- one more row ----

  lemma FullStep(h: History, x: Id, i: nat)
    requires WellFormed(h) && i < |FullPath(h, x)| - 1
    ensures var q := FullPath(h, x);
      HasRow(h, Merge, q[i + 1], q[i]) && Count(h, Merge, q[i + 1], q[i]) == Rows(h, Merge, q[i]) >= 1
  {
    var q := FullPath(h, x);
    FullSuffix(h, x, i);
    MergesLeadToParent(h, q[i + 1], q[i]);
    CountPositive(h, Merge, q[i + 1], q[i]);
  }

  /** The rows into an id, other than the one appended, stay as many. */
  lemma FullStepAfter(h: History, e: Row, x: Id, i: nat)
    requires WellFormed(h) && i < |FullPath(h, x)| - 1 && (e.kind.Merge? ==> e.toMerge != FullPath(h, x)[i])
    ensures var q := FullPath(h, x);
      HasRow(h + [e], Merge, q[i + 1], q[i]) && Count(h + [e], Merge, q[i + 1], q[i]) == Rows(h + [e], Merge, q[i]) >= 1
  {
    var q := FullPath(h, x);
    FullStep(h, x, i);
    HasRowSnoc(h, e, Merge, q[i + 1], q[i]);
    CountSnoc(h, e, Merge, q[i + 1], q[i]);
    Snoc(h, e);
  }

  lemma FullChainAfter(h: History, e: Row, x: Id, n: nat)
    requires WellFormed(h) && n <= |FullPath(h, x)|
    ensures MergeChain(h + [e], FullPath(h, x)[..n])
  {
    forall i | 0 <= i < n - 1 ensures HasRow(h + [e], Merge, FullPath(h, x)[i + 1], FullPath(h, x)[i]) {
      FullStep(h, x, i);
      HasRowSnoc(h, e, Merge, FullPath(h, x)[i + 1], FullPath(h, x)[i]);
    }
  }

  lemma ExtendedIsLinked(h: History, e: Row)
    requires WellFormed(h) && Linkable(h, e)
    ensures Linked(h + [e])
  {
    WellFormedIsLinked(h);
    Snoc(h, e);
  }

  lemma LiveEnd(h: History, e: Row, x: Id)
    requires WellFormed(h) && Linkable(h, e) && e.kind.Merge? && Root(h, x) == x && x != e.toMerge
    ensures LivePath(h + [e], x) == [x]
  {
    WellFormedIsLinked(h);
    MergesAlternate(h, x);
    Snoc(h, e);
  }

  // ---- a merge into an id that was below ----

  /** The loop that a merge of x closes. */
  ghost predicate Closes(h: History, e: Row, p: seq<Id>) {
    && e.kind.Merge? && |p| >= 2 && p <= FullPath(h, e.mergedInto) && Last(p) == e.toMerge && p[0] == e.mergedInto
  }

  lemma LoopIsChain(h: History, e: Row, p: seq<Id>, j: nat)
    requires WellFormed(h) && Closes(h, e, p) && j < |p|
    ensures MergeChain(h + [e], p[j..]) && MergeChain(h + [e], p[j..] + p)
  {
    var g := h + [e];
    FullChainAfter(h, e, e.mergedInto, |p|);
    assert FullPath(h, e.mergedInto)[..|p|] == p;
    HasRowSnoc(h, e, Merge, e.mergedInto, e.toMerge);
    var q := p[j..] + p;
    forall i | 0 <= i < |q| - 1 ensures HasRow(g, Merge, q[i + 1], q[i]) {
      if i < |p| - 1 - j {
        var k := i + j;
        assert q[i] == p[k] && q[i + 1] == p[k + 1] && HasRow(g, Merge, p[k + 1], p[k]);
      } else if i > |p| - 1 - j {
        var k := i - (|p| - j);
        assert q[i] == p[k] && q[i + 1] == p[k + 1] && HasRow(g, Merge, p[k + 1], p[k]);
      }
    }
    forall i | 0 <= i < |p[j..]| - 1 ensures HasRow(g, Merge, p[j..][i + 1], p[j..][i]) {
      var k := i + j;
      assert HasRow(g, Merge, p[k + 1], p[k]);
    }
  }

  /** Every id on the loop is led to twice. */
  lemma LoopIsLedTwice(h: History, e: Row, depth: nat, p: seq<Id>, j: nat)
    requires WellFormed(h) && Closes(h, e, p) && 0 < j < |p| && depth >= 2 * |h|
    ensures Led(h + [e], e.toMerge, depth, p[j]) >= 2
  {
    hide WellFormed, FullPath, Visits, Level, Feed;
    FullLength(h, e.mergedInto);
    LoopIsChain(h, e, p, j);
    var g, x, q1, q2 := h + [e], e.toMerge, p[j..], p[j..] + p;
    assert Last(q1) == x && Last(q2) == x && q1[0] == p[j] && q2[0] == p[j];
    ChainIsFed(g, q2);
    if j == |p| - 1 {
      VisitsAtLeast(g, x, depth, p[j], |q2| - 2);
    } else {
      ChainIsFed(g, q1);
      VisitsTwice(g, x, depth, p[j], |q1| - 2, |q2| - 2);
    }
  }

  lemma LoopIsFound(h: History, e: Row, depth: nat)
    requires WellFormed(h) && Linkable(h, e) && e.kind.Merge? && e.toMerge in FullPath(h, e.mergedInto) && depth >= 2 * |h|
    ensures InLineage(h + [e], e.toMerge, depth, e.mergedInto) && !HangsBelow(h + [e], e.toMerge, e.mergedInto)
  {
    hide WellFormed, Linked, FullPath, Linkable, LivePath, Rows, Led, Net;
    assert e.toMerge != e.mergedInto && Root(h, e.mergedInto) == e.mergedInto by {
      LinkableMerge(h, e);
    }
    var k := FullIndex(h, e.mergedInto, e.toMerge);
    var p, g := FullPath(h, e.mergedInto)[..k + 1], h + [e];
    ExtendedIsLinked(h, e);
    FullDistinct(h, e.mergedInto);
    forall i | 0 <= i < |p| - 1 ensures Net(g, Last(p), depth, p[i + 1], p[i]) > 0 {
      FullStepAfter(h, e, e.mergedInto, i);
      LoopIsLedTwice(h, e, depth, p, i + 1);
      TwiceLedIsKept(g, e.toMerge, depth, p[i + 1], p[i]);
    }
    ChainFound(g, p, depth);
    LiveEnd(h, e, e.mergedInto);
  }

  lemma LinkableMerge(h: History, e: Row)
    requires Linkable(h, e) && e.kind.Merge?
    ensures e.toMerge != e.mergedInto && Root(h, e.mergedInto) == e.mergedInto && Root(h, e.toMerge) == e.toMerge
    ensures e.mergedInto != NIL_UUID && e.toMerge != NIL_UUID
  {}

  // ---- a merge of an id that still has another id cut off below it ----

  /** How often x was merged and unmerged, after all its merges went into y and it is merged there once more. */
  lemma MergedAgain(h: History, e: Row)
    requires WellFormed(h) && Linkable(h, e) && e.kind.Merge?
    requires forall r :: r in h && r.kind.Merge? && r.toMerge == e.toMerge ==> r.mergedInto == e.mergedInto
    ensures var g := h + [e];
      && Count(g, Merge, e.mergedInto, e.toMerge) == Rows(g, Merge, e.toMerge) > Rows(g, Unmerge, e.toMerge)
      && Rows(g, Merge, e.toMerge) == Rows(h, Merge, e.toMerge) + 1
  {
    hide WellFormed, Linked, FullPath, Linkable, LivePath, Rows, Count;
    LinkableMerge(h, e);
    WellFormedIsLinked(h);
    MergesAlternate(h, e.toMerge);
    MergesOfChild(h, e.mergedInto, e.toMerge);
    CountSnoc(h, e, Merge, e.mergedInto, e.toMerge);
    SnocRows(h, e, Merge, e.toMerge);
    SnocRows(h, e, Unmerge, e.toMerge);
  }

  lemma CutBelowIsFound(h: History, e: Row, depth: nat, d: Id)
    requires WellFormed(h) && Linkable(h, e) && e.kind.Merge? && e.toMerge !in FullPath(h, e.mergedInto) && depth >= |h|
    requires forall r :: r in h && r.kind.Merge? && r.toMerge == e.toMerge ==> r.mergedInto == e.mergedInto
    requires e.toMerge in MergedAway(h) && d in Cuts(h) && d != e.toMerge && e.toMerge in FullPath(h, d)
    ensures InLineage(h + [e], e.mergedInto, depth, d) && !HangsBelow(h + [e], e.mergedInto, d)
  {
    hide WellFormed, Linked, FullPath, Linkable, LivePath, Rows, Led, Net;
    LinkableMerge(h, e);
    var k := FullIndex(h, d, e.toMerge);
    var g, q := h + [e], WayUp(h, e, d, k);
    WellFormedIsLinked(h);
    MergesAlternate(h, d);
    forall i | 0 <= i < |q| - 1 ensures Net(g, Last(q), depth, q[i + 1], q[i]) > 0 {
      EdgeUpToMerged(h, e, depth, d, k, i);
    }
    ChainFound(g, q, depth);
    LiveEnd(h, e, d);
    assert d != e.mergedInto;
  }

  /** The way from d up to the merged id and on to the survivor. */
  function WayUp(h: History, e: Row, d: Id, k: nat): seq<Id>
    requires k < |FullPath(h, d)|
  {
    FullPath(h, d)[..k + 1] + [e.mergedInto]
  }

  lemma WayUpIsChain(h: History, e: Row, d: Id, k: nat)
    requires WellFormed(h) && e.kind.Merge? && k < |FullPath(h, d)| && FullPath(h, d)[k] == e.toMerge
    ensures MergeChain(h + [e], WayUp(h, e, d, k))
  {
    hide WellFormed, FullPath, HasRow;
    var q, p := WayUp(h, e, d, k), FullPath(h, d)[..k + 1];
    FullChainAfter(h, e, d, k + 1);
    HasRowSnoc(h, e, Merge, e.mergedInto, e.toMerge);
    forall i | 0 <= i < |q| - 1 ensures HasRow(h + [e], Merge, q[i + 1], q[i]) {
      if i < k {
        assert HasRow(h + [e], Merge, p[i + 1], p[i]);
      }
    }
  }

  lemma EdgeUpToMerged(h: History, e: Row, depth: nat, d: Id, k: nat, i: nat)
    requires WellFormed(h) && Linkable(h, e) && e.kind.Merge? && depth >= |h|
    requires forall r :: r in h && r.kind.Merge? && r.toMerge == e.toMerge ==> r.mergedInto == e.mergedInto
    requires e.toMerge in MergedAway(h) && k < |FullPath(h, d)| && FullPath(h, d)[k] == e.toMerge && i <= k
    ensures var q := WayUp(h, e, d, k); Net(h + [e], e.mergedInto, depth, q[i + 1], q[i]) > 0
  {
    hide WellFormed, Linked, FullPath, Linkable, LivePath, Rows, Net, Visits, Count, MergeChain;
    var g, q, y := h + [e], WayUp(h, e, d, k), e.mergedInto;
    MergedAgain(h, e);
    WellFormedIsLinked(h);
    MergesAlternate(h, e.toMerge);
    if i == k {
      LedIsKept(g, y, depth, y, e.toMerge);
    } else {
      FullDistinct(h, d);
      FullLength(h, d);
      FullStepAfter(h, e, d, i);
      ExtendedIsLinked(h, e);
      WayUpIsChain(h, e, d, k);
      UpperChain(g, q, i + 1);
      var up := q[i + 1..];
      assert Count(g, Merge, up[|up| - 2 + 1], up[|up| - 2]) >= 2;
      ChainIsVisited(g, up, depth);
      TwiceLedIsKept(g, y, depth, q[i + 1], q[i]);
    }
  }

  // ---- a merge of an id from which another was unmerged directly ----

  lemma CutFromMergedIsFound(h: History, e: Row, depth: nat, c: Id)
    requires WellFormed(h) && Linkable(h, e) && e.kind.Merge? && e.toMerge !in FullPath(h, e.mergedInto) && depth >= 1
    requires forall r :: r in h && r.kind.Merge? && r.toMerge == e.toMerge ==> r.mergedInto == e.mergedInto
    requires c in Cuts(h) && HasRow(h, Merge, e.toMerge, c) && HasRow(h, Unmerge, e.toMerge, c)
    ensures InLineage(h + [e], e.mergedInto, depth, c) && !HangsBelow(h + [e], e.mergedInto, c)
  {
    hide WellFormed, Linked, FullPath, Linkable, LivePath, Rows, Net, Visits, Times;
    LinkableMerge(h, e);
    var x, y, g := e.toMerge, e.mergedInto, h + [e];
    MergedAgain(h, e);
    LedIsKept(g, y, depth, y, x);
    HasRowSnoc(h, e, Merge, y, x);
    ChainIsVisited(g, [x, y], depth);
    WellFormedIsLinked(h);
    MergesAlternate(h, c);
    MergesLeadToParent(h, x, c);
    FullDistinct(h, c);
    ExtendedIsLinked(h, e);
    UnmergedDirectlyIsKept(h, e, y, depth, x, c);
    assert LineageStep(g, y, depth, y, 0);
    assert LineageStep(g, y, depth, x, 1);
    assert LineageStep(g, y, depth, c, 2);
    FullStepAvoids(h, x, c);
    LiveEnd(h, e, c);
  }

  /** The second id on the full path of c is x. */
  lemma FullStepAvoids(h: History, x: Id, c: Id)
    requires WellFormed(h) && |FullPath(h, c)| > 1 && FullPath(h, c)[1] == x
    ensures x in FullPath(h, c) && x != c
  {
    FullDistinct(h, c);
  }

  /** An unmerge row from the direct parent is counted as one more merge. */
  lemma UnmergedDirectlyIsKept(h: History, e: Row, b: Id, depth: nat, p: Id, x: Id)
    requires WellFormed(h) && !(e.kind.Merge? && e.toMerge == x) && Linked(h + [e])
    requires HasRow(h, Merge, p, x) && HasRow(h, Unmerge, p, x) && Visits(h + [e], b, depth, p) >= 1
    ensures Net(h + [e], b, depth, p, x) > 0
  {
    hide WellFormed, Linked, FullPath, Net, Visits, Rows, Count;
    var g := h + [e];
    MergesLeadToParent(h, p, x);
    MergesAlternate(g, x);
    CountSnoc(h, e, Merge, p, x);
    CountSnoc(h, e, Unmerge, p, x);
    CountPositive(h, Unmerge, p, x);
    Snoc(h, e);
    var v, m, u := Visits(g, b, depth, p), Count(g, Merge, p, x), Count(g, Unmerge, p, x);
    ProductAtLeast(Led(g, b, depth, p), m, 1, m);
    ProductAtLeast(v, u, 1, u);
    EdgeIsKept(g, b, depth, p, x);
  }

  // ---- a merge into another id than before ----

  /** Below ids that are not under the merged one, the row changes nothing. */
  lemma {:induction false} FeedSame(h: History, e: Row, b: Id, k: nat, p: Id)
    requires WellFormed(h) && Linkable(h, e) && e.kind.Merge? && b != NIL_UUID && e.toMerge !in FullPath(h, p)
    ensures Feed(Level(h + [e], b, k), p) == Feed(Level(h, b, k), p)
    decreases k
  {
    hide WellFormed, Linked, Linkable, FullPath, Count, Feed, JoinDown, RowsInto, NotUnmerge, Rows;
    var g, y := h + [e], if |FullPath(h, p)| > 1 then FullPath(h, p)[1] else b;
    assert FullPath(h, p)[0] == p;
    FollowedSame(h, e, b, p);
    if k == 0 {
      RowsIntoFeed(h, b, p);
      RowsIntoFeed(g, b, p);
      NotUnmergeCounts(RowsInto(h, b), Merge, b, p);
      NotUnmergeCounts(RowsInto(g, b), Merge, b, p);
    } else {
      FeedOnlyParent(h, b, k - 1, p, y);
      FeedOnlyParentAfter(h, e, b, k - 1, p, y);
      FollowedSame(h, e, y, p);
      if |FullPath(h, p)| > 1 {
        FullSuffix(h, p, 1);
        FeedSame(h, e, b, k - 1, y);
      } else {
        WellFormedIsLinked(h);
        DeletesLeadToNil(h, b, p);
        MergesLeadToParent(h, b, p);
        TimesSmall(Feed(Level(h, b, k - 1), y), 0);
        TimesSmall(Feed(Level(g, b, k - 1), y), 0);
      }
    }
  }

  lemma FollowedSame(h: History, e: Row, y: Id, p: Id)
    requires e.kind.Merge? && e.toMerge != p
    ensures Followed(h + [e], y, p) == Followed(h, y, p)
  {
    CountSnoc(h, e, Merge, y, p);
    CountSnoc(h, e, Delete, y, p);
  }

  lemma FeedOnlyParentAfter(h: History, e: Row, b: Id, k: nat, p: Id, y: Id)
    requires WellFormed(h) && Linkable(h, e) && e.kind.Merge? && e.toMerge != p
    requires b != NIL_UUID && y == if |FullPath(h, p)| > 1 then FullPath(h, p)[1] else b
    ensures Feed(Level(h + [e], b, k + 1), p) == Times(Feed(Level(h + [e], b, k), y), Followed(h + [e], y, p))
  {
    hide WellFormed, FullPath, Count, Feed, JoinDown, RowsInto, NotUnmerge, Rows;
    var g := h + [e];
    WellFormedIsLinked(h);
    ExtendedIsLinked(h, e);
    LevelWithin(g, b, k);
    forall t | t in Level(g, b, k) && t.toMerge != y ensures Followed(g, t.toMerge, p) == 0 {
      LiveRows(g, t);
      DeletesLeadToNil(h, t.toMerge, p);
      MergesLeadToParent(h, t.toMerge, p);
      FollowedSame(h, e, t.toMerge, p);
    }
    JoinFeedOnly(g, Level(g, b, k), y, p);
  }

  lemma {:induction false} VisitsSame(h: History, e: Row, b: Id, n: nat, p: Id)
    requires WellFormed(h) && Linkable(h, e) && e.kind.Merge? && b != NIL_UUID && e.toMerge !in FullPath(h, p)
    ensures Visits(h + [e], b, n, p) == Visits(h, b, n, p)
  {
    hide WellFormed, Linkable, FullPath, Level, Feed;
    if n > 0 {
      VisitsSame(h, e, b, n - 1, p);
      FeedSame(h, e, b, n - 1, p);
    }
  }

  lemma NetSame(h: History, e: Row, b: Id, depth: nat, p: Id, x: Id)
    requires e.kind.Merge? && !(e.toMerge == x && e.mergedInto == p)
    requires Visits(h + [e], b, depth, p) == Visits(h, b, depth, p)
    ensures Net(h + [e], b, depth, p, x) == Net(h, b, depth, p, x)
  {
    hide WellFormed, Count, Visits, Times, Net, Rows;
    NetFormula(h, b, depth, p, x);
    NetFormula(h + [e], b, depth, p, x);
    CountSnoc(h, e, Merge, p, x);
    CountSnoc(h, e, Unmerge, p, x);
    CountSnoc(h, e, Delete, p, x);
    Snoc(h, e);
  }

  /** What hangs below y does not lie under a root from which y cannot be reached upward. */
  lemma BelowAvoids(h: History, x: Id, y: Id, z: Id)
    requires WellFormed(h) && Root(h, x) == x != y && x !in FullPath(h, y) && y in LivePath(h, z)
    ensures x !in FullPath(h, z)
  {
    hide WellFormed, Linked, FullPath, Rows;
    WellFormedIsLinked(h);
    MergesAlternate(h, x);
    LiveNodes(h, z);
    LiveWithinFull(h, z);
    var p, q := LivePath(h, z), FullPath(h, z);
    var k :| 0 <= k < |p| && p[k] == y;
    FullSuffix(h, z, k);
    forall i | 0 <= i < |q| ensures q[i] != x {
      if i < k {
        assert q[i] == p[i];
      } else {
        assert q[i] == q[k..][i - k];
      }
    }
  }

  /** The merge rows of x into y are outnumbered when x was merged and unmerged elsewhere. */
  lemma NewEdgeIsOutnumbered(h: History, e: Row, depth: nat, r: Row)
    requires WellFormed(h) && Linkable(h, e) && e.kind.Merge? && e.toMerge !in FullPath(h, e.mergedInto)
    requires r in h && r.kind.Merge? && r.toMerge == e.toMerge && r.mergedInto != e.mergedInto
    ensures Net(h + [e], e.mergedInto, depth, e.mergedInto, e.toMerge) <= 0
  {
    hide WellFormed, Linked, FullPath, Linkable, LivePath, Rows, Count, Visits, Times, Net;
    LinkableMerge(h, e);
    var x, y, g := e.toMerge, e.mergedInto, h + [e];
    WellFormedIsLinked(h);
    MergesAlternate(h, x);
    PathStep(h, r);
    assert |FullPath(h, x)| > 1 && FullPath(h, x)[1] == r.mergedInto;
    MergesLeadToParent(h, y, x);
    DeletesLeadToNil(h, y, x);
    CountSnoc(h, e, Merge, y, x);
    CountSnoc(h, e, Delete, y, x);
    Snoc(h, e);
    VisitsSame(h, e, y, depth, y);
    VisitsExact(h, y, depth, y, 0);
    NetFormula(g, y, depth, y, x);
    TimesSmall(0, Count(g, Merge, y, x));
    TimesSmall(0, Count(g, Unmerge, y, x));
    TimesSmall(0, Count(g, Delete, y, x));
  }

  lemma {:induction false} FoundHungBefore(h: History, e: Row, depth: nat, r: Row, z: Id, n: nat)
    requires WellFormed(h) && Linkable(h, e) && e.kind.Merge? && e.toMerge !in FullPath(h, e.mergedInto)
    requires r in h && r.kind.Merge? && r.toMerge == e.toMerge && r.mergedInto != e.mergedInto
    requires LineageStep(h + [e], e.mergedInto, depth, z, n)
    ensures e.mergedInto in LivePath(h, z)
    decreases n
  {
    hide WellFormed, Linked, FullPath, Linkable, LivePath, Rows, Count, Visits, Times, Net;
    LinkableMerge(h, e);
    var x, y, g := e.toMerge, e.mergedInto, h + [e];
    if n > 0 {
      var p :| LineageStep(g, y, depth, p, n - 1) && Net(g, y, depth, p, z) > 0;
      FoundHungBefore(h, e, depth, r, p, n - 1);
      BelowAvoids(h, x, y, p);
      VisitsSame(h, e, y, depth, p);
      if z == x && p == y {
        NewEdgeIsOutnumbered(h, e, depth, r);
      } else {
        NetSame(h, e, y, depth, p, z);
        EdgeKeepsHanging(h, y, depth, p, z);
      }
    }
  }

  lemma RemergedElsewhereIsMissed(h: History, e: Row, depth: nat, r: Row)
    requires WellFormed(h) && Linkable(h, e) && e.kind.Merge? && e.toMerge !in FullPath(h, e.mergedInto)
    requires r in h && r.kind.Merge? && r.toMerge == e.toMerge && r.mergedInto != e.mergedInto
    ensures !InLineage(h + [e], e.mergedInto, depth, e.toMerge) && HangsBelow(h + [e], e.mergedInto, e.toMerge)
  {
    hide WellFormed, Linked, FullPath;
    var x, y, g := e.toMerge, e.mergedInto, h + [e];
    WellFormedIsLinked(h);
    MergesAlternate(h, x);
    Snoc(h, e);
    assert LivePath(h, x) == [x] && LivePath(g, x)[1] == y;
    if n: nat :| LineageStep(g, y, depth, x, n) {
      FoundHungBefore(h, e, depth, r, x, n);
    }
  }

  // ---- unmerges ----

  /** The ids from the direct parent of b up to the holder b is unmerged from are all found from the holder. */
  lemma WayUpIsFound(h: History, e: Row, depth: nat, i: nat)
    requires WellFormed(h) && Linkable(h, e) && e.kind.Unmerge? && depth >= |h|
    requires 0 < i < |LivePath(h, e.toMerge)| - 1
    ensures var p := LivePath(h, e.toMerge);
      && Net(h + [e], e.mergedInto, depth, p[i + 1], p[i]) > 0
      && Visits(h + [e], e.mergedInto, depth, p[i]) >= 1
      && (HasDoubledStep(h + [e], p[i..]) ==> Visits(h + [e], e.mergedInto, depth, p[i]) >= 2)
  {
    hide WellFormed, Linked, FullPath, LivePath, Rows, Count, Visits, Net, Linkable;
    var p, q, g := LivePath(h, e.toMerge), FullPath(h, e.toMerge), h + [e];
    LinkableUnmerge(h, e);
    WellFormedIsLinked(h);
    LiveWithinFull(h, e.toMerge);
    LiveNodes(h, e.toMerge);
    FullLength(h, e.toMerge);
    FullChainAfter(h, e, e.toMerge, |p|);
    assert q[..|p|] == p;
    UpperChain(g, p, i);
    ChainIsVisited(g, p[i..], depth);
    if i + 1 < |p| - 1 {
      UpperChain(g, p, i + 1);
      ChainIsVisited(g, p[i + 1..], depth);
    }
    FullStepAfter(h, e, e.toMerge, i);
    MergesAlternate(h, p[i]);
    NotBackToStart(h, e.toMerge);
    Snoc(h, e);
    LedIsKept(g, e.mergedInto, depth, p[i + 1], p[i]);
  }

  lemma UpperChain(h: History, p: seq<Id>, i: nat)
    requires MergeChain(h, p) && i < |p|
    ensures MergeChain(h, p[i..]) && Last(p[i..]) == Last(p)
  {
    var q := p[i..];
    forall j | 0 <= j < |q| - 1 ensures HasRow(h, Merge, q[j + 1], q[j]) {
      var k := i + j;
      assert HasRow(h, Merge, p[k + 1], p[k]);
    }
  }

  lemma LinkableUnmerge(h: History, e: Row)
    requires Linkable(h, e) && e.kind.Unmerge?
    ensures e.toMerge != e.mergedInto && Last(LivePath(h, e.toMerge)) == e.mergedInto && |LivePath(h, e.toMerge)| > 1
    ensures e.mergedInto != NIL_UUID
  {}

  /** The unmerged id is still found if its parent is, and its edge to it is kept. */
  lemma UnmergedIsFound(h: History, e: Row, depth: nat)
    requires WellFormed(h) && Linkable(h, e) && e.kind.Unmerge? && depth >= |h|
    requires |LivePath(h, e.toMerge)| > 2 && Net(h + [e], e.mergedInto, depth, LivePath(h, e.toMerge)[1], e.toMerge) > 0
    ensures InLineage(h + [e], e.mergedInto, depth, e.toMerge) && !HangsBelow(h + [e], e.mergedInto, e.toMerge)
  {
    hide WellFormed, Linked, FullPath, Linkable, Net;
    LinkableUnmerge(h, e);
    var p := LivePath(h, e.toMerge);
    forall i | 0 <= i < |p| - 1 ensures Net(h + [e], Last(p), depth, p[i + 1], p[i]) > 0 {
      if i > 0 {
        WayUpIsFound(h, e, depth, i);
      }
    }
    ChainFound(h + [e], p, depth);
    Snoc(h, e);
    assert p[0] == e.toMerge && StopAt(p, e.toMerge) == [e.toMerge];
  }

  lemma DoubledBetweenIsFound(h: History, e: Row, depth: nat, k: nat)
    requires WellFormed(h) && Linkable(h, e) && e.kind.Unmerge? && depth >= |h|
    requires 0 < k < |LivePath(h, e.toMerge)| - 1 && Rows(h, Merge, LivePath(h, e.toMerge)[k]) > 1
    ensures InLineage(h + [e], e.mergedInto, depth, e.toMerge) && !HangsBelow(h + [e], e.mergedInto, e.toMerge)
  {
    hide WellFormed, Linked, FullPath, LivePath, Linkable, Net, Rows, Count, Visits;
    var p, g := LivePath(h, e.toMerge), h + [e];
    LinkableUnmerge(h, e);
    LiveWithinFull(h, e.toMerge);
    FullStepAfter(h, e, e.toMerge, k);
    FullStepAfter(h, e, e.toMerge, 0);
    Snoc(h, e);
    assert Count(g, Merge, p[1..][k - 1 + 1], p[1..][k - 1]) >= 2;
    WayUpIsFound(h, e, depth, 1);
    ExtendedIsLinked(h, e);
    TwiceLedIsKept(g, e.mergedInto, depth, p[1], e.toMerge);
    UnmergedIsFound(h, e, depth);
  }

  lemma UnmergedFromElsewhereIsFound(h: History, e: Row, depth: nat, p: Id)
    requires WellFormed(h) && Linkable(h, e) && e.kind.Unmerge? && depth >= |h|
    requires HasRow(h, Merge, p, e.toMerge) && HasRow(h, Unmerge, p, e.toMerge) && p != e.mergedInto
    ensures InLineage(h + [e], e.mergedInto, depth, e.toMerge) && !HangsBelow(h + [e], e.mergedInto, e.toMerge)
  {
    hide WellFormed, Linked, FullPath, LivePath, Linkable, Net, Rows, Visits;
    LinkableUnmerge(h, e);
    LiveWithinFull(h, e.toMerge);
    MergesLeadToParent(h, p, e.toMerge);
    assert LivePath(h, e.toMerge)[1] == p;
    WayUpIsFound(h, e, depth, 1);
    ExtendedIsLinked(h, e);
    UnmergedDirectlyIsKept(h, e, e.mergedInto, depth, p, e.toMerge);
    UnmergedIsFound(h, e, depth);
  }

  // ---- the condition is exact ----

  lemma UntraceableMergeMisleads(h: History, e: Row, depth: nat)
    requires WellFormed(h) && Linkable(h, e) && e.kind.Merge? && !MergeTraceable(h, e.toMerge, e.mergedInto)
    requires depth >= 2 * |h| + 1
    ensures !LineageRight(h + [e], depth)
  {
    hide WellFormed, Linked, FullPath, LivePath, Net, Rows, HangsBelow, InLineage, Linkable;
    LinkableMerge(h, e);
    if e.toMerge in FullPath(h, e.mergedInto) {
      LoopIsFound(h, e, depth);
    } else if r :| r in h && r.kind.Merge? && r.toMerge == e.toMerge && r.mergedInto != e.mergedInto {
      RemergedElsewhereIsMissed(h, e, depth, r);
    } else if c :| c in Cuts(h) && HasRow(h, Merge, e.toMerge, c) && HasRow(h, Unmerge, e.toMerge, c) {
      CutFromMergedIsFound(h, e, depth, c);
    } else {
      var d :| d in Cuts(h) && d != e.toMerge && e.toMerge in FullPath(h, d);
      CutBelowIsFound(h, e, depth, d);
    }
  }

  lemma UntraceableUnmergeMisleads(h: History, e: Row, depth: nat)
    requires WellFormed(h) && Linkable(h, e) && e.kind.Unmerge? && !UnmergeTraceable(h, e.toMerge, e.mergedInto)
    requires depth >= |h|
    ensures !LineageRight(h + [e], depth)
  {
    hide WellFormed, Linked, FullPath, LivePath, Net, Rows, HangsBelow, InLineage, Linkable;
    LinkableUnmerge(h, e);
    if p :| HasRow(h, Merge, p, e.toMerge) && HasRow(h, Unmerge, p, e.toMerge) && p != e.mergedInto {
      UnmergedFromElsewhereIsFound(h, e, depth, p);
    } else {
      var k :| 0 < k < |LivePath(h, e.toMerge)| - 1 && Rows(h, Merge, LivePath(h, e.toMerge)[k]) > 1;
      DoubledBetweenIsFound(h, e, depth, k);
    }
  }

  lemma WellFormedIsRight(h: History, depth: nat)
    requires WellFormed(h) && depth >= |h|
    ensures LineageRight(h, depth)
  {
    hide WellFormed, LivePath, InLineage;
    forall b, x | b != NIL_UUID ensures InLineage(h, b, depth, x) <==> HangsBelow(h, b, x) {
      LineageIsWhatHangsBelow(h, b, depth, x);
      if HangsBelow(h, b, x) {
        var k :| 0 <= k < |LivePath(h, x)| && LivePath(h, x)[k] == b;
        assert |LivePath(h, x)| <= |h| + 1;
      }
    }
  }

  /** One more row leaves every lineage right, the depth bound aside, if and only if it can be traced. */
  lemma LineageStaysRightIff(h: History, e: Row, depth: nat)
    requires WellFormed(h) && Linkable(h, e) && depth >= 2 * |h| + 1
    ensures LineageRight(h + [e], depth) <==> Traceable(h, e)
  {
    hide WellFormed, Linked, Linkable, LineageRight, MergeTraceable, UnmergeTraceable;
    if Traceable(h, e) {
      Snoc(h, e);
      WellFormedIsRight(h + [e], depth);
    } else if e.kind.Merge? {
      UntraceableMergeMisleads(h, e, depth);
    } else {
      UntraceableUnmergeMisleads(h, e, depth);
    }
  }
}
