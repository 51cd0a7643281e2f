/** The profile history table: one row for every merge, unmerge and delete,
    and the forest of connect ids those rows describe. */
module MergeHistory {
  import opened Lists

  /** A connect id: the empty string a caller may pass, or a UUID by its value. */
  datatype Id = Blank | Uuid(value: nat)

  const NIL_UUID := Uuid(0)

  datatype Kind = Merge | Unmerge | Delete

  datatype Row = Row(kind: Kind, toMerge: Id, mergedInto: Id, factor: real)

  type History = seq<Row>

  function MergedAway(h: History): set<Id> {
    set r | r in h && r.kind.Merge? :: r.toMerge
  }

  /** The ids that were ever unmerged. */
  function EverUnmerged(h: History): set<Id> {
    set r | r in h && r.kind.Unmerge? :: r.toMerge
  }

  function Deleted(h: History): set<Id> {
    set r | r in h && r.kind.Delete? :: r.toMerge
  }

  /** The ids that are unmerged now: an unmerge cuts an id off until it is merged again. */
  function Cuts(h: History): set<Id> {
    if h == [] then {}
    else
      var before, e := Cuts(h[..|h| - 1]), h[|h| - 1];
      match e.kind
      case Merge => before - {e.toMerge}
      case Unmerge => before + {e.toMerge}
      case Delete => before
  }

  /** How many rows of a kind name x as the id that moves. */
  function Rows(h: History, kind: Kind, x: Id): nat {
    if h == [] then 0 else Rows(h[..|h| - 1], kind, x) + if h[|h| - 1].kind == kind && h[|h| - 1].toMerge == x then 1 else 0
  }

  ghost predicate HasRow(rows: seq<Row>, kind: Kind, p: Id, x: Id) {
    exists r :: r in rows && r.kind == kind && r.mergedInto == p && r.toMerge == x
  }

  function Last(p: seq<Id>): Id
    requires p != []
  {
    p[|p| - 1]
  }

  /** A path up to the first t on it. */
  function StopAt(p: seq<Id>, t: Id): (q: seq<Id>)
    ensures t !in p ==> q == p
    ensures t in p ==> q <= p && q != [] && q[|q| - 1] == t && t !in q[..|q| - 1]
  {
    if p == [] then []
    else if p[0] == t then [t]
    else [p[0]] + StopAt(p[1..], t)
  }

  /** What one row makes of a path to the current holder. */
  function AfterRow(p: seq<Id>, e: Row): (q: seq<Id>)
    requires p != []
    ensures q != [] && q[0] == p[0] && |q| <= |p| + 1
  {
    match e.kind
    case Merge => if Last(p) == e.toMerge then p + [e.mergedInto] else p
    case Unmerge => StopAt(p, e.toMerge)
    case Delete => p
  }

  /** The ids met from x upward along the merges that were not undone: a merge of the last id extends the path,
      an unmerge of an id on it ends it there. */
  function LivePath(h: History, x: Id): (p: seq<Id>)
    ensures |p| >= 1 && p[0] == x
    ensures |p| <= |h| + 1
  {
    if h == [] then [x] else AfterRow(LivePath(h[..|h| - 1], x), h[|h| - 1])
  }

  /** The id that holds what was created as x. */
  function Root(h: History, x: Id): Id {
    Last(LivePath(h, x))
  }

  /** The ids met from x upward along all merges, undone or not. */
  function FullPath(h: History, x: Id): (p: seq<Id>)
    ensures |p| >= 1 && p[0] == x
  {
    if h == [] then [x]
    else
      var before, e := h[..|h| - 1], h[|h| - 1];
      var p := FullPath(before, x);
      if e.kind.Merge? && Last(p) == e.toMerge then p + FullPath(before, e.mergedInto) else p
  }

  /** An id that holds a profile of its own after h. */
  predicate IsRoot(h: History, x: Id) {
    Root(h, x) == x && x !in Deleted(h)
  }

  /** What the callers of merge, unmerge and delete must respect for row e to follow h. */
  predicate Linkable(h: History, e: Row) {
    && e.toMerge != NIL_UUID
    && match e.kind
       case Merge =>
         && e.toMerge != e.mergedInto && e.mergedInto != NIL_UUID
         && IsRoot(h, e.toMerge) && IsRoot(h, e.mergedInto)
       case Unmerge =>
         && e.toMerge != e.mergedInto && e.mergedInto != NIL_UUID
         && Root(h, e.toMerge) == e.mergedInto && IsRoot(h, e.mergedInto)
       case Delete =>
         && e.mergedInto == NIL_UUID && IsRoot(h, e.toMerge)
  }

  /** A merge of x into y that the lineage queries can follow. An id is merged again only into the id it was merged into
      before, and only if no other id below it is cut off; no id that was unmerged from x itself is a direct child of x
      and still cut off; and y was never below x. */
  ghost predicate MergeTraceable(h: History, x: Id, y: Id) {
    && (forall r :: r in h && r.kind.Merge? && r.toMerge == x ==> r.mergedInto == y)
    && (x in MergedAway(h) ==> forall z :: z in Cuts(h) && z != x ==> x !in FullPath(h, z))
    && (forall c :: c in Cuts(h) ==> !(HasRow(h, Merge, x, c) && HasRow(h, Unmerge, x, c)))
    && x !in FullPath(h, y)
  }

  /** An unmerge of b from a that the lineage queries can follow. No id between b and a was merged more than once,
      and if b was unmerged from its direct parent before, that parent is a. */
  ghost predicate UnmergeTraceable(h: History, b: Id, a: Id) {
    && (forall k :: 0 < k < |LivePath(h, b)| - 1 ==> Rows(h, Merge, LivePath(h, b)[k]) <= 1)
    && (forall p :: HasRow(h, Merge, p, b) && HasRow(h, Unmerge, p, b) ==> p == a)
  }

  ghost predicate Traceable(h: History, e: Row) {
    match e.kind
    case Merge => MergeTraceable(h, e.toMerge, e.mergedInto)
    case Unmerge => UnmergeTraceable(h, e.toMerge, e.mergedInto)
    case Delete => true
  }

  ghost predicate MayFollow(h: History, e: Row) {
    Linkable(h, e) && Traceable(h, e)
  }

  /** Rows that only respect their callers' duties. */
  predicate Linked(h: History) {
    h == [] || (Linked(h[..|h| - 1]) && Linkable(h[..|h| - 1], h[|h| - 1]))
  }

  /** Rows that the lineage queries can follow besides. */
  ghost predicate WellFormed(h: History) {
    h == [] || (WellFormed(h[..|h| - 1]) && MayFollow(h[..|h| - 1], h[|h| - 1]))
  }

  // ---- appending one row ----

  /** The full path after one more row. */
  function FullAfterRow(h: History, p: seq<Id>, e: Row): seq<Id>
    requires p != []
  {
    if e.kind.Merge? && Last(p) == e.toMerge then p + FullPath(h, e.mergedInto) else p
  }

  lemma SnocSets(h: History, e: Row)
    ensures MergedAway(h + [e]) == MergedAway(h) + (if e.kind.Merge? then {e.toMerge} else {})
    ensures EverUnmerged(h + [e]) == EverUnmerged(h) + (if e.kind.Unmerge? then {e.toMerge} else {})
    ensures Deleted(h + [e]) == Deleted(h) + (if e.kind.Delete? then {e.toMerge} else {})
  {
    assert forall r :: r in h + [e] <==> r in h || r == e;
  }

  lemma SnocCuts(h: History, e: Row)
    ensures Cuts(h + [e]) ==
      if e.kind.Merge? then Cuts(h) - {e.toMerge} else if e.kind.Unmerge? then Cuts(h) + {e.toMerge} else Cuts(h)
  {
    assert (h + [e])[..|h|] == h;
  }

  lemma SnocPaths(h: History, e: Row, x: Id)
    ensures LivePath(h + [e], x) == AfterRow(LivePath(h, x), e)
    ensures FullPath(h + [e], x) == FullAfterRow(h, FullPath(h, x), e)
  {
    hide AfterRow;
    assert (h + [e])[..|h|] == h;
  }

  lemma SnocRows(h: History, e: Row, kind: Kind, x: Id)
    ensures Rows(h + [e], kind, x) == Rows(h, kind, x) + if e.kind == kind && e.toMerge == x then 1 else 0
  {
    assert (h + [e])[..|h|] == h;
  }

  lemma Snoc(h: History, e: Row)
    ensures (h + [e])[..|h|] == h && (h + [e])[|h|] == e
    ensures WellFormed(h + [e]) <==> WellFormed(h) && MayFollow(h, e)
    ensures Linked(h + [e]) <==> Linked(h) && Linkable(h, e)
    ensures MergedAway(h + [e]) == MergedAway(h) + (if e.kind.Merge? then {e.toMerge} else {})
    ensures EverUnmerged(h + [e]) == EverUnmerged(h) + (if e.kind.Unmerge? then {e.toMerge} else {})
    ensures Deleted(h + [e]) == Deleted(h) + (if e.kind.Delete? then {e.toMerge} else {})
    ensures Cuts(h + [e]) ==
      if e.kind.Merge? then Cuts(h) - {e.toMerge} else if e.kind.Unmerge? then Cuts(h) + {e.toMerge} else Cuts(h)
    ensures forall x :: LivePath(h + [e], x) == AfterRow(LivePath(h, x), e)
    ensures forall x :: FullPath(h + [e], x) == FullAfterRow(h, FullPath(h, x), e)
    ensures forall kind, x :: Rows(h + [e], kind, x) == Rows(h, kind, x) + if e.kind == kind && e.toMerge == x then 1 else 0
  {
    assert (h + [e])[..|h|] == h;
    hide MayFollow, Linkable, MergedAway, EverUnmerged, Deleted, Cuts, LivePath, FullPath, Rows, AfterRow, FullAfterRow;
    SnocSets(h, e);
    SnocCuts(h, e);
    forall x ensures LivePath(h + [e], x) == AfterRow(LivePath(h, x), e) && FullPath(h + [e], x) == FullAfterRow(h, FullPath(h, x), e) {
      SnocPaths(h, e, x);
    }
    forall kind, x ensures Rows(h + [e], kind, x) == Rows(h, kind, x) + if e.kind == kind && e.toMerge == x then 1 else 0 {
      SnocRows(h, e, kind, x);
    }
  }

  lemma Unsnoc(h: History) returns (h': History, e: Row)
    requires h != []
    ensures h' == h[..|h| - 1] && e == h[|h| - 1] && h == h' + [e]
    ensures WellFormed(h) <==> WellFormed(h') && MayFollow(h', e)
    ensures Linked(h) <==> Linked(h') && Linkable(h', e)
    ensures MergedAway(h) == MergedAway(h') + (if e.kind.Merge? then {e.toMerge} else {})
    ensures EverUnmerged(h) == EverUnmerged(h') + (if e.kind.Unmerge? then {e.toMerge} else {})
    ensures Deleted(h) == Deleted(h') + (if e.kind.Delete? then {e.toMerge} else {})
    ensures Cuts(h) ==
      if e.kind.Merge? then Cuts(h') - {e.toMerge} else if e.kind.Unmerge? then Cuts(h') + {e.toMerge} else Cuts(h')
    ensures forall x :: LivePath(h, x) == AfterRow(LivePath(h', x), e)
    ensures forall x :: FullPath(h, x) == FullAfterRow(h', FullPath(h', x), e)
    ensures forall kind, x :: Rows(h, kind, x) == Rows(h', kind, x) + if e.kind == kind && e.toMerge == x then 1 else 0
  {
    h', e := h[..|h| - 1], h[|h| - 1];
    Snoc(h', e);
    assert h == h' + [e];
  }

  lemma {:induction false} WellFormedIsLinked(h: History)
    requires WellFormed(h)
    ensures Linked(h)
  {
    if h != [] {
      WellFormedIsLinked(h[..|h| - 1]);
    }
  }

  // ---- live paths ----

  /** A row does to the rest of a path what it does to the path. */
  lemma AfterRowSuffix(p: seq<Id>, e: Row, k: nat)
    requires k < |p| && k < |AfterRow(p, e)|
    ensures AfterRow(p, e)[k] == p[k] && AfterRow(p[k..], e) == AfterRow(p, e)[k..]
  {
    match e.kind
    case Merge => assert Last(p[k..]) == Last(p);
    case Unmerge => StopAtSuffix(p, e.toMerge, k);
    case Delete =>
  }

  /** An id that a row adds to a path is a root. */
  lemma AddedIsRoot(h: History, e: Row, p: seq<Id>)
    requires Linkable(h, e) && p != [] && |p| < |AfterRow(p, e)| && NoRepeats(LivePath(h, e.mergedInto))
    ensures AfterRow(p, e)[|p|] == e.mergedInto && AfterRow(LivePath(h, e.mergedInto), e) == [e.mergedInto] == AfterRow(p, e)[|p|..]
  {
    var q := LivePath(h, e.mergedInto);
    assert q[0] == Last(q);
  }

  /** From any id on the path onward, the path is that id's own path. */
  lemma {:induction false} LiveSuffix(h: History, x: Id, k: nat)
    requires Linked(h) && k < |LivePath(h, x)|
    ensures LivePath(h, LivePath(h, x)[k]) == LivePath(h, x)[k..]
  {
    if h != [] {
      var h', e := h[..|h| - 1], h[|h| - 1];
      var p, y := LivePath(h', x), LivePath(h, x)[k];
      assert LivePath(h, x) == AfterRow(p, e) && LivePath(h, y) == AfterRow(LivePath(h', y), e);
      hide LivePath, AfterRow, Linkable;
      if k < |p| {
        LiveSuffix(h', x, k);
        AfterRowSuffix(p, e, k);
      } else {
        NotBackToStart(h', e.mergedInto);
        AddedIsRoot(h', e, p);
      }
    }
  }

  lemma {:induction false} StopAtSuffix(p: seq<Id>, t: Id, k: nat)
    requires k < |StopAt(p, t)|
    ensures k < |p| && p[k] == StopAt(p, t)[k] && StopAt(p, t)[k..] == StopAt(p[k..], t)
    decreases k
  {
    if k > 0 {
      StopAtSuffix(p[1..], t, k - 1);
      assert p[1..][k - 1..] == p[k..];
    } else {
      assert p[0..] == p;
    }
  }

  lemma {:induction false} LiveRows(h: History, r: Row)
    requires Linked(h) && r in h
    ensures r.toMerge != NIL_UUID
    ensures r.kind.Delete? <==> r.mergedInto == NIL_UUID
  {
    var h', e := Unsnoc(h);
    if r in h' {
      LiveRows(h', r);
    }
  }

  /** Merges and unmerges of an id alternate. */
  lemma {:induction false} MergesAlternate(h: History, x: Id)
    requires Linked(h)
    ensures Root(h, x) == x <==> |LivePath(h, x)| == 1
    ensures |LivePath(h, x)| == 1 <==> x in Cuts(h) || x !in MergedAway(h)
    ensures Rows(h, Merge, x) == Rows(h, Unmerge, x) + if |LivePath(h, x)| == 1 then 0 else 1
    ensures x in MergedAway(h) <==> Rows(h, Merge, x) > 0
    ensures x in EverUnmerged(h) <==> Rows(h, Unmerge, x) > 0
  {
    if h != [] {
      var h', e := Unsnoc(h);
      MergesAlternate(h', x);
      NotBackToStart(h', x);
      NotBackToStart(h, x);
      if e.kind.Unmerge? && e.toMerge in LivePath(h', x) {
        assert StopAt(LivePath(h', x), e.toMerge)[0] == x;
      }
    }
  }

  lemma {:induction false} NotBackToStart(h: History, x: Id)
    requires Linked(h)
    ensures NoRepeats(LivePath(h, x))
  {
    if h != [] {
      var h', e := h[..|h| - 1], h[|h| - 1];
      var p := LivePath(h', x);
      assert LivePath(h, x) == AfterRow(p, e) && Linked(h') && Linkable(h', e);
      hide LivePath, Linked, AfterRow, Linkable;
      NotBackToStart(h', x);
      if e.kind.Merge? && Last(p) == e.toMerge {
        forall k | 0 <= k < |p| ensures p[k] != e.mergedInto {
          LiveSuffix(h', x, k);
          RootIsNotBelow(h', e, p, k);
        }
      }
      StillNoRepeats(p, e);
    }
  }

  lemma RootIsNotBelow(h: History, e: Row, p: seq<Id>, k: nat)
    requires Linkable(h, e) && e.kind.Merge? && k < |p| && Last(p) == e.toMerge && LivePath(h, p[k]) == p[k..]
    ensures p[k] != e.mergedInto
  {
    hide LivePath;
    assert Last(p[k..]) == Last(p);
  }

  lemma StillNoRepeats(p: seq<Id>, e: Row)
    requires p != [] && NoRepeats(p) && (e.kind.Merge? && Last(p) == e.toMerge ==> e.mergedInto !in p)
    ensures NoRepeats(AfterRow(p, e))
  {}

  /** Every id on a live path but the last is merged and not cut, and the last is cut or was never merged. */
  lemma {:induction false} LiveNodes(h: History, x: Id)
    requires Linked(h)
    ensures forall k :: 0 <= k < |LivePath(h, x)| - 1 ==> LivePath(h, x)[k] in MergedAway(h) && LivePath(h, x)[k] !in Cuts(h)
    ensures Root(h, x) in Cuts(h) || Root(h, x) !in MergedAway(h)
  {
    var p := LivePath(h, x);
    forall k | 0 <= k < |p| ensures k < |p| - 1 <==> p[k] in MergedAway(h) && p[k] !in Cuts(h) {
      LiveSuffix(h, x, k);
      MergesAlternate(h, p[k]);
    }
  }

  // ---- the live path against its definition by single merges ----

  /** The merge of x into y is the last thing that happened to x. */
  ghost predicate LiveStep(h: History, x: Id, y: Id) {
    exists i :: 0 <= i < |h| && h[i].kind.Merge? && h[i].toMerge == x && h[i].mergedInto == y
      && forall j :: i < j < |h| && !h[j].kind.Delete? ==> h[j].toMerge != x
  }

  /** q climbs from its first id by live merges until none is left. */
  ghost predicate ClimbsToTheTop(h: History, q: seq<Id>) {
    q != [] &&
    if |q| == 1 then forall y :: !LiveStep(h, q[0], y)
    else LiveStep(h, q[0], q[1]) && ClimbsToTheTop(h, q[1..])
  }

  lemma LiveStepSnoc(h: History, e: Row, x: Id, y: Id)
    ensures LiveStep(h + [e], x, y) <==>
      if e.kind.Delete? || e.toMerge != x then LiveStep(h, x, y) else e.kind.Merge? && e.mergedInto == y
  {
    var g := h + [e];
    if LiveStep(g, x, y) {
      var i :| 0 <= i < |g| && g[i].kind.Merge? && g[i].toMerge == x && g[i].mergedInto == y
        && forall j :: i < j < |g| && !g[j].kind.Delete? ==> g[j].toMerge != x;
      assert i < |h| ==> h[i] == g[i] && forall j :: i < j < |h| ==> h[j] == g[j];
      assert g[|h|] == e;
    }
    if (e.kind.Delete? || e.toMerge != x) && LiveStep(h, x, y) {
      var i :| 0 <= i < |h| && h[i].kind.Merge? && h[i].toMerge == x && h[i].mergedInto == y
        && forall j :: i < j < |h| && !h[j].kind.Delete? ==> h[j].toMerge != x;
      assert g[i] == h[i] && forall j :: i < j < |h| ==> h[j] == g[j];
    }
    if e.kind.Merge? && e.toMerge == x && e.mergedInto == y {
      assert g[|h|] == e;
    }
  }

  /** The second id of a live path is where the last merge of the first one leads, if it was not undone. */
  lemma {:induction false} SecondIsLiveStep(h: History, x: Id, y: Id)
    requires Linked(h)
    ensures LiveStep(h, x, y) <==> |LivePath(h, x)| > 1 && LivePath(h, x)[1] == y
  {
    if h != [] {
      var h', e := h[..|h| - 1], h[|h| - 1];
      assert h == h' + [e];
      assert Linked(h') && Linkable(h', e);
      hide Linked, LivePath, LiveStep;
      SecondIsLiveStep(h', x, y);
      SnocPaths(h', e, x);
      LiveStepSnoc(h', e, x, y);
      var p := LivePath(h', x);
      MergesAlternate(h', x);
      NotBackToStart(h', x);
      if e.kind.Unmerge? && e.toMerge != x && |p| > 1 {
        StopAtKeepsSecond(p, e.toMerge);
      }
    }
  }

  lemma StopAtKeepsSecond(p: seq<Id>, t: Id)
    requires |p| > 1 && p[0] != t
    ensures |StopAt(p, t)| > 1 && StopAt(p, t)[1] == p[1]
  {
    assert p[1..] != [];
    assert StopAt(p[1..], t)[0] == p[1];
  }

  /** The live path is the one and only climb, so Root is the id reached by the merges not undone. */
  lemma {:induction false} PathIsTheOnlyClimb(h: History, q: seq<Id>)
    requires Linked(h) && q != []
    ensures ClimbsToTheTop(h, q) <==> q == LivePath(h, q[0])
    decreases |q|
  {
    var p := LivePath(h, q[0]);
    if |p| > 1 {
      SecondIsLiveStep(h, q[0], p[1]);
      LiveSuffix(h, q[0], 1);
      if |q| > 1 {
        SecondIsLiveStep(h, q[0], q[1]);
        PathIsTheOnlyClimb(h, q[1..]);
        assert q == [q[0]] + q[1..] && p == [p[0]] + p[1..];
      }
    } else {
      forall y ensures !LiveStep(h, q[0], y) {
        SecondIsLiveStep(h, q[0], y);
      }
    }
  }

  // ---- full paths ----

  lemma {:induction false} FullOfUnmerged(h: History, x: Id)
    requires x !in MergedAway(h)
    ensures FullPath(h, x) == [x]
  {
    if h != [] {
      var h', e := Unsnoc(h);
      FullOfUnmerged(h', x);
    }
  }

  lemma MergeRowOf(h: History, x: Id) returns (m: Row)
    requires x in MergedAway(h)
    ensures m in h && m.kind.Merge? && m.toMerge == x
  {
    m :| m in h && m.kind.Merge? && m.toMerge == x;
  }

  lemma FullAfterStep(h: History, x: Id, q: seq<Id>, e: Row)
    requires q != []
    ensures FullAfterRow(h, [x] + q, e) == [x] + FullAfterRow(h, q, e)
  {
    hide FullPath;
    assert Last([x] + q) == Last(q);
    assert ([x] + q) + FullPath(h, e.mergedInto) == [x] + (q + FullPath(h, e.mergedInto));
  }

  /** One edge: the path of a merged id continues with the path of the id it went into. */
  lemma {:induction false} PathStep(h: History, m: Row)
    requires WellFormed(h) && m in h && m.kind.Merge?
    ensures FullPath(h, m.toMerge) == [m.toMerge] + FullPath(h, m.mergedInto)
  {
    var h', e := h[..|h| - 1], h[|h| - 1];
    var x, y := m.toMerge, m.mergedInto;
    assert h == h' + [e];
    assert WellFormed(h') && MayFollow(h', e);
    hide WellFormed, MayFollow, FullPath, FullAfterRow;
    SnocPaths(h', e, x);
    SnocPaths(h', e, y);
    if m in h' {
      PathStep(h', m);
      FullAfterStep(h', x, FullPath(h', y), e);
    } else {
      if x in MergedAway(h') {
        var m' := MergeRowOf(h', x);
        PathStep(h', m');
        NewStepAgain(h', e, m');
      } else {
        FullOfUnmerged(h', x);
        NewStep(h', e);
      }
    }
  }

  lemma NewStep(h: History, e: Row)
    requires MayFollow(h, e) && e.kind.Merge? && FullPath(h, e.toMerge) == [e.toMerge]
    ensures FullAfterRow(h, FullPath(h, e.toMerge), e) == [e.toMerge] + FullAfterRow(h, FullPath(h, e.mergedInto), e)
  {
    hide FullPath;
    assert Last(FullPath(h, e.mergedInto)) in FullPath(h, e.mergedInto);
  }

  lemma NewStepAgain(h: History, e: Row, m: Row)
    requires MayFollow(h, e) && e.kind.Merge? && m in h && m.kind.Merge? && m.toMerge == e.toMerge
    requires FullPath(h, e.toMerge) == [e.toMerge] + FullPath(h, m.mergedInto)
    ensures FullAfterRow(h, FullPath(h, e.toMerge), e) == [e.toMerge] + FullAfterRow(h, FullPath(h, e.mergedInto), e)
  {
    hide FullPath, Linkable;
    assert m.mergedInto == e.mergedInto;
    assert Last(FullPath(h, e.mergedInto)) in FullPath(h, e.mergedInto);
    FullAfterStep(h, e.toMerge, FullPath(h, e.mergedInto), e);
  }

  /** An id is only ever merged into one other id. */
  lemma {:induction false} OneParent(h: History, m: Row, n: Row)
    requires WellFormed(h) && m in h && n in h && m.kind.Merge? && n.kind.Merge? && m.toMerge == n.toMerge
    ensures m.mergedInto == n.mergedInto
  {
    var h', e := Unsnoc(h);
    if m in h' && n in h' {
      OneParent(h', m, n);
    }
  }

  /** Every node but the last was merged away. */
  lemma {:induction false} FullNodesMerged(h: History, x: Id)
    ensures forall k :: 0 <= k < |FullPath(h, x)| - 1 ==> FullPath(h, x)[k] in MergedAway(h)
  {
    if h != [] {
      var h', e := Unsnoc(h);
      FullNodesMerged(h', x);
      FullNodesMerged(h', e.mergedInto);
    }
  }

  lemma {:induction false} FullSuffix(h: History, x: Id, k: nat)
    requires WellFormed(h) && k < |FullPath(h, x)|
    ensures FullPath(h, FullPath(h, x)[k]) == FullPath(h, x)[k..]
    decreases k
  {
    if k > 0 {
      FullNodesMerged(h, x);
      var m := MergeRowOf(h, x);
      PathStep(h, m);
      FullSuffix(h, m.mergedInto, k - 1);
      assert FullPath(h, x)[1..] == FullPath(h, m.mergedInto);
    }
  }

  /** The position of an id on a full path. */
  lemma FullIndex(h: History, x: Id, y: Id) returns (k: nat)
    requires WellFormed(h) && y in FullPath(h, x)
    ensures k < |FullPath(h, x)| && FullPath(h, x)[k] == y && FullPath(h, y) == FullPath(h, x)[k..]
  {
    k :| 0 <= k < |FullPath(h, x)| && FullPath(h, x)[k] == y;
    FullSuffix(h, x, k);
  }

  lemma FullTransitive(h: History, x: Id, y: Id, z: Id)
    requires WellFormed(h) && y in FullPath(h, x) && z in FullPath(h, y)
    ensures z in FullPath(h, x)
  {
    var k := FullIndex(h, x, y);
  }

  lemma {:induction false} FullEnds(h: History, x: Id)
    requires WellFormed(h)
    ensures Last(FullPath(h, x)) !in MergedAway(h)
  {
    if h != [] {
      var h', e := h[..|h| - 1], h[|h| - 1];
      assert h == h' + [e];
      assert WellFormed(h') && MayFollow(h', e);
      hide WellFormed, MayFollow, FullPath, MergedAway;
      SnocPaths(h', e, x);
      SnocSets(h', e);
      FullEnds(h', x);
      FullEnds(h', e.mergedInto);
      if e.kind.Merge? {
        NotAboveSurvivor(h', e);
      }
      hide FullAfterRow;
      EndAfterRow(h', FullPath(h', x), e);
    }
  }

  lemma EndAfterRow(h: History, p: seq<Id>, e: Row)
    requires p != [] && (e.kind.Merge? ==> e.toMerge !in FullPath(h, e.mergedInto))
    ensures FullAfterRow(h, p, e) != []
    ensures Last(FullAfterRow(h, p, e)) == if e.kind.Merge? && Last(p) == e.toMerge then Last(FullPath(h, e.mergedInto)) else Last(p)
    ensures e.kind.Merge? ==> Last(FullAfterRow(h, p, e)) != e.toMerge
  {
    hide FullPath;
    var q := FullPath(h, e.mergedInto);
    assert Last(q) in q && Last(p + q) == Last(q);
  }

  lemma NotAboveSurvivor(h: History, e: Row)
    requires MayFollow(h, e) && e.kind.Merge?
    ensures e.toMerge !in FullPath(h, e.mergedInto)
  {
    hide FullPath, Linkable;
  }

  lemma {:induction false} FullDistinct(h: History, x: Id)
    requires WellFormed(h)
    ensures NoRepeats(FullPath(h, x))
    decreases |FullPath(h, x)|
  {
    hide WellFormed, FullPath, MergedAway;
    var p := FullPath(h, x);
    if |p| > 1 {
      FullNodesMerged(h, x);
      var m := MergeRowOf(h, x);
      PathStep(h, m);
      FullDistinct(h, m.mergedInto);
      if x in p[1..] {
        var k := FullIndex(h, m.mergedInto, x);
      }
    }
  }

  /** Only ids that were merged are on a full path below its end, so it is no longer than the history. */
  lemma FullLength(h: History, x: Id)
    requires WellFormed(h)
    ensures |FullPath(h, x)| <= |h| + 1
  {
    var p := FullPath(h, x);
    var below := p[..|p| - 1];
    FullDistinct(h, x);
    FullNodesMerged(h, x);
    var s := set y | y in below;
    ListSize(below, s);
    assert s <= MergedAway(h);
    FewerIds(s, MergedAway(h));
    MergedAwaySize(h);
  }

  lemma FewerIds(small: set<Id>, large: set<Id>)
    requires small <= large
    ensures |small| <= |large|
  {
    assert large == small + (large - small);
  }

  lemma {:induction false} MergedAwaySize(h: History)
    ensures |MergedAway(h)| <= |h|
  {
    if h != [] {
      var h', e := Unsnoc(h);
      MergedAwaySize(h');
      assert |MergedAway(h') + {e.toMerge}| <= |MergedAway(h')| + 1;
    }
  }

  // ---- live paths within full paths ----

  lemma {:induction false} LiveWithinFull(h: History, x: Id)
    requires WellFormed(h)
    ensures LivePath(h, x) <= FullPath(h, x)
  {
    if h != [] {
      var h', e := h[..|h| - 1], h[|h| - 1];
      assert h == h' + [e];
      assert WellFormed(h') && MayFollow(h', e);
      hide WellFormed, MayFollow, FullPath, LivePath;
      LiveWithinFull(h', x);
      SnocPaths(h', e, x);
      var p, q := LivePath(h', x), FullPath(h', x);
      if e.kind.Merge? && Last(p) == e.toMerge {
        LiveStepWithinFull(h', e, x);
      }
    }
  }

  lemma OneMoreOfPrefix(p: seq<Id>, q: seq<Id>, r: seq<Id>)
    requires p != [] && p <= q && r != [] && q[|p| - 1..] == [Last(p)] + r
    ensures p + [r[0]] <= q
  {
    assert q[|p|] == q[|p| - 1..][1] == r[0];
  }

  lemma LiveStepWithinFull(h: History, e: Row, x: Id)
    requires WellFormed(h) && MayFollow(h, e) && e.kind.Merge?
    requires LivePath(h, x) <= FullPath(h, x) && Last(LivePath(h, x)) == e.toMerge
    ensures LivePath(h, x) + [e.mergedInto] <= FullAfterRow(h, FullPath(h, x), e)
  {
    hide WellFormed, FullPath, LivePath, MayFollow;
    var p, q, t := LivePath(h, x), FullPath(h, x), e.toMerge;
    FullSuffix(h, x, |p| - 1);
    if t in MergedAway(h) {
      var m := MergeRowOf(h, t);
      PathStep(h, m);
      AgainSameParent(h, e, m);
      OneMoreOfPrefix(p, q, FullPath(h, e.mergedInto));
      assert q <= FullAfterRow(h, q, e);
    } else {
      FullOfUnmerged(h, t);
      OnlyLastLeft(p, q);
      assert FullAfterRow(h, q, e) == q + FullPath(h, e.mergedInto);
    }
  }

  lemma AgainSameParent(h: History, e: Row, m: Row)
    requires MayFollow(h, e) && e.kind.Merge? && m in h && m.kind.Merge? && m.toMerge == e.toMerge
    ensures m.mergedInto == e.mergedInto
  {
    hide FullPath, LivePath, Linkable;
  }

  lemma OnlyLastLeft(p: seq<Id>, q: seq<Id>)
    requires p != [] && p <= q && q[|p| - 1..] == [Last(p)]
    ensures q == p
  {
    assert |q[|p| - 1..]| == |q| - |p| + 1;
  }

  /** An unmerge names an id above the one it frees. */
  lemma {:induction false} UnmergedFromAbove(h: History, u: Row)
    requires WellFormed(h) && u in h && u.kind.Unmerge?
    ensures u.toMerge in MergedAway(h)
    ensures exists k :: 0 < k < |FullPath(h, u.toMerge)| && FullPath(h, u.toMerge)[k] == u.mergedInto
  {
    var h', e := h[..|h| - 1], h[|h| - 1];
    assert h == h' + [e];
    assert WellFormed(h') && MayFollow(h', e);
    hide WellFormed, MayFollow, FullPath, LivePath;
    SnocSets(h', e);
    SnocPaths(h', e, u.toMerge);
    if u in h' {
      UnmergedFromAbove(h', u);
      assert FullPath(h', u.toMerge) <= FullPath(h, u.toMerge);
    } else {
      HolderIsAbove(h', e);
      LiveWithinFull(h', u.toMerge);
      FullNodesMerged(h', u.toMerge);
      var k := |LivePath(h', u.toMerge)| - 1;
      assert FullPath(h, u.toMerge)[k] == u.mergedInto;
    }
  }

  lemma HolderIsAbove(h: History, e: Row)
    requires MayFollow(h, e) && e.kind.Unmerge?
    ensures |LivePath(h, e.toMerge)| > 1 && Last(LivePath(h, e.toMerge)) == e.mergedInto
  {
    hide FullPath;
  }

  // ---- what well-formed histories keep ----

  /** Nothing that is merged more than once and not cut lies above an id that is cut. */
  ghost predicate NoneDoubledAbove(h: History, z: Id) {
    forall k :: 0 < k < |FullPath(h, z)| && FullPath(h, z)[k] !in Cuts(h) ==> Rows(h, Merge, FullPath(h, z)[k]) <= 1
  }

  /** z was unmerged from its direct parent only if that parent is a root. */
  ghost predicate DirectParentIsRoot(h: History, z: Id) {
    forall p :: HasRow(h, Merge, p, z) && HasRow(h, Unmerge, p, z) ==> p in Cuts(h) || p !in MergedAway(h)
  }

  /** A root has nothing doubled on its path above it, and neither has what lies above it. */
  lemma AboveRoot(h: History, r: Id, k: nat)
    requires WellFormed(h) && (r in Cuts(h) || r !in MergedAway(h)) && (r in Cuts(h) ==> NoneDoubledAbove(h, r))
    requires k < |FullPath(h, r)| && FullPath(h, r)[k] !in Cuts(h)
    ensures Rows(h, Merge, FullPath(h, r)[k]) <= 1
  {
    WellFormedIsLinked(h);
    MergesAlternate(h, r);
    if r !in MergedAway(h) {
      FullOfUnmerged(h, r);
    }
  }

  lemma {:induction false} CutsHaveNoneDoubledAbove(h: History, z: Id)
    requires WellFormed(h) && z in Cuts(h)
    ensures NoneDoubledAbove(h, z)
  {
    var h', e := h[..|h| - 1], h[|h| - 1];
    assert h == h' + [e];
    assert WellFormed(h') && MayFollow(h', e);
    hide WellFormed, MayFollow, FullPath, LivePath, NoneDoubledAbove, Rows;
    if e.mergedInto in Cuts(h') {
      CutsHaveNoneDoubledAbove(h', e.mergedInto);
    }
    if z in Cuts(h') {
      CutsHaveNoneDoubledAbove(h', z);
    }
    match e.kind {
      case Merge => DoubledAboveAfterMerge(h', e, z);
      case Unmerge =>
        if z == e.toMerge {
          DoubledAboveFreed(h', e);
        } else {
          DoubledAboveSame(h', e, z);
        }
      case Delete => DoubledAboveSame(h', e, z);
    }
  }

  lemma DoubledAboveSame(h': History, e: Row, z: Id)
    requires !e.kind.Merge? && NoneDoubledAbove(h', z)
    ensures NoneDoubledAbove(h' + [e], z)
  {
    hide FullPath, Rows;
    Snoc(h', e);
  }

  lemma DoubledAboveFreed(h': History, e: Row)
    requires WellFormed(h') && MayFollow(h', e) && e.kind.Unmerge?
    requires e.mergedInto in Cuts(h') ==> NoneDoubledAbove(h', e.mergedInto)
    ensures NoneDoubledAbove(h' + [e], e.toMerge)
  {
    hide WellFormed, MayFollow, FullPath, LivePath, Rows;
    var z := e.toMerge;
    var p, q, h := FullPath(h', z), LivePath(h', z), h' + [e];
    HolderIsAbove(h', e);
    FreedHasSingles(h', e);
    Snoc(h', e);
    assert FullPath(h, z) == p;
    forall k | 0 < k < |p| && p[k] !in Cuts(h) ensures Rows(h, Merge, p[k]) <= 1 {
      DoubledFreedAt(h', e, k);
    }
  }

  lemma DoubledFreedAt(h: History, e: Row, k: nat)
    requires WellFormed(h) && MayFollow(h, e) && e.kind.Unmerge?
    requires e.mergedInto in Cuts(h) ==> NoneDoubledAbove(h, e.mergedInto)
    requires 0 < k < |FullPath(h, e.toMerge)| && FullPath(h, e.toMerge)[k] !in Cuts(h)
    ensures Rows(h, Merge, FullPath(h, e.toMerge)[k]) <= 1
  {
    hide WellFormed, MayFollow, FullPath, LivePath, Rows, NoneDoubledAbove;
    var z := e.toMerge;
    var p, q := FullPath(h, z), LivePath(h, z);
    HolderIsAbove(h, e);
    FreedHasSingles(h, e);
    LiveWithinFull(h, z);
    if k < |q| - 1 {
      assert q[k] == p[k];
    } else {
      var n := |q| - 1;
      FullSuffix(h, z, n);
      assert p[n] == q[n] && p[k] == p[n..][k - n];
      WellFormedIsLinked(h);
      LiveNodes(h, z);
      AboveRoot(h, e.mergedInto, k - n);
    }
  }

  lemma FreedHasSingles(h: History, e: Row)
    requires MayFollow(h, e) && e.kind.Unmerge?
    ensures forall k :: 0 < k < |LivePath(h, e.toMerge)| - 1 ==> Rows(h, Merge, LivePath(h, e.toMerge)[k]) <= 1
  {
    hide LivePath, Rows, FullPath;
  }

  lemma DoubledAboveAfterMerge(h': History, e: Row, z: Id)
    requires WellFormed(h') && MayFollow(h', e) && e.kind.Merge?
    requires z in Cuts(h') && z != e.toMerge && NoneDoubledAbove(h', z)
    requires e.mergedInto in Cuts(h') ==> NoneDoubledAbove(h', e.mergedInto)
    ensures NoneDoubledAbove(h' + [e], z)
  {
    hide WellFormed, MayFollow, FullPath, LivePath, Rows;
    var h, p, x, y := h' + [e], FullPath(h', z), e.toMerge, e.mergedInto;
    AgainMeansNotAbove(h', e, z);
    SnocPaths(h', e, z);
    SnocCuts(h', e);
    WellFormedIsLinked(h');
    MergesAlternate(h', x);
    MergesAlternate(h', y);
    forall k | 0 < k < |FullPath(h, z)| && FullPath(h, z)[k] !in Cuts(h) ensures Rows(h, Merge, FullPath(h, z)[k]) <= 1 {
      var q := FullPath(h, z)[k];
      SnocRows(h', e, Merge, q);
      if k < |p| {
        assert q == p[k] && q in p;
      } else {
        assert q == FullPath(h', y)[k - |p|] && q in FullPath(h', y);
        AboveRoot(h', y, k - |p|);
      }
    }
  }

  lemma AgainMeansNotAbove(h: History, e: Row, z: Id)
    requires MayFollow(h, e) && e.kind.Merge? && z in Cuts(h) && z != e.toMerge
    ensures e.toMerge in MergedAway(h) ==> e.toMerge !in FullPath(h, z)
    ensures e.toMerge !in FullPath(h, e.mergedInto) && Root(h, e.mergedInto) == e.mergedInto
  {
    hide FullPath;
  }

  lemma HasRowSnoc(h: History, e: Row, kind: Kind, p: Id, x: Id)
    ensures HasRow(h + [e], kind, p, x) <==> HasRow(h, kind, p, x) || (e.kind == kind && e.mergedInto == p && e.toMerge == x)
  {
    assert forall r :: r in h + [e] <==> r in h || r == e;
  }

  lemma {:induction false} CutFromParentIsCutFromRoot(h: History, z: Id)
    requires WellFormed(h) && z in Cuts(h)
    ensures DirectParentIsRoot(h, z)
  {
    var h', e := Unsnoc(h);
    if !(e.kind.Unmerge? && z == e.toMerge) {
      CutFromParentIsCutFromRoot(h', z);
    }
    forall p | HasRow(h, Merge, p, z) && HasRow(h, Unmerge, p, z) ensures p in Cuts(h) || p !in MergedAway(h) {
      ParentRootStays(h', e, z, p);
    }
  }

  lemma ParentRootStays(h': History, e: Row, z: Id, p: Id)
    requires WellFormed(h') && MayFollow(h', e) && z in Cuts(h' + [e])
    requires (e.kind.Unmerge? && z == e.toMerge) || (z in Cuts(h') && DirectParentIsRoot(h', z))
    requires HasRow(h' + [e], Merge, p, z) && HasRow(h' + [e], Unmerge, p, z)
    ensures p in Cuts(h' + [e]) || p !in MergedAway(h' + [e])
  {
    hide WellFormed, Linked, FullPath;
    Snoc(h', e);
    HasRowSnoc(h', e, Merge, p, z);
    HasRowSnoc(h', e, Unmerge, p, z);
    WellFormedIsLinked(h');
    MergesAlternate(h', e.toMerge);
    MergesAlternate(h', e.mergedInto);
  }
}
