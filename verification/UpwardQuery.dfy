/** The recursive query for the merges that lead from an id to its current parent, as the database evaluates it. */
module UpwardQuery {
  import opened Lists
  import opened MergeHistory

  function RowsFrom(h: History, x: Id): seq<Row> {
    if h == [] then []
    else RowsFrom(h[..|h| - 1], x) + if h[|h| - 1].toMerge == x then [h[|h| - 1]] else []
  }

  function JoinUp(h: History, level: seq<Row>): seq<Row> {
    if level == [] then []
    else JoinUp(h, level[..|level| - 1]) + RowsFrom(h, level[|level| - 1].mergedInto)
  }

  /** The working table after n joins. */
  function UpLevel(h: History, x: Id, n: nat): seq<Row> {
    if n == 0 then RowsFrom(h, x) else JoinUp(h, UpLevel(h, x, n - 1))
  }

  /** The rows of the first n working tables. */
  function UpRows(h: History, x: Id, n: nat): seq<Row> {
    if n == 0 then [] else UpRows(h, x, n - 1) + UpLevel(h, x, n - 1)
  }

  /** If the query ends at all, no working table after this many joins holds a row. */
  function JoinBound(h: History): nat { |h| + 1 }

  function MergesLeadingToParent(h: History, x: Id): seq<Row> {
    UpRows(h, x, JoinBound(h))
  }

  lemma {:induction false} RowsFromRows(h: History, x: Id)
    ensures forall r :: r in RowsFrom(h, x) <==> r in h && r.toMerge == x
  {
    if h != [] {
      assert h == h[..|h| - 1] + [h[|h| - 1]];
      RowsFromRows(h[..|h| - 1], x);
    }
  }

  ghost predicate FedUp(level: seq<Row>, r: Row) {
    exists t :: t in level && t.mergedInto == r.toMerge
  }

  lemma {:induction false} JoinUpRows(h: History, level: seq<Row>)
    ensures forall r :: r in JoinUp(h, level) <==> r in h && FedUp(level, r)
  {
    if level != [] {
      var n := |level| - 1;
      assert level == level[..n] + [level[n]];
      JoinUpRows(h, level[..n]);
      RowsFromRows(h, level[n].mergedInto);
      forall r ensures FedUp(level, r) <==> FedUp(level[..n], r) || level[n].mergedInto == r.toMerge {}
    }
  }

  // ---- when the query ends ----

  /** A row of any kind leads from x to y. */
  ghost predicate Arrow(h: History, x: Id, y: Id) {
    exists r :: r in h && r.toMerge == x && r.mergedInto == y
  }

  ghost predicate Walk(h: History, q: seq<Id>) {
    q != [] && forall i :: 0 <= i < |q| - 1 ==> Arrow(h, q[i], q[i + 1])
  }

  ghost predicate WalkFrom(h: History, x: Id, q: seq<Id>) {
    Walk(h, q) && q[0] == x
  }

  /** Some id reached from x over rows of any kind, or x itself, is reached again from itself. */
  ghost predicate ReachesCycle(h: History, x: Id) {
    exists q :: WalkFrom(h, x, q) && !NoRepeats(q)
  }

  lemma TheFirst(rows: seq<Row>)
    requires rows != []
    ensures rows[0] in rows
  {}

  /** A walk all of whose ids but the last have rows of their own. */
  ghost predicate SourcedWalk(h: History, x: Id, q: seq<Id>) {
    WalkFrom(h, x, q) && forall i :: 0 <= i < |q| - 1 ==> HasSource(h, q[i])
  }

  ghost predicate HasSource(h: History, y: Id) {
    exists t :: t in h && t.toMerge == y
  }

  lemma WalkOneMore(h: History, x: Id, p: seq<Id>, r: Row)
    requires SourcedWalk(h, x, p) && r in h && r.toMerge == Last(p)
    ensures SourcedWalk(h, x, p + [r.mergedInto])
  {
    var q := p + [r.mergedInto];
    assert HasSource(h, r.toMerge) && Arrow(h, r.toMerge, r.mergedInto);
    forall i | 0 <= i < |q| - 1 ensures Arrow(h, q[i], q[i + 1]) && HasSource(h, q[i]) {
      if i < |p| - 1 {
        assert Arrow(h, p[i], p[i + 1]) && HasSource(h, p[i]);
      }
    }
  }

  /** A row of the n-th working table is the last of a walk of n + 1 rows. */
  lemma {:induction false} LevelIsWalk(h: History, x: Id, n: nat, r: Row) returns (q: seq<Id>)
    requires r in UpLevel(h, x, n)
    ensures SourcedWalk(h, x, q) && |q| == n + 2 && Last(q) == r.mergedInto
  {
    hide RowsFrom, JoinUp, SourcedWalk;
    if n == 0 {
      RowsFromRows(h, x);
      OneIdWalk(h, x);
      WalkOneMore(h, x, [x], r);
      q := [x] + [r.mergedInto];
    } else {
      JoinUpRows(h, UpLevel(h, x, n - 1));
      var t :| t in UpLevel(h, x, n - 1) && t.mergedInto == r.toMerge;
      var p := LevelIsWalk(h, x, n - 1, t);
      WalkOneMore(h, x, p, r);
      q := p + [r.mergedInto];
    }
  }

  lemma OneIdWalk(h: History, x: Id)
    ensures SourcedWalk(h, x, [x])
  {}

  lemma {:induction false} WalkIsLevel(h: History, x: Id, q: seq<Id>, n: nat)
    requires WalkFrom(h, x, q) && |q| >= n + 2
    ensures exists r :: r in UpLevel(h, x, n) && r.toMerge == q[n] && r.mergedInto == q[n + 1]
    decreases n
  {
    hide RowsFrom, JoinUp;
    assert Arrow(h, q[n], q[n + 1]);
    var r :| r in h && r.toMerge == q[n] && r.mergedInto == q[n + 1];
    if n == 0 {
      RowsFromRows(h, x);
      assert r in UpLevel(h, x, 0);
    } else {
      WalkIsLevel(h, x, q, n - 1);
      var k := n - 1;
      var t :| t in UpLevel(h, x, k) && t.toMerge == q[k] && t.mergedInto == q[k + 1];
      JoinUpRows(h, UpLevel(h, x, k));
      assert FedUp(UpLevel(h, x, k), r);
      assert r in UpLevel(h, x, n);
    }
  }

  /** A walk that meets an id twice goes on for ever. */
  lemma {:induction false} AroundAgain(h: History, x: Id, q: seq<Id>, i: nat, j: nat, n: nat) returns (p: seq<Id>)
    requires WalkFrom(h, x, q) && i < j < |q| && q[i] == q[j]
    ensures WalkFrom(h, x, p) && |p| >= n && |p| > j && p[|p| - 1] == q[j]
    decreases n
  {
    if n <= j {
      p := q[..j + 1];
    } else {
      var before := AroundAgain(h, x, q, i, j, n - 1);
      p := before + q[i + 1..j + 1];
      forall k | 0 <= k < |p| - 1 ensures Arrow(h, p[k], p[k + 1]) {
        if k < |before| - 1 {
          assert Arrow(h, before[k], before[k + 1]);
        } else {
          var l := i + (k - (|before| - 1));
          assert p[k] == q[l] && p[k + 1] == q[l + 1];
          assert Arrow(h, q[l], q[l + 1]);
        }
      }
    }
  }

  /** More steps than ids that rows lead away from: some id is met twice. */
  lemma LongWalkRepeats(h: History, q: seq<Id>)
    requires |q| > |h| && forall i :: 0 <= i < |q| ==> HasSource(h, q[i])
    ensures !NoRepeats(q)
  {
    var s := set y | y in q;
    var sources := set t | t in h :: t.toMerge;
    SourcesSize(h);
    assert s <= sources;
    FewerIds(s, sources);
    if NoRepeats(q) {
      ListSize(q, s);
    }
  }

  lemma {:induction false} SourcesSize(h: History)
    ensures |set t | t in h :: t.toMerge| <= |h|
  {
    if h == [] {
      assert (set t | t in h :: t.toMerge) == {};
    } else {
      var h', e := h[..|h| - 1], h[|h| - 1];
      SourcesSize(h');
      assert h == h' + [e];
      assert (set t | t in h :: t.toMerge) == (set t | t in h' :: t.toMerge) + {e.toMerge};
    }
  }

  lemma LongLevelCycles(h: History, x: Id)
    requires UpLevel(h, x, |h|) != []
    ensures ReachesCycle(h, x)
  {
    hide UpLevel;
    TheFirst(UpLevel(h, x, |h|));
    var q := LevelIsWalk(h, x, |h|, UpLevel(h, x, |h|)[0]);
    var p := q[..|h| + 1];
    forall i | 0 <= i < |p| ensures HasSource(h, p[i]) {
      assert p[i] == q[i];
    }
    LongWalkRepeats(h, p);
    forall i | 0 <= i < |p| - 1 ensures Arrow(h, p[i], p[i + 1]) {
      assert Arrow(h, q[i], q[i + 1]);
    }
    assert WalkFrom(h, x, p);
  }

  lemma CycleHasNoEnd(h: History, x: Id, n: nat)
    requires ReachesCycle(h, x)
    ensures UpLevel(h, x, n) != []
  {
    hide UpLevel, Walk;
    var q :| WalkFrom(h, x, q) && !NoRepeats(q);
    var i, j :| 0 <= i < j < |q| && q[i] == q[j];
    var p := AroundAgain(h, x, q, i, j, n + 2);
    WalkIsLevel(h, x, p, n);
  }

  /** For every history: the query, which has no depth bound of its own, ends exactly if no id it meets is met again
      from itself, and then within as many joins as the history has rows. */
  lemma UpwardQueryEndsIff(h: History, x: Id)
    ensures (exists n :: UpLevel(h, x, n) == []) <==> !ReachesCycle(h, x)
    ensures !ReachesCycle(h, x) ==> UpLevel(h, x, |h|) == []
  {
    hide UpLevel, ReachesCycle;
    if ReachesCycle(h, x) {
      forall n: nat ensures UpLevel(h, x, n) != [] {
        CycleHasNoEnd(h, x, n);
      }
    }
    if UpLevel(h, x, |h|) != [] {
      LongLevelCycles(h, x);
    } else {
      assert exists n :: UpLevel(h, x, n) == [];
    }
  }

  lemma {:induction false} EmptyLevelStays(h: History, x: Id, n: nat, m: nat)
    requires UpLevel(h, x, n) == [] && n <= m
    ensures UpLevel(h, x, m) == [] && UpRows(h, x, m) == UpRows(h, x, n)
    decreases m
  {
    if n < m {
      EmptyLevelStays(h, x, n, m - 1);
    }
  }

  /** The evaluation with a working table, as the database runs it, on every history on which it ends. */
  method QueryMergesLeadingToParent(h: History, x: Id) returns (rows: seq<Row>)
    requires !ReachesCycle(h, x)
    ensures rows == MergesLeadingToParent(h, x)
  {
    hide JoinUp, RowsFrom;
    UpwardQueryEndsIff(h, x);
    rows := [];
    var working := RowsFrom(h, x);
    ghost var n := 0;
    while working != []
      invariant working == UpLevel(h, x, n) && rows == UpRows(h, x, n) && n <= |h|
      decreases |h| - n
    {
      rows := rows + working;
      working := JoinUp(h, working);
      n := n + 1;
    }
    EmptyLevelStays(h, x, n, JoinBound(h));
  }

  // ---- well-formed histories ----

  /** Every row leads upward on the full path, or to no id at all. */
  lemma RowClimbs(h: History, r: Row)
    requires WellFormed(h) && r in h
    ensures r.toMerge != NIL_UUID
    ensures r.mergedInto == NIL_UUID || |FullPath(h, r.mergedInto)| < |FullPath(h, r.toMerge)|
  {
    WellFormedIsLinked(h);
    LiveRows(h, r);
    if r.kind.Merge? {
      PathStep(h, r);
    } else if r.kind.Unmerge? {
      UnmergedFromAbove(h, r);
      var k :| 0 < k < |FullPath(h, r.toMerge)| && FullPath(h, r.toMerge)[k] == r.mergedInto;
      FullSuffix(h, r.toMerge, k);
    }
  }

  lemma {:induction false} WalkClimbs(h: History, q: seq<Id>, i: nat, j: nat)
    requires WellFormed(h) && Walk(h, q) && i < j < |q|
    ensures q[i] != NIL_UUID && (q[j] == NIL_UUID || |FullPath(h, q[j])| < |FullPath(h, q[i])|)
    decreases j - i
  {
    hide WellFormed, FullPath;
    assert Arrow(h, q[i], q[i + 1]);
    var r :| r in h && r.toMerge == q[i] && r.mergedInto == q[i + 1];
    RowClimbs(h, r);
    if i + 1 < j {
      WalkClimbs(h, q, i + 1, j);
    }
  }

  /** On a well-formed history the query ends. */
  lemma WellFormedEnds(h: History, x: Id)
    requires WellFormed(h)
    ensures !ReachesCycle(h, x)
  {
    hide WellFormed, FullPath;
    if ReachesCycle(h, x) {
      var q :| WalkFrom(h, x, q) && !NoRepeats(q);
      var i, j :| 0 <= i < j < |q| && q[i] == q[j];
      WalkClimbs(h, q, i, j);
    }
  }

  /** After a merge is undone and the two ids are merged the other way round, the query does not end. */
  lemma UpwardQueryDiverges(p: Id, q: Id, f: real, g: real)
    ensures ReachesCycle([Row(Merge, p, q, f), Row(Unmerge, p, q, f), Row(Merge, q, p, g)], p)
  {
    var h := [Row(Merge, p, q, f), Row(Unmerge, p, q, f), Row(Merge, q, p, g)];
    assert h[0] in h && h[2] in h;
    var walk := [p, q, p];
    assert Arrow(h, walk[0], walk[1]) && Arrow(h, walk[1], walk[2]);
    assert walk[0] == walk[2] && !NoRepeats(walk);
    assert WalkFrom(h, p, walk);
  }

  // ---- paths on which nothing was undone ----

  predicate MergesFromTo(h: History, r: Row, x: Id, y: Id) {
    r in h && r.kind.Merge? && r.toMerge == x && r.mergedInto == y
  }

  /** rows are the merges along the ids of p, in order. */
  ghost predicate AreTheMergesAlong(h: History, rows: seq<Row>, p: seq<Id>) {
    && |p| == |rows| + 1
    && forall i :: 0 <= i < |rows| ==> MergesFromTo(h, rows[i], p[i], p[i + 1])
  }

  lemma {:induction false} RowsFromSize(h: History, x: Id)
    ensures |RowsFrom(h, x)| == Rows(h, Merge, x) + Rows(h, Unmerge, x) + Rows(h, Delete, x)
  {
    if h != [] {
      RowsFromSize(h[..|h| - 1], x);
    }
  }

  lemma {:induction false} NoRowsOfKind(h: History, kind: Kind, x: Id)
    requires forall r :: r in h && r.kind == kind ==> r.toMerge != x
    ensures Rows(h, kind, x) == 0
  {
    if h != [] {
      assert forall r :: r in h[..|h| - 1] ==> r in h;
      NoRowsOfKind(h[..|h| - 1], kind, x);
    }
  }

  /** No id from x to the top was ever unmerged or deleted. */
  ghost predicate Undisturbed(h: History, x: Id) {
    forall y :: y in FullPath(h, x) ==> y !in EverUnmerged(h) && y !in Deleted(h)
  }

  lemma RowsOfUndisturbed(h: History, y: Id)
    requires WellFormed(h) && y !in EverUnmerged(h) && y !in Deleted(h)
    ensures if y in MergedAway(h) then |RowsFrom(h, y)| == 1 && MergesFromTo(h, RowsFrom(h, y)[0], y, RowsFrom(h, y)[0].mergedInto)
            else RowsFrom(h, y) == []
  {
    WellFormedIsLinked(h);
    MergesAlternate(h, y);
    NoRowsOfKind(h, Delete, y);
    RowsFromSize(h, y);
    RowsFromRows(h, y);
    if y in MergedAway(h) {
      TheFirst(RowsFrom(h, y));
    }
  }

  ghost predicate LevelIsOneStep(h: History, x: Id, p: seq<Id>, n: nat) {
    var level := UpLevel(h, x, n);
    if n < |p| - 1 then |level| == 1 && MergesFromTo(h, level[0], p[n], p[n + 1]) else level == []
  }

  lemma JoinOne(h: History, r: Row)
    ensures JoinUp(h, []) == [] && JoinUp(h, [r]) == RowsFrom(h, r.mergedInto)
  {
    assert [r][..0] == [];
  }

  lemma JoinOfStep(h: History, level: seq<Row>, y: Id)
    requires |level| == 1 && level[0].mergedInto == y
    ensures JoinUp(h, level) == RowsFrom(h, y)
  {
    assert level == [level[0]];
    JoinOne(h, level[0]);
  }

  /** The working tables are the rows of the ids on the path. */
  lemma {:induction false} LevelOfPath(h: History, x: Id, n: nat)
    requires WellFormed(h) && Undisturbed(h, x)
    ensures UpLevel(h, x, n) == if n < |FullPath(h, x)| then RowsFrom(h, FullPath(h, x)[n]) else []
  {
    hide WellFormed, FullPath, RowsFrom, JoinUp;
    var p := FullPath(h, x);
    if n > 0 {
      LevelOfPath(h, x, n - 1);
      if n <= |p| {
        RowsOnPath(h, x, n - 1);
      }
      if n < |p| {
        JoinOfStep(h, UpLevel(h, x, n - 1), p[n]);
      } else {
        JoinOne(h, Row(Merge, x, x, 1.0));
      }
    }
  }

  lemma RowsOnPath(h: History, x: Id, n: nat)
    requires WellFormed(h) && Undisturbed(h, x) && n < |FullPath(h, x)|
    ensures var p, rows := FullPath(h, x), RowsFrom(h, FullPath(h, x)[n]);
      if n < |p| - 1 then |rows| == 1 && MergesFromTo(h, rows[0], p[n], p[n + 1]) else rows == []
  {
    hide WellFormed, FullPath, RowsFrom;
    var p := FullPath(h, x);
    FullNodesMerged(h, x);
    FullEnds(h, x);
    assert p[n] in p;
    RowsOfUndisturbed(h, p[n]);
    if n < |p| - 1 {
      FullSuffix(h, x, n);
      PathStep(h, RowsFrom(h, p[n])[0]);
      assert p[n + 1] == p[n..][1];
    }
  }

  lemma MergeOnlyLevel(h: History, x: Id, n: nat)
    requires WellFormed(h) && Undisturbed(h, x)
    ensures LevelIsOneStep(h, x, FullPath(h, x), n)
  {
    hide WellFormed, FullPath, UpLevel, RowsFrom;
    LevelOfPath(h, x, n);
    if n < |FullPath(h, x)| {
      RowsOnPath(h, x, n);
    }
  }

  function Take(p: seq<Id>, n: nat): seq<Id> {
    if n <= |p| then p[..n] else p
  }

  lemma {:induction false} MergeOnlyRows(h: History, x: Id, p: seq<Id>, n: nat)
    requires p != [] && forall k: nat :: k < n ==> LevelIsOneStep(h, x, p, k)
    ensures AreTheMergesAlong(h, UpRows(h, x, n), Take(p, n + 1))
  {
    hide UpLevel;
    if n > 0 {
      MergeOnlyRows(h, x, p, n - 1);
      assert LevelIsOneStep(h, x, p, n - 1);
      var level := UpLevel(h, x, n - 1);
      if n < |p| {
        assert level == [level[0]] && p[..n] + [p[n]] == p[..n + 1];
      }
    }
  }

  predicate RecordedAt(h: History, i: int, r: Row) {
    0 <= i < |h| && h[i] == r
  }

  ghost predicate RecordedBefore(h: History, r: Row, s: Row) {
    forall i, j :: RecordedAt(h, i, r) && RecordedAt(h, j, s) ==> i < j
  }

  /** An id that was never unmerged takes in others only before it is merged away itself. */
  lemma {:induction false} ParentMergedLater(h: History, i: nat, j: nat)
    requires WellFormed(h) && i < |h| && j < |h| && h[i].kind.Merge? && h[j].kind.Merge?
    requires h[i].mergedInto == h[j].toMerge && h[j].toMerge !in EverUnmerged(h)
    ensures i < j
  {
    var h', e := Unsnoc(h);
    if i < |h'| && j < |h'| {
      ParentMergedLater(h', i, j);
    } else if i == |h'| && j < |h'| {
      assert h[j] == h'[j] && h'[j] in h';
      WellFormedIsLinked(h');
      MergesAlternate(h', e.mergedInto);
    }
  }

  lemma MergedBefore(h: History, r: Row, s: Row)
    requires WellFormed(h) && r.kind.Merge? && s.kind.Merge? && r.mergedInto == s.toMerge && s.toMerge !in EverUnmerged(h)
    ensures RecordedBefore(h, r, s)
  {
    forall i, j | RecordedAt(h, i, r) && RecordedAt(h, j, s) ensures i < j {
      ParentMergedLater(h, i, j);
    }
  }

  /** Where nothing was undone on the way up, the query returns the one path to the root, one merge for each step,
      each recorded later than the one below it, whatever was unmerged elsewhere. */
  lemma MergesLeadingToParentIsThePath(h: History, x: Id)
    requires WellFormed(h) && Undisturbed(h, x)
    ensures AreTheMergesAlong(h, MergesLeadingToParent(h, x), FullPath(h, x))
    ensures var rows := MergesLeadingToParent(h, x);
            forall k :: 0 < k < |rows| ==> RecordedBefore(h, rows[k - 1], rows[k])
  {
    hide WellFormed, UpLevel;
    var p, rows := FullPath(h, x), MergesLeadingToParent(h, x);
    forall k: nat ensures LevelIsOneStep(h, x, p, k) {
      MergeOnlyLevel(h, x, k);
    }
    FullLength(h, x);
    MergeOnlyRows(h, x, p, JoinBound(h));
    forall k | 0 < k < |rows| ensures RecordedBefore(h, rows[k - 1], rows[k]) {
      assert MergesFromTo(h, rows[k - 1], p[k - 1], p[k]) && MergesFromTo(h, rows[k], p[k], p[k + 1]);
      assert p[k] in p;
      MergedBefore(h, rows[k - 1], rows[k]);
    }
  }
}
