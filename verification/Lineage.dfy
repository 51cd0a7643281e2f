/** Lineage of a connect id: the ids that still hang below it, recomputed from the history
    by counting merge and unmerge events per edge and a breadth-first search. */
module Lineage {
  import opened MergeHistory
  import opened LineageQuery
  import opened Lists

  /** parent id -> child id -> number of merge events counted and not compensated */
  type EdgeCounts = map<Id, map<Id, int>>

  function At(m: EdgeCounts, p: Id, x: Id): int {
    if p in m && x in m[p] then m[p][x] else 0
  }

  // ---- breadth-first search ----

  ghost predicate ReachesIn(m: EdgeCounts, start: Id, y: Id, n: nat)
    decreases n
  {
    if n == 0 then y == start else exists z :: ReachesIn(m, start, z, n - 1) && At(m, z, y) > 0
  }

  ghost predicate Reaches(m: EdgeCounts, start: Id, y: Id) {
    exists n: nat :: ReachesIn(m, start, y, n)
  }

  ghost function Universe(m: EdgeCounts, start: Id): set<Id> {
    {start} + set p, x | p in m && x in m[p] :: x
  }

  lemma ReachesStep(m: EdgeCounts, start: Id, z: Id, y: Id)
    requires Reaches(m, start, z) && At(m, z, y) > 0
    ensures Reaches(m, start, y)
  {
    var n: nat :| ReachesIn(m, start, z, n);
    assert ReachesIn(m, start, y, n + 1);
  }

  lemma {:induction false} ClosedHoldsReached(m: EdgeCounts, start: Id, closed: set<Id>, y: Id, n: nat)
    requires start in closed && forall p, x :: p in closed && At(m, p, x) > 0 ==> x in closed
    requires ReachesIn(m, start, y, n)
    ensures y in closed
    decreases n
  {
    if n > 0 {
      var z :| ReachesIn(m, start, z, n - 1) && At(m, z, y) > 0;
      ClosedHoldsReached(m, start, closed, z, n - 1);
    }
  }

  /** The children that are not yet known and whose count is positive join the queue. */
  method EnqueueChildren(m: EdgeCounts, p: Id, visited: set<Id>, queue: seq<Id>) returns (queue': seq<Id>)
    requires p in m
    ensures queue <= queue'
    ensures forall y :: y in queue' ==> y in queue || At(m, p, y) > 0
    ensures forall y :: At(m, p, y) > 0 && y !in visited ==> y in queue'
  {
    queue' := queue;
    var keys := m[p].Keys;
    while keys != {}
      invariant keys <= m[p].Keys && queue <= queue'
      invariant forall y :: y in queue' ==> y in queue || At(m, p, y) > 0
      invariant forall y :: At(m, p, y) > 0 && y !in visited && y !in keys ==> y in queue'
    {
      var key :| key in keys;
      keys := keys - {key};
      if key !in visited && m[p][key] > 0 {
        queue' := queue' + [key];
      }
    }
  }

  method {:induction false} BuildDescendantsFromMap(uptId: Id, m: EdgeCounts) returns (found: seq<Id>)
    ensures NoRepeats(found)
    ensures forall y :: y in found <==> Reaches(m, uptId, y)
  {
    var visited: set<Id> := {};
    var queue := [uptId];
    ghost var all := Universe(m, uptId);
    assert ReachesIn(m, uptId, uptId, 0);
    while |queue| > 0
      invariant visited <= all && forall y :: y in queue ==> y in all
      invariant uptId in visited || uptId in queue
      invariant forall y :: y in visited || y in queue ==> Reaches(m, uptId, y)
      invariant forall p, x :: p in visited && At(m, p, x) > 0 ==> x in visited || x in queue
      decreases all - visited, |queue|
    {
      var profileId := queue[0];
      ghost var before := queue;
      queue := queue[1..];
      assert before == [profileId] + queue;
      if profileId !in visited {
        visited := visited + {profileId};
        if profileId in m {
          ghost var shorter := queue;
          queue := EnqueueChildren(m, profileId, visited, queue);
          forall y | y in queue ensures Reaches(m, uptId, y) && y in all {
            if y !in shorter {
              ReachesStep(m, uptId, profileId, y);
            }
          }
        }
      }
    }
    forall y, n: nat | ReachesIn(m, uptId, y, n) ensures y in visited {
      ClosedHoldsReached(m, uptId, visited, y, n);
    }
    found := ListOf(visited);
  }

  // ---- counting events per edge ----

  /** How many rows of any kind lead from x to p. */
  function Events(rows: seq<Row>, p: Id, x: Id): nat {
    if rows == [] then 0
    else Events(rows[..|rows| - 1], p, x) + (if rows[|rows| - 1].mergedInto == p && rows[|rows| - 1].toMerge == x then 1 else 0)
  }

  function CountOf(rows: seq<Row>, x: Id): nat {
    if rows == [] then 0
    else CountOf(rows[..|rows| - 1], x) + (if rows[|rows| - 1].toMerge == x then 1 else 0)
  }

  predicate IsEdge(m: EdgeCounts, p: Id, x: Id) {
    p in m && x in m[p]
  }

  /** One more event on the edge from p to x. */
  method AddEvent(m: EdgeCounts, p: Id, x: Id) returns (counts: EdgeCounts)
    ensures forall q, y :: At(counts, q, y) == At(m, q, y) + if q == p && y == x then 1 else 0
    ensures forall q, y :: IsEdge(counts, q, y) <==> IsEdge(m, q, y) || (q == p && y == x)
  {
    counts := m;
    if p !in counts {
      counts := counts[p := map[]];
    }
    counts := counts[p := counts[p][x := At(counts, p, x) + 1]];
  }

  /** childrenMap and parentMap of the rows, event by event. */
  method CountMerges(rows: seq<Row>) returns (children: EdgeCounts, parents: EdgeCounts)
    ensures forall p, x :: At(children, p, x) == Events(rows, p, x) == At(parents, x, p)
    ensures forall p, x :: IsEdge(children, p, x) <==> Events(rows, p, x) > 0
    ensures forall p, x :: IsEdge(parents, x, p) <==> Events(rows, p, x) > 0
  {
    hide At, IsEdge;
    NothingCounted();
    children, parents := map[], map[];
    var i := 0;
    while i < |rows|
      invariant 0 <= i <= |rows|
      invariant forall p, x :: At(children, p, x) == Events(rows[..i], p, x)
      invariant forall p, x :: At(parents, x, p) == Events(rows[..i], p, x)
      invariant forall p, x :: IsEdge(children, p, x) <==> Events(rows[..i], p, x) > 0
      invariant forall p, x :: IsEdge(parents, x, p) <==> Events(rows[..i], p, x) > 0
    {
      var merge := rows[i];
      assert rows[..i + 1][..i] == rows[..i] && rows[..i + 1][i] == merge;
      children := AddEvent(children, merge.mergedInto, merge.toMerge);
      parents := AddEvent(parents, merge.toMerge, merge.mergedInto);
      i := i + 1;
    }
    assert rows[..i] == rows;
  }

  lemma NothingCounted()
    ensures forall p, x :: At(map[], p, x) == 0 && !IsEdge(map[], p, x)
  {}

  /** An unmerge takes one off every counted edge into the unmerged id. */
  method SubtractUnmerges(children: EdgeCounts, parents: EdgeCounts, unmerges: seq<Row>) returns (net: EdgeCounts)
    requires forall p, x :: IsEdge(parents, x, p) <==> IsEdge(children, p, x)
    ensures forall p, x :: At(net, p, x) == At(children, p, x) - (if IsEdge(children, p, x) then CountOf(unmerges, x) else 0)
  {
    net := children;
    var i := 0;
    while i < |unmerges|
      invariant 0 <= i <= |unmerges|
      invariant forall p, x :: IsEdge(net, p, x) <==> IsEdge(children, p, x)
      invariant forall p, x :: At(net, p, x) == At(children, p, x) - (if IsEdge(children, p, x) then CountOf(unmerges[..i], x) else 0)
    {
      var y := unmerges[i].toMerge;
      assert unmerges[..i + 1][..i] == unmerges[..i] && unmerges[..i + 1][i] == unmerges[i];
      if y in parents {
        net := SubtractOne(net, parents[y].Keys, y);
      }
      i := i + 1;
    }
    assert unmerges[..i] == unmerges;
  }

  method SubtractOne(m: EdgeCounts, originalParents: set<Id>, y: Id) returns (net: EdgeCounts)
    requires forall p :: p in originalParents ==> IsEdge(m, p, y)
    ensures forall p, x :: IsEdge(net, p, x) <==> IsEdge(m, p, x)
    ensures forall p, x :: At(net, p, x) == At(m, p, x) - (if x == y && p in originalParents then 1 else 0)
  {
    net := m;
    var todo := originalParents;
    while todo != {}
      invariant todo <= originalParents
      invariant forall p, x :: IsEdge(net, p, x) <==> IsEdge(m, p, x)
      invariant forall p, x :: At(net, p, x) == At(m, p, x) - (if x == y && p in originalParents - todo then 1 else 0)
    {
      var p :| p in todo;
      todo := todo - {p};
      assert IsEdge(m, p, y);
      net := net[p := net[p][y := net[p][y] - 1]];
    }
  }

  // ---- the lineage of an id ----

  /** The unmerge rows that name one of the ids on either side. */
  function GetUnmerges(h: History, ids: seq<Id>): seq<Row> {
    if h == [] then []
    else
      var e := h[|h| - 1];
      GetUnmerges(h[..|h| - 1], ids)
      + (if e.kind.Unmerge? && (e.mergedInto in ids || e.toMerge in ids) then [e] else [])
  }

  function LineageList(b: Id, rows: seq<Row>): seq<Id> {
    [b] + seq(|rows|, i requires 0 <= i < |rows| => rows[i].toMerge)
  }

  /** The queries, the counting and the search, in the order the source runs them. */
  method BuildLineage(h: History, b: Id, depth: nat) returns (ids: seq<Id>)
    ensures NoRepeats(ids)
    ensures forall x :: x in ids <==> InLineage(h, b, depth, x)
  {
    var rows := RetrieveProfileHistory(h, b, depth);
    var children, parents := CountMerges(rows);
    var unmerges := GetUnmerges(h, LineageList(b, rows));
    var net := SubtractUnmerges(children, parents, unmerges);
    ids := BuildDescendantsFromMap(b, net);
    forall p, x ensures At(net, p, x) == Net(h, b, depth, p, x) {}
    forall x, n: nat ensures ReachesIn(net, b, x, n) <==> LineageStep(h, b, depth, x, n) {
      SearchFollowsNet(h, b, depth, net, x, n);
    }
  }

  /** x is n counted edges below b. */
  ghost predicate LineageStep(h: History, b: Id, depth: nat, x: Id, n: nat)
    decreases n
  {
    if n == 0 then x == b else exists z :: LineageStep(h, b, depth, z, n - 1) && Net(h, b, depth, z, x) > 0
  }

  ghost predicate InLineage(h: History, b: Id, depth: nat, x: Id) {
    exists n: nat :: LineageStep(h, b, depth, x, n)
  }

  lemma {:induction false} SearchFollowsNet(h: History, b: Id, depth: nat, net: EdgeCounts, x: Id, n: nat)
    requires forall p, y :: At(net, p, y) == Net(h, b, depth, p, y)
    ensures ReachesIn(net, b, x, n) <==> LineageStep(h, b, depth, x, n)
    decreases n
  {
    if n > 0 {
      forall z, k: nat | k == n - 1 ensures ReachesIn(net, b, z, k) <==> LineageStep(h, b, depth, z, k) {
        SearchFollowsNet(h, b, depth, net, z, k);
      }
    }
  }

  /** What the counting leaves on the edge from p to x. */
  ghost function Net(h: History, b: Id, depth: nat, p: Id, x: Id): int {
    var rows := RetrieveProfileHistory(h, b, depth);
    Events(rows, p, x) - if Events(rows, p, x) > 0 then CountOf(GetUnmerges(h, LineageList(b, rows)), x) else 0
  }

  // ---- what the counting leaves, for every history ----

  lemma {:induction false} EventsByKind(rows: seq<Row>, p: Id, x: Id)
    ensures Events(rows, p, x) == Count(rows, Merge, p, x) + Count(rows, Unmerge, p, x) + Count(rows, Delete, p, x)
  {
    if rows != [] {
      EventsByKind(rows[..|rows| - 1], p, x);
    }
  }

  lemma {:induction false} CountOfUnmerges(h: History, ids: seq<Id>, x: Id)
    requires x in ids
    ensures CountOf(GetUnmerges(h, ids), x) == Rows(h, Unmerge, x)
  {
    if h != [] {
      var h', e := h[..|h| - 1], h[|h| - 1];
      CountOfUnmerges(h', ids, x);
      var us := GetUnmerges(h', ids);
      assert GetUnmerges(h, ids) == us || GetUnmerges(h, ids)[..|us|] == us;
    }
  }

  lemma {:induction false} CountedIsListed(b: Id, rows: seq<Row>, p: Id, x: Id)
    requires Events(rows, p, x) > 0
    ensures x in LineageList(b, rows)
  {
    var n := |rows| - 1;
    if rows[n].mergedInto == p && rows[n].toMerge == x {
      assert LineageList(b, rows)[n + 1] == x;
    } else {
      CountedIsListed(b, rows[..n], p, x);
      var i :| 0 <= i < n + 1 && LineageList(b, rows[..n])[i] == x;
      assert LineageList(b, rows)[i] == x;
    }
  }

  /** How often the rows from x to p are returned for b. */
  function Returned(h: History, b: Id, depth: nat, p: Id, x: Id): nat {
    (if p == b then Count(h, Merge, p, x) + Count(h, Delete, p, x) else 0)
    + Times(Visits(h, b, depth, p), Count(h, Merge, p, x)) + Times(Visits(h, b, depth, p), Count(h, Unmerge, p, x))
    + Times(Visits(h, b, depth, p), Count(h, Delete, p, x))
  }

  /** For every history: an edge keeps as many events as rows were returned for it, less one for each unmerge of the child. */
  lemma NetFormula(h: History, b: Id, depth: nat, p: Id, x: Id)
    ensures var n := Returned(h, b, depth, p, x); Net(h, b, depth, p, x) == n - if n > 0 then Rows(h, Unmerge, x) else 0
  {
    hide RetrieveProfileHistory, Count, Visits, Times, GetUnmerges;
    var rows := RetrieveProfileHistory(h, b, depth);
    EventsByKind(rows, p, x);
    RetrievedCount(h, b, depth, Merge, p, x);
    RetrievedCount(h, b, depth, Unmerge, p, x);
    RetrievedCount(h, b, depth, Delete, p, x);
    if Events(rows, p, x) > 0 {
      CountedIsListed(b, rows, p, x);
      CountOfUnmerges(h, LineageList(b, rows), x);
    }
  }

  /** How often the join starts from p. */
  function Led(h: History, b: Id, depth: nat, p: Id): nat {
    Visits(h, b, depth, p) + if p == b then 1 else 0
  }

  lemma EdgeIsKept(h: History, b: Id, depth: nat, p: Id, x: Id)
    requires Times(Led(h, b, depth, p), Count(h, Merge, p, x)) + Times(Visits(h, b, depth, p), Count(h, Unmerge, p, x))
           > Rows(h, Unmerge, x)
    ensures Net(h, b, depth, p, x) > 0
  {
    hide Times, Count, Visits, Net, Rows;
    NetFormula(h, b, depth, p, x);
    TimesSum(Visits(h, b, depth, p), if p == b then 1 else 0, Count(h, Merge, p, x));
    TimesSum(0, 0, Count(h, Merge, p, x));
  }

  // ---- the lineage in well-formed histories ----

  lemma {:induction false} SomeWay(h: History, p: seq<Id>, n: nat)
    requires n <= |p| && forall k :: 0 <= k < n ==> Rows(h, Merge, p[k]) >= 1
    ensures Ways(h, p, n) >= 1
  {
    if n > 0 {
      SomeWay(h, p[1..], n - 1);
    }
  }

  lemma TimesPositive(a: nat, c: nat)
    requires a >= 1
    ensures Times(a, c) >= c
  {}

  /** An id that hangs k below b is led to, if the depth reaches that far. */
  lemma HangingIsVisited(h: History, b: Id, depth: nat, z: Id, k: nat)
    requires WellFormed(h) && b != NIL_UUID && 0 < k <= depth && k < |LivePath(h, z)| && LivePath(h, z)[k] == b
    ensures Visits(h, b, depth, z) >= 1
  {
    hide WellFormed, Linked, FullPath, LivePath, Visits, Rows;
    WellFormedIsLinked(h);
    LiveWithinFull(h, z);
    LiveNodes(h, z);
    var p := FullPath(h, z);
    VisitsExact(h, b, depth, z, k);
    forall i | 0 <= i < k ensures Rows(h, Merge, p[i]) >= 1 {
      assert p[i] == LivePath(h, z)[i];
      MergesAlternate(h, p[i]);
    }
    SomeWay(h, p, k);
  }

  /** An id whose merge was not undone keeps its edge if the parent is b or is led to. */
  lemma LiveEdgeIsKept(h: History, b: Id, depth: nat, x: Id)
    requires WellFormed(h) && |LivePath(h, x)| > 1
    requires LivePath(h, x)[1] == b || Visits(h, b, depth, LivePath(h, x)[1]) >= 1
    ensures Net(h, b, depth, LivePath(h, x)[1], x) > 0
  {
    hide WellFormed, Linked, FullPath, LivePath, Visits, Rows, Count, Times;
    var p := LivePath(h, x)[1];
    WellFormedIsLinked(h);
    LiveWithinFull(h, x);
    MergesLeadToParent(h, p, x);
    MergesAlternate(h, x);
    NetFormula(h, b, depth, p, x);
    if p != b {
      TimesPositive(Visits(h, b, depth, p), Count(h, Merge, p, x));
    }
  }

  lemma {:induction false} HangingIsFound(h: History, b: Id, depth: nat, x: Id, k: nat)
    requires WellFormed(h) && b != NIL_UUID && k <= depth + 1 && k < |LivePath(h, x)| && LivePath(h, x)[k] == b
    ensures LineageStep(h, b, depth, x, k)
    decreases k
  {
    hide WellFormed, Linked, LivePath, Visits, Net;
    if k > 0 {
      WellFormedIsLinked(h);
      var z := LivePath(h, x)[1];
      LiveSuffix(h, x, 1);
      assert LivePath(h, z)[k - 1] == b;
      HangingIsFound(h, b, depth, z, k - 1);
      if k > 1 {
        HangingIsVisited(h, b, depth, z, k - 1);
      }
      LiveEdgeIsKept(h, b, depth, x);
    }
  }

  lemma NilIsAlone(h: History)
    requires WellFormed(h)
    ensures LivePath(h, NIL_UUID) == [NIL_UUID]
  {
    WellFormedIsLinked(h);
    MergesAlternate(h, NIL_UUID);
    if NIL_UUID in MergedAway(h) {
      var m := MergeRowOf(h, NIL_UUID);
      LiveRows(h, m);
    }
  }

  /** Nothing that hangs on the way from z up to b was merged more than once. */
  ghost predicate SingleUpTo(h: History, z: Id, b: Id) {
    forall i :: 0 <= i < |LivePath(h, z)| && b !in LivePath(h, z)[..i + 1] ==> Rows(h, Merge, LivePath(h, z)[i]) <= 1
  }

  /** If z hangs below b it is led to at most once, unless something on the way was merged more than once. */
  lemma SingleIsVisitedOnce(h: History, b: Id, depth: nat, z: Id)
    requires WellFormed(h) && b != NIL_UUID && b in LivePath(h, z) && SingleUpTo(h, z, b)
    ensures Visits(h, b, depth, z) <= 1 && (z == b ==> Visits(h, b, depth, z) == 0)
  {
    hide WellFormed, Linked, FullPath, LivePath, Visits, Rows;
    WellFormedIsLinked(h);
    LiveWithinFull(h, z);
    LiveNodes(h, z);
    NotBackToStart(h, z);
    var p := LivePath(h, z);
    var k :| 0 <= k < |p| && p[k] == b;
    VisitsExact(h, b, depth, z, k);
    forall i | 0 <= i < k ensures Rows(h, Merge, FullPath(h, z)[i]) == 1 {
      assert p[i] == FullPath(h, z)[i] && b !in p[..i + 1];
      MergesAlternate(h, p[i]);
    }
    OneWay(h, FullPath(h, z), k);
  }

  /** The rows from x lead to ids above it. */
  lemma RowsLeadUp(h: History, z: Id, x: Id)
    requires WellFormed(h) && z != NIL_UUID
    ensures Count(h, Delete, z, x) == 0
    ensures Count(h, Merge, z, x) + Count(h, Unmerge, z, x) > 0 ==> z in FullPath(h, x) && x in MergedAway(h)
    ensures Count(h, Unmerge, z, x) <= Rows(h, Unmerge, x) && Count(h, Merge, z, x) <= Rows(h, Merge, x)
  {
    hide WellFormed, Linked, FullPath, Rows, Count;
    WellFormedIsLinked(h);
    DeletesLeadToNil(h, z, x);
    MergesLeadToParent(h, z, x);
    CountPositive(h, Merge, z, x);
    CountPositive(h, Unmerge, z, x);
    CountAtMostRows(h, Unmerge, z, x);
    CountAtMostRows(h, Merge, z, x);
    if u :| u in h && u.kind.Unmerge? && u.mergedInto == z && u.toMerge == x {
      UnmergedFromAbove(h, u);
    }
  }

  /** What is above a cut id on the way to b is single. */
  lemma AboveCutIsSingle(h: History, c: Id, z: Id, b: Id)
    requires WellFormed(h) && c in Cuts(h) && z in FullPath(h, c) && b in LivePath(h, z)
    ensures SingleUpTo(h, z, b)
  {
    hide WellFormed, Linked, FullPath, LivePath, Rows;
    WellFormedIsLinked(h);
    CutsHaveNoneDoubledAbove(h, c);
    MergesAlternate(h, c);
    var d := FullIndex(h, c, z);
    LiveWithinFull(h, z);
    LiveNodes(h, z);
    var p := LivePath(h, z);
    forall i | 0 <= i < |p| && b !in p[..i + 1] ensures Rows(h, Merge, p[i]) <= 1 {
      assert p[i] == FullPath(h, z)[i] == FullPath(h, c)[d + i];
      NotYetAtEnd(p, b, i);
    }
  }

  lemma NotYetAtEnd(p: seq<Id>, b: Id, i: nat)
    requires i < |p| && b in p
    ensures b !in p[..i + 1] ==> i < |p| - 1
  {
    assert p[..|p|] == p;
  }

  lemma TimesSmall(v: nat, c: nat)
    ensures v == 0 ==> Times(v, c) == 0
    ensures v == 1 ==> Times(v, c) == c
    ensures Times(v, 0) == 0
  {}

  /** The rows into a parent that hangs below b are returned at most once each, and unmerge rows from b not at all. */
  lemma ReturnedOnce(h: History, b: Id, depth: nat, z: Id, x: Id)
    requires WellFormed(h) && b != NIL_UUID && b in LivePath(h, z) && SingleUpTo(h, z, b)
    ensures Returned(h, b, depth, z, x) <= Count(h, Merge, z, x) + if z == b then 0 else Count(h, Unmerge, z, x)
  {
    hide WellFormed, Linked, FullPath, LivePath, Rows, Count, Visits, Times, SingleUpTo;
    WellFormedIsLinked(h);
    NilIsAlone(h);
    DeletesLeadToNil(h, z, x);
    SingleIsVisitedOnce(h, b, depth, z);
    var v := Visits(h, b, depth, z);
    TimesSmall(v, Count(h, Merge, z, x));
    TimesSmall(v, Count(h, Unmerge, z, x));
    TimesSmall(v, 0);
  }

  /** No edge into a cut id is kept below an id that hangs below b. */
  lemma CutEdgeIsGone(h: History, b: Id, depth: nat, z: Id, x: Id)
    requires WellFormed(h) && b != NIL_UUID && b in LivePath(h, z) && x in Cuts(h)
    ensures Net(h, b, depth, z, x) <= 0
  {
    hide WellFormed, Linked, FullPath, LivePath, Rows, Count, Returned, SingleUpTo, Net;
    WellFormedIsLinked(h);
    NilIsAlone(h);
    RowsLeadUp(h, z, x);
    MergesAlternate(h, x);
    NetFormula(h, b, depth, z, x);
    var m, u := Count(h, Merge, z, x), Count(h, Unmerge, z, x);
    if m + u > 0 {
      AboveCutIsSingle(h, x, z, b);
      ReturnedOnce(h, b, depth, z, x);
      if m > 0 && u > 0 {
        CutFromParentIsCutFromRoot(h, x);
        CountPositive(h, Merge, z, x);
        CountPositive(h, Unmerge, z, x);
        MergesAlternate(h, z);
      }
    } else {
      NothingReturned(h, b, depth, z, x);
    }
  }

  lemma NothingReturned(h: History, b: Id, depth: nat, z: Id, x: Id)
    requires Count(h, Merge, z, x) == Count(h, Unmerge, z, x) == Count(h, Delete, z, x) == 0
    ensures Returned(h, b, depth, z, x) == 0
  {
    TimesSmall(Visits(h, b, depth, z), 0);
  }

  /** Where the live path has ended, the rest of the full path is the one of the cut id it ended at. */
  lemma AboveLiveEnd(h: History, x: Id, z: Id)
    requires WellFormed(h) && z in FullPath(h, x) && z !in LivePath(h, x)
    ensures Root(h, x) in Cuts(h) && z in FullPath(h, Root(h, x))
  {
    hide WellFormed, Linked, FullPath, LivePath, MergedAway, Cuts;
    var p, q := LivePath(h, x), FullPath(h, x);
    var n := |p| - 1;
    WellFormedIsLinked(h);
    LiveWithinFull(h, x);
    LiveNodes(h, x);
    FullNodesMerged(h, x);
    FullSuffix(h, x, n);
    AfterPrefix(p, q, z);
    assert q[n] == Root(h, x) && n < |q| - 1;
  }

  lemma AfterPrefix(p: seq<Id>, q: seq<Id>, z: Id)
    requires p != [] && p <= q && z in q && z !in p
    ensures |p| < |q| && z in q[|p| - 1..]
  {
    var k :| 0 <= k < |q| && q[k] == z;
    assert forall i :: 0 <= i < |p| ==> q[i] == p[i] && p[i] in p;
    assert q[|p| - 1..][k - (|p| - 1)] == z;
  }

  /** An edge that is kept is one from an id on the live path. */
  lemma KeptEdgeIsOnPath(h: History, b: Id, depth: nat, z: Id, x: Id)
    requires WellFormed(h) && b != NIL_UUID && b in LivePath(h, z) && Net(h, b, depth, z, x) > 0
    ensures z in LivePath(h, x)
  {
    hide WellFormed, Linked, FullPath, LivePath, Rows, Count, Returned, SingleUpTo, Net;
    WellFormedIsLinked(h);
    NilIsAlone(h);
    RowsLeadUp(h, z, x);
    MergesAlternate(h, x);
    NetFormula(h, b, depth, z, x);
    if Count(h, Merge, z, x) + Count(h, Unmerge, z, x) == 0 {
      NothingReturned(h, b, depth, z, x);
    } else if x in Cuts(h) {
      CutEdgeIsGone(h, b, depth, z, x);
    } else if z !in LivePath(h, x) {
      AboveLiveEnd(h, x, z);
      AboveCutIsSingle(h, Root(h, x), z, b);
      ReturnedOnce(h, b, depth, z, x);
      NotDirectParent(h, z, x);
    }
  }

  /** A kept edge from an id that hangs below b leads to an id that hangs below b. */
  lemma EdgeKeepsHanging(h: History, b: Id, depth: nat, z: Id, x: Id)
    requires WellFormed(h) && b != NIL_UUID && b in LivePath(h, z) && Net(h, b, depth, z, x) > 0
    ensures b in LivePath(h, x)
  {
    hide WellFormed, Linked, LivePath, Net;
    WellFormedIsLinked(h);
    KeptEdgeIsOnPath(h, b, depth, z, x);
    var k :| 0 <= k < |LivePath(h, x)| && LivePath(h, x)[k] == z;
    LiveSuffix(h, x, k);
  }

  lemma NotDirectParent(h: History, z: Id, x: Id)
    requires WellFormed(h) && z !in LivePath(h, x) && |LivePath(h, x)| > 1
    ensures Count(h, Merge, z, x) == 0
  {
    LiveWithinFull(h, x);
    MergesLeadToParent(h, z, x);
    assert LivePath(h, x)[1] == FullPath(h, x)[1];
  }

  lemma {:induction false} FoundHangs(h: History, b: Id, depth: nat, x: Id, n: nat)
    requires WellFormed(h) && b != NIL_UUID && LineageStep(h, b, depth, x, n)
    ensures b in LivePath(h, x)
    decreases n
  {
    hide WellFormed, LivePath, Net;
    if n == 0 {
      assert LivePath(h, x)[0] == b;
    } else {
      var z :| LineageStep(h, b, depth, z, n - 1) && Net(h, b, depth, z, x) > 0;
      FoundHangs(h, b, depth, z, n - 1);
      EdgeKeepsHanging(h, b, depth, z, x);
    }
  }

  /** x hangs below b: no merge on the way up to b was undone. */
  predicate HangsBelow(h: History, b: Id, x: Id) {
    b in LivePath(h, x)
  }

  /** x hangs at most n merges below b. */
  predicate HangsWithin(h: History, b: Id, x: Id, n: nat) {
    exists k :: 0 <= k < |LivePath(h, x)| && k <= n && LivePath(h, x)[k] == b
  }

  /** Nothing but what hangs below b is found, and everything that hangs no deeper than the depth and one. */
  lemma LineageIsWhatHangsBelow(h: History, b: Id, depth: nat, x: Id)
    requires WellFormed(h) && b != NIL_UUID
    ensures InLineage(h, b, depth, x) ==> HangsBelow(h, b, x)
    ensures HangsWithin(h, b, x, depth + 1) ==> InLineage(h, b, depth, x)
  {
    if n: nat :| LineageStep(h, b, depth, x, n) {
      FoundHangs(h, b, depth, x, n);
    }
    if HangsWithin(h, b, x, depth + 1) {
      var k :| 0 <= k < |LivePath(h, x)| && k <= depth + 1 && LivePath(h, x)[k] == b;
      HangingIsFound(h, b, depth, x, k);
    }
  }

  // ---- how deep the lineage reaches ----

  /** An unmerge row from z, j merges above x, is returned more often than x was unmerged: a way down that skips merges. */
  ghost predicate HasShortcut(h: History, b: Id, depth: nat, x: Id) {
    exists j, k :: SkipsTo(h, b, depth, x, j, k)
  }

  ghost predicate SkipsTo(h: History, b: Id, depth: nat, x: Id, j: nat, k: nat) {
    var p := LivePath(h, x);
    && j < k < |p| && p[k] == b && k - j <= depth
    && Times(Ways(h, p[j..], k - j), Count(h, Unmerge, p[j], x)) > Rows(h, Unmerge, x)
  }

  lemma {:induction false} WaysOfPrefix(h: History, p: seq<Id>, q: seq<Id>, n: nat)
    requires n <= |p| && p <= q
    ensures Ways(h, p, n) == Ways(h, q, n)
  {
    if n > 0 {
      WaysOfPrefix(h, p[1..], q[1..], n - 1);
    }
  }

  /** How often an id on the way up to b is led to. */
  lemma VisitsOnTheWay(h: History, b: Id, depth: nat, x: Id, j: nat, k: nat)
    requires WellFormed(h) && b != NIL_UUID && j <= k < |LivePath(h, x)| && LivePath(h, x)[k] == b
    ensures Visits(h, b, depth, LivePath(h, x)[j]) == if 0 < k - j <= depth then Ways(h, LivePath(h, x)[j..], k - j) else 0
  {
    hide WellFormed, LivePath, FullPath, Visits, Rows;
    var z := LivePath(h, x)[j];
    WellFormedIsLinked(h);
    LiveSuffix(h, x, j);
    LiveWithinFull(h, z);
    VisitsExact(h, b, depth, z, k - j);
    WaysOfPrefix(h, LivePath(h, z), FullPath(h, z), k - j);
  }

  lemma ShortcutIsFound(h: History, b: Id, depth: nat, x: Id, j: nat, k: nat)
    requires WellFormed(h) && b != NIL_UUID && SkipsTo(h, b, depth, x, j, k)
    ensures InLineage(h, b, depth, x)
  {
    hide WellFormed, LivePath, Visits, Count, Rows, Times, Ways, Net;
    var z := LivePath(h, x)[j];
    VisitsOnTheWay(h, b, depth, x, j, k);
    TimesSmall(0, Count(h, Merge, z, x));
    EdgeIsKept(h, b, depth, z, x);
    WellFormedIsLinked(h);
    LiveSuffix(h, x, j);
    HangingIsFound(h, b, depth, z, k - j);
    assert LineageStep(h, b, depth, x, k - j + 1);
  }

  /** The edge by which something was found is short, or a shortcut. */
  lemma KeptEdgeReaches(h: History, b: Id, depth: nat, z: Id, x: Id)
    requires WellFormed(h) && b != NIL_UUID && b in LivePath(h, z) && Net(h, b, depth, z, x) > 0
    ensures HangsWithin(h, b, x, depth + 1) || HasShortcut(h, b, depth, x)
  {
    hide WellFormed, Linked, LivePath, FullPath, Net, HangsWithin, HasShortcut;
    KeptEdgeIsOnPath(h, b, depth, z, x);
    var j, k := BothOnPath(h, x, z, b);
    KeptEdgeReachesAt(h, b, depth, x, j, k);
  }

  /** The places of an id and of one above it on a live path. */
  lemma BothOnPath(h: History, x: Id, z: Id, b: Id) returns (j: nat, k: nat)
    requires WellFormed(h) && z in LivePath(h, x) && b in LivePath(h, z)
    ensures j <= k < |LivePath(h, x)| && LivePath(h, x)[j] == z && LivePath(h, x)[k] == b
  {
    hide WellFormed, Linked, LivePath;
    var p, q := LivePath(h, x), LivePath(h, z);
    j :| 0 <= j < |p| && p[j] == z;
    WellFormedIsLinked(h);
    LiveSuffix(h, x, j);
    k := PlaceInRest(p, q, j, b);
  }

  lemma PlaceInRest(p: seq<Id>, q: seq<Id>, j: nat, b: Id) returns (k: nat)
    requires j <= |p| && q == p[j..] && b in q
    ensures j <= k < |p| && p[k] == b
  {
    var i :| 0 <= i < |q| && q[i] == b;
    k := j + i;
  }

  lemma KeptEdgeReachesAt(h: History, b: Id, depth: nat, x: Id, j: nat, k: nat)
    requires WellFormed(h) && b != NIL_UUID && j <= k < |LivePath(h, x)| && LivePath(h, x)[k] == b
    requires Net(h, b, depth, LivePath(h, x)[j], x) > 0
    ensures HangsWithin(h, b, x, depth + 1) || HasShortcut(h, b, depth, x)
  {
    hide WellFormed, Linked, LivePath, FullPath, Visits, Count, Rows, Times, Ways, Net;
    var z := LivePath(h, x)[j];
    WellFormedIsLinked(h);
    NotBackToStart(h, x);
    HeldIsNotNil(h, x, j, k);
    VisitsOnTheWay(h, b, depth, x, j, k);
    KeptEdgeIsCounted(h, b, depth, z, x);
    if Count(h, Merge, z, x) > 0 {
      StepFromParent(h, z, x, j);
      assert k <= depth + 1;
    } else {
      TimesSmall(Visits(h, b, depth, z), Count(h, Unmerge, z, x));
      assert SkipsTo(h, b, depth, x, j, k);
    }
  }

  /** The nil id is on no path but its own. */
  lemma HeldIsNotNil(h: History, x: Id, j: nat, k: nat)
    requires WellFormed(h) && j <= k < |LivePath(h, x)| && LivePath(h, x)[k] != NIL_UUID
    ensures LivePath(h, x)[j] != NIL_UUID
  {
    hide WellFormed, Linked, LivePath;
    WellFormedIsLinked(h);
    NilIsAlone(h);
    LiveSuffix(h, x, j);
    assert LivePath(h, x)[j..][k - j] == LivePath(h, x)[k];
  }

  lemma StepFromParent(h: History, z: Id, x: Id, j: nat)
    requires WellFormed(h) && Count(h, Merge, z, x) > 0 && j < |LivePath(h, x)| && LivePath(h, x)[j] == z
    ensures j == 1
  {
    hide WellFormed, Linked, LivePath, FullPath, Count, Rows;
    LiveWithinFull(h, x);
    MergesLeadToParent(h, z, x);
    FullDistinct(h, x);
    assert FullPath(h, x)[j] == z == FullPath(h, x)[1];
  }

  lemma KeptEdgeIsCounted(h: History, b: Id, depth: nat, z: Id, x: Id)
    requires WellFormed(h) && z != NIL_UUID && Net(h, b, depth, z, x) > 0
    ensures z == b || Visits(h, b, depth, z) >= 1
    ensures Count(h, Merge, z, x) == 0 ==> Times(Visits(h, b, depth, z), Count(h, Unmerge, z, x)) > Rows(h, Unmerge, x)
  {
    hide WellFormed, Linked, FullPath, LivePath, Visits, Count, Rows, Times, Net;
    WellFormedIsLinked(h);
    DeletesLeadToNil(h, z, x);
    NetFormula(h, b, depth, z, x);
    TimesSmall(Visits(h, b, depth, z), 0);
    TimesSmall(0, Count(h, Merge, z, x));
    TimesSmall(0, Count(h, Unmerge, z, x));
  }

  /** The lineage holds exactly what hangs no deeper than the depth and one, or can be reached by a shortcut. */
  lemma LineageReachesExactly(h: History, b: Id, depth: nat, x: Id)
    requires WellFormed(h) && b != NIL_UUID
    ensures InLineage(h, b, depth, x) <==> HangsWithin(h, b, x, depth + 1) || HasShortcut(h, b, depth, x)
  {
    hide WellFormed, LivePath, Net, HasShortcut;
    LineageIsWhatHangsBelow(h, b, depth, x);
    if HasShortcut(h, b, depth, x) {
      TheShortcutIsFound(h, b, depth, x);
    }
    if n: nat :| LineageStep(h, b, depth, x, n) {
      if n == 0 {
        assert LivePath(h, x)[0] == b;
      } else {
        var z :| LineageStep(h, b, depth, z, n - 1) && Net(h, b, depth, z, x) > 0;
        FoundHangs(h, b, depth, z, n - 1);
        KeptEdgeReaches(h, b, depth, z, x);
      }
    }
  }

  lemma TheShortcutIsFound(h: History, b: Id, depth: nat, x: Id)
    requires WellFormed(h) && b != NIL_UUID && HasShortcut(h, b, depth, x)
    ensures InLineage(h, b, depth, x)
  {
    hide SkipsTo, InLineage;
    var j: nat, k: nat :| SkipsTo(h, b, depth, x, j, k);
    ShortcutIsFound(h, b, depth, x, j, k);
  }

  /** Nothing that hangs below b was merged more than once. */
  ghost predicate NoneDoubledBelow(h: History, b: Id) {
    forall x :: HangsBelow(h, b, x) && x != b ==> Rows(h, Merge, x) <= 1
  }

  /** With nothing merged twice below b there are no shortcuts. */
  lemma NoShortcuts(h: History, b: Id, depth: nat, x: Id)
    requires WellFormed(h) && NoneDoubledBelow(h, b)
    ensures !HasShortcut(h, b, depth, x)
  {
    hide WellFormed, LivePath, Count, Rows, Times, Ways;
    WellFormedIsLinked(h);
    if j: nat, k: nat :| SkipsTo(h, b, depth, x, j, k) {
      var p := LivePath(h, x);
      LiveNodes(h, x);
      NotBackToStart(h, x);
      forall i | 0 <= i < k - j ensures Rows(h, Merge, p[j..][i]) == 1 {
        LiveSuffix(h, x, j + i);
        assert p[j + i..][k - j - i] == b && p[j + i] != b;
        assert HangsBelow(h, b, p[j + i]);
        MergesAlternate(h, p[j + i]);
      }
      OneWay(h, p[j..], k - j);
      TimesSmall(1, Count(h, Unmerge, p[j], x));
      CountAtMostRows(h, Unmerge, p[j], x);
    }
  }
}
