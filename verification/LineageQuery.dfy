/** The recursive query for everything merged into an id, as the database evaluates it:
    a working table that is joined with the history until a join comes back empty or too deep. */
module LineageQuery {
  import opened Lists
  import opened MergeHistory

  /** The depth bound the lineage query is called with. */
  const PROFILE_HISTORY_DEPTH := 1000

  function RowsInto(h: History, y: Id): seq<Row> {
    if h == [] then []
    else RowsInto(h[..|h| - 1], y) + if h[|h| - 1].mergedInto == y then [h[|h| - 1]] else []
  }

  function NotUnmerge(rows: seq<Row>): seq<Row> {
    if rows == [] then []
    else NotUnmerge(rows[..|rows| - 1]) + if rows[|rows| - 1].kind.Unmerge? then [] else [rows[|rows| - 1]]
  }

  /** The join of the working table with the history. Unmerge rows are not extended, but are not filtered from the result,
      and a row of the history is returned once for each row of the working table that leads to it. */
  function JoinDown(h: History, level: seq<Row>): seq<Row> {
    if level == [] then []
    else
      var t := level[|level| - 1];
      JoinDown(h, level[..|level| - 1]) + if t.kind.Unmerge? then [] else RowsInto(h, t.toMerge)
  }

  /** The working table and up to `more` further joins. */
  function DownFrom(h: History, level: seq<Row>, more: nat): seq<Row>
    decreases more
  {
    if more == 0 || level == [] then level
    else level + DownFrom(h, JoinDown(h, level), more - 1)
  }

  function RetrieveProfileHistory(h: History, b: Id, depth: nat): seq<Row> {
    DownFrom(h, NotUnmerge(RowsInto(h, b)), depth)
  }

  // ---- counting rows ----

  /** How many rows of a kind lead from x to p. */
  function Count(rows: seq<Row>, kind: Kind, p: Id, x: Id): nat {
    if rows == [] then 0
    else
      var e := rows[|rows| - 1];
      Count(rows[..|rows| - 1], kind, p, x) + if e.kind == kind && e.mergedInto == p && e.toMerge == x then 1 else 0
  }

  /** How many rows of a working table lead the join on to p. */
  function Feed(rows: seq<Row>, p: Id): nat {
    if rows == [] then 0
    else
      var e := rows[|rows| - 1];
      Feed(rows[..|rows| - 1], p) + if !e.kind.Unmerge? && e.toMerge == p then 1 else 0
  }

  function OneIf(c: bool): nat { if c then 1 else 0 }

  function OnlyIf(c: bool, e: Row): seq<Row> { if c then [e] else [] }

  lemma CountSnoc(rows: seq<Row>, e: Row, kind: Kind, p: Id, x: Id)
    ensures Count(rows + [e], kind, p, x) == Count(rows, kind, p, x) + OneIf(e.kind == kind && e.mergedInto == p && e.toMerge == x)
  {
    assert (rows + [e])[..|rows|] == rows;
  }

  lemma FeedSnoc(rows: seq<Row>, e: Row, p: Id)
    ensures Feed(rows + [e], p) == Feed(rows, p) + OneIf(!e.kind.Unmerge? && e.toMerge == p)
  {
    assert (rows + [e])[..|rows|] == rows;
  }

  lemma RowsIntoSnoc(h: History, e: Row, y: Id)
    ensures RowsInto(h + [e], y) == RowsInto(h, y) + OnlyIf(e.mergedInto == y, e)
  {
    assert (h + [e])[..|h|] == h;
  }

  lemma NotUnmergeSnoc(rows: seq<Row>, e: Row)
    ensures NotUnmerge(rows + [e]) == NotUnmerge(rows) + OnlyIf(!e.kind.Unmerge?, e)
  {
    assert (rows + [e])[..|rows|] == rows;
  }

  /** What one row of the working table is joined with. */
  function Joined(h: History, t: Row): seq<Row> {
    if t.kind.Unmerge? then [] else RowsInto(h, t.toMerge)
  }

  lemma JoinSnoc(h: History, level: seq<Row>, t: Row)
    ensures JoinDown(h, level + [t]) == JoinDown(h, level) + Joined(h, t)
  {
    assert (level + [t])[..|level|] == level;
  }

  lemma CountOfOnly(c: bool, e: Row, kind: Kind, p: Id, x: Id)
    ensures Count(OnlyIf(c, e), kind, p, x) == OneIf(c && e.kind == kind && e.mergedInto == p && e.toMerge == x)
    ensures Feed(OnlyIf(c, e), x) == OneIf(c && !e.kind.Unmerge? && e.toMerge == x)
  {
    assert [e][..0] == [];
  }

  lemma {:induction false} CountConcat(a: seq<Row>, b: seq<Row>, kind: Kind, p: Id, x: Id)
    ensures Count(a + b, kind, p, x) == Count(a, kind, p, x) + Count(b, kind, p, x)
  {
    if b == [] {
      assert a + b == a;
    } else {
      var b', e := b[..|b| - 1], b[|b| - 1];
      assert b == b' + [e] && a + b == (a + b') + [e];
      hide Count;
      CountConcat(a, b', kind, p, x);
      CountSnoc(a + b', e, kind, p, x);
      CountSnoc(b', e, kind, p, x);
    }
  }

  lemma {:induction false} FeedConcat(a: seq<Row>, b: seq<Row>, p: Id)
    ensures Feed(a + b, p) == Feed(a, p) + Feed(b, p)
  {
    if b == [] {
      assert a + b == a;
    } else {
      var b', e := b[..|b| - 1], b[|b| - 1];
      assert b == b' + [e] && a + b == (a + b') + [e];
      hide Feed;
      FeedConcat(a, b', p);
      FeedSnoc(a + b', e, p);
      FeedSnoc(b', e, p);
    }
  }

  lemma {:induction false} CountPositive(rows: seq<Row>, kind: Kind, p: Id, x: Id)
    ensures Count(rows, kind, p, x) > 0 <==> HasRow(rows, kind, p, x)
  {
    if rows != [] {
      var n := |rows| - 1;
      CountPositive(rows[..n], kind, p, x);
      assert rows == rows[..n] + [rows[n]];
      HasRowSnoc(rows[..n], rows[n], kind, p, x);
    }
  }

  lemma {:induction false} RowsIntoCount(h: History, y: Id, kind: Kind, p: Id, x: Id)
    ensures Count(RowsInto(h, y), kind, p, x) == if p == y then Count(h, kind, p, x) else 0
  {
    if h != [] {
      var h', e := h[..|h| - 1], h[|h| - 1];
      assert h == h' + [e];
      hide Count, RowsInto, OnlyIf;
      RowsIntoCount(h', y, kind, p, x);
      RowsIntoSnoc(h', e, y);
      CountConcat(RowsInto(h', y), OnlyIf(e.mergedInto == y, e), kind, p, x);
      CountOfOnly(e.mergedInto == y, e, kind, p, x);
      CountSnoc(h', e, kind, p, x);
    }
  }

  /** The rows from x to p that a join follows. */
  function Followed(h: History, p: Id, x: Id): nat {
    Count(h, Merge, p, x) + Count(h, Delete, p, x)
  }

  lemma {:induction false} RowsIntoFeed(h: History, y: Id, x: Id)
    ensures Feed(RowsInto(h, y), x) == Followed(h, y, x)
  {
    if h != [] {
      var h', e := h[..|h| - 1], h[|h| - 1];
      assert h == h' + [e];
      hide Count, RowsInto, OnlyIf, Feed;
      RowsIntoFeed(h', y, x);
      RowsIntoSnoc(h', e, y);
      FeedConcat(RowsInto(h', y), OnlyIf(e.mergedInto == y, e), x);
      CountOfOnly(e.mergedInto == y, e, Merge, y, x);
      CountSnoc(h', e, Merge, y, x);
      CountSnoc(h', e, Delete, y, x);
    }
  }

  lemma {:induction false} NotUnmergeCounts(rows: seq<Row>, kind: Kind, p: Id, x: Id)
    ensures Count(NotUnmerge(rows), kind, p, x) == if kind.Unmerge? then 0 else Count(rows, kind, p, x)
    ensures Feed(NotUnmerge(rows), x) == Feed(rows, x)
  {
    if rows != [] {
      var before, e := rows[..|rows| - 1], rows[|rows| - 1];
      assert rows == before + [e];
      hide Count, NotUnmerge, OnlyIf, Feed;
      NotUnmergeCounts(before, kind, p, x);
      NotUnmergeSnoc(before, e);
      CountConcat(NotUnmerge(before), OnlyIf(!e.kind.Unmerge?, e), kind, p, x);
      FeedConcat(NotUnmerge(before), OnlyIf(!e.kind.Unmerge?, e), x);
      CountOfOnly(!e.kind.Unmerge?, e, kind, p, x);
      CountSnoc(before, e, kind, p, x);
      FeedSnoc(before, e, x);
    }
  }

  function Times(a: nat, b: nat): nat { a * b }

  lemma TimesSum(a: nat, b: nat, c: nat)
    ensures Times(a + b, c) == Times(a, c) + Times(b, c)
    ensures Times(0, c) == 0 && Times(1, c) == c
  {}

  /** What one row of the working table contributes. */
  lemma JoinedCounts(h: History, t: Row, kind: Kind, p: Id, x: Id)
    ensures Count(Joined(h, t), kind, p, x) == Times(OneIf(!t.kind.Unmerge? && t.toMerge == p), Count(h, kind, p, x))
    ensures Feed(Joined(h, t), x) == if t.kind.Unmerge? then 0 else Followed(h, t.toMerge, x)
  {
    hide Times, RowsInto, Followed;
    RowsIntoCount(h, t.toMerge, kind, p, x);
    RowsIntoFeed(h, t.toMerge, x);
    TimesSum(0, 0, Count(h, kind, p, x));
  }

  /** A join returns a row once for each row of the working table that leads to its parent id. */
  lemma {:induction false} JoinCount(h: History, level: seq<Row>, kind: Kind, p: Id, x: Id)
    ensures Count(JoinDown(h, level), kind, p, x) == Times(Feed(level, p), Count(h, kind, p, x))
  {
    TimesSum(0, 0, Count(h, kind, p, x));
    if level != [] {
      var before, t := level[..|level| - 1], level[|level| - 1];
      assert level == before + [t];
      hide Times, Count, Feed, JoinDown, Joined, Followed;
      JoinCount(h, before, kind, p, x);
      JoinSnoc(h, before, t);
      CountConcat(JoinDown(h, before), Joined(h, t), kind, p, x);
      JoinedCounts(h, t, kind, p, x);
      FeedSnoc(before, t, p);
      TimesSum(Feed(before, p), OneIf(!t.kind.Unmerge? && t.toMerge == p), Count(h, kind, p, x));
    }
  }

  lemma {:induction false} JoinFeedAtLeast(h: History, level: seq<Row>, p: Id, x: Id)
    ensures Feed(JoinDown(h, level), x) >= Times(Feed(level, p), Count(h, Merge, p, x))
  {
    TimesSum(0, 0, Count(h, Merge, p, x));
    if level != [] {
      var before, t := level[..|level| - 1], level[|level| - 1];
      assert level == before + [t];
      hide Times, Count, Feed, JoinDown, Joined;
      JoinFeedAtLeast(h, before, p, x);
      JoinSnoc(h, before, t);
      FeedConcat(JoinDown(h, before), Joined(h, t), x);
      JoinedCounts(h, t, Merge, p, x);
      FeedSnoc(before, t, p);
      TimesSum(Feed(before, p), OneIf(!t.kind.Unmerge? && t.toMerge == p), Count(h, Merge, p, x));
    }
  }

  /** With all the rows of x that are followed leading to p, the join follows no others. */
  lemma {:induction false} JoinFeedOnly(h: History, level: seq<Row>, p: Id, x: Id)
    requires forall t :: t in level && t.toMerge != p ==> Followed(h, t.toMerge, x) == 0
    ensures Feed(JoinDown(h, level), x) == Times(Feed(level, p), Followed(h, p, x))
  {
    TimesSum(0, 0, Followed(h, p, x));
    if level != [] {
      var before, t := level[..|level| - 1], level[|level| - 1];
      assert level == before + [t];
      hide Times, Followed, Feed, JoinDown, Joined;
      assert t in level && forall r :: r in before ==> r in level;
      JoinFeedOnly(h, before, p, x);
      JoinFeedOneMore(h, before, t, p, x);
    }
  }

  lemma JoinFeedOneMore(h: History, before: seq<Row>, t: Row, p: Id, x: Id)
    requires Feed(JoinDown(h, before), x) == Times(Feed(before, p), Followed(h, p, x))
    requires t.toMerge != p ==> Followed(h, t.toMerge, x) == 0
    ensures Feed(JoinDown(h, before + [t]), x) == Times(Feed(before + [t], p), Followed(h, p, x))
  {
    hide Times, Followed, Feed, JoinDown, Joined;
    JoinSnoc(h, before, t);
    FeedConcat(JoinDown(h, before), Joined(h, t), x);
    JoinedCounts(h, t, Merge, p, x);
    FeedSnoc(before, t, p);
    TimesSum(Feed(before, p), OneIf(!t.kind.Unmerge? && t.toMerge == p), Followed(h, p, x));
  }

  // ---- the result of the query, for every history ----

  /** The k-th working table. */
  function Level(h: History, b: Id, k: nat): seq<Row> {
    if k == 0 then NotUnmerge(RowsInto(h, b)) else JoinDown(h, Level(h, b, k - 1))
  }

  /** How often p is led to from b within n working tables. */
  function Visits(h: History, b: Id, n: nat, p: Id): nat {
    if n == 0 then 0 else Visits(h, b, n - 1, p) + Feed(Level(h, b, n - 1), p)
  }

  /** The ways to get from p up to b over exactly n rows that are not unmerges. */
  function Climbs(h: History, b: Id, n: nat, p: Id): nat
    decreases n, 0
  {
    if n == 0 then OneIf(p == b) else ClimbsOver(h, h, b, n - 1, p)
  }

  /** Those that start with one of these rows, and have n more. */
  function ClimbsOver(rows: seq<Row>, h: History, b: Id, n: nat, p: Id): nat
    decreases n, |rows| + 1
  {
    if rows == [] then 0
    else
      var e := rows[|rows| - 1];
      ClimbsOver(rows[..|rows| - 1], h, b, n, p) + if !e.kind.Unmerge? && e.toMerge == p then Climbs(h, b, n, e.mergedInto) else 0
  }

  /** The feed of a working table, summed over where the rows from p lead. */
  function FeedOver(rows: seq<Row>, level: seq<Row>, p: Id): nat {
    if rows == [] then 0
    else
      var e := rows[|rows| - 1];
      FeedOver(rows[..|rows| - 1], level, p) + if !e.kind.Unmerge? && e.toMerge == p then Feed(level, e.mergedInto) else 0
  }

  lemma {:induction false} FeedOverNothing(rows: seq<Row>, p: Id)
    ensures FeedOver(rows, [], p) == 0
  {
    if rows != [] {
      FeedOverNothing(rows[..|rows| - 1], p);
    }
  }

  lemma {:induction false} FeedOverSnoc(rows: seq<Row>, level: seq<Row>, t: Row, p: Id)
    ensures FeedOver(rows, level + [t], p) == FeedOver(rows, level, p) + if t.kind.Unmerge? then 0 else Followed(rows, t.toMerge, p)
  {
    if rows != [] {
      var before, e := rows[..|rows| - 1], rows[|rows| - 1];
      assert rows == before + [e];
      hide Count, Feed;
      FeedOverSnoc(before, level, t, p);
      FeedSnoc(level, t, e.mergedInto);
      CountSnoc(before, e, Merge, t.toMerge, p);
      CountSnoc(before, e, Delete, t.toMerge, p);
    }
  }

  lemma {:induction false} JoinFeed(h: History, level: seq<Row>, p: Id)
    ensures Feed(JoinDown(h, level), p) == FeedOver(h, level, p)
  {
    if level == [] {
      FeedOverNothing(h, p);
    } else {
      var before, t := level[..|level| - 1], level[|level| - 1];
      assert level == before + [t];
      hide Feed, JoinDown, Joined, Followed, FeedOver;
      JoinFeed(h, before, p);
      JoinSnoc(h, before, t);
      FeedConcat(JoinDown(h, before), Joined(h, t), p);
      JoinedCounts(h, t, Merge, p, p);
      FeedOverSnoc(h, before, t, p);
    }
  }

  lemma {:induction false} FeedOverIsClimbs(rows: seq<Row>, h: History, b: Id, k: nat, p: Id)
    requires forall y :: Feed(Level(h, b, k), y) == Climbs(h, b, k + 1, y)
    ensures FeedOver(rows, Level(h, b, k), p) == ClimbsOver(rows, h, b, k + 1, p)
  {
    hide Feed, Level;
    if rows != [] {
      FeedOverIsClimbs(rows[..|rows| - 1], h, b, k, p);
    }
  }

  lemma {:induction false} FollowedIsClimbs(rows: seq<Row>, h: History, b: Id, p: Id)
    ensures Followed(rows, b, p) == ClimbsOver(rows, h, b, 0, p)
  {
    if rows != [] {
      var before, e := rows[..|rows| - 1], rows[|rows| - 1];
      assert rows == before + [e];
      hide Count;
      FollowedIsClimbs(before, h, b, p);
      CountSnoc(before, e, Merge, b, p);
      CountSnoc(before, e, Delete, b, p);
    } else {
      assert Followed([], b, p) == 0;
    }
  }

  /** For every history: the k-th working table leads to p as often as there are ways to climb from p to b over k + 1 rows
      that are not unmerges. */
  lemma {:induction false} LevelFeedsClimbs(h: History, b: Id, k: nat, p: Id)
    ensures Feed(Level(h, b, k), p) == Climbs(h, b, k + 1, p)
    decreases k
  {
    hide Feed, Followed, FeedOver, ClimbsOver;
    if k == 0 {
      FirstFeed(h, b, p);
      FollowedIsClimbs(h, h, b, p);
    } else {
      forall y ensures Feed(Level(h, b, k - 1), y) == Climbs(h, b, k, y) {
        LevelFeedsClimbs(h, b, k - 1, y);
      }
      JoinFeed(h, Level(h, b, k - 1), p);
      hide Level, Climbs;
      FeedOverIsClimbs(h, h, b, k - 1, p);
      ClimbsStep(h, b, k, p);
      LevelStep(h, b, k);
    }
  }

  lemma ClimbsStep(h: History, b: Id, n: nat, p: Id)
    ensures Climbs(h, b, n + 1, p) == ClimbsOver(h, h, b, n, p)
  {}

  lemma LevelStep(h: History, b: Id, k: nat)
    requires k > 0
    ensures Level(h, b, k) == JoinDown(h, Level(h, b, k - 1))
  {}

  lemma {:induction false} EmptyLevelsFeedNothing(h: History, b: Id, k: nat, n: nat, p: Id)
    requires Level(h, b, k) == [] && k <= n
    ensures Level(h, b, n) == [] && Visits(h, b, n, p) == Visits(h, b, k, p)
    decreases n
  {
    if k < n {
      EmptyLevelsFeedNothing(h, b, k, n - 1, p);
    }
  }

  /** How often p is led to from the k-th working table and the `more - 1` after it. */
  function VisitsFrom(h: History, b: Id, k: nat, more: nat, p: Id): nat
    decreases more
  {
    if more == 0 then 0 else Feed(Level(h, b, k), p) + VisitsFrom(h, b, k + 1, more - 1, p)
  }

  lemma {:induction false} VisitsFromStart(h: History, b: Id, k: nat, more: nat, p: Id)
    ensures Visits(h, b, k, p) + VisitsFrom(h, b, k, more, p) == Visits(h, b, k + more, p)
    decreases more
  {
    hide Feed, Level;
    if more > 0 {
      VisitsFromStart(h, b, k + 1, more - 1, p);
    }
  }

  lemma {:induction false} DownCount(h: History, b: Id, k: nat, more: nat, kind: Kind, p: Id, x: Id)
    ensures Count(DownFrom(h, Level(h, b, k), more), kind, p, x)
         == Count(Level(h, b, k), kind, p, x) + Times(VisitsFrom(h, b, k, more, p), Count(h, kind, p, x))
    decreases more
  {
    hide Times, Count, Feed, JoinDown;
    TimesSum(0, 0, Count(h, kind, p, x));
    var level := Level(h, b, k);
    if level == [] {
      EmptyLevelsFeedNothing(h, b, k, k + more, p);
      VisitsFromStart(h, b, k, more, p);
    } else if more > 0 {
      assert Level(h, b, k + 1) == JoinDown(h, level);
      assert DownFrom(h, level, more) == level + DownFrom(h, JoinDown(h, level), more - 1);
      hide Level, DownFrom;
      DownCount(h, b, k + 1, more - 1, kind, p, x);
      JoinCount(h, level, kind, p, x);
      CountConcat(level, DownFrom(h, JoinDown(h, level), more - 1), kind, p, x);
      TimesSum(Feed(level, p), VisitsFrom(h, b, k + 1, more - 1, p), Count(h, kind, p, x));
    }
  }

  /** For every history: a row is returned as often as its parent id is led to within the depth, and once more if that is b
      itself, except that unmerge rows from b are left out. */
  lemma RetrievedCount(h: History, b: Id, depth: nat, kind: Kind, p: Id, x: Id)
    ensures Count(RetrieveProfileHistory(h, b, depth), kind, p, x)
         == (if p == b && !kind.Unmerge? then Count(h, kind, p, x) else 0) + Times(Visits(h, b, depth, p), Count(h, kind, p, x))
  {
    hide Times, Count, Feed, DownFrom, RowsInto, NotUnmerge;
    DownCount(h, b, 0, depth, kind, p, x);
    VisitsFromStart(h, b, 0, depth, p);
    NotUnmergeCounts(RowsInto(h, b), kind, p, x);
    RowsIntoCount(h, b, kind, p, x);
  }

  // ---- lower bounds, for every history ----

  lemma {:induction false} VisitsAtLeast(h: History, b: Id, n: nat, p: Id, k: nat)
    requires k < n
    ensures Visits(h, b, n, p) >= Feed(Level(h, b, k), p)
  {
    hide Level, Feed;
    if k < n - 1 {
      VisitsAtLeast(h, b, n - 1, p, k);
    }
  }

  lemma {:induction false} VisitsTwice(h: History, b: Id, n: nat, p: Id, j: nat, k: nat)
    requires j < k < n
    ensures Visits(h, b, n, p) >= Feed(Level(h, b, j), p) + Feed(Level(h, b, k), p)
  {
    hide Level, Feed;
    if k < n - 1 {
      VisitsTwice(h, b, n - 1, p, j, k);
    } else {
      VisitsAtLeast(h, b, k, p, j);
    }
  }

  /** Each id of q was merged into the next. */
  ghost predicate MergeChain(h: History, q: seq<Id>) {
    forall i :: 0 <= i < |q| - 1 ==> HasRow(h, Merge, q[i + 1], q[i])
  }

  /** Some step of q was made by more than one merge. */
  ghost predicate HasDoubledStep(h: History, q: seq<Id>) {
    exists i :: 0 <= i < |q| - 1 && Count(h, Merge, q[i + 1], q[i]) >= 2
  }

  lemma ChainRest(h: History, q: seq<Id>)
    requires |q| > 2 && MergeChain(h, q)
    ensures MergeChain(h, q[1..])
    ensures HasDoubledStep(h, q) ==> Count(h, Merge, q[1], q[0]) >= 2 || HasDoubledStep(h, q[1..])
  {
    hide Count, HasRow;
    var rest := q[1..];
    forall i | 0 <= i < |rest| - 1 ensures HasRow(h, Merge, rest[i + 1], rest[i]) {
      var j := i + 1;
      assert HasRow(h, Merge, q[j + 1], q[j]);
    }
    if HasDoubledStep(h, q) {
      var i :| 0 <= i < |q| - 1 && Count(h, Merge, q[i + 1], q[i]) >= 2;
      if i > 0 {
        var k := i - 1;
        assert Count(h, Merge, rest[k + 1], rest[k]) >= 2;
      }
    }
  }

  /** A chain of merges up to b is followed down from b, and more than once if one of its steps was made more than once. */
  lemma {:induction false} ChainIsFed(h: History, q: seq<Id>)
    requires |q| >= 2 && MergeChain(h, q)
    ensures Feed(Level(h, Last(q), |q| - 2), q[0]) >= 1
    ensures HasDoubledStep(h, q) ==> Feed(Level(h, Last(q), |q| - 2), q[0]) >= 2
  {
    hide Count, Feed, JoinDown, Times;
    var b, m := Last(q), Count(h, Merge, q[1], q[0]);
    CountPositive(h, Merge, q[1], q[0]);
    if |q| == 2 {
      FirstFeed(h, b, q[0]);
    } else {
      ChainRest(h, q);
      ChainIsFed(h, q[1..]);
      assert Level(h, b, |q| - 2) == JoinDown(h, Level(h, b, |q| - 3));
      hide HasDoubledStep, MergeChain, Level;
      var f := Feed(Level(h, b, |q| - 3), q[1]);
      JoinFeedAtLeast(h, Level(h, b, |q| - 3), q[1], q[0]);
      StepFeeds(f, m);
    }
  }

  lemma StepFeeds(f: nat, m: nat)
    requires f >= 1 && m >= 1
    ensures Times(f, m) >= 1 && (f >= 2 || m >= 2 ==> Times(f, m) >= 2)
  {
    ProductAtLeast(f, m, if f >= 2 then 2 else 1, if f < 2 && m >= 2 then 2 else 1);
  }

  lemma ProductAtLeast(f: nat, m: nat, a: nat, b: nat)
    requires f >= a && m >= b
    ensures f * m >= a * b
  {
    assert f * m == a * b + a * (m - b) + (f - a) * m;
  }

  // ---- exact numbers, for well-formed histories ----

  lemma {:induction false} MergesOfChild(rows: seq<Row>, p: Id, x: Id)
    requires forall r :: r in rows && r.kind.Merge? && r.toMerge == x ==> r.mergedInto == p
    ensures Count(rows, Merge, p, x) == Rows(rows, Merge, x)
    ensures forall q :: q != p ==> Count(rows, Merge, q, x) == 0
  {
    if rows != [] {
      assert forall r :: r in rows[..|rows| - 1] ==> r in rows;
      MergesOfChild(rows[..|rows| - 1], p, x);
    }
  }

  lemma {:induction false} CountAtMostRows(rows: seq<Row>, kind: Kind, p: Id, x: Id)
    ensures Count(rows, kind, p, x) <= Rows(rows, kind, x)
  {
    if rows != [] {
      CountAtMostRows(rows[..|rows| - 1], kind, p, x);
    }
  }

  /** All merges of an id lead to the next id on its full path. */
  lemma MergesLeadToParent(h: History, p: Id, x: Id)
    requires WellFormed(h)
    ensures Count(h, Merge, p, x) == if |FullPath(h, x)| > 1 && FullPath(h, x)[1] == p then Rows(h, Merge, x) else 0
    ensures HasRow(h, Merge, p, x) <==> |FullPath(h, x)| > 1 && FullPath(h, x)[1] == p
  {
    WellFormedIsLinked(h);
    MergesAlternate(h, x);
    if x in MergedAway(h) {
      var m := MergeRowOf(h, x);
      PathStep(h, m);
      forall r | r in h && r.kind.Merge? && r.toMerge == x ensures r.mergedInto == m.mergedInto {
        OneParent(h, m, r);
      }
      MergesOfChild(h, m.mergedInto, x);
      assert FullPath(h, x)[1] == m.mergedInto;
    } else {
      FullOfUnmerged(h, x);
      CountAtMostRows(h, Merge, p, x);
    }
    CountPositive(h, Merge, p, x);
  }

  /** In how many ways the first n steps of a path can be made. */
  function Ways(h: History, p: seq<Id>, n: nat): nat
    requires n <= |p|
  {
    if n == 0 then 1 else Rows(h, Merge, p[0]) * Ways(h, p[1..], n - 1)
  }

  lemma {:induction false} OneWay(h: History, p: seq<Id>, n: nat)
    requires n <= |p| && forall k :: 0 <= k < n ==> Rows(h, Merge, p[k]) == 1
    ensures Ways(h, p, n) == 1
  {
    if n > 0 {
      OneWay(h, p[1..], n - 1);
    }
  }

  lemma {:induction false} RowsIntoWithin(h: History, y: Id)
    ensures forall t :: t in RowsInto(h, y) ==> t in h
  {
    if h != [] {
      RowsIntoWithin(h[..|h| - 1], y);
    }
  }

  lemma {:induction false} NotUnmergeWithin(rows: seq<Row>)
    ensures forall t :: t in NotUnmerge(rows) ==> t in rows
  {
    if rows != [] {
      NotUnmergeWithin(rows[..|rows| - 1]);
    }
  }

  lemma {:induction false} JoinWithin(h: History, level: seq<Row>)
    ensures forall t :: t in JoinDown(h, level) ==> t in h
  {
    if level != [] {
      JoinWithin(h, level[..|level| - 1]);
      RowsIntoWithin(h, level[|level| - 1].toMerge);
    }
  }

  lemma LevelWithin(h: History, b: Id, k: nat)
    ensures forall t :: t in Level(h, b, k) ==> t in h
  {
    if k == 0 {
      NotUnmergeWithin(RowsInto(h, b));
      RowsIntoWithin(h, b);
    } else {
      JoinWithin(h, Level(h, b, k - 1));
    }
  }

  lemma {:induction false} DeletesLeadToNil(h: History, p: Id, x: Id)
    requires Linked(h) && p != NIL_UUID
    ensures Count(h, Delete, p, x) == 0
  {
    CountPositive(h, Delete, p, x);
    if r :| r in h && r.kind.Delete? && r.mergedInto == p {
      LiveRows(h, r);
    }
  }

  /** The k-th working table leads to p exactly if p is k + 1 merges below b, once for every way to get there. */
  lemma {:induction false} FeedExact(h: History, b: Id, k: nat, p: Id)
    requires WellFormed(h) && b != NIL_UUID
    ensures var q := FullPath(h, p);
      Feed(Level(h, b, k), p) == if k + 1 < |q| && q[k + 1] == b then Ways(h, q, k + 1) else 0
    decreases k
  {
    hide WellFormed, FullPath, Feed, Level, Rows, Ways, Followed;
    var q := FullPath(h, p);
    if k == 0 {
      FirstFeed(h, b, p);
      FollowedExact(h, b, p);
      if |q| > 1 {
        WaysStep(h, q, 0);
      }
    } else {
      var y := if |q| > 1 then q[1] else b;
      FeedOnlyParent(h, b, k - 1, p, y);
      FollowedExact(h, y, p);
      if |q| > 1 {
        FeedExact(h, b, k - 1, y);
        FullSuffix(h, p, 1);
        if k + 1 < |q| {
          WaysStep(h, q, k);
        }
      }
    }
  }

  lemma FirstFeed(h: History, b: Id, p: Id)
    ensures Feed(Level(h, b, 0), p) == Followed(h, b, p)
  {
    RowsIntoFeed(h, b, p);
    NotUnmergeCounts(RowsInto(h, b), Merge, b, p);
  }

  lemma WaysStep(h: History, p: seq<Id>, n: nat)
    requires n < |p|
    ensures Ways(h, p, n + 1) == Times(Ways(h, p[1..], n), Rows(h, Merge, p[0])) && Ways(h, p, 0) == 1
    ensures n == 0 ==> Ways(h, p, n + 1) == Rows(h, Merge, p[0])
  {
    hide Rows;
  }

  /** The rows that are followed from p to y: the merges of p, if y is next on its full path. */
  lemma FollowedExact(h: History, y: Id, p: Id)
    requires WellFormed(h) && (y != NIL_UUID || (|FullPath(h, p)| > 1 && FullPath(h, p)[1] == y))
    ensures Followed(h, y, p) == if |FullPath(h, p)| > 1 && FullPath(h, p)[1] == y then Rows(h, Merge, p) else 0
  {
    hide WellFormed, FullPath, Count, Rows;
    WellFormedIsLinked(h);
    MergesLeadToParent(h, y, p);
    if |FullPath(h, p)| > 1 && FullPath(h, p)[1] == y {
      DeletesToParent(h, y, p);
    } else {
      DeletesLeadToNil(h, y, p);
    }
  }

  lemma FeedOnlyParent(h: History, b: Id, k: nat, p: Id, y: Id)
    requires WellFormed(h) && b != NIL_UUID && y == if |FullPath(h, p)| > 1 then FullPath(h, p)[1] else b
    ensures Feed(Level(h, b, k + 1), p) == Times(Feed(Level(h, b, k), y), Followed(h, y, p))
  {
    hide WellFormed, FullPath, Count, Feed, JoinDown, RowsInto, NotUnmerge, Rows;
    WellFormedIsLinked(h);
    LevelWithin(h, b, k);
    forall t | t in Level(h, b, k) && t.toMerge != y ensures Followed(h, t.toMerge, p) == 0 {
      LiveRows(h, t);
      DeletesLeadToNil(h, t.toMerge, p);
      MergesLeadToParent(h, t.toMerge, p);
    }
    JoinFeedOnly(h, Level(h, b, k), y, p);
  }

  lemma DeletesToParent(h: History, y: Id, p: Id)
    requires WellFormed(h) && |FullPath(h, p)| > 1 && FullPath(h, p)[1] == y
    ensures Count(h, Delete, y, p) == 0
  {
    WellFormedIsLinked(h);
    MergesLeadToParent(h, y, p);
    var m :| m in h && m.kind.Merge? && m.mergedInto == y && m.toMerge == p;
    LiveRows(h, m);
    DeletesLeadToNil(h, y, p);
  }

  /** p is led to exactly if it lies at most n merges below b, once for every way to get there. */
  lemma {:induction false} VisitsExact(h: History, b: Id, n: nat, p: Id, d: nat)
    requires WellFormed(h) && b != NIL_UUID && d < |FullPath(h, p)| && FullPath(h, p)[d] == b
    ensures Visits(h, b, n, p) == if 0 < d <= n then Ways(h, FullPath(h, p), d) else 0
    decreases n
  {
    hide WellFormed, FullPath, Level, Feed, Ways;
    if n > 0 {
      VisitsExact(h, b, n - 1, p, d);
      FeedExact(h, b, n - 1, p);
      FullDistinct(h, p);
    }
  }

  lemma {:induction false} NoVisits(h: History, b: Id, n: nat, p: Id)
    requires WellFormed(h) && b != NIL_UUID && b !in FullPath(h, p)
    ensures Visits(h, b, n, p) == 0
  {
    hide WellFormed, FullPath, Level, Feed, Ways;
    if n > 0 {
      NoVisits(h, b, n - 1, p);
      FeedExact(h, b, n - 1, p);
    }
  }
}
