/** When the factor an unmerge divides out is the product of the merges it takes back. */
module ConfidenceRevert {
  import opened Lists
  import opened MergeHistory
  import opened LineageQuery
  import opened UpwardQuery
  import opened Lineage
  import opened ProfileTables
  import opened Confidence

  // ---- the revert factor as a product over the rows above an id ----

  lemma MulSwap(a: real, b: real, c: real, d: real)
    ensures Mul(Mul(a, b), Mul(c, d)) == Mul(Mul(a, c), Mul(b, d))
  {
    hide Mul;
    MulAssoc(a, b, Mul(c, d));
    MulAssoc(b, c, d);
    MulAssoc(c, b, d);
    MulAssoc(a, c, Mul(b, d));
  }

  /** What one row contributes. */
  function Weight(e: Row): real {
    if e.factor == 0.0 then 1.0 else if e.kind.Unmerge? then 1.0 / e.factor else e.factor
  }

  lemma QuotientIsProduct(a: real, f: real)
    requires f != 0.0
    ensures a / f == a * (1.0 / f)
  {}

  lemma RevertSnoc(rows: seq<Row>, e: Row)
    ensures RevertFactor(rows + [e]) == Mul(RevertFactor(rows), Weight(e))
  {
    assert (rows + [e])[..|rows|] == rows;
    if e.factor != 0.0 {
      QuotientIsProduct(RevertFactor(rows), e.factor);
    }
  }

  lemma {:induction false} RevertConcat(a: seq<Row>, b: seq<Row>)
    ensures RevertFactor(a + b) == Mul(RevertFactor(a), RevertFactor(b))
  {
    if b == [] {
      assert a + b == a;
    } else {
      var b', e := b[..|b| - 1], b[|b| - 1];
      assert a + b == (a + b') + [e] && b == b' + [e];
      hide RevertFactor, Mul;
      RevertConcat(a, b');
      RevertSnoc(a + b', e);
      RevertSnoc(b', e);
      MulAssoc(RevertFactor(a), RevertFactor(b'), Weight(e));
    }
  }

  /** The product of the first n working tables that follow from one. */
  function LevelProducts(h: History, level: seq<Row>, n: nat): real
    decreases n
  {
    if n == 0 then 1.0 else Mul(RevertFactor(level), LevelProducts(h, JoinUp(h, level), n - 1))
  }

  lemma UpRowsStep(h: History, x: Id, k: nat)
    ensures UpLevel(h, x, k + 1) == JoinUp(h, UpLevel(h, x, k))
    ensures UpRows(h, x, k + 1) == UpRows(h, x, k) + UpLevel(h, x, k)
  {}

  lemma LevelProductsStep(h: History, level: seq<Row>, n: nat)
    ensures LevelProducts(h, level, n + 1) == Mul(RevertFactor(level), LevelProducts(h, JoinUp(h, level), n))
    ensures LevelProducts(h, level, 0) == 1.0
  {
    hide Mul, RevertFactor, JoinUp;
  }

  lemma {:induction false} UpRowsProduct(h: History, x: Id, k: nat, n: nat)
    ensures RevertFactor(UpRows(h, x, k + n)) == Mul(RevertFactor(UpRows(h, x, k)), LevelProducts(h, UpLevel(h, x, k), n))
    decreases n
  {
    hide RevertFactor, Mul, UpRows, UpLevel, LevelProducts, JoinUp;
    if n > 0 {
      UpRowsStep(h, x, k);
      LevelProductsStep(h, UpLevel(h, x, k), n - 1);
      UpRowsProduct(h, x, k + 1, n - 1);
      RevertConcat(UpRows(h, x, k), UpLevel(h, x, k));
      MulAssoc(RevertFactor(UpRows(h, x, k)), RevertFactor(UpLevel(h, x, k)), LevelProducts(h, UpLevel(h, x, k + 1), n - 1));
    } else {
      LevelProductsStep(h, UpLevel(h, x, k), 0);
      MulAssoc(RevertFactor(UpRows(h, x, k)), 1.0, 1.0);
    }
  }

  /** The product over all the levels above x, when the query for x ends. */
  lemma RevertIsLevels(h: History, x: Id, n: nat)
    requires !ReachesCycle(h, x) && n >= |h|
    ensures Revert(h, x) == LevelProducts(h, RowsFrom(h, x), n)
  {
    hide RevertFactor, Mul, LevelProducts, ReachesCycle, JoinUp, RowsFrom;
    UpwardQueryEndsIff(h, x);
    EmptyLevelStays(h, x, |h|, |h| + 1);
    EmptyLevelStays(h, x, |h|, n);
    UpRowsProduct(h, x, 0, n);
    NoRowsRevert();
    MulAssoc(LevelProducts(h, RowsFrom(h, x), n), 1.0, 1.0);
  }

  lemma NoRowsRevert()
    ensures RevertFactor([]) == 1.0
  {}

  lemma JoinUpSnoc(h: History, level: seq<Row>, t: Row)
    ensures JoinUp(h, level + [t]) == JoinUp(h, level) + RowsFrom(h, t.mergedInto)
  {
    hide RowsFrom;
    assert (level + [t])[..|level|] == level;
  }

  lemma {:induction false} JoinUpConcat(h: History, a: seq<Row>, b: seq<Row>)
    ensures JoinUp(h, a + b) == JoinUp(h, a) + JoinUp(h, b)
  {
    if b == [] {
      assert a + b == a;
    } else {
      var b', t := b[..|b| - 1], b[|b| - 1];
      assert b == b' + [t] && a + b == (a + b') + [t];
      hide JoinUp, RowsFrom;
      JoinUpConcat(h, a, b');
      JoinUpSnoc(h, a + b', t);
      JoinUpSnoc(h, b', t);
    }
  }

  lemma {:induction false} LevelProductsConcat(h: History, a: seq<Row>, b: seq<Row>, n: nat)
    ensures LevelProducts(h, a + b, n) == Mul(LevelProducts(h, a, n), LevelProducts(h, b, n))
    decreases n
  {
    if n > 0 {
      hide RevertFactor, Mul, JoinUp;
      RevertConcat(a, b);
      JoinUpConcat(h, a, b);
      LevelProductsConcat(h, JoinUp(h, a), JoinUp(h, b), n - 1);
      MulSwap(RevertFactor(a), RevertFactor(b), LevelProducts(h, JoinUp(h, a), n - 1), LevelProducts(h, JoinUp(h, b), n - 1));
    }
  }

  /** The factor an unmerge of x divides out. */
  function Revert(h: History, x: Id): real {
    RevertFactor(MergesLeadingToParent(h, x))
  }

  /** The rows of one id, each with all that lies above it. */
  function Through(h: History, rows: seq<Row>): real {
    if rows == [] then 1.0
    else Mul(Through(h, rows[..|rows| - 1]), Mul(Weight(rows[|rows| - 1]), Revert(h, rows[|rows| - 1].mergedInto)))
  }

  lemma LevelProductsOfRow(h: History, r: Row)
    requires !ReachesCycle(h, r.mergedInto)
    ensures LevelProducts(h, [r], |h| + 1) == Mul(Weight(r), Revert(h, r.mergedInto))
  {
    hide RevertFactor, Mul, LevelProducts, ReachesCycle, Weight, Revert;
    assert [] + [r] == [r];
    NoRowsRevert();
    RevertSnoc([], r);
    MulAssoc(Weight(r), 1.0, 1.0);
    JoinOne(h, r);
    LevelProductsStep(h, [r], |h|);
    RevertIsLevels(h, r.mergedInto, |h|);
  }

  lemma {:induction false} LevelProductsOfRows(h: History, rows: seq<Row>)
    requires forall r :: r in rows ==> !ReachesCycle(h, r.mergedInto)
    ensures LevelProducts(h, rows, |h| + 1) == Through(h, rows)
  {
    hide ReachesCycle, Revert, Mul;
    if rows == [] {
      NothingAbove(h, |h| + 1);
    } else {
      var before, r := rows[..|rows| - 1], rows[|rows| - 1];
      assert rows == before + [r];
      LevelProductsOfRows(h, before);
      hide LevelProducts;
      LevelProductsOfRow(h, r);
      LevelProductsConcat(h, before, [r], |h| + 1);
    }
  }

  lemma {:induction false} NothingAbove(h: History, n: nat)
    ensures LevelProducts(h, [], n) == 1.0
  {
    if n > 0 {
      NothingAbove(h, n - 1);
    }
  }

  /** For every history on which the queries end: each row of x counts once, times what is divided out above it. */
  lemma RevertIsThrough(h: History, x: Id)
    requires !ReachesCycle(h, x) && forall r :: r in h && r.toMerge == x ==> !ReachesCycle(h, r.mergedInto)
    ensures Revert(h, x) == Through(h, RowsFrom(h, x))
  {
    hide ReachesCycle, Through, LevelProducts, Revert;
    RowsFromRows(h, x);
    LevelProductsOfRows(h, RowsFrom(h, x));
    RevertIsLevels(h, x, |h| + 1);
  }

  // ---- one more row ----

  /** Each unmerge row carries what was divided out, and deletes carry no factor. */
  ghost predicate Recorded(h: History) {
    h == [] || (Recorded(h[..|h| - 1]) && RowRecorded(h[..|h| - 1], h[|h| - 1]))
  }

  ghost predicate RowRecorded(h: History, e: Row) {
    match e.kind
    case Merge => e.factor != 0.0
    case Unmerge => e.factor == Revert(h, e.toMerge)
    case Delete => e.factor == 0.0
  }

  lemma RecordedSnoc(h: History, e: Row)
    ensures Recorded(h + [e]) <==> Recorded(h) && RowRecorded(h, e)
  {
    assert (h + [e])[..|h|] == h;
  }

  lemma RevertNonZero(h: History, x: Id)
    ensures Revert(h, x) != 0.0
  {}

  /** The factor is made of the rows of the id itself. */
  lemma RevertOfRows(h: History, x: Id)
    requires WellFormed(h)
    ensures Revert(h, x) == Through(h, RowsFrom(h, x))
  {
    hide WellFormed, Revert, Through, ReachesCycle;
    WellFormedEnds(h, x);
    forall r | r in h && r.toMerge == x ensures !ReachesCycle(h, r.mergedInto) {
      WellFormedEnds(h, r.mergedInto);
    }
    RevertIsThrough(h, x);
  }

  lemma {:induction false} ThroughSame(g: History, h: History, rows: seq<Row>)
    requires forall r :: r in rows ==> Revert(g, r.mergedInto) == Revert(h, r.mergedInto)
    ensures Through(g, rows) == Through(h, rows)
  {
    hide Revert, Mul, Weight;
    if rows != [] {
      assert forall r :: r in rows[..|rows| - 1] ==> r in rows;
      ThroughSame(g, h, rows[..|rows| - 1]);
    }
  }

  lemma ThroughAppend(h: History, rows: seq<Row>, e: Row)
    ensures Through(h, rows + [e]) == Mul(Through(h, rows), Mul(Weight(e), Revert(h, e.mergedInto)))
  {
    hide Revert, Mul, Weight;
    assert (rows + [e])[..|rows|] == rows;
  }

  lemma RowsFromSnoc(h: History, e: Row, x: Id)
    ensures RowsFrom(h + [e], x) == RowsFrom(h, x) + if e.toMerge == x then [e] else []
  {
    assert (h + [e])[..|h|] == h;
  }

  /** Nothing leads up from the id that deletes name. */
  lemma NothingFromNil(h: History)
    requires WellFormed(h)
    ensures Revert(h, NIL_UUID) == 1.0
  {
    hide WellFormed, Revert;
    WellFormedIsLinked(h);
    RowsFromRows(h, NIL_UUID);
    forall r | r in h ensures r.toMerge != NIL_UUID {
      LiveRows(h, r);
    }
    if RowsFrom(h, NIL_UUID) != [] {
      TheFirst(RowsFrom(h, NIL_UUID));
    }
    RevertOfRows(h, NIL_UUID);
  }

  /** What a row leads to lies strictly above the id it is a row of. */
  lemma RowTarget(h: History, r: Row)
    requires WellFormed(h) && r in h && r.mergedInto != NIL_UUID
    ensures r.mergedInto in FullPath(h, r.toMerge) && |FullPath(h, r.mergedInto)| < |FullPath(h, r.toMerge)|
  {
    WellFormedIsLinked(h);
    LiveRows(h, r);
    RowClimbs(h, r);
    if r.kind.Merge? {
      PathStep(h, r);
      assert FullPath(h, r.toMerge)[1] == r.mergedInto;
    } else {
      UnmergedFromAbove(h, r);
    }
  }

  /** A row that contributes nothing: it has no weight, and there is nothing above it. */
  ghost predicate Inert(h: History, e: Row) {
    Mul(Weight(e), Revert(h + [e], e.mergedInto)) == 1.0
  }

  /** Away from the id that moves, and everywhere if the row is inert, what is divided out stays. */
  lemma {:induction false} RevertSame(h: History, e: Row, b: Id)
    requires WellFormed(h) && WellFormed(h + [e]) && (e.toMerge !in FullPath(h + [e], b) || Inert(h, e))
    ensures Revert(h + [e], b) == Revert(h, b)
    decreases |FullPath(h + [e], b)|
  {
    hide WellFormed, Revert, FullPath, Through, Weight, Inert;
    var g, rows := h + [e], RowsFrom(h, b);
    RowsFromRows(h, b);
    NothingFromNil(g);
    NothingFromNil(h);
    assert FullPath(g, b)[0] == b;
    forall r | r in rows ensures Revert(g, r.mergedInto) == Revert(h, r.mergedInto) {
      if r.mergedInto != NIL_UUID {
        assert r in g;
        RowTarget(g, r);
        if e.toMerge in FullPath(g, r.mergedInto) {
          FullTransitive(g, b, r.mergedInto, e.toMerge);
        }
        RevertSame(h, e, r.mergedInto);
      }
    }
    ThroughSame(g, h, rows);
    RevertOfRows(h, b);
    RevertOfRows(g, b);
    RowsFromSnoc(h, e, b);
    if e.toMerge == b {
      InertAdds(h, e, rows);
    } else {
      assert rows + [] == rows;
    }
  }

  lemma InertAdds(h: History, e: Row, rows: seq<Row>)
    requires Inert(h, e)
    ensures Through(h + [e], rows + [e]) == Through(h + [e], rows)
  {
    ThroughAppend(h + [e], rows, e);
    MulAssoc(Through(h + [e], rows), 1.0, 1.0);
  }

  /** Above the id that moves nothing changes. */
  lemma TargetSame(h: History, e: Row)
    requires WellFormed(h) && WellFormed(h + [e])
    ensures Revert(h + [e], e.mergedInto) == Revert(h, e.mergedInto)
    ensures e.kind.Delete? ==> Revert(h + [e], e.mergedInto) == 1.0
  {
    hide WellFormed, Revert, FullPath;
    var g := h + [e];
    assert e in g;
    WellFormedIsLinked(g);
    LiveRows(g, e);
    NothingFromNil(g);
    NothingFromNil(h);
    if e.mergedInto != NIL_UUID {
      RowTarget(g, e);
      if e.toMerge in FullPath(g, e.mergedInto) {
        var k := FullIndex(g, e.mergedInto, e.toMerge);
      }
      RevertSame(h, e, e.mergedInto);
    }
  }

  /** One more row of x multiplies what is divided out for x by the row's weight and by what lies above it. */
  lemma RevertOfMoved(h: History, e: Row)
    requires WellFormed(h) && WellFormed(h + [e])
    ensures Revert(h + [e], e.toMerge) == Mul(Revert(h, e.toMerge), Mul(Weight(e), Revert(h, e.mergedInto)))
  {
    hide WellFormed, Revert, FullPath, Through, Weight, Mul;
    var g, x := h + [e], e.toMerge;
    TargetSame(h, e);
    RowsFromRows(h, x);
    NothingFromNil(g);
    NothingFromNil(h);
    forall r | r in RowsFrom(h, x) ensures Revert(g, r.mergedInto) == Revert(h, r.mergedInto) {
      if r.mergedInto != NIL_UUID {
        assert r in g;
        RowTarget(g, r);
        if x in FullPath(g, r.mergedInto) {
          var k := FullIndex(g, r.mergedInto, x);
        }
        RevertSame(h, e, r.mergedInto);
      }
    }
    ThroughSame(g, h, RowsFrom(h, x));
    RevertOfRows(h, x);
    RevertOfRows(g, x);
    RowsFromSnoc(h, e, x);
    ThroughAppend(g, RowsFrom(h, x), e);
  }

  // ---- when the two products agree ----

  /** What an unmerge of b would divide out is what was merged onto b and not divided out yet. */
  ghost predicate Right(h: History, b: Id) {
    Revert(h, b) == LiveProduct(h, b)
  }

  lemma {:induction false} MergedNotDeleted(h: History, y: Id)
    requires Linked(h) && y in MergedAway(h) && y !in EverUnmerged(h)
    ensures y !in Deleted(h)
  {
    var h', e := Unsnoc(h);
    MergesAlternate(h', y);
    if y in MergedAway(h') {
      MergedNotDeleted(h', y);
    }
  }

  /** The merge of an id that was never unmerged: the first step of its path, and its only row. */
  lemma OnlyMerge(h: History, y: Id) returns (m: Row)
    requires WellFormed(h) && Recorded(h) && y in MergedAway(h) && y !in EverUnmerged(h)
    ensures RowsFrom(h, y) == [m] && m in h && m.kind.Merge? && m.factor != 0.0
    ensures |LivePath(h, y)| > 1 && |FullPath(h, y)| > 1 && LivePath(h, y)[1] == m.mergedInto == FullPath(h, y)[1]
    ensures LiveSteps(h, y)[0].factor == m.factor
  {
    hide WellFormed, FullPath, LivePath, LiveSteps, RowsFrom;
    WellFormedIsLinked(h);
    MergedNotDeleted(h, y);
    RowsOfUndisturbed(h, y);
    MergesAlternate(h, y);
    LiveWithinFull(h, y);
    m := RowsFrom(h, y)[0];
    PathStep(h, m);
    StepsInHistory(h, y);
    assert StepOf(h, y, 0);
    RowsFromRows(h, y);
    FactorOfMerge(h, m);
  }

  lemma {:induction false} FactorOfMerge(h: History, m: Row)
    requires Recorded(h) && m in h && m.kind.Merge?
    ensures m.factor != 0.0
  {
    var h', e := Unsnoc(h);
    if m in h' {
      FactorOfMerge(h', m);
    }
  }

  lemma {:induction false} RecordedIsNonZero(h: History)
    requires Recorded(h)
    ensures FactorsNonZero(h)
  {
    forall m | m in h && m.kind.Merge? ensures m.factor != 0.0 {
      FactorOfMerge(h, m);
    }
  }

  lemma LiveProductStep(h: History, y: Id)
    requires Linked(h) && |LivePath(h, y)| > 1
    ensures LiveProduct(h, y) == Mul(LiveSteps(h, y)[0].factor, LiveProduct(h, LivePath(h, y)[1]))
  {
    hide Linked, LivePath, LiveSteps;
    var steps := LiveSteps(h, y);
    StepsSuffix(h, y, 1);
    assert steps == [steps[0]] + steps[1..];
    SinceConcat([steps[0]], steps[1..], 0);
    assert [steps[0]][..0] == [];
  }

  lemma RevertOfOnly(h: History, y: Id, m: Row)
    requires WellFormed(h) && RowsFrom(h, y) == [m] && m.kind.Merge? && m.factor != 0.0
    ensures Revert(h, y) == Mul(m.factor, Revert(h, m.mergedInto))
  {
    hide WellFormed, Revert, Mul;
    RevertOfRows(h, y);
    assert [] + [m] == [m];
    ThroughAppend(h, [], m);
    MulAssoc(Mul(m.factor, Revert(h, m.mergedInto)), 1.0, 1.0);
  }

  /** Below an id for which the products agree they agree as long as nothing was unmerged. */
  lemma {:induction false} RightBelow(h: History, b: Id, j: nat)
    requires WellFormed(h) && Recorded(h) && j < |FullPath(h, b)| && Right(h, FullPath(h, b)[j])
    requires forall i :: 0 <= i < j ==> FullPath(h, b)[i] !in EverUnmerged(h)
    ensures Right(h, b)
    decreases j
  {
    hide WellFormed, Recorded, FullPath, LivePath, LiveSteps, Revert, LiveProduct, EverUnmerged;
    if j > 0 {
      var p := FullPath(h, b);
      FullNodesMerged(h, b);
      assert p[0] == b;
      var m := OnlyMerge(h, b);
      var y := m.mergedInto;
      FullSuffix(h, b, 1);
      forall i | 0 <= i < j - 1 ensures FullPath(h, y)[i] !in EverUnmerged(h) {
        assert FullPath(h, y)[i] == p[i + 1];
      }
      RightBelow(h, y, j - 1);
      RevertOfOnly(h, b, m);
      WellFormedIsLinked(h);
      LiveProductStep(h, b);
    }
  }

  lemma LiveProductSame(h: History, e: Row, b: Id)
    requires WellFormed(h) && WellFormed(h + [e]) && (e.toMerge !in FullPath(h + [e], b) || e.kind.Delete?)
    ensures LiveProduct(h + [e], b) == LiveProduct(h, b)
  {
    hide WellFormed, FullPath, Since, LivePath, LiveSteps;
    SnocPaths(h, e, b);
    StepsSnoc(h, e, b);
    LiveWithinFull(h, b);
    assert FullPath(h, b) <= FullPath(h + [e], b);
    if !e.kind.Delete? {
      PrefixAvoids(LivePath(h, b), FullPath(h + [e], b), e.toMerge);
      StepsUntouched(LivePath(h, b), LiveSteps(h, b), e, |h|);
    }
  }

  lemma PrefixAvoids(p: seq<Id>, q: seq<Id>, x: Id)
    requires p <= q && x !in q
    ensures x !in p
  {
    assert forall i :: 0 <= i < |p| ==> p[i] == q[i];
  }

  lemma StepsUntouched(p: seq<Id>, steps: seq<Step>, e: Row, at: nat)
    requires |steps| + 1 == |p| && e.toMerge !in p
    ensures StepsAfterRow(p, steps, e, at) == steps
  {
    assert Last(p) in p;
  }

  lemma RootProduct(h: History, r: Id)
    requires Linked(h) && Root(h, r) == r
    ensures LiveProduct(h, r) == 1.0
  {
    MergesAlternate(h, r);
  }

  /** For the id that moves, the products agree again if they agreed for it and for what it moves to. */
  lemma RightAfterMove(h: History, e: Row)
    requires WellFormed(h) && WellFormed(h + [e]) && RowRecorded(h, e) && !e.kind.Delete?
    requires Right(h, e.toMerge) && Right(h, e.mergedInto)
    ensures Right(h + [e], e.toMerge)
  {
    hide WellFormed, Revert, FullPath, Mul, Since, Traceable;
    var x, y := e.toMerge, e.mergedInto;
    WellFormedIsLinked(h);
    Snoc(h, e);
    RootProduct(h, y);
    RevertOfMoved(h, e);
    MulAssoc(Weight(e), 1.0, 1.0);
    if e.kind.Merge? {
      RootProduct(h, x);
      MergesAlternate(h, x);
      StepsSnoc(h, e, x);
      assert LiveSteps(h + [e], x) == [Step(|h|, e.factor)];
      OneStepProduct(Step(|h|, e.factor));
    } else {
      WellFormedIsLinked(h + [e]);
      StopAtStart(LivePath(h, x), x);
      RootProduct(h + [e], x);
      RevertNonZero(h, x);
      InverseTimes(e.factor);
    }
  }

  lemma StopAtStart(p: seq<Id>, x: Id)
    requires p != [] && p[0] == x
    ensures StopAt(p, x) == [x]
  {}

  lemma OneStepProduct(s: Step)
    ensures Since([s], 0) == s.factor
  {
    assert [s][..0] == [];
  }

  lemma InverseTimes(f: real)
    requires f != 0.0
    ensures Mul(f, 1.0 / f) == 1.0
  {}

  /** A row with factor one, between ids for which the products agree, changes nothing. */
  lemma OneIsInert(h: History, e: Row)
    requires WellFormed(h) && WellFormed(h + [e]) && RowRecorded(h, e)
    requires e.kind.Delete? || (e.factor == 1.0 && Right(h, e.mergedInto))
    ensures Inert(h, e)
  {
    hide WellFormed, Revert, FullPath, Since, Traceable;
    TargetSame(h, e);
    if !e.kind.Delete? {
      WellFormedIsLinked(h);
      Snoc(h, e);
      RootProduct(h, e.mergedInto);
    }
  }

  lemma OneKeepsProduct(h: History, e: Row, b: Id)
    requires WellFormed(h) && WellFormed(h + [e]) && RowRecorded(h, e) && e.factor == 1.0 && !e.kind.Delete?
    requires Right(h, e.toMerge)
    ensures LiveProduct(h + [e], b) == LiveProduct(h, b)
  {
    hide WellFormed, Revert, FullPath, Since, LiveSteps, LivePath;
    WellFormedIsLinked(h);
    StepsSnoc(h, e, b);
    if e.kind.Merge? {
      SinceAppend(LiveSteps(h, b), Step(|h|, 1.0), 0);
    } else {
      StepsAfterUnmerge(h, e, b, 0);
    }
  }

  /** No id that was ever unmerged lies strictly below x on the way up from b. */
  ghost predicate NothingFreedBelow(h: History, p: seq<Id>, x: Id) {
    forall i, j :: 0 <= i < j < |p| && p[j] == x ==> p[i] !in EverUnmerged(h)
  }

  /** One more row: the products go on agreeing for b if the row has factor one, or no id below the one that moves
      was ever unmerged. */
  lemma RightStep(h: History, e: Row, b: Id)
    requires WellFormed(h) && WellFormed(h + [e]) && Recorded(h + [e]) && Right(h, b)
    requires e.toMerge in FullPath(h + [e], b) && !e.kind.Delete? ==> Right(h, e.toMerge) && Right(h, e.mergedInto)
    requires e.kind.Delete? || e.factor == 1.0 || NothingFreedBelow(h, FullPath(h + [e], b), e.toMerge)
    ensures Right(h + [e], b)
  {
    hide WellFormed, Revert, LiveProduct, FullPath, Recorded, Inert;
    RecordedSnoc(h, e);
    if e.toMerge !in FullPath(h + [e], b) || e.kind.Delete? {
      if e.kind.Delete? {
        OneIsInert(h, e);
      }
      RevertSame(h, e, b);
      LiveProductSame(h, e, b);
    } else if e.factor == 1.0 {
      OneIsInert(h, e);
      RevertSame(h, e, b);
      OneKeepsProduct(h, e, b);
    } else {
      RightAfterMove(h, e);
      var j := FullIndex(h + [e], b, e.toMerge);
      Snoc(h, e);
      FullDistinct(h + [e], b);
      RightBelow(h + [e], b, j);
    }
  }

  // ---- from the top down ----

  /** On the way up from b, once an id was unmerged nothing above it was merged or unmerged with a factor other than one. */
  ghost predicate TopDown(h: History, b: Id) {
    forall s, t :: 0 <= s < t < |h| && h[s].kind.Unmerge? && Moves(h[t]) ==> !StrictlyBelow(FullPath(h, b), h[s].toMerge, h[t].toMerge)
  }

  predicate Moves(e: Row) {
    !e.kind.Delete? && e.factor != 1.0
  }

  ghost predicate StrictlyBelow(p: seq<Id>, z: Id, x: Id) {
    exists i, j :: 0 <= i < j < |p| && p[i] == z && p[j] == x
  }

  lemma BelowOnPart(p: seq<Id>, k: nat, n: nat, z: Id, x: Id)
    requires k <= n <= |p|
    ensures StrictlyBelow(p[k..n], z, x) ==> StrictlyBelow(p, z, x)
  {
    var q := p[k..n];
    if StrictlyBelow(q, z, x) {
      var i, j :| 0 <= i < j < |q| && q[i] == z && q[j] == x;
      assert p[k + i] == z && p[k + j] == x;
    }
  }

  lemma TopDownAbove(h: History, b: Id, y: Id)
    requires WellFormed(h) && TopDown(h, b) && y in FullPath(h, b)
    ensures TopDown(h, y)
  {
    hide WellFormed, FullPath;
    var p, q := FullPath(h, b), FullPath(h, y);
    var k := FullIndex(h, b, y);
    forall s, t | 0 <= s < t < |h| && h[s].kind.Unmerge? && Moves(h[t]) ensures !StrictlyBelow(q, h[s].toMerge, h[t].toMerge) {
      BelowOnPart(p, k, |p|, h[s].toMerge, h[t].toMerge);
      assert q == p[k..|p|];
    }
  }

  lemma TopDownBefore(h: History, e: Row, b: Id)
    requires TopDown(h + [e], b)
    ensures TopDown(h, b)
    ensures Moves(e) ==> NothingFreedBelow(h, FullPath(h + [e], b), e.toMerge)
  {
    hide FullPath;
    var g := h + [e];
    Snoc(h, e);
    var p, q := FullPath(g, b), FullPath(h, b);
    assert q <= p;
    forall s, t | 0 <= s < t < |h| && h[s].kind.Unmerge? && Moves(h[t]) ensures !StrictlyBelow(q, h[s].toMerge, h[t].toMerge) {
      assert g[s] == h[s] && g[t] == h[t] && q == p[0..|q|];
      BelowOnPart(p, 0, |q|, h[s].toMerge, h[t].toMerge);
    }
    if Moves(e) {
      forall i, j | 0 <= i < j < |p| && p[j] == e.toMerge ensures p[i] !in EverUnmerged(h) {
        assert StrictlyBelow(p, p[i], e.toMerge) && g[|h|] == e;
        forall s | 0 <= s < |h| && h[s].kind.Unmerge? ensures h[s].toMerge != p[i] {
          assert g[s] == h[s];
        }
        assert forall r :: r in h && r.kind.Unmerge? ==> r.toMerge != p[i];
      }
    }
  }

  /** For every history that can be followed: an unmerge of b divides out exactly the product of the merges on the live path
      of b, if on the way up from b unmerges went from the top down. */
  lemma {:induction false} TopDownIsRight(h: History, b: Id)
    requires WellFormed(h) && Recorded(h) && TopDown(h, b)
    ensures Right(h, b)
    decreases |h|, 1
  {
    hide WellFormed, Recorded, Revert, LiveProduct, TopDown, FullPath, NothingFreedBelow;
    if h == [] {
      NoHistory(b);
    } else {
      var h', e := Unsnoc(h);
      RecordedSnoc(h', e);
      TopDownBefore(h', e, b);
      TopDownIsRight(h', b);
      if e.toMerge in FullPath(h, b) && !e.kind.Delete? {
        TopDownForBoth(h', e, b);
        TopDownIsRight(h', e.toMerge);
        TopDownIsRight(h', e.mergedInto);
      }
      RightStep(h', e, b);
    }
  }

  lemma NoHistory(b: Id)
    ensures Right([], b)
  {
    assert UpRows([], b, 0) == [] && UpLevel([], b, 0) == [];
    assert MergesLeadingToParent([], b) == [];
  }

  lemma TopDownForBoth(h: History, e: Row, b: Id)
    requires WellFormed(h + [e]) && TopDown(h + [e], b) && e.toMerge in FullPath(h + [e], b) && !e.kind.Delete?
    ensures TopDown(h, e.toMerge) && TopDown(h, e.mergedInto)
  {
    hide WellFormed, TopDown, FullPath;
    var g := h + [e];
    assert e in g;
    WellFormedIsLinked(g);
    LiveRows(g, e);
    RowTarget(g, e);
    TopDownAbove(g, b, e.toMerge);
    TopDownAbove(g, e.toMerge, e.mergedInto);
    TopDownBefore(h, e, e.toMerge);
    TopDownBefore(h, e, e.mergedInto);
  }

  // ---- the condition on one more row is exact ----

  ghost predicate AllRight(h: History) {
    forall b :: Right(h, b)
  }

  ghost predicate PositiveFactors(h: History) {
    forall r :: r in h && r.kind.Merge? ==> r.factor > 0.0
  }

  /** No other id that was ever unmerged has x above it. */
  ghost predicate NothingFreedUnder(h: History, x: Id) {
    forall z :: z in EverUnmerged(h) && z != x ==> x !in FullPath(h, z)
  }

  function Pow(a: real, n: nat): real {
    if n == 0 then 1.0 else Mul(Pow(a, n - 1), a)
  }

  lemma {:induction false} PowIsNotOne(a: real, n: nat)
    requires a > 0.0 && a != 1.0 && n >= 1
    ensures Pow(a, n) > 0.0 && (if a > 1.0 then Pow(a, n) >= a else Pow(a, n) <= a)
  {
    if n > 1 {
      PowIsNotOne(a, n - 1);
      var q := Pow(a, n - 1);
      assert q * a > 0.0;
      if a > 1.0 {
        assert q * a >= 1.0 * a;
      } else {
        assert (1.0 - q) * a >= 0.0;
        assert q * a <= 1.0 * a;
      }
    } else {
      assert Pow(a, 1) == 1.0 * a;
    }
  }

  /** How many of the rows lead to an id that hangs below x. */
  function Touched(h: History, rows: seq<Row>, x: Id): nat {
    if rows == [] then 0
    else Touched(h, rows[..|rows| - 1], x) + if x in LivePath(h, rows[|rows| - 1].mergedInto) then 1 else 0
  }

  /** What a factor becomes when those below x change by a. */
  function Changed(h: History, x: Id, y: Id, a: real): real {
    if HangsBelow(h, x, y) then a else 1.0
  }

  lemma {:induction false} ThroughChanges(g: History, h: History, rows: seq<Row>, x: Id, a: real)
    requires forall r :: r in rows ==> Revert(g, r.mergedInto) == Mul(Revert(h, r.mergedInto), Changed(h, x, r.mergedInto, a))
    ensures Through(g, rows) == Mul(Through(h, rows), Pow(a, Touched(h, rows, x)))
  {
    hide Revert, Weight, Mul;
    MulAssoc(1.0, 1.0, 1.0);
    if rows != [] {
      var before, r := rows[..|rows| - 1], rows[|rows| - 1];
      assert forall q :: q in before ==> q in rows;
      ThroughChanges(g, h, before, x, a);
      var w, n := Mul(Weight(r), Revert(h, r.mergedInto)), Touched(h, before, x);
      assert r in rows;
      MulAssoc(Weight(r), Revert(h, r.mergedInto), Changed(h, x, r.mergedInto, a));
      MulSwap(Through(h, before), Pow(a, n), w, Changed(h, x, r.mergedInto, a));
      MulAssoc(Pow(a, n), 1.0, 1.0);
    }
  }

  /** What e changes for the ids below the one that moves. */
  function Change(e: Row): real
    requires e.factor != 0.0
  {
    if e.kind.Merge? then e.factor else 1.0 / e.factor
  }

  lemma LiveProductChanges(h: History, e: Row, y: Id)
    requires Linked(h) && Linkable(h, e) && !e.kind.Delete? && e.factor != 0.0
    requires e.kind.Unmerge? ==> e.factor == LiveProduct(h, e.toMerge)
    ensures LiveProduct(h + [e], y) == Mul(LiveProduct(h, y), Changed(h, e.toMerge, y, Change(e)))
  {
    hide Linked, Since, LivePath, LiveSteps;
    var x, g := e.toMerge, h + [e];
    StepsSnoc(h, e, y);
    MulAssoc(LiveProduct(h, y), 1.0, 1.0);
    if e.kind.Merge? {
      SinceAppend(LiveSteps(h, y), Step(|h|, e.factor), 0);
      EndsAtRoot(h, x, y);
    } else {
      StepsAfterUnmerge(h, e, y, 0);
      InverseTimes(e.factor);
      MulAssoc(LiveProduct(g, y), e.factor, 1.0 / e.factor);
      MulAssoc(LiveProduct(g, y), 1.0, 1.0);
    }
  }

  lemma EndsAtRoot(h: History, x: Id, y: Id)
    requires Linked(h) && Root(h, x) == x
    ensures HangsBelow(h, x, y) <==> Last(LivePath(h, y)) == x
  {
    MergesAlternate(h, x);
    var p := LivePath(h, y);
    assert Last(p) in p;
    if x in p {
      var k :| 0 <= k < |p| && p[k] == x;
      LiveSuffix(h, y, k);
    }
  }

  /** Through ids that were never unmerged the live path goes as far as the full path. */
  lemma ReachesUp(h: History, p: Id, k: nat)
    requires WellFormed(h) && k < |FullPath(h, p)| && forall i :: 0 <= i < k ==> FullPath(h, p)[i] !in EverUnmerged(h)
    ensures FullPath(h, p)[k] in LivePath(h, p)
  {
    hide WellFormed, Linked, FullPath, LivePath;
    WellFormedIsLinked(h);
    LiveWithinFull(h, p);
    FullNodesMerged(h, p);
    LiveNodes(h, p);
    MergesAlternate(h, Root(h, p));
    var n := |LivePath(h, p)| - 1;
    assert FullPath(h, p)[n] == Root(h, p);
    if n < k {
      CutWasUnmerged(h, Root(h, p));
    }
    assert LivePath(h, p)[k] in LivePath(h, p);
  }

  lemma {:induction false} CutWasUnmerged(h: History, x: Id)
    requires x in Cuts(h)
    ensures x in EverUnmerged(h)
  {
    var h', e := Unsnoc(h);
    if x in Cuts(h') {
      CutWasUnmerged(h', x);
    }
  }

  /** The id closest below the end that was ever unmerged. */
  lemma {:induction false} HighestFreed(h: History, p: seq<Id>, i: nat, j: nat) returns (k: nat)
    requires i < j < |p| && p[i] in EverUnmerged(h)
    ensures i <= k < j && p[k] in EverUnmerged(h) && forall l :: k < l < j ==> p[l] !in EverUnmerged(h)
    decreases j
  {
    if p[j - 1] in EverUnmerged(h) {
      k := j - 1;
    } else {
      k := HighestFreed(h, p, i, j - 1);
    }
  }

  lemma {:induction false} TouchedByMerges(h: History, rows: seq<Row>, x: Id, z: Id, p: Id)
    requires x in LivePath(h, p)
    requires forall r :: r in rows && r.kind.Merge? && r.toMerge == z ==> r.mergedInto == p
    ensures Touched(h, rows, x) >= Rows(rows, Merge, z)
  {
    if rows != [] {
      assert forall r :: r in rows[..|rows| - 1] ==> r in rows;
      TouchedByMerges(h, rows[..|rows| - 1], x, z, p);
    }
  }

  lemma {:induction false} RowsOfOwn(h: History, kind: Kind, x: Id)
    ensures Rows(RowsFrom(h, x), kind, x) == Rows(h, kind, x)
  {
    if h != [] {
      var before, e := RowsFrom(h[..|h| - 1], x), h[|h| - 1];
      RowsOfOwn(h[..|h| - 1], kind, x);
      if e.toMerge == x {
        assert (before + [e])[..|before|] == before;
      } else {
        assert before + [] == before;
      }
    }
  }

  /** If the products agree before and after, then what is divided out changes as the live products do. */
  lemma RevertChanges(h: History, e: Row, y: Id)
    requires WellFormed(h) && WellFormed(h + [e]) && Recorded(h + [e]) && !e.kind.Delete?
    requires Right(h, y) && Right(h, e.toMerge) && Right(h + [e], y)
    ensures e.factor != 0.0 && Revert(h + [e], y) == Mul(Revert(h, y), Changed(h, e.toMerge, y, Change(e)))
  {
    hide WellFormed, Recorded, Revert, LiveProduct, Traceable;
    RecordedSnoc(h, e);
    RevertNonZero(h, e.toMerge);
    WellFormedIsLinked(h);
    Snoc(h, e);
    LiveProductChanges(h, e, y);
  }

  /** An id that was ever unmerged, with only ids above it that were not, up to one that moves: its rows are touched more
      often than its live product changes. */
  lemma FreedIsTouched(h: History, x: Id, z: Id, k: nat)
    requires WellFormed(h) && z in EverUnmerged(h) && 0 < k < |FullPath(h, z)| && FullPath(h, z)[k] == x
    requires forall i :: 0 < i < k ==> FullPath(h, z)[i] !in EverUnmerged(h)
    ensures Touched(h, RowsFrom(h, z), x) >= if HangsBelow(h, x, z) then 2 else 1
  {
    hide WellFormed, Linked, FullPath, LivePath, RowsFrom, Rows, Touched;
    WellFormedIsLinked(h);
    FullNodesMerged(h, z);
    var p := FullPath(h, z);
    assert p[0] == z;
    var m := MergeRowOf(h, z);
    PathStep(h, m);
    FullSuffix(h, z, 1);
    forall i | 0 <= i < k - 1 ensures FullPath(h, m.mergedInto)[i] !in EverUnmerged(h) {
      assert FullPath(h, m.mergedInto)[i] == p[i + 1];
    }
    ReachesUp(h, m.mergedInto, k - 1);
    RowsFromRows(h, z);
    forall r | r in RowsFrom(h, z) && r.kind.Merge? && r.toMerge == z ensures r.mergedInto == m.mergedInto {
      OneParent(h, m, r);
    }
    TouchedByMerges(h, RowsFrom(h, z), x, z, m.mergedInto);
    RowsOfOwn(h, Merge, z);
    MergesAlternate(h, z);
    FullDistinct(h, z);
    assert LivePath(h, z)[0] == z;
  }

  /** With another id below that was ever unmerged, the products no longer all agree. */
  lemma FreedUnderIsWrong(h: History, e: Row, w: Id)
    requires WellFormed(h) && WellFormed(h + [e]) && Recorded(h + [e]) && PositiveFactors(h + [e]) && AllRight(h) && Moves(e)
    requires w in EverUnmerged(h) && w != e.toMerge && e.toMerge in FullPath(h, w)
    ensures !AllRight(h + [e])
  {
    hide WellFormed, Recorded, Revert, LiveProduct, FullPath, LivePath, Right, EverUnmerged, PositiveFactors, Traceable;
    var x := e.toMerge;
    var j := FullIndex(h, w, x);
    var p := FullPath(h, w);
    assert p[0] == w;
    var k := HighestFreed(h, p, 0, j);
    var z := p[k];
    FullSuffix(h, w, k);
    forall i | 0 < i < j - k ensures FullPath(h, z)[i] !in EverUnmerged(h) {
      assert FullPath(h, z)[i] == p[k + i];
    }
    assert FullPath(h, z)[j - k] == x;
    FreedIsTouched(h, x, z, j - k);
    FullDistinct(h, w);
    RecordedSnoc(h, e);
    ChangeIsReal(h, e);
    if AllRight(h + [e]) {
      TouchedChanges(h, e, z);
    }
  }

  lemma Cancel(r: real, a: real, b: real)
    requires r != 0.0 && Mul(r, a) == Mul(r, b)
    ensures a == b
  {
    assert r * (a - b) == 0.0;
  }

  lemma PowIsChange(a: real, n: nat)
    requires a > 0.0 && a != 1.0
    ensures Pow(a, n) == 1.0 ==> n == 0
    ensures Pow(a, n) == a ==> n < 2
  {
    if n >= 1 {
      PowIsNotOne(a, n);
    }
    if n >= 2 && Pow(a, n) == a {
      PowIsNotOne(a, n - 1);
      MulAssoc(a, 1.0, 1.0);
      MulAssoc(a, Pow(a, n - 1), 1.0);
      Cancel(a, Pow(a, n - 1), 1.0);
    }
  }

  /** What is divided out for z changes once for each row that is touched. */
  lemma RevertChangesByRows(h: History, e: Row, z: Id)
    requires WellFormed(h) && WellFormed(h + [e]) && Recorded(h + [e]) && !e.kind.Delete? && z != e.toMerge
    requires AllRight(h) && AllRight(h + [e])
    ensures e.factor != 0.0
    ensures Revert(h + [e], z) == Mul(Revert(h, z), Pow(Change(e), Touched(h, RowsFrom(h, z), e.toMerge)))
  {
    hide WellFormed, Recorded, Revert, Through, RowsFrom, Right, Touched, Pow, Changed, Change;
    var g, rows := h + [e], RowsFrom(h, z);
    RecordedSnoc(h, e);
    RevertNonZero(h, e.toMerge);
    forall r | r in rows ensures Revert(g, r.mergedInto) == Mul(Revert(h, r.mergedInto), Changed(h, e.toMerge, r.mergedInto, Change(e))) {
      RevertChanges(h, e, r.mergedInto);
    }
    ThroughChanges(g, h, rows, e.toMerge, Change(e));
    RevertOfRows(h, z);
    RevertOfRows(g, z);
    RowsFromSnoc(h, e, z);
    assert rows + [] == rows;
  }

  /** That it also changes as the live product does bounds the number of such rows. */
  lemma TouchedChanges(h: History, e: Row, z: Id)
    requires WellFormed(h) && WellFormed(h + [e]) && Recorded(h + [e]) && Moves(e) && z != e.toMerge
    requires AllRight(h) && AllRight(h + [e])
    requires e.factor > 0.0 && Change(e) > 0.0 && Change(e) != 1.0
    ensures Touched(h, RowsFrom(h, z), e.toMerge) < if HangsBelow(h, e.toMerge, z) then 2 else 1
  {
    hide WellFormed, Recorded, Revert, RowsFrom, Right, Touched, Pow, Change, LivePath;
    var n := Touched(h, RowsFrom(h, z), e.toMerge);
    RevertChangesByRows(h, e, z);
    RevertChanges(h, e, z);
    RevertNonZero(h, z);
    Cancel(Revert(h, z), Pow(Change(e), n), Changed(h, e.toMerge, z, Change(e)));
    PowIsChange(Change(e), n);
  }

  lemma {:induction false} SincePositive(steps: seq<Step>, since: nat)
    requires forall i :: 0 <= i < |steps| ==> steps[i].factor > 0.0
    ensures Since(steps, since) > 0.0
  {
    if steps != [] {
      SincePositive(steps[..|steps| - 1], since);
      var s := steps[|steps| - 1];
      assert Since(steps[..|steps| - 1], since) * s.factor > 0.0;
    }
  }

  lemma LiveProductPositive(h: History, x: Id)
    requires PositiveFactors(h)
    ensures LiveProduct(h, x) > 0.0
  {
    hide LivePath;
    StepsInHistory(h, x);
    forall i | 0 <= i < |LiveSteps(h, x)| ensures LiveSteps(h, x)[i].factor > 0.0 {
      assert StepOf(h, x, i) && h[LiveSteps(h, x)[i].at] in h;
    }
    SincePositive(LiveSteps(h, x), 0);
  }

  lemma ChangeIsReal(h: History, e: Row)
    requires RowRecorded(h, e) && PositiveFactors(h + [e]) && Moves(e) && Right(h, e.toMerge)
    ensures e.factor > 0.0 && Change(e) > 0.0 && Change(e) != 1.0
  {
    hide Revert, LiveProduct;
    assert forall r :: r in h + [e] <==> r in h || r == e;
    if e.kind.Unmerge? {
      LiveProductPositive(h, e.toMerge);
      InverseTimes(e.factor);
    }
  }

  /** The same condition seen from above: nothing below the id that moves was ever unmerged. */
  lemma NothingFreedOnPath(h: History, e: Row, b: Id)
    requires WellFormed(h) && WellFormed(h + [e]) && NothingFreedUnder(h, e.toMerge)
    ensures NothingFreedBelow(h, FullPath(h + [e], b), e.toMerge)
  {
    hide WellFormed, FullPath, EverUnmerged;
    var g, x, p := h + [e], e.toMerge, FullPath(h + [e], b);
    FullDistinct(g, b);
    forall i, j | 0 <= i < j < |p| && p[j] == x ensures p[i] !in EverUnmerged(h) {
      FullSuffix(g, b, i);
      assert p[i..][j - i] == x;
      UnderBefore(h, e, p[i]);
    }
  }

  lemma UnderBefore(h: History, e: Row, z: Id)
    requires WellFormed(h) && WellFormed(h + [e])
    ensures e.toMerge in FullPath(h + [e], z) ==> e.toMerge in FullPath(h, z)
  {
    hide WellFormed;
    Snoc(h, e);
    var p := FullPath(h, z);
    assert Last(p) in p;
  }

  /** For every history with positive factors on which they agree: the products go on agreeing for all ids if and only if
      the row has factor one, or no other id that was ever unmerged has the id that moves above it. */
  lemma AllStayRightIff(h: History, e: Row)
    requires WellFormed(h) && MayFollow(h, e) && Recorded(h + [e]) && PositiveFactors(h + [e]) && AllRight(h)
    ensures AllRight(h + [e]) <==> (Moves(e) ==> NothingFreedUnder(h, e.toMerge))
  {
    hide WellFormed, Recorded, Right, FullPath, EverUnmerged, MayFollow, PositiveFactors;
    Snoc(h, e);
    if Moves(e) && !NothingFreedUnder(h, e.toMerge) {
      var w :| w in EverUnmerged(h) && w != e.toMerge && e.toMerge in FullPath(h, w);
      FreedUnderIsWrong(h, e, w);
    } else {
      forall b ensures Right(h + [e], b) {
        if Moves(e) {
          NothingFreedOnPath(h, e, b);
        }
        RightStep(h, e, b);
      }
    }
  }
}
