/** Which value of a profile field wins: the SQL functions obj_rank_ and su_, and the
    set statements that apply them on put and on merge. */
module FieldResolution {

  datatype Option<+T> = None | Some(value: T)

  datatype Text = Text(chars: string)

  type Field = Text
  type ObjectType = Text

  /** SQL booleans. */
  datatype Truth = True | False | Unknown

  function And3(a: Truth, b: Truth): Truth {
    if a.False? || b.False? then False else if a.True? && b.True? then True else Unknown
  }

  function Or3(a: Truth, b: Truth): Truth {
    if a.True? || b.True? then True else if a.False? && b.False? then False else Unknown
  }

  /** From false over unknown to true. */
  function Degree(a: Truth): nat { if a.False? then 0 else if a.Unknown? then 1 else 2 }

  /** AND is the lesser and OR the greater of two truths. */
  lemma TruthsAreOrdered(a: Truth, b: Truth)
    ensures Degree(And3(a, b)) == if Degree(a) < Degree(b) then Degree(a) else Degree(b)
    ensures Degree(Or3(a, b)) == if Degree(a) < Degree(b) then Degree(b) else Degree(a)
  {}

  function Known(c: bool): Truth { if c then True else False }

  /** fn_ts <= cur_ts */
  function AtMost3(a: Option<int>, b: Option<int>): Truth {
    if a.Some? && b.Some? then Known(a.value <= b.value) else Unknown
  }

  /** The IF / ELSIF chain of obj_rank_: the first entry equal to the key gives its position plus one,
      and neither an unlisted key nor NULL equals any entry. */
  function RankFrom(prio: seq<ObjectType>, key: Option<ObjectType>, i: nat): nat
    requires i <= |prio|
    decreases |prio| - i
  {
    if i == |prio| then 0
    else if key == Some(prio[i]) then i + 1
    else RankFrom(prio, key, i + 1)
  }

  function Rank(prio: seq<ObjectType>, key: Option<ObjectType>): nat { RankFrom(prio, key, 0) }

  /** The three columns the search table keeps for a field. */
  datatype Column = Column(value: Option<Text>, ts: Option<int>, objType: Option<ObjectType>)

  const NULL := Column(None, None, None)

  function Filled(value: Text, ts: int, objType: ObjectType): Column {
    Column(Some(value), Some(ts), Some(objType))
  }

  /** su_(fn_ts, fn_obj_type, cur_ts, cur_obj_type) */
  function ShouldUpdate(prio: seq<ObjectType>, fnTs: Option<int>, fnType: Option<ObjectType>, curTs: Option<int>, curType: Option<ObjectType>): Truth {
    var isHigherPriority := Known(Rank(prio, fnType) < Rank(prio, curType));
    var isSamePriority := Known(Rank(prio, fnType) == Rank(prio, curType));
    Or3(isHigherPriority, And3(isSamePriority, Or3(AtMost3(fnTs, curTs), Known(fnTs.None?))))
  }

  /** The three set statements of a field: each is a CASE on the old row, and NULL counts as not true. */
  function Resolve(prio: seq<ObjectType>, current: Column, incoming: Column): Column {
    Column(
      if ShouldUpdate(prio, current.ts, current.objType, incoming.ts, incoming.objType).True? then incoming.value else current.value,
      if ShouldUpdate(prio, current.ts, current.objType, incoming.ts, incoming.objType).True? then incoming.ts else current.ts,
      if ShouldUpdate(prio, current.ts, current.objType, incoming.ts, incoming.objType).True? then incoming.objType else current.objType)
  }

  // ---- what the resolution means ----

  /** Columns as puts leave them: never written, or written as a whole. */
  predicate Sound(c: Column) {
    c == NULL || (c.value.Some? && c.ts.Some? && c.objType.Some?)
  }

  /** The order in which fields win: NULL below everything, then rank, then timestamp. */
  predicate Beats(prio: seq<ObjectType>, a: Column, b: Column)
    requires Sound(a) && Sound(b)
  {
    a != NULL &&
    (b == NULL || Rank(prio, a.objType) > Rank(prio, b.objType)
     || (Rank(prio, a.objType) == Rank(prio, b.objType) && a.ts.value > b.ts.value))
  }

  lemma UnrankedFrom(prio: seq<ObjectType>, i: nat)
    requires i <= |prio|
    ensures RankFrom(prio, None, i) == 0
    decreases |prio| - i
  {}

  /** A listed type ranks by its first position, counted from one, and one that is not listed ranks zero. */
  lemma {:induction false} RankFromIs(prio: seq<ObjectType>, x: ObjectType, i: nat)
    requires i <= |prio|
    ensures RankFrom(prio, Some(x), i) == 0 <==> x !in prio[i..]
    ensures x in prio[i..] ==>
      var n := RankFrom(prio, Some(x), i) - 1; i <= n < |prio| && prio[n] == x && forall j :: i <= j < n ==> prio[j] != x
    decreases |prio| - i
  {
    if i < |prio| {
      assert prio[i..] == [prio[i]] + prio[i + 1..];
      if prio[i] != x {
        RankFromIs(prio, x, i + 1);
      }
    }
  }

  lemma RankIs(prio: seq<ObjectType>, x: ObjectType)
    ensures Rank(prio, Some(x)) == 0 <==> x !in prio
    ensures x in prio ==> var n := Rank(prio, Some(x)) - 1; 0 <= n < |prio| && prio[n] == x && forall j :: 0 <= j < n ==> prio[j] != x
  {
    assert prio[0..] == prio;
    RankFromIs(prio, x, 0);
  }

  /** y stands in the list before any x. */
  predicate ListedBefore(prio: seq<ObjectType>, y: ObjectType, x: ObjectType) {
    exists n :: 0 <= n < |prio| && prio[n] == y && forall j :: 0 <= j < n ==> prio[j] != x
  }

  /** Which of two written values a column keeps, told by the priority list and the times alone: that of the listed type over one
      that is not listed, of two listed types that of the one further back, and else the later one, the second on a tie. */
  lemma KeptValue(prio: seq<ObjectType>, a: Column, b: Column)
    requires Sound(a) && Sound(b) && a != NULL && b != NULL
    ensures var x, y := a.objType.value, b.objType.value;
      Resolve(prio, a, b) ==
        if x == y || (x !in prio && y !in prio) then (if a.ts.value > b.ts.value then a else b)
        else if x in prio && (y !in prio || ListedBefore(prio, y, x)) then a
        else b
  {
    var x, y := a.objType.value, b.objType.value;
    RankIs(prio, x);
    RankIs(prio, y);
    if x != y && x in prio && y in prio {
      var m, n := Rank(prio, Some(x)) - 1, Rank(prio, Some(y)) - 1;
      assert prio[m] == x && prio[n] == y;
    }
  }

  /** One update is a maximum that prefers the right operand on ties, with NULL as the bottom. */
  lemma ResolveIsMax(prio: seq<ObjectType>, a: Column, b: Column)
    requires Sound(a) && Sound(b)
    ensures Resolve(prio, a, b) == if Beats(prio, a, b) then a else b
  {
    UnrankedFrom(prio, 0);
  }

  lemma ResolveAssociates(prio: seq<ObjectType>, a: Column, b: Column, c: Column)
    requires Sound(a) && Sound(b) && Sound(c)
    ensures Sound(Resolve(prio, a, b))
    ensures Resolve(prio, Resolve(prio, a, b), c) == Resolve(prio, a, Resolve(prio, b, c))
  {}

  /** The order of two updates matters exactly when they tie without being equal. */
  lemma ResolveCommutesIff(prio: seq<ObjectType>, a: Column, b: Column)
    requires Sound(a) && Sound(b)
    ensures Resolve(prio, a, b) == Resolve(prio, b, a) <==> a == b || Beats(prio, a, b) || Beats(prio, b, a)
  {}

  // ---- rows of the search table ----

  type SearchRow = map<Field, Column>

  function Get(row: SearchRow, f: Field): Column {
    if f in row then row[f] else NULL
  }

  /** One UPDATE statement over a set of columns. */
  function UpdateColumns(prio: seq<ObjectType>, row: SearchRow, from: SearchRow, fields: set<Field>): SearchRow {
    map f | f in row :: if f in fields then Resolve(prio, row[f], Get(from, f)) else row[f]
  }

  /** An update split into several statements writes the same row as one statement over all the columns,
      whatever the split. */
  lemma SplitUpdate(prio: seq<ObjectType>, row: SearchRow, from: SearchRow, first: set<Field>, second: set<Field>)
    ensures UpdateColumns(prio, UpdateColumns(prio, row, from, first), from, second)
         == UpdateColumns(prio, row, from, first + second)
  {}

  function EmptyRow(columns: set<Field>): SearchRow {
    map f | f in columns :: NULL
  }

  /** The row an object offers for its non-empty profile fields. */
  function Offered(fields: map<Field, Text>, ts: int, objType: ObjectType): SearchRow {
    map f | f in fields && fields[f] != Text("") :: Filled(fields[f], ts, objType)
  }
}
