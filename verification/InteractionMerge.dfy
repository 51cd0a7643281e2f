/** Interaction records of several object types merged into one list by insertion. */
module InteractionMerge {
  import opened FieldResolution

  datatype Item = Item(timestamp: int, data: Text)

  /** Two lists in turn: an element of s goes before the next element of r only if it is strictly earlier. */
  function Merge2(r: seq<Item>, s: seq<Item>): seq<Item> {
    if r == [] then s
    else if s == [] then r
    else if s[0].timestamp < r[0].timestamp then [s[0]] + Merge2(r, s[1..])
    else [r[0]] + Merge2(r[1..], s)
  }

  function MergeAll(slices: seq<seq<Item>>): seq<Item> {
    if slices == [] then [] else Merge2(MergeAll(slices[..|slices| - 1]), slices[|slices| - 1])
  }

  /** Position j of the growing result against element i of the slice. */
  ghost predicate MergedUpTo(whole: seq<Item>, result: seq<Item>, j: nat, slice: seq<Item>, i: nat) {
    j <= |result| && i <= |slice| && whole == result[..j] + Merge2(result[j..], slice[i..])
  }

  lemma InsertStep(whole: seq<Item>, result: seq<Item>, j: nat, slice: seq<Item>, i: nat)
    requires MergedUpTo(whole, result, j, slice, i) && j < |result| && i < |slice| && slice[i].timestamp < result[j].timestamp
    ensures MergedUpTo(whole, result[..j] + [slice[i]] + result[j..], j + 1, slice, i + 1)
  {}

  lemma PassStep(whole: seq<Item>, result: seq<Item>, j: nat, slice: seq<Item>, i: nat)
    requires MergedUpTo(whole, result, j, slice, i) && j < |result| && (i < |slice| ==> slice[i].timestamp >= result[j].timestamp)
    ensures MergedUpTo(whole, result, j + 1, slice, i)
  {}

  /** The elements of one slice are inserted into a result that grows under the walk. */
  method InsertSlice(start: seq<Item>, slice: seq<Item>) returns (result: seq<Item>)
    ensures result == Merge2(start, slice)
  {
    hide Merge2, MergedUpTo;
    result := start;
    var i, j := 0, 0;
    StartStep(start, slice);
    while j < |result|
      invariant 0 <= i <= |slice| && 0 <= j <= |result|
      invariant MergedUpTo(Merge2(start, slice), result, j, slice, i)
      decreases |slice| - i + |result| - j
    {
      if i < |slice| && slice[i].timestamp < result[j].timestamp {
        InsertStep(Merge2(start, slice), result, j, slice, i);
        result := result[..j] + [slice[i]] + result[j..];
        i := i + 1;
      } else {
        PassStep(Merge2(start, slice), result, j, slice, i);
      }
      j := j + 1;
    }
    EndStep(Merge2(start, slice), result, slice, i);
    result := result + slice[i..];
  }

  lemma StartStep(start: seq<Item>, slice: seq<Item>)
    ensures MergedUpTo(Merge2(start, slice), start, 0, slice, 0)
  {}

  lemma EndStep(whole: seq<Item>, result: seq<Item>, slice: seq<Item>, i: nat)
    requires MergedUpTo(whole, result, |result|, slice, i)
    ensures whole == result + slice[i..]
  {}

  /** The first slice is taken as it is, and each further one inserted. */
  method MergeInteractionRecords(slices: seq<seq<Item>>) returns (result: seq<Item>)
    ensures result == MergeAll(slices)
  {
    hide Merge2;
    result := [];
    var rest := slices;
    ghost var n := 0;
    while |rest| > 0
      invariant n <= |slices| && rest == slices[n..] && result == MergeAll(slices[..n])
    {
      var slice := rest[0];
      rest := rest[1..];
      assert slices[..n + 1][..n] == slices[..n] && slices[..n + 1][n] == slice;
      n := n + 1;
      if |result| == 0 {
        MergeIntoEmpty(slice);
        result := slice;
      } else {
        result := InsertSlice(result, slice);
      }
    }
    assert slices[..n] == slices;
  }

  lemma MergeIntoEmpty(slice: seq<Item>)
    ensures Merge2([], slice) == slice
  {}

  // ---- what the merge is ----

  predicate Ascending(s: seq<Item>) {
    forall i, j :: 0 <= i < j < |s| ==> s[i].timestamp <= s[j].timestamp
  }

  function Items(slices: seq<seq<Item>>): multiset<Item> {
    if slices == [] then multiset{} else Items(slices[..|slices| - 1]) + multiset(slices[|slices| - 1])
  }

  lemma {:induction false} Merge2Items(r: seq<Item>, s: seq<Item>)
    ensures multiset(Merge2(r, s)) == multiset(r) + multiset(s)
    ensures |Merge2(r, s)| == |r| + |s|
    decreases |r| + |s|
  {
    if r != [] && s != [] {
      assert r == [r[0]] + r[1..] && s == [s[0]] + s[1..];
      if s[0].timestamp < r[0].timestamp {
        Merge2Items(r, s[1..]);
      } else {
        Merge2Items(r[1..], s);
      }
    }
  }

  /** Nothing is lost and nothing invented, in whatever order the lists are. */
  lemma {:induction false} MergeAllItems(slices: seq<seq<Item>>)
    ensures multiset(MergeAll(slices)) == Items(slices)
  {
    if slices != [] {
      MergeAllItems(slices[..|slices| - 1]);
      Merge2Items(MergeAll(slices[..|slices| - 1]), slices[|slices| - 1]);
    }
  }

  lemma AscendingCons(x: Item, s: seq<Item>)
    ensures Ascending([x] + s) <==> Ascending(s) && forall y :: y in s ==> x.timestamp <= y.timestamp
  {
    if Ascending([x] + s) {
      forall i, j | 0 <= i < j < |s| ensures s[i].timestamp <= s[j].timestamp {
        assert ([x] + s)[i + 1] == s[i] && ([x] + s)[j + 1] == s[j];
      }
      forall y | y in s ensures x.timestamp <= y.timestamp {
        var j :| 0 <= j < |s| && s[j] == y;
        assert ([x] + s)[0] == x && ([x] + s)[j + 1] == y;
      }
    }
  }

  lemma Merge2Members(r: seq<Item>, s: seq<Item>, y: Item)
    ensures y in Merge2(r, s) <==> y in r || y in s
  {}

  /** The merge of two lists ascends exactly when both do. */
  lemma {:induction false} Merge2AscendingIff(r: seq<Item>, s: seq<Item>)
    ensures Ascending(Merge2(r, s)) <==> Ascending(r) && Ascending(s)
    decreases |r| + |s|
  {
    hide Ascending;
    if r == [] {
      assert Ascending(r) by { EmptyAscends(); }
    } else if s == [] {
      assert Ascending(s) by { EmptyAscends(); }
    } else {
      assert r == [r[0]] + r[1..] && s == [s[0]] + s[1..];
      AscendingCons(r[0], r[1..]);
      AscendingCons(s[0], s[1..]);
      if s[0].timestamp < r[0].timestamp {
        Merge2AscendingIff(r, s[1..]);
        AscendingCons(s[0], Merge2(r, s[1..]));
        forall y ensures y in Merge2(r, s[1..]) <==> y in r || y in s[1..] { Merge2Members(r, s[1..], y); }
      } else {
        Merge2AscendingIff(r[1..], s);
        AscendingCons(r[0], Merge2(r[1..], s));
        forall y ensures y in Merge2(r[1..], s) <==> y in r[1..] || y in s { Merge2Members(r[1..], s, y); }
      }
    }
  }

  lemma EmptyAscends()
    ensures Ascending([])
  {}

  /** The result ascends exactly when every list does. Lists that come newest first do not, unless all their times are equal. */
  lemma {:induction false} MergeAllAscendingIff(slices: seq<seq<Item>>)
    ensures Ascending(MergeAll(slices)) <==> forall i :: 0 <= i < |slices| ==> Ascending(slices[i])
  {
    if slices != [] {
      var n := |slices| - 1;
      MergeAllAscendingIff(slices[..n]);
      Merge2AscendingIff(MergeAll(slices[..n]), slices[n]);
      assert forall i :: 0 <= i < n ==> slices[..n][i] == slices[i];
    }
  }

  predicate Descending(s: seq<Item>) {
    forall i, j :: 0 <= i < j < |s| ==> s[i].timestamp >= s[j].timestamp
  }

  /** What the caller gets for lists that come newest first. */
  lemma DescendingListsAscendIff(slices: seq<seq<Item>>)
    requires forall i :: 0 <= i < |slices| ==> Descending(slices[i])
    ensures Ascending(MergeAll(slices)) <==>
      forall i, j, k :: 0 <= i < |slices| && 0 <= j < k < |slices[i]| ==> slices[i][j].timestamp == slices[i][k].timestamp
  {
    MergeAllAscendingIff(slices);
  }

  // ---- where the elements stand, for lists in any order ----

  /** Element j of s stands right before element at[j] of r: the first one, from where the element of s before it stands,
      that is later than it, or behind all of r if there is none. */
  ghost predicate Stands(r: seq<Item>, s: seq<Item>, at: seq<nat>, j: nat)
    requires j < |s| == |at|
  {
    var from := if j == 0 then 0 else at[j - 1];
    && from <= at[j] <= |r|
    && (at[j] < |r| ==> s[j].timestamp < r[at[j]].timestamp)
    && forall i :: from <= i < at[j] && i < |r| ==> s[j].timestamp >= r[i].timestamp
  }

  /** Each list keeps its order, and the elements of s stand where at says. */
  ghost predicate Interleaved(r: seq<Item>, s: seq<Item>, m: seq<Item>, at: seq<nat>) {
    && |at| == |s| && |m| == |r| + |s| && (forall j :: 0 <= j < |s| ==> at[j] <= |r| && m[at[j] + j] == s[j])
    && forall i, j :: 0 <= i < |r| && 0 <= j <= |s| && (j > 0 ==> at[j - 1] <= i) && (j < |s| ==> i < at[j]) ==> m[i + j] == r[i]
  }

  function Zeros(n: nat): (zs: seq<nat>)
    ensures |zs| == n && forall k :: 0 <= k < n ==> zs[k] == 0
  {
    seq(n, k => 0)
  }

  function PlusOne(at: seq<nat>): (r: seq<nat>)
    ensures |r| == |at| && forall k :: 0 <= k < |at| ==> r[k] == at[k] + 1
  {
    seq(|at|, k requires 0 <= k < |at| => at[k] + 1)
  }

  lemma PlacedFirst(r: seq<Item>, s: seq<Item>, m: seq<Item>, at: seq<nat>)
    requires r != [] && s != [] && s[0].timestamp < r[0].timestamp
    requires Interleaved(r, s[1..], m, at) && forall j :: 0 <= j < |s| - 1 ==> Stands(r, s[1..], at, j)
    ensures Interleaved(r, s, [s[0]] + m, [0] + at) && forall j :: 0 <= j < |s| ==> Stands(r, s, [0] + at, j)
  {
    var next := [0] + at;
    forall j | 0 <= j < |s| ensures Stands(r, s, next, j) {
      if j > 0 {
        assert Stands(r, s[1..], at, j - 1) && s[1..][j - 1] == s[j] && next[j] == at[j - 1];
        assert j > 1 ==> next[j - 1] == at[j - 2];
      }
    }
    InterleavedFirst(r, s, m, at);
  }

  lemma InterleavedFirst(r: seq<Item>, s: seq<Item>, m: seq<Item>, at: seq<nat>)
    requires s != [] && Interleaved(r, s[1..], m, at)
    ensures Interleaved(r, s, [s[0]] + m, [0] + at)
  {
    var next, m' := [0] + at, [s[0]] + m;
    forall j | 0 <= j < |s| ensures next[j] <= |r| && m'[next[j] + j] == s[j] {
      if j > 0 {
        assert next[j] == at[j - 1] && s[j] == s[1..][j - 1] && m[at[j - 1] + (j - 1)] == s[1..][j - 1];
      }
    }
    forall i, j | 0 <= i < |r| && 0 <= j <= |s| && (j > 0 ==> next[j - 1] <= i) && (j < |s| ==> i < next[j]) ensures m'[i + j] == r[i] {
      assert j > 0;
      assert j > 1 ==> next[j - 1] == at[j - 2];
      assert j < |s| ==> next[j] == at[j - 1];
      assert m[i + (j - 1)] == r[i];
    }
  }

  lemma PlacedLater(r: seq<Item>, s: seq<Item>, m: seq<Item>, at: seq<nat>)
    requires r != [] && s != [] && s[0].timestamp >= r[0].timestamp
    requires Interleaved(r[1..], s, m, at) && forall j :: 0 <= j < |s| ==> Stands(r[1..], s, at, j)
    ensures Interleaved(r, s, [r[0]] + m, PlusOne(at)) && forall j :: 0 <= j < |s| ==> Stands(r, s, PlusOne(at), j)
  {
    var next := PlusOne(at);
    forall j | 0 <= j < |s| ensures Stands(r, s, next, j) {
      assert Stands(r[1..], s, at, j);
      forall i | (if j == 0 then 0 else next[j - 1]) <= i < next[j] && i < |r| ensures s[j].timestamp >= r[i].timestamp {
        assert i > 0 ==> r[i] == r[1..][i - 1];
      }
      assert next[j] < |r| ==> r[next[j]] == r[1..][at[j]];
    }
    InterleavedLater(r, s, m, at);
  }

  lemma InterleavedLater(r: seq<Item>, s: seq<Item>, m: seq<Item>, at: seq<nat>)
    requires r != [] && Interleaved(r[1..], s, m, at)
    ensures Interleaved(r, s, [r[0]] + m, PlusOne(at))
  {
    var next, m' := PlusOne(at), [r[0]] + m;
    forall j | 0 <= j < |s| ensures next[j] <= |r| && m'[next[j] + j] == s[j] {
      assert m[at[j] + j] == s[j];
    }
    forall i, j | 0 <= i < |r| && 0 <= j <= |s| && (j > 0 ==> next[j - 1] <= i) && (j < |s| ==> i < next[j]) ensures m'[i + j] == r[i] {
      assert j > 0 ==> next[j - 1] == at[j - 1] + 1;
      assert j < |s| ==> next[j] == at[j] + 1;
      if i > 0 {
        assert m[(i - 1) + j] == r[1..][i - 1];
      }
    }
  }

  /** Merging keeps the order of either list, and puts each element of the second before the first later one of the first list that
      it can still come before. */
  lemma {:induction false} Merge2Interleaves(r: seq<Item>, s: seq<Item>) returns (at: seq<nat>)
    ensures Interleaved(r, s, Merge2(r, s), at) && forall j :: 0 <= j < |s| ==> Stands(r, s, at, j)
    decreases |r| + |s|
  {
    if r == [] || s == [] {
      at := Zeros(|s|);
    } else if s[0].timestamp < r[0].timestamp {
      var rest := Merge2Interleaves(r, s[1..]);
      PlacedFirst(r, s, Merge2(r, s[1..]), rest);
      at := [0] + rest;
    } else {
      var rest := Merge2Interleaves(r[1..], s);
      PlacedLater(r, s, Merge2(r[1..], s), rest);
      at := PlusOne(rest);
    }
  }

  // ---- ties ----

  function At(s: seq<Item>, t: int): seq<Item> {
    if s == [] then [] else (if s[0].timestamp == t then [s[0]] else []) + At(s[1..], t)
  }

  function AllAt(slices: seq<seq<Item>>, t: int): seq<Item> {
    if slices == [] then [] else AllAt(slices[..|slices| - 1], t) + At(slices[|slices| - 1], t)
  }

  lemma {:induction false} NoneAt(s: seq<Item>, t: int)
    requires forall y :: y in s ==> y.timestamp > t
    ensures At(s, t) == []
  {
    if s != [] {
      assert s == [s[0]] + s[1..];
      NoneAt(s[1..], t);
    }
  }

  lemma Later(s: seq<Item>, t: int)
    requires s != [] && Ascending(s) && t < s[0].timestamp
    ensures forall y :: y in s ==> y.timestamp > t
  {}

  lemma AtCons(x: Item, s: seq<Item>, t: int)
    ensures At([x] + s, t) == (if x.timestamp == t then [x] else []) + At(s, t)
  {}

  /** One item more in front of a merge, and in front of its left part. */
  lemma AtPrepend(x: Item, m: seq<Item>, left: seq<Item>, right: seq<Item>, t: int)
    requires At(m, t) == left + right
    ensures At([x] + m, t) == ((if x.timestamp == t then [x] else []) + left) + right
  {}

  lemma TakeLeft(r: seq<Item>, s: seq<Item>, t: int)
    requires r != [] && s != [] && s[0].timestamp >= r[0].timestamp
    requires At(Merge2(r[1..], s), t) == At(r[1..], t) + At(s, t)
    ensures At(Merge2(r, s), t) == At(r, t) + At(s, t)
  {
    hide At;
    assert r == [r[0]] + r[1..];
    AtCons(r[0], r[1..], t);
    AtPrepend(r[0], Merge2(r[1..], s), At(r[1..], t), At(s, t), t);
  }

  lemma TakeRight(r: seq<Item>, s: seq<Item>, t: int)
    requires r != [] && s != [] && s[0].timestamp < r[0].timestamp && Ascending(r)
    requires At(Merge2(r, s[1..]), t) == At(r, t) + At(s[1..], t)
    ensures At(Merge2(r, s), t) == At(r, t) + At(s, t)
  {
    hide At, Ascending;
    assert s == [s[0]] + s[1..];
    AtCons(s[0], s[1..], t);
    AtCons(s[0], Merge2(r, s[1..]), t);
    if s[0].timestamp == t {
      Later(r, t);
      NoneAt(r, t);
    }
  }

  lemma {:induction false} Merge2At(r: seq<Item>, s: seq<Item>, t: int)
    requires Ascending(r) && Ascending(s)
    ensures At(Merge2(r, s), t) == At(r, t) + At(s, t)
    decreases |r| + |s|
  {
    if r == [] || s == [] {
      assert At(r, t) + [] == At(r, t) && [] + At(s, t) == At(s, t);
    } else {
      hide At, Merge2;
      if s[0].timestamp < r[0].timestamp {
        Merge2At(r, s[1..], t);
        TakeRight(r, s, t);
      } else {
        Merge2At(r[1..], s, t);
        TakeLeft(r, s, t);
      }
    }
  }

  /** Among items of one time, those of earlier lists come first, each list in its own order. */
  lemma {:induction false} TiesKeepListOrder(slices: seq<seq<Item>>, t: int)
    requires forall i :: 0 <= i < |slices| ==> Ascending(slices[i])
    ensures At(MergeAll(slices), t) == AllAt(slices, t)
  {
    if slices != [] {
      var n := |slices| - 1;
      assert forall i :: 0 <= i < n ==> slices[..n][i] == slices[i];
      TiesKeepListOrder(slices[..n], t);
      MergeAllAscendingIff(slices[..n]);
      Merge2At(MergeAll(slices[..n]), slices[n], t);
    }
  }
}
