/** Keeping the latest of the interactions that stand for the same object. */
module LatestInteractions {
  import opened FieldResolution

  const OBJECT_TYPE_NAME_FIELD := "_object_type_name"
  const TIMESTAMP := "timestamp"

  /** A cell of a result row: only texts and times can be read back. */
  datatype Cell = Str(text: string) | Time(time: int) | Other

  type Item = map<string, Cell>

  datatype Key = Key(objectType: string, keyValue: string)

  function StringAt(item: Item, field: string): Option<string> {
    if field in item && item[field].Str? then Some(item[field].text) else None
  }

  /** An item has a key when its type, the key field of its type and its timestamp can all be read. */
  function KeyOf(item: Item, typeKeyMap: map<string, string>): Option<Key> {
    var objectType := StringAt(item, OBJECT_TYPE_NAME_FIELD);
    if objectType.None? || objectType.value !in typeKeyMap then None
    else
      var keyValue := StringAt(item, typeKeyMap[objectType.value]);
      if keyValue.None? || TIMESTAMP !in item || !item[TIMESTAMP].Time? then None
      else Some(Key(objectType.value, keyValue.value))
  }

  /** Its key is its type and the text in the key field of its type. */
  lemma KeyOfIff(item: Item, typeKeyMap: map<string, string>, objectType: string, keyValue: string)
    ensures KeyOf(item, typeKeyMap) == Some(Key(objectType, keyValue)) <==>
      && "_object_type_name" in item && item["_object_type_name"] == Str(objectType) && objectType in typeKeyMap
      && typeKeyMap[objectType] in item && item[typeKeyMap[objectType]] == Str(keyValue)
      && "timestamp" in item && item["timestamp"].Time?
  {}

  predicate Keyed(data: seq<Item>, m: map<string, string>, i: nat)
    requires i < |data|
  {
    KeyOf(data[i], m).Some?
  }

  function TimeAt(data: seq<Item>, m: map<string, string>, i: nat): int
    requires i < |data| && Keyed(data, m, i)
  {
    data[i][TIMESTAMP].time
  }

  predicate SameKey(data: seq<Item>, m: map<string, string>, i: nat, j: nat)
    requires i < |data| && j < |data|
  {
    Keyed(data, m, i) && KeyOf(data[i], m) == KeyOf(data[j], m)
  }

  /** No earlier item has the key of item i. */
  predicate IsFirst(data: seq<Item>, m: map<string, string>, i: nat) {
    i < |data| && Keyed(data, m, i) && forall j :: 0 <= j < i ==> !SameKey(data, m, j, i)
  }

  /** Of all items with its key, item i is the first with the greatest timestamp. */
  predicate IsLatest(data: seq<Item>, m: map<string, string>, i: nat) {
    && i < |data| && Keyed(data, m, i)
    && forall j :: 0 <= j < |data| && SameKey(data, m, j, i) ==>
         if j < i then TimeAt(data, m, j) < TimeAt(data, m, i) else TimeAt(data, m, j) <= TimeAt(data, m, i)
  }

  ghost predicate Increasing(s: seq<nat>) {
    forall k, l :: 0 <= k < l < |s| ==> s[k] < s[l]
  }

  predicate Kept(data: seq<Item>, m: map<string, string>, item: Item, first: nat, latest: nat) {
    first < |data| && IsLatest(data, m, latest) && SameKey(data, m, latest, first) && item == data[latest]
  }

  /** Positions: one per key in the order of first occurrence, and beside it the item to keep. */
  ghost predicate KeepsLatest(data: seq<Item>, m: map<string, string>, result: seq<Item>, firsts: seq<nat>, latests: seq<nat>) {
    && |firsts| == |latests| == |result| && Increasing(firsts)
    && (forall i :: i in firsts <==> IsFirst(data, m, i))
    && forall k :: 0 <= k < |result| ==>
         Kept(data, m, result[k], firsts[k], latests[k])
  }

  // ---- one more item ----

  lemma PrefixFacts(data: seq<Item>, m: map<string, string>, n: nat, i: nat)
    requires n <= |data| && i < n
    ensures Keyed(data[..n], m, i) == Keyed(data, m, i)
    ensures IsFirst(data[..n], m, i) == IsFirst(data, m, i)
    ensures forall j :: 0 <= j < n ==> SameKey(data[..n], m, i, j) == SameKey(data, m, i, j)
  {
    assert forall j :: 0 <= j < n ==> data[..n][j] == data[j];
    assert forall j :: 0 <= j < n ==> SameKey(data[..n], m, j, i) == SameKey(data, m, j, i);
  }

  /** An item without a key changes nothing. */
  lemma LatestWithoutKey(data: seq<Item>, m: map<string, string>, i: nat)
    requires data != [] && !Keyed(data, m, |data| - 1) && i < |data| - 1
    ensures IsLatest(data[..|data| - 1], m, i) <==> IsLatest(data, m, i)
  {
    var before := data[..|data| - 1];
    assert forall j :: 0 <= j < |before| ==> before[j] == data[j] && Keyed(before, m, j) == Keyed(data, m, j);
    assert forall j :: 0 <= j < |before| ==> SameKey(before, m, j, i) == SameKey(data, m, j, i);
  }

  /** An item with another key, or one that is not later, leaves the latest of a key the latest. */
  lemma LatestStays(data: seq<Item>, m: map<string, string>, i: nat)
    requires data != [] && i < |data| - 1 && IsLatest(data[..|data| - 1], m, i)
    requires Keyed(data, m, |data| - 1)
    requires SameKey(data, m, |data| - 1, i) ==> data[|data| - 1][TIMESTAMP].time <= data[i][TIMESTAMP].time
    ensures IsLatest(data, m, i)
  {
    var before := data[..|data| - 1];
    assert forall j :: 0 <= j < |before| ==> before[j] == data[j] && Keyed(before, m, j) == Keyed(data, m, j);
    assert forall j :: 0 <= j < |before| ==> SameKey(before, m, j, i) == SameKey(data, m, j, i);
  }

  /** A later item with the key takes over. */
  lemma LatestReplaced(data: seq<Item>, m: map<string, string>, i: nat)
    requires data != [] && i < |data| - 1 && IsLatest(data[..|data| - 1], m, i)
    requires SameKey(data, m, |data| - 1, i) && data[|data| - 1][TIMESTAMP].time > data[i][TIMESTAMP].time
    ensures IsLatest(data, m, |data| - 1)
  {
    var before := data[..|data| - 1];
    assert forall j :: 0 <= j < |before| ==> before[j] == data[j] && Keyed(before, m, j) == Keyed(data, m, j);
    forall j | 0 <= j < |before| && SameKey(data, m, j, |before|) ensures TimeAt(data, m, j) < TimeAt(data, m, |before|) {
      assert SameKey(before, m, j, i);
    }
  }

  lemma FirstIsLatest(data: seq<Item>, m: map<string, string>)
    requires data != [] && IsFirst(data, m, |data| - 1)
    ensures IsLatest(data, m, |data| - 1)
  {}

  /** Which positions of the result the key map names. */
  ghost predicate MapsKeys(data: seq<Item>, m: map<string, string>, keyMap: map<Key, nat>, firsts: seq<nat>) {
    && (forall key :: key in keyMap ==> keyMap[key] < |firsts| && firsts[keyMap[key]] < |data| && KeyOf(data[firsts[keyMap[key]]], m) == Some(key))
    && forall k :: 0 <= k < |firsts| ==>
         && firsts[k] < |data| && KeyOf(data[firsts[k]], m).Some? && KeyOf(data[firsts[k]], m).value in keyMap
         && keyMap[KeyOf(data[firsts[k]], m).value] == k
  }

  lemma KeepsLatestWithoutKey(data: seq<Item>, m: map<string, string>, n: nat, result: seq<Item>, firsts: seq<nat>, latests: seq<nat>)
    requires n < |data| && KeepsLatest(data[..n], m, result, firsts, latests) && !Keyed(data, m, n)
    ensures KeepsLatest(data[..n + 1], m, result, firsts, latests)
  {
    assert !IsFirst(data, m, n);
    hide IsLatest, IsFirst;
    var next := data[..n + 1];
    assert next[..n] == data[..n];
    FirstsGrow(data, m, n, firsts);
    forall k | 0 <= k < |result|
      ensures Kept(next, m, result[k], firsts[k], latests[k])
    {
      assert Kept(data[..n], m, result[k], firsts[k], latests[k]);
      InRange(data[..n], m, latests[k]);
      LatestWithoutKey(next, m, latests[k]);
      PrefixFacts(next, m, n, latests[k]);
    }
  }

  lemma InRange(data: seq<Item>, m: map<string, string>, i: nat)
    requires IsLatest(data, m, i)
    ensures i < |data|
  {}

  lemma FirstsGrow(data: seq<Item>, m: map<string, string>, n: nat, firsts: seq<nat>)
    requires n < |data| && forall i :: i in firsts <==> IsFirst(data[..n], m, i)
    ensures forall i :: i in firsts ==> i < n
    ensures if IsFirst(data, m, n) then forall i :: i in firsts + [n] <==> IsFirst(data[..n + 1], m, i)
            else forall i :: i in firsts <==> IsFirst(data[..n + 1], m, i)
  {
    forall i: nat | i < n ensures IsFirst(data[..n + 1], m, i) == IsFirst(data[..n], m, i) {
      PrefixFacts(data, m, n, i);
      PrefixFacts(data, m, n + 1, i);
    }
    PrefixFacts(data, m, n + 1, n);
  }

  lemma KeepsLatestNewKey(data: seq<Item>, m: map<string, string>, n: nat, result: seq<Item>, firsts: seq<nat>, latests: seq<nat>)
    requires n < |data| && KeepsLatest(data[..n], m, result, firsts, latests) && IsFirst(data, m, n)
    ensures KeepsLatest(data[..n + 1], m, result + [data[n]], firsts + [n], latests + [n])
  {
    var next := data[..n + 1];
    assert next[..n] == data[..n];
    FirstsGrow(data, m, n, firsts);
    PrefixFacts(data, m, n + 1, n);
    FirstIsLatest(next, m);
    assert Increasing(firsts + [n]) by {
      assert forall k :: 0 <= k < |firsts| ==> firsts[k] in firsts;
    }
    hide IsFirst;
    forall k | 0 <= k < |result|
      ensures Kept(next, m, result[k], firsts[k], latests[k])
    {
      assert Kept(data[..n], m, result[k], firsts[k], latests[k]);
      OtherKey(next, m, latests[k]);
      LatestStays(next, m, latests[k]);
      PrefixFacts(next, m, n, latests[k]);
    }
  }

  lemma OtherKey(data: seq<Item>, m: map<string, string>, i: nat)
    requires data != [] && IsFirst(data, m, |data| - 1) && i < |data| - 1
    ensures Keyed(data, m, |data| - 1) && !SameKey(data, m, |data| - 1, i)
  {
    assert !SameKey(data, m, i, |data| - 1);
  }

  lemma DistinctFirsts(data: seq<Item>, m: map<string, string>, i: nat, j: nat)
    requires IsFirst(data, m, i) && IsFirst(data, m, j) && SameKey(data, m, i, j)
    ensures i == j
  {
    assert SameKey(data, m, j, i);
  }

  lemma KeepsLatestKnownKey(data: seq<Item>, m: map<string, string>, n: nat, result: seq<Item>, firsts: seq<nat>, latests: seq<nat>, k: nat)
    requires n < |data| && KeepsLatest(data[..n], m, result, firsts, latests)
    requires k < |result| && firsts[k] < n && Keyed(data, m, n) && SameKey(data, m, firsts[k], n)
    ensures latests[k] < n && result[k] == data[latests[k]] && Keyed(data, m, latests[k])
    ensures data[n][TIMESTAMP].time > data[latests[k]][TIMESTAMP].time ==>
      KeepsLatest(data[..n + 1], m, result[k := data[n]], firsts, latests[k := n])
    ensures data[n][TIMESTAMP].time <= data[latests[k]][TIMESTAMP].time ==> KeepsLatest(data[..n + 1], m, result, firsts, latests)
  {
    var next := data[..n + 1];
    assert next[..n] == data[..n];
    FirstsGrow(data, m, n, firsts);
    PrefixFacts(data, m, n, latests[k]);
    assert SameKey(data, m, firsts[k], n) && !IsFirst(data, m, n);
    hide IsLatest, IsFirst;
    assert Kept(data[..n], m, result[k], firsts[k], latests[k]);
    InRange(data[..n], m, latests[k]);
    forall l | 0 <= l < |result|
      ensures l != k ==> Kept(next, m, result[l], firsts[l], latests[l])
    {
      assert Kept(data[..n], m, result[l], firsts[l], latests[l]);
      InRange(data[..n], m, latests[l]);
      PrefixFacts(next, m, n, latests[l]);
      if l != k {
        assert firsts[l] in firsts && firsts[k] in firsts && firsts[l] != firsts[k];
        if SameKey(data[..n], m, firsts[l], firsts[k]) {
          DistinctFirsts(data[..n], m, firsts[l], firsts[k]);
        }
        assert !SameKey(next, m, n, latests[l]);
        LatestStays(next, m, latests[l]);
      }
    }
    if data[n][TIMESTAMP].time > data[latests[k]][TIMESTAMP].time {
      LatestReplaced(next, m, latests[k]);
    } else {
      LatestStays(next, m, latests[k]);
    }
  }

  /** Items without a key are left out, and an entry of the result is replaced when a later item with its key comes along. */
  method FilterDuplicatesKeepLatest(data: seq<Item>, typeKeyMap: map<string, string>) returns (result: seq<Item>)
    ensures exists firsts, latests :: KeepsLatest(data, typeKeyMap, result, firsts, latests)
    ensures forall k, l :: 0 <= k < l < |result| ==> KeyOf(result[k], typeKeyMap) != KeyOf(result[l], typeKeyMap)
  {
    hide KeepsLatest, IsLatest, IsFirst;
    var keyMap: map<Key, nat> := map[];
    result := [];
    ghost var firsts: seq<nat>, latests: seq<nat> := [], [];
    NothingToKeep(typeKeyMap);
    assert data[..0] == [];
    var n := 0;
    while n < |data|
      invariant 0 <= n <= |data| && KeepsLatest(data[..n], typeKeyMap, result, firsts, latests)
      invariant MapsKeys(data[..n], typeKeyMap, keyMap, firsts)
    {
      var item := data[n];
      var key := KeyOf(item, typeKeyMap);
      SizesAndFirsts(data[..n], typeKeyMap, result, firsts, latests);
      assert forall i :: 0 <= i < n ==> data[..n][i] == data[i] && data[..n + 1][i] == data[i];
      if key.None? {
        KeepsLatestWithoutKey(data, typeKeyMap, n, result, firsts, latests);
      } else if key.value in keyMap {
        var k := keyMap[key.value];
        KeepsLatestKnownKey(data, typeKeyMap, n, result, firsts, latests, k);
        if item[TIMESTAMP].time > result[k][TIMESTAMP].time {
          result, latests := result[k := item], latests[k := n];
        }
      } else {
        NewKeyIsFirst(data, typeKeyMap, n, keyMap, firsts);
        KeepsLatestNewKey(data, typeKeyMap, n, result, firsts, latests);
        keyMap := keyMap[key.value := |result|];
        result, firsts, latests := result + [item], firsts + [n], latests + [n];
      }
      n := n + 1;
    }
    assert data[..n] == data;
    OneOfEachKey(data, typeKeyMap, result, firsts, latests);
  }

  lemma NothingToKeep(m: map<string, string>)
    ensures KeepsLatest([], m, [], [], [])
  {}

  lemma SizesAndFirsts(data: seq<Item>, m: map<string, string>, result: seq<Item>, firsts: seq<nat>, latests: seq<nat>)
    requires KeepsLatest(data, m, result, firsts, latests)
    ensures |firsts| == |latests| == |result| && forall i :: i in firsts <==> IsFirst(data, m, i)
  {}

  lemma NewKeyIsFirst(data: seq<Item>, m: map<string, string>, n: nat, keyMap: map<Key, nat>, firsts: seq<nat>)
    requires n < |data| && Keyed(data, m, n) && KeyOf(data[n], m).value !in keyMap && MapsKeys(data[..n], m, keyMap, firsts)
    requires forall i :: i in firsts <==> IsFirst(data[..n], m, i)
    ensures IsFirst(data, m, n)
  {
    forall j | 0 <= j < n && Keyed(data, m, j) ensures KeyOf(data[j], m).value in keyMap {
      var i := FirstWithKey(data[..n], m, j);
      var k :| 0 <= k < |firsts| && firsts[k] == i;
      assert KeyOf(data[..n][firsts[k]], m) == KeyOf(data[j], m);
    }
  }

  lemma {:induction false} FirstWithKey(data: seq<Item>, m: map<string, string>, j: nat) returns (i: nat)
    requires j < |data| && Keyed(data, m, j)
    ensures IsFirst(data, m, i) && SameKey(data, m, i, j)
    decreases j
  {
    if i' :| 0 <= i' < j && SameKey(data, m, i', j) {
      i := FirstWithKey(data, m, i');
    } else {
      i := j;
    }
  }

  // ---- what the result is ----

  /** The description leaves no choice: it fixes the result. */
  lemma KeepsLatestIsUnique(data: seq<Item>, m: map<string, string>,
      result: seq<Item>, firsts: seq<nat>, latests: seq<nat>, result': seq<Item>, firsts': seq<nat>, latests': seq<nat>)
    requires KeepsLatest(data, m, result, firsts, latests) && KeepsLatest(data, m, result', firsts', latests')
    ensures result == result'
  {
    SameElementsSameOrder(firsts, firsts');
    forall k | 0 <= k < |result| ensures result[k] == result'[k] {
      OneLatest(data, m, latests[k], latests'[k]);
    }
  }

  lemma OneLatest(data: seq<Item>, m: map<string, string>, i: nat, j: nat)
    requires IsLatest(data, m, i) && IsLatest(data, m, j) && SameKey(data, m, i, j)
    ensures i == j
  {}

  lemma {:induction false} SameElementsSameOrder(s: seq<nat>, t: seq<nat>)
    requires Increasing(s) && Increasing(t) && forall i :: i in s <==> i in t
    ensures s == t
  {
    assert |t| > 0 ==> t[0] in t;
    if s != [] {
      assert s[|s| - 1] in t && t != [];
      var a, b := |s| - 1, |t| - 1;
      assert t[b] in s && s[a] in t;
      assert s[a] == t[b];
      forall i ensures i in s[..a] <==> i in t[..b] {
        assert i in s[..a] <==> i in s && i != s[a] by { WithoutLast(s, i); }
        assert i in t[..b] <==> i in t && i != t[b] by { WithoutLast(t, i); }
      }
      SameElementsSameOrder(s[..a], t[..b]);
      assert s == s[..a] + [s[a]] && t == t[..b] + [t[b]];
    }
  }

  lemma WithoutLast(s: seq<nat>, i: nat)
    requires Increasing(s) && s != []
    ensures i in s[..|s| - 1] <==> i in s && i != s[|s| - 1]
  {}

  /** Every key is kept once. */
  lemma OneOfEachKey(data: seq<Item>, m: map<string, string>, result: seq<Item>, firsts: seq<nat>, latests: seq<nat>)
    requires KeepsLatest(data, m, result, firsts, latests)
    ensures forall k, l :: 0 <= k < l < |result| ==> KeyOf(result[k], m) != KeyOf(result[l], m)
    ensures forall i :: 0 <= i < |data| && Keyed(data, m, i) ==> exists k :: 0 <= k < |result| && KeyOf(result[k], m) == KeyOf(data[i], m)
  {
    forall k, l | 0 <= k < l < |result| ensures KeyOf(result[k], m) != KeyOf(result[l], m) {
      assert Kept(data, m, result[k], firsts[k], latests[k]) && Kept(data, m, result[l], firsts[l], latests[l]);
      assert firsts[k] in firsts && firsts[l] in firsts;
      if KeyOf(result[k], m) == KeyOf(result[l], m) {
        DistinctFirsts(data, m, firsts[k], firsts[l]);
      }
    }
    forall i | 0 <= i < |data| && Keyed(data, m, i) ensures exists k :: 0 <= k < |result| && KeyOf(result[k], m) == KeyOf(data[i], m) {
      var f := FirstWithKey(data, m, i);
      var k :| 0 <= k < |firsts| && firsts[k] == f;
      assert KeyOf(result[k], m) == KeyOf(data[i], m);
    }
  }
}
