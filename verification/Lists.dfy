/** Lists without repetition, the list of a set, and splitting a list into pieces of bounded size. */
module Lists {

  predicate NoRepeats<T(==)>(s: seq<T>) {
    forall i, j :: 0 <= i < j < |s| ==> s[i] != s[j]
  }

  /** The elements of a set, in some order. */
  method ListOf<T(==)>(s: set<T>) returns (list: seq<T>)
    ensures NoRepeats(list) && forall y :: y in list <==> y in s
  {
    list := [];
    var rest := s;
    while rest != {}
      invariant rest <= s && NoRepeats(list)
      invariant forall y :: y in list <==> y in s - rest
    {
      var y :| y in rest;
      assert forall i :: 0 <= i < |list| ==> list[i] in list;
      rest := rest - {y};
      list := list + [y];
    }
  }

  lemma {:induction false} ListSize<T>(list: seq<T>, s: set<T>)
    requires NoRepeats(list) && forall y :: y in list <==> y in s
    ensures |list| == |s|
  {
    if list != [] {
      var n := |list| - 1;
      assert list == list[..n] + [list[n]];
      ListSize(list[..n], s - {list[n]});
    }
  }

  function Flatten<T>(pieces: seq<seq<T>>): seq<T> {
    if pieces == [] then [] else Flatten(pieces[..|pieces| - 1]) + pieces[|pieces| - 1]
  }

  /** Full pieces followed by at most one shorter, never empty, last piece; together they are the list. */
  method Chunk<T>(list: seq<T>, chunkSize: nat) returns (divided: seq<seq<T>>)
    requires chunkSize > 0
    ensures Flatten(divided) == list
    ensures forall i :: 0 <= i < |divided| ==> 0 < |divided[i]| <= chunkSize
    ensures forall i :: 0 <= i < |divided| - 1 ==> |divided[i]| == chunkSize
  {
    divided := [];
    var i := 0;
    assert list[..0] == [];
    while i < |list|
      invariant 0 <= i && Flatten(divided) == list[..if i < |list| then i else |list|]
      invariant forall j :: 0 <= j < |divided| ==> 0 < |divided[j]| <= chunkSize
      invariant forall j :: 0 <= j < |divided| - 1 ==> |divided[j]| == chunkSize
      invariant i < |list| ==> forall j :: 0 <= j < |divided| ==> |divided[j]| == chunkSize
    {
      var end := i + chunkSize;
      if end > |list| {
        end := |list|;
      }
      FlattenAppend(divided, list[i..end]);
      assert list[..i] + list[i..end] == list[..end];
      divided := divided + [list[i..end]];
      i := i + chunkSize;
    }
    assert list[..|list|] == list;
  }

  lemma FlattenAppend<T>(pieces: seq<seq<T>>, piece: seq<T>)
    ensures Flatten(pieces + [piece]) == Flatten(pieces) + piece
  {}

  /** The first k pieces hold a prefix of the list. */
  lemma {:induction false} FlattenPrefix<T>(pieces: seq<seq<T>>, k: nat)
    requires k <= |pieces|
    ensures Flatten(pieces[..k]) <= Flatten(pieces)
    decreases |pieces| - k
  {
    if k == |pieces| {
      assert pieces[..k] == pieces;
    } else {
      assert pieces[..k + 1][..k] == pieces[..k] && pieces[..k + 1][k] == pieces[k];
      FlattenPrefix(pieces, k + 1);
    }
  }

  lemma {:induction false} FullPiecesLength<T>(pieces: seq<seq<T>>, size: nat)
    requires forall i :: 0 <= i < |pieces| ==> |pieces[i]| == size
    ensures |Flatten(pieces)| == |pieces| * size
  {
    if pieces != [] {
      var n := |pieces| - 1;
      FullPiecesLength(pieces[..n], size);
      assert |pieces| * size == n * size + size;
    }
  }
}
