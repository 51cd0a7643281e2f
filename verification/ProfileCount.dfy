/** The profile counter: one total spread over shards, so that writers rarely meet on a row. */
module ProfileCount {

  const COUNT_TABLE_PARTITIONS: nat := 10000

  function Total(shards: seq<int>): int {
    if shards == [] then 0 else Total(shards[..|shards| - 1]) + shards[|shards| - 1]
  }

  /** UPDATE ... SET count = count + n WHERE partition = p, partitions counting from 1. */
  function Bump(shards: seq<int>, partition: int, n: int): (r: seq<int>)
    ensures |r| == |shards|
  {
    if 1 <= partition <= |shards| then shards[partition - 1 := shards[partition - 1] + n] else shards
  }

  /** Whichever shard is drawn, the total moves by n. */
  lemma {:induction false} BumpMovesTotal(shards: seq<int>, partition: int, n: int)
    requires 1 <= partition <= |shards|
    ensures Total(Bump(shards, partition, n)) == Total(shards) + n
  {
    var last := |shards| - 1;
    if partition - 1 < last {
      assert Bump(shards, partition, n)[..last] == Bump(shards[..last], partition, n);
      BumpMovesTotal(shards[..last], partition, n);
    } else {
      assert Bump(shards, partition, n)[..last] == shards[..last];
    }
  }

  /** And no shard but that one changes. */
  lemma BumpMovesOne(shards: seq<int>, partition: int, n: int, i: int)
    requires 1 <= partition <= |shards| && 0 <= i < |shards|
    ensures Bump(shards, partition, n)[i] == if i == partition - 1 then shards[i] + n else shards[i]
  {}

  function InitialShards(): seq<int> { seq(COUNT_TABLE_PARTITIONS, i => 0) }

  lemma {:induction false} ZerosTotal(shards: seq<int>)
    requires forall i :: 0 <= i < |shards| ==> shards[i] == 0
    ensures Total(shards) == 0
  {
    if shards != [] {
      ZerosTotal(shards[..|shards| - 1]);
    }
  }
}
