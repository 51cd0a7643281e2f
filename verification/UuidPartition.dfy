/** Splitting the space of version 4 UUIDs into intervals (RFC 9562, sections 4, 4.1, 4.2 and 5.4). */
module UuidPartition {
  import opened ByteOrder

  /** 16 octets in network byte order. */
  type UuidBytes = bs: seq<Byte> | |bs| == 16 witness seq(16, i => 0)

  /** The version field is the high half of octet 6, the variant the two high bits of octet 8. */
  predicate IsV4(u: UuidBytes) {
    u[6] / 16 == 4 && u[8] / 64 == 2
  }

  datatype Partition = Partition(lower: UuidBytes, upper: UuidBytes)

  predicate Within(p: Partition, u: UuidBytes) {
    Number(p.lower) <= Number(u) <= Number(p.upper)
  }

  // ---- 32-bit words ----

  const WORD: nat := 0x1_0000_0000

  function Pow2(n: nat): (p: nat)
    ensures p >= 1
  {
    if n == 0 then 1 else 2 * Pow2(n - 1)
  }

  function And(x: nat, y: nat): nat {
    if x == 0 || y == 0 then 0 else 2 * And(x / 2, y / 2) + (if x % 2 == 1 && y % 2 == 1 then 1 else 0)
  }

  function Or(x: nat, y: nat): nat {
    if x == 0 then y else if y == 0 then x else 2 * Or(x / 2, y / 2) + (if x % 2 == 1 || y % 2 == 1 then 1 else 0)
  }

  /** A shift keeps the low 32 bits, so a shift by 32 gives zero. */
  function ShiftLeft(x: nat, n: nat): nat { x * Pow2(n) % WORD }

  function Complement(x: nat): nat
    requires x < WORD
  {
    WORD - 1 - x
  }

  lemma {:induction false} AndMask(x: nat, n: nat)
    ensures And(x, Pow2(n) - 1) == x % Pow2(n)
  {
    if n > 0 {
      AndMask(x / 2, n - 1);
      var p := Pow2(n - 1);
      assert (Pow2(n) - 1) / 2 == p - 1 && (Pow2(n) - 1) % 2 == 1;
      HalfRemainder(x, p);
      if x == 0 {
        assert 0 % Pow2(n) == 0;
      }
    }
  }

  lemma Scaled(x: nat, y: nat, q: nat)
    requires x <= y
    ensures x * q <= y * q
  {}

  function Quotient(w: nat, q: nat): nat
    requires q >= 1
  {
    w / q
  }

  lemma QuotientBounds(w: nat, q: nat)
    requires q >= 1
    ensures w / q * q <= w < w / q * q + q
  {}

  lemma QuotientIs(w: nat, i: nat, q: nat)
    requires q >= 1
    ensures w / q == i <==> i * q <= w <= i * q + (q - 1)
  {
    var d := w / q;
    QuotientBounds(w, q);
    if d < i {
      Scaled(d + 1, i, q);
      assert (d + 1) * q == d * q + q;
    } else if i < d {
      Scaled(i + 1, d, q);
      assert (i + 1) * q == i * q + q;
    }
  }

  lemma HalfRemainder(x: nat, p: nat)
    requires p >= 1
    ensures x % (2 * p) == 2 * (x / 2 % p) + x % 2
  {
    var i, r := x / 2 / p, 2 * (x / 2 % p) + x % 2;
    assert x / 2 == i * p + x / 2 % p;
    assert x == i * (2 * p) + r;
    QuotientIs(x, i, 2 * p);
    assert x == x / (2 * p) * (2 * p) + x % (2 * p);
  }

  lemma OrDouble(x: nat, y: nat)
    ensures Or(2 * x, y) == 2 * Or(x, y / 2) + y % 2
  {}

  /** A number below a power of two is added to a multiple of it. */
  lemma {:induction false} OrBelow(h: nat, low: nat, s: nat)
    requires low < Pow2(s)
    ensures Or(h * Pow2(s), low) == h * Pow2(s) + low
  {
    hide Or;
    if s == 0 {
      OrZero(h);
    } else {
      var x := h * Pow2(s - 1);
      OrBelow(h, low / 2, s - 1);
      assert h * Pow2(s) == 2 * x;
      OrDouble(x, low);
    }
  }

  lemma OrZero(x: nat)
    ensures Or(x, 0) == x
  {}

  lemma {:induction false} Pow2Sum(m: nat, n: nat)
    ensures Pow2(m + n) == Pow2(m) * Pow2(n)
  {
    if m > 0 {
      Pow2Sum(m - 1, n);
      assert 2 * (Pow2(m - 1) * Pow2(n)) == (2 * Pow2(m - 1)) * Pow2(n);
    }
  }

  lemma WordIsPow2(n: nat)
    requires n <= 32
    ensures Pow2(n) * Pow2(32 - n) == WORD
  {
    Pow2Sum(n, 32 - n);
    Pow2Of32();
  }

  lemma Pow2Of32()
    ensures Pow2(32) == WORD
  {
    assert Pow2(8) == 256;
    Pow2Sum(8, 8);
    Pow2Sum(16, 16);
  }

  // ---- one UUID from its high word and low bytes ----

  const MIN_LOW_BYTES: seq<Byte> := [0x00, 0x00, 0x40, 0x00, 0x80, 0x00, 0x00, 0x00, 0x00, 0x00, 0x00, 0x00]
  const MAX_LOW_BYTES: seq<Byte> := [0xFF, 0xFF, 0x4F, 0xFF, 0xBF, 0xFF, 0xFF, 0xFF, 0xFF, 0xFF, 0xFF, 0xFF]

  function WordBytes(w: nat): (bs: seq<Byte>)
    requires w < WORD
    ensures |bs| == 4
  {
    assert w / 0x100_0000 < 256;
    [w / 0x100_0000, w / 0x1_0000 % 256, w / 0x100 % 256, w % 256]
  }

  lemma FourBytes(bs: seq<Byte>)
    requires |bs| == 4
    ensures Number(bs) == bs[0] as nat * 0x100_0000 + bs[1] as nat * 0x1_0000 + bs[2] as nat * 0x100 + bs[3] as nat
  {
    assert bs == (([] + [bs[0]]) + [bs[1]]) + [bs[2]] + [bs[3]];
    NumberSnoc([], bs[0]);
    NumberSnoc([] + [bs[0]], bs[1]);
    NumberSnoc(([] + [bs[0]]) + [bs[1]], bs[2]);
    NumberSnoc(([] + [bs[0]]) + [bs[1]] + [bs[2]], bs[3]);
  }

  lemma WordBytesNumber(w: nat)
    requires w < WORD
    ensures Number(WordBytes(w)) == w
  {
    hide Number;
    FourBytes(WordBytes(w));
    var x := w / 0x100;
    var y := x / 0x100;
    assert w / 0x1_0000 == y && w / 0x100_0000 == y / 0x100;
    assert w == 0x100 * x + w % 0x100 && x == 0x100 * y + x % 0x100 && y == 0x100 * (y / 0x100) + y % 0x100;
  }

  /** The 16-byte array is filled with the word, most significant byte first, and then the low bytes. */
  method CreateUuid4(highBits: nat, lowBytes: seq<Byte>) returns (u: UuidBytes)
    requires highBits < WORD && |lowBytes| == 12
    ensures u == WordBytes(highBits) + lowBytes
  {
    var uuidBytes := new Byte[16](i => 0);
    uuidBytes[0], uuidBytes[1] := highBits / 0x100_0000, highBits / 0x1_0000 % 256;
    uuidBytes[2], uuidBytes[3] := highBits / 0x100 % 256, highBits % 256;
    var i := 0;
    while i < 12
      invariant 0 <= i <= 12
      invariant uuidBytes[..4] == WordBytes(highBits) && uuidBytes[4..4 + i] == lowBytes[..i]
    {
      uuidBytes[4 + i] := lowBytes[i];
      i := i + 1;
    }
    assert uuidBytes[..] == uuidBytes[..4] + uuidBytes[4..16];
    return uuidBytes[..];
  }

  // ---- one partition ----

  function HighWord(u: UuidBytes): nat { Number(u[..4]) }

  lemma HighWordIsWord(u: UuidBytes)
    ensures HighWord(u) < WORD
  {
    FourBytes(u[..4]);
  }

  /** The high numBits of a UUID. */
  function Prefix(u: UuidBytes, numBits: nat): nat
    requires numBits <= 32
  {
    Quotient(HighWord(u), Pow2(32 - numBits))
  }

  /** The partition with prefix i runs from its least to its greatest version 4 UUID. */
  ghost predicate IsPartition(p: Partition, i: nat, numBits: nat)
    requires numBits <= 32
  {
    && IsV4(p.lower) && Prefix(p.lower, numBits) == i
    && IsV4(p.upper) && Prefix(p.upper, numBits) == i
    && forall u: UuidBytes :: IsV4(u) ==> (Within(p, u) <==> Prefix(u, numBits) == i)
  }

  lemma InWord(i: nat, n: nat)
    requires n <= 32 && i < Pow2(n)
    ensures i * Pow2(32 - n) + Pow2(32 - n) <= WORD
  {
    var q := Pow2(32 - n);
    WordIsPow2(n);
    Scaled(i + 1, Pow2(n), q);
    assert (i + 1) * q == i * q + q;
  }

  /** The shifted mask leaves the low bits free. */
  lemma MaskComplement(n: nat)
    requires n <= 31
    ensures Pow2(n) - 1 < WORD && Complement(ShiftLeft(Pow2(n) - 1, 32 - n)) == Pow2(32 - n) - 1
  {
    hide Pow2;
    var p, q := Pow2(n), Pow2(32 - n);
    WordIsPow2(n);
    Scaled(1, q, p);
    assert (p - 1) * q == p * q - q;
  }

  lemma ShiftFits(i: nat, n: nat)
    requires n <= 32 && i < Pow2(n)
    ensures ShiftLeft(i, 32 - n) == i * Pow2(32 - n)
  {
    hide Pow2;
    InWord(i, n);
    Below(i * Pow2(32 - n), WORD);
  }

  /** What the mask and shift arithmetic comes to. */
  lemma HighBits(i: nat, n: nat)
    requires n <= 31 && i < Pow2(n)
    ensures Pow2(n) - 1 < WORD && And(i, Pow2(n) - 1) == i
    ensures ShiftLeft(i, 32 - n) == i * Pow2(32 - n)
    ensures Or(i * Pow2(32 - n), Complement(ShiftLeft(Pow2(n) - 1, 32 - n))) == i * Pow2(32 - n) + (Pow2(32 - n) - 1)
  {
    hide *;
    MaskComplement(n);
    ShiftFits(i, n);
    AndMask(i, n);
    Below(i, Pow2(n));
    OrBelow(i, Pow2(32 - n) - 1, 32 - n);
  }

  lemma Below(i: nat, p: nat)
    requires i < p
    ensures i % p == i
  {}

  /** Between the two bounds lie the version 4 UUIDs whose high word lies between theirs. */
  lemma BoundsAreExact(low: nat, high: nat, u: UuidBytes)
    requires low <= high < WORD && IsV4(u)
    ensures Number(WordBytes(low) + MIN_LOW_BYTES) <= Number(u) <= Number(WordBytes(high) + MAX_LOW_BYTES)
      <==> low <= HighWord(u) <= high
  {
    hide Number, WordBytes;
    var rest := u[4..];
    assert u == u[..4] + rest && rest[2] == u[6] && rest[4] == u[8];
    WordBytesNumber(low);
    WordBytesNumber(high);
    HighWordDecides(WordBytes(low), MIN_LOW_BYTES, u[..4], rest);
    HighWordDecides(u[..4], rest, WordBytes(high), MAX_LOW_BYTES);
  }

  /** With the low bytes at most the others one by one, the high word decides. */
  lemma HighWordDecides(x: seq<Byte>, r: seq<Byte>, y: seq<Byte>, s: seq<Byte>)
    requires |r| == |s| && forall k :: 0 <= k < |r| ==> r[k] <= s[k]
    ensures Number(x + r) <= Number(y + s) <==> Number(x) <= Number(y)
  {
    hide Number;
    if Number(x) < Number(y) {
      LeadingDecide(x, y, r, s);
    } else if Number(y) < Number(x) {
      LeadingDecide(y, x, s, r);
    } else {
      Dominated(x, y, r, s);
    }
  }

  lemma BoundsArePartition(i: nat, numBits: nat)
    requires numBits <= 31 && i < Pow2(numBits) && i * Pow2(32 - numBits) + Pow2(32 - numBits) <= WORD
    ensures var q := Pow2(32 - numBits);
      IsPartition(Partition(WordBytes(i * q) + MIN_LOW_BYTES, WordBytes(i * q + (q - 1)) + MAX_LOW_BYTES), i, numBits)
  {
    hide Number, WordBytes, Pow2;
    var q := Pow2(32 - numBits);
    var low, high := i * q, i * q + (q - 1);
    var p := Partition(WordBytes(low) + MIN_LOW_BYTES, WordBytes(high) + MAX_LOW_BYTES);
    assert p.lower[..4] == WordBytes(low) && p.upper[..4] == WordBytes(high);
    WordBytesNumber(low);
    WordBytesNumber(high);
    QuotientIs(low, i, q);
    QuotientIs(high, i, q);
    forall u: UuidBytes | IsV4(u) ensures Within(p, u) <==> Prefix(u, numBits) == i {
      BoundsAreExact(low, high, u);
      QuotientIs(HighWord(u), i, q);
    }
  }

  method CreateUuid4Partition(value: nat, numBits: nat) returns (p: Partition)
    requires numBits <= 31 && value < Pow2(numBits)
    ensures IsPartition(p, value, numBits)
  {
    hide Pow2, And, Or, WordBytes, IsPartition, Number;
    HighBits(value, numBits);
    InWord(value, numBits);
    var mask := Pow2(numBits) - 1;
    var shift := 32 - numBits;
    var highBits := ShiftLeft(And(value, mask), shift);
    var lower := CreateUuid4(highBits, MIN_LOW_BYTES);
    var upperHighBits := Or(highBits, Complement(ShiftLeft(mask, shift)));
    var upper := CreateUuid4(upperHighBits, MAX_LOW_BYTES);
    BoundsArePartition(value, numBits);
    return Partition(lower, upper);
  }

  // ---- all partitions ----

  /** The closure that yields the partitions, with the counter it has captured. */
  class PartitionIterator {
    const numBits: int
    var i: nat

    ghost predicate Valid()
      reads this
    {
      0 <= numBits <= 31 ==> i <= Pow2(numBits)
    }

    constructor (numBits: int)
      ensures Valid() && i == 0 && this.numBits == numBits
    {
      this.numBits, i := numBits, 0;
    }

    /** The next partition while there is one; nothing at all when numBits is out of range. */
    method Next() returns (p: Partition, more: bool)
      requires Valid()
      modifies this`i
      ensures Valid()
      ensures more <==> 0 <= numBits <= 31 && old(i) < Pow2(numBits)
      ensures more ==> i == old(i) + 1 && IsPartition(p, old(i), numBits)
      ensures !more ==> i == old(i)
    {
      if 0 <= numBits <= 31 && i < Pow2(numBits) {
        p := CreateUuid4Partition(i, numBits);
        i := i + 1;
        return p, true;
      }
      var none: UuidBytes := seq(16, k => 0);
      return Partition(none, none), false;
    }
  }

  method PartitionUuid4Space(numBits: int) returns (next: PartitionIterator, error: bool)
    ensures fresh(next) && next.Valid() && next.numBits == numBits && next.i == 0
    ensures error <==> numBits < 0 || numBits > 31
  {
    next := new PartitionIterator(numBits);
    error := numBits < 0 || numBits > 31;
  }

  ghost predicate ArePartitions(ps: seq<Partition>, numBits: nat)
    requires numBits <= 32
  {
    forall i :: 0 <= i < |ps| ==> IsPartition(ps[i], i, numBits)
  }

  /** The loop that starts a job for every partition, until the iterator is done. */
  method AllPartitions(numBits: int) returns (ps: seq<Partition>, error: bool)
    ensures error <==> numBits < 0 || numBits > 31
    ensures error ==> ps == []
    ensures !error ==> |ps| == Pow2(numBits) && ArePartitions(ps, numBits)
  {
    ps := [];
    var next;
    next, error := PartitionUuid4Space(numBits);
    if error {
      return;
    }
    var p, more := next.Next();
    while more
      invariant next.Valid() && fresh(next) && next.numBits == numBits
      invariant |ps| == (if more then next.i - 1 else next.i) && ArePartitions(ps, numBits)
      invariant more ==> next.i >= 1 && IsPartition(p, next.i - 1, numBits)
      invariant !more ==> next.i == Pow2(numBits)
      decreases Pow2(numBits) - next.i, more
    {
      ps := ps + [p];
      p, more := next.Next();
    }
  }

  lemma PrefixInRange(u: UuidBytes, numBits: nat)
    requires numBits <= 31
    ensures Prefix(u, numBits) < Pow2(numBits)
  {
    hide Pow2;
    HighWordIsWord(u);
    WordIsPow2(numBits);
    var q := Pow2(32 - numBits);
    QuotientBounds(HighWord(u), q);
    if Pow2(numBits) <= Prefix(u, numBits) {
      Scaled(Pow2(numBits), Prefix(u, numBits), q);
    }
  }

  /** Every version 4 UUID lies in exactly one partition, the one with its prefix. */
  lemma PartitionsCoverExactly(ps: seq<Partition>, numBits: nat, u: UuidBytes)
    requires numBits <= 31 && |ps| == Pow2(numBits) && ArePartitions(ps, numBits) && IsV4(u)
    ensures Prefix(u, numBits) < |ps|
    ensures forall i :: 0 <= i < |ps| ==> (Within(ps[i], u) <==> i == Prefix(u, numBits))
  {
    PrefixInRange(u, numBits);
  }

  /** The bounds are members, and no partition reaches into a later one. */
  lemma PartitionsIncrease(ps: seq<Partition>, numBits: nat, i: nat, j: nat)
    requires numBits <= 31 && ArePartitions(ps, numBits) && i < j < |ps|
    ensures Number(ps[i].lower) <= Number(ps[i].upper) < Number(ps[j].lower)
  {
    assert Within(ps[i], ps[i].upper);
    assert !Within(ps[i], ps[j].lower);
    SmallerPrefix(ps[i].upper, ps[j].lower, numBits);
  }

  lemma SmallerPrefix(u: UuidBytes, v: UuidBytes, numBits: nat)
    requires numBits <= 31 && Prefix(u, numBits) < Prefix(v, numBits)
    ensures Number(u) < Number(v)
  {
    hide Pow2, Number;
    var q := Pow2(32 - numBits);
    var x, y := HighWord(u), HighWord(v);
    QuotientBounds(x, q);
    QuotientBounds(y, q);
    Scaled(x / q + 1, y / q, q);
    assert (x / q + 1) * q == x / q * q + q;
    assert u == u[..4] + u[4..] && v == v[..4] + v[4..];
    LeadingDecide(u[..4], v[..4], u[4..], v[4..]);
  }

  // ---- the partition as the database sees it ----

  /** The 36 characters of a UUID. */
  function ToText(u: UuidBytes): string { TextFrom(u, 0) }

  /** connect_id BETWEEN lower AND upper, comparing texts, selects what the interval holds. */
  lemma BetweenSelectsPartition(p: Partition, u: UuidBytes)
    ensures TextAtMost(ToText(p.lower), ToText(u)) && TextAtMost(ToText(u), ToText(p.upper)) <==> Within(p, u)
  {
    TextOrderIsNumeric(p.lower, u);
    TextOrderIsNumeric(u, p.upper);
  }
}
