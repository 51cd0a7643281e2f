/** Big-endian bytes and their hexadecimal text, and that all three ways to order them are one. */
module ByteOrder {

  type Byte = x: nat | x < 256

  /** The number the bytes encode, most significant byte first. */
  function Number(bs: seq<Byte>): nat {
    if bs == [] then 0 else 256 * Number(bs[..|bs| - 1]) + bs[|bs| - 1]
  }

  lemma NumberSnoc(bs: seq<Byte>, b: Byte)
    ensures Number(bs + [b]) == 256 * Number(bs) + b
  {}

  /** The leading bytes decide. */
  lemma {:induction false} LeadingDecide(x: seq<Byte>, y: seq<Byte>, r: seq<Byte>, s: seq<Byte>)
    requires |r| == |s| && Number(x) < Number(y)
    ensures Number(x + r) < Number(y + s)
  {
    if r == [] {
      assert x + r == x && y + s == y;
    } else {
      var n := |r| - 1;
      assert x + r == (x + r[..n]) + [r[n]] && y + s == (y + s[..n]) + [s[n]];
      LeadingDecide(x, y, r[..n], s[..n]);
      NumberSnoc(x + r[..n], r[n]);
      NumberSnoc(y + s[..n], s[n]);
    }
  }

  /** Bytes that are at most the others one by one. */
  lemma {:induction false} Dominated(x: seq<Byte>, y: seq<Byte>, r: seq<Byte>, s: seq<Byte>)
    requires |r| == |s| && Number(x) == Number(y) && forall k :: 0 <= k < |r| ==> r[k] <= s[k]
    ensures Number(x + r) <= Number(y + s)
  {
    if r == [] {
      assert x + r == x && y + s == y;
    } else {
      var n := |r| - 1;
      assert x + r == (x + r[..n]) + [r[n]] && y + s == (y + s[..n]) + [s[n]];
      Dominated(x, y, r[..n], s[..n]);
      NumberSnoc(x + r[..n], r[n]);
      NumberSnoc(y + s[..n], s[n]);
    }
  }

  // ---- order of byte strings ----

  predicate BytesAtMost(a: seq<Byte>, b: seq<Byte>) {
    a == [] || (b != [] && (a[0] < b[0] || (a[0] == b[0] && BytesAtMost(a[1..], b[1..]))))
  }

  /** Byte order is the order of the numbers, whatever bytes come first on both sides. */
  lemma {:induction false} BytesAtMostIsNumeric(x: seq<Byte>, a: seq<Byte>, b: seq<Byte>)
    requires |a| == |b|
    ensures BytesAtMost(a, b) <==> Number(x + a) <= Number(x + b)
    decreases a
  {
    if a != [] {
      NumberSnoc(x, a[0]);
      NumberSnoc(x, b[0]);
      assert x + a == (x + [a[0]]) + a[1..] && x + b == (x + [b[0]]) + b[1..];
      if a[0] < b[0] {
        LeadingDecide(x + [a[0]], x + [b[0]], a[1..], b[1..]);
      } else if b[0] < a[0] {
        LeadingDecide(x + [b[0]], x + [a[0]], b[1..], a[1..]);
      } else {
        BytesAtMostIsNumeric(x + [a[0]], a[1..], b[1..]);
      }
    }
  }

  // ---- order of texts ----

  const HEX_DIGITS := "0123456789abcdef"

  function HexByte(b: Byte): (s: string)
    ensures |s| == 2
  {
    [HEX_DIGITS[b / 16], HEX_DIGITS[b % 16]]
  }

  /** The text of the bytes from position k on: two digits each, with a dash before bytes 4, 6, 8 and 10. */
  function TextFrom(bs: seq<Byte>, k: nat): string {
    if bs == [] then ""
    else (if k == 4 || k == 6 || k == 8 || k == 10 then "-" else "") + (HexByte(bs[0]) + TextFrom(bs[1..], k + 1))
  }

  /** The digits of a byte: the character codes of 0 to 9 and a to f. */
  lemma HexByteIs(b: Byte)
    ensures forall i :: 0 <= i < 2 ==>
      var d := if i == 0 then b / 16 else b % 16;
      HexByte(b)[i] as int == if d < 10 then '0' as int + d else 'a' as int + d - 10
  {}

  /** How many of the bytes before which a dash stands come no later than byte k. */
  function Dashes(k: int): nat {
    (if k >= 4 then 1 else 0) + (if k >= 6 then 1 else 0) + (if k >= 8 then 1 else 0) + if k >= 10 then 1 else 0
  }

  function Dash(k: nat): string {
    if k in {4, 6, 8, 10} then "-" else ""
  }

  lemma DashCounts(k: nat)
    ensures |Dash(k)| == Dashes(k) - Dashes(k - 1)
  {}

  /** The two digits of a byte stand at this place, behind a dash if it is one of the bytes 4, 6, 8 and 10. */
  predicate ByteStandsAt(text: string, b: Byte, at: int, k: nat) {
    && 0 <= at <= |text| - 2 && text[at] == HexByte(b)[0] && text[at + 1] == HexByte(b)[1]
    && (k in {4, 6, 8, 10} ==> at > 0 && text[at - 1] == '-')
  }

  lemma StandsLater(text: string, b: Byte, at: int, k: nat, front: string)
    requires ByteStandsAt(text, b, at, k)
    ensures ByteStandsAt(front + text, b, at + |front|, k)
  {}

  lemma StandsFirst(b: Byte, k: nat, rest: string)
    ensures ByteStandsAt(Dash(k) + HexByte(b) + rest, b, |Dash(k)|, k)
  {}

  lemma TextFromStep(bs: seq<Byte>, k: nat)
    requires bs != []
    ensures TextFrom(bs, k) == Dash(k) + HexByte(bs[0]) + TextFrom(bs[1..], k + 1)
  {
    assert Dash(k) + (HexByte(bs[0]) + TextFrom(bs[1..], k + 1)) == Dash(k) + HexByte(bs[0]) + TextFrom(bs[1..], k + 1);
  }

  lemma {:induction false} TextFromIs(bs: seq<Byte>, k: nat)
    ensures |TextFrom(bs, k)| == 2 * |bs| + Dashes(k + |bs| - 1) - Dashes(k - 1)
    ensures forall j :: 0 <= j < |bs| ==> ByteStandsAt(TextFrom(bs, k), bs[j], 2 * j + Dashes(k + j) - Dashes(k - 1), k + j)
  {
    hide HexByte, Dashes, Dash, ByteStandsAt, TextFrom;
    if bs == [] {
      assert TextFrom([], k) == "" by { NoText(k); }
    } else {
      var rest, front := TextFrom(bs[1..], k + 1), Dash(k) + HexByte(bs[0]);
      TextFromIs(bs[1..], k + 1);
      TextFromStep(bs, k);
      DashCounts(k);
      forall j | 0 <= j < |bs| ensures ByteStandsAt(TextFrom(bs, k), bs[j], 2 * j + Dashes(k + j) - Dashes(k - 1), k + j) {
        if j > 0 {
          assert bs[j] == bs[1..][j - 1];
          StandsLater(rest, bs[j], 2 * (j - 1) + Dashes(k + j) - Dashes(k), k + j, front);
        } else {
          StandsFirst(bs[0], k, rest);
        }
      }
    }
  }

  lemma NoText(k: nat)
    ensures TextFrom([], k) == ""
  {}

  /** The text of 16 bytes: 36 characters, of which the ones at 8, 13, 18 and 23 are dashes and the others the digits in order. */
  lemma UuidText(bs: seq<Byte>)
    requires |bs| == 16
    ensures var text := TextFrom(bs, 0);
      && |text| == 36 && text[8] == text[13] == text[18] == text[23] == '-'
      && forall j :: 0 <= j < 16 ==>
        var at := 2 * j + (if j < 4 then 0 else if j < 6 then 1 else if j < 8 then 2 else if j < 10 then 3 else 4);
        text[at] == HexByte(bs[j])[0] && text[at + 1] == HexByte(bs[j])[1]
  {
    hide HexByte;
    TextFromIs(bs, 0);
    var text := TextFrom(bs, 0);
    hide TextFrom;
    assert ByteStandsAt(text, bs[4], 9, 4) && ByteStandsAt(text, bs[6], 14, 6) && ByteStandsAt(text, bs[8], 19, 8) && ByteStandsAt(text, bs[10], 24, 10);
    forall j | 0 <= j < 16
      ensures var at := 2 * j + (if j < 4 then 0 else if j < 6 then 1 else if j < 8 then 2 else if j < 10 then 3 else 4);
        text[at] == HexByte(bs[j])[0] && text[at + 1] == HexByte(bs[j])[1]
    {
      assert ByteStandsAt(text, bs[j], 2 * j + Dashes(j) - Dashes(-1), j);
    }
  }

  /** Text order by character codes. */
  predicate TextAtMost(s: string, t: string) {
    s == "" || (t != "" && (s[0] < t[0] || (s[0] == t[0] && TextAtMost(s[1..], t[1..]))))
  }

  lemma DigitOrder(x: nat, y: nat)
    requires x < 16 && y < 16
    ensures HEX_DIGITS[x] < HEX_DIGITS[y] <==> x < y
    ensures HEX_DIGITS[x] == HEX_DIGITS[y] <==> x == y
  {}

  lemma TwoDigitsOrder(x: Byte, y: Byte, s: string, t: string)
    ensures TextAtMost(HexByte(x) + s, HexByte(y) + t) <==> x < y || (x == y && TextAtMost(s, t))
  {
    DigitOrder(x / 16, y / 16);
    DigitOrder(x % 16, y % 16);
    var u, v := HexByte(x) + s, HexByte(y) + t;
    assert u[1..] == [u[1]] + s && v[1..] == [v[1]] + t;
    assert u[1..][1..] == s && v[1..][1..] == t;
    assert u[1..][0] == HEX_DIGITS[x % 16] && v[1..][0] == HEX_DIGITS[y % 16];
  }

  lemma {:induction false} TextFromOrder(a: seq<Byte>, b: seq<Byte>, k: nat)
    requires |a| == |b|
    ensures TextAtMost(TextFrom(a, k), TextFrom(b, k)) <==> BytesAtMost(a, b)
  {
    if a != [] {
      TextFromOrder(a[1..], b[1..], k + 1);
      var u, v := HexByte(a[0]) + TextFrom(a[1..], k + 1), HexByte(b[0]) + TextFrom(b[1..], k + 1);
      TwoDigitsOrder(a[0], b[0], TextFrom(a[1..], k + 1), TextFrom(b[1..], k + 1));
      assert ("-" + u)[1..] == u && ("-" + v)[1..] == v && "" + u == u && "" + v == v;
    }
  }

  /** The order of the texts is the order of the numbers. */
  lemma TextOrderIsNumeric(a: seq<Byte>, b: seq<Byte>)
    requires |a| == |b|
    ensures TextAtMost(TextFrom(a, 0), TextFrom(b, 0)) <==> Number(a) <= Number(b)
  {
    TextFromOrder(a, b, 0);
    BytesAtMostIsNumeric([], a, b);
    assert [] + a == a && [] + b == b;
  }
}
