/** The sort keys rule sets are stored under, and the order in which a prefix scan returns them. */
module RuleSetKeys {
  import opened ByteOrder
  import Placeholders

  datatype Prefix = Stitching | Caching

  datatype Name = Active | Draft | Version(n: nat)

  datatype Key = Key(prefix: Prefix, name: Name, index: nat)

  function PrefixText(p: Prefix): string {
    match p
    case Stitching => "rule_"
    case Caching => "cache_"
  }

  function NameText(name: Name): string {
    match name
    case Active => "active"
    case Draft => "draft"
    case Version(n) => "v" + Placeholders.Decimal(n)
  }

  function PadLeft(s: string, width: nat): string {
    if |s| >= width then s else "0" + PadLeft(s, width - 1)
  }

  /** "%05d" */
  function Padded(n: nat): string { PadLeft(Placeholders.Decimal(n), 5) }

  function Text(k: Key): string {
    PrefixText(k.prefix) + (NameText(k.name) + ("_" + Padded(k.index)))
  }

  /** Keys of an active, a draft and a historical set. */
  lemma KeyTexts()
    ensures Text(Key(Stitching, Active, 7)) == "rule_active_00007"
    ensures Text(Key(Caching, Draft, 12345)) == "cache_draft_12345"
    ensures Text(Key(Stitching, Version(2), 0)) == "rule_v2_00000"
  {
    hide Padded;
    OfOneDigit(7);
    OfOneDigit(2);
    OfOneDigit(0);
    DecimalOfFive();
    hide Placeholders.Decimal;
    assert "rule_" + ("active" + ("_" + ("0000" + "7"))) == "rule_active_00007";
    assert "cache_" + ("draft" + ("_" + "12345")) == "cache_draft_12345";
    assert "rule_" + (("v" + "2") + ("_" + ("0000" + "0"))) == "rule_v2_00000";
  }

  lemma OfOneDigit(n: nat)
    requires n < 10
    ensures Placeholders.Decimal(n) == [Placeholders.DIGITS[n]] && Padded(n) == "0000" + [Placeholders.DIGITS[n]]
  {
    PadFive(Placeholders.Decimal(n));
  }

  lemma PadFive(s: string)
    requires |s| == 1
    ensures PadLeft(s, 5) == "0000" + s
  {
    assert PadLeft(s, 1) == s && PadLeft(s, 2) == "0" + s && PadLeft(s, 3) == "0" + ("0" + s) && PadLeft(s, 4) == "0" + ("0" + ("0" + s));
    assert "0" + ("0" + ("0" + ("0" + s))) == "0000" + s;
  }

  lemma DecimalOfFive()
    ensures Padded(12345) == "12345"
  {
    assert Placeholders.Decimal(1) == "1";
    assert Placeholders.Decimal(12) == "1" + "2" == "12";
    assert Placeholders.Decimal(123) == "12" + "3" == "123";
    assert Placeholders.Decimal(1234) == "123" + "4" == "1234";
    assert Placeholders.Decimal(12345) == "1234" + "5" == "12345";
  }

  // ---- numbers as texts ----

  lemma {:induction false} ParseZero(s: string)
    ensures Placeholders.Parse("0" + s) == Placeholders.Parse(s)
  {
    if s == "" {
      assert ("0" + s)[..0] == "";
    } else {
      assert ("0" + s)[..|s|] == "0" + s[..|s| - 1];
      ParseZero(s[..|s| - 1]);
    }
  }

  lemma {:induction false} ParsePadded(s: string, width: nat)
    ensures Placeholders.Parse(PadLeft(s, width)) == Placeholders.Parse(s)
  {
    if |s| < width {
      ParsePadded(s, width - 1);
      ParseZero(PadLeft(s, width - 1));
    }
  }

  lemma PaddedInjective(m: nat, n: nat)
    requires Padded(m) == Padded(n)
    ensures m == n
  {
    ParsePadded(Placeholders.Decimal(m), 5);
    ParsePadded(Placeholders.Decimal(n), 5);
    Placeholders.ParseDecimal(m);
    Placeholders.ParseDecimal(n);
  }

  lemma NameInjective(a: Name, b: Name)
    requires NameText(a) == NameText(b)
    ensures a == b
  {
    assert NameText(a)[0] == NameText(b)[0];
    if a.Version? {
      assert NameText(a)[1..] == Placeholders.Decimal(a.n) && NameText(b)[1..] == Placeholders.Decimal(b.n);
      Placeholders.ParseDecimal(a.n);
      Placeholders.ParseDecimal(b.n);
    }
  }

  /** Different keys have different texts. */
  lemma TextInjective(k: Key, l: Key)
    requires Text(k) == Text(l)
    ensures k == l
  {
    hide NameText, Padded;
    var s, w := Text(k), |PrefixText(k.prefix)|;
    assert s[0] == PrefixText(k.prefix)[0] == PrefixText(l.prefix)[0];
    assert s[w..] == NameText(k.name) + ("_" + Padded(k.index)) == NameText(l.name) + ("_" + Padded(l.index));
    NameHasNoBar(k.name);
    NameHasNoBar(l.name);
    SplitAtBar(NameText(k.name), Padded(k.index), NameText(l.name), Padded(l.index));
    NameInjective(k.name, l.name);
    PaddedInjective(k.index, l.index);
  }

  lemma NameHasNoBar(name: Name)
    ensures '_' !in NameText(name)
  {}

  lemma SplitAtBar(a: string, s: string, b: string, t: string)
    requires a + ("_" + s) == b + ("_" + t) && '_' !in a && '_' !in b
    ensures a == b && s == t
  {
    var u := a + ("_" + s);
    assert u[|a|] == '_' && u[|b|] == '_';
    assert forall i :: 0 <= i < |a| ==> u[i] in a;
    assert forall i :: 0 <= i < |b| ==> u[i] in b;
    assert a == u[..|a|] && s == u[|a| + 1..];
    assert b == u[..|b|] && t == u[|b| + 1..];
  }

  // ---- scanning by prefix ----

  predicate StartsWith(s: string, q: string) { q <= s }

  /** A scan for the active or the draft rule set meets no key of another set. */
  lemma ScanMeetsOneSet(k: Key, p: Prefix, name: Name)
    requires !name.Version?
    ensures StartsWith(Text(k), PrefixText(p) + NameText(name)) <==> k.prefix == p && k.name == name
  {
    var s, q := Text(k), PrefixText(p) + NameText(name);
    var w := |PrefixText(k.prefix)|;
    assert s[0] == PrefixText(k.prefix)[0] && s[w] == NameText(k.name)[0];
    if q <= s {
      assert q[0] == s[0];
      assert q[w] == s[w];
    }
    if k.prefix == p && k.name == name {
      assert s[..|q|] == q;
    }
  }

  // ---- the order of a scan ----

  function Zeros(w: nat): string { if w == 0 then "" else "0" + Zeros(w - 1) }

  /** The last w decimal digits. */
  function Fixed(n: nat, w: nat): (s: string)
    ensures |s| == w
  {
    if w == 0 then "" else Fixed(n / 10, w - 1) + [Placeholders.DIGITS[n % 10]]
  }

  function Pow10(w: nat): nat { if w == 0 then 1 else 10 * Pow10(w - 1) }

  lemma {:induction false} FixedZero(w: nat)
    ensures Fixed(0, w) == Zeros(w)
  {
    if w > 0 {
      FixedZero(w - 1);
      ZerosSnoc(w - 1);
    }
  }

  lemma {:induction false} ZerosSnoc(w: nat)
    ensures Zeros(w) + "0" == Zeros(w + 1)
  {
    if w > 0 {
      ZerosSnoc(w - 1);
      assert "0" + Zeros(w - 1) + "0" == "0" + (Zeros(w - 1) + "0");
    }
  }

  lemma {:induction false} PadSnoc(s: string, c: char, w: nat)
    ensures PadLeft(s + [c], w + 1) == PadLeft(s, w) + [c]
  {
    if |s| < w {
      PadSnoc(s, c, w - 1);
      assert "0" + (PadLeft(s, w - 1) + [c]) == ("0" + PadLeft(s, w - 1)) + [c];
    }
  }

  lemma {:induction false} PadEmpty(w: nat)
    ensures PadLeft("", w) == Zeros(w)
  {
    if w > 0 {
      PadEmpty(w - 1);
    }
  }

  lemma DecimalSnoc(n: nat)
    ensures Placeholders.Decimal(n) == (if n < 10 then "" else Placeholders.Decimal(n / 10)) + [Placeholders.DIGITS[n % 10]]
  {}

  lemma {:induction false} PaddedIsFixed(n: nat, w: nat)
    requires n < Pow10(w) && w > 0
    ensures PadLeft(Placeholders.Decimal(n), w) == Fixed(n, w)
  {
    hide PadLeft, Zeros, Placeholders.Decimal;
    var d := Placeholders.DIGITS[n % 10];
    DecimalSnoc(n);
    if n < 10 {
      PadSnoc("", d, w - 1);
      assert "" + [d] == [d];
      PadEmpty(w - 1);
      FixedZero(w - 1);
    } else {
      PadSnoc(Placeholders.Decimal(n / 10), d, w - 1);
      PaddedIsFixed(n / 10, w - 1);
    }
  }

  lemma {:induction false} TextAtMostSnoc(a: string, b: string, x: char, y: char)
    requires |a| == |b|
    ensures TextAtMost(a + [x], b + [y]) <==> if a == b then x <= y else TextAtMost(a, b)
  {
    if a == "" {
    } else {
      assert (a + [x])[1..] == a[1..] + [x] && (b + [y])[1..] == b[1..] + [y];
      TextAtMostSnoc(a[1..], b[1..], x, y);
      assert a == [a[0]] + a[1..] && b == [b[0]] + b[1..];
    }
  }

  lemma {:induction false} FixedOrder(n: nat, m: nat, w: nat)
    requires n < Pow10(w) && m < Pow10(w)
    ensures TextAtMost(Fixed(n, w), Fixed(m, w)) <==> n <= m
    ensures Fixed(n, w) == Fixed(m, w) <==> n == m
  {
    if w > 0 {
      FixedOrder(n / 10, m / 10, w - 1);
      var a, b := Fixed(n / 10, w - 1), Fixed(m / 10, w - 1);
      var x, y := Placeholders.DIGITS[n % 10], Placeholders.DIGITS[m % 10];
      TextAtMostSnoc(a, b, x, y);
      Placeholders.DigitValue(n % 10);
      Placeholders.DigitValue(m % 10);
      assert Fixed(n, w)[..w - 1] == a && Fixed(m, w)[..w - 1] == b;
      assert Fixed(n, w)[w - 1] == x && Fixed(m, w)[w - 1] == y;
    }
  }

  lemma {:induction false} TextAtMostSameStart(c: string, s: string, t: string)
    ensures TextAtMost(c + s, c + t) <==> TextAtMost(s, t)
  {
    if c == "" {
      assert c + s == s && c + t == t;
    } else {
      assert (c + s)[1..] == c[1..] + s && (c + t)[1..] == c[1..] + t;
      TextAtMostSameStart(c[1..], s, t);
    }
  }

  const INDEX_LIMIT: nat := 100000

  /** Within a rule set of indexes below the limit, the text order is the order of the indexes. */
  lemma TextOrderIsIndexOrder(k: Key, l: Key)
    requires k.prefix == l.prefix && k.name == l.name && k.index < INDEX_LIMIT && l.index < INDEX_LIMIT
    ensures TextAtMost(Text(k), Text(l)) <==> k.index <= l.index
  {
    assert Pow10(5) == INDEX_LIMIT;
    PaddedIsFixed(k.index, 5);
    PaddedIsFixed(l.index, 5);
    FixedOrder(k.index, l.index, 5);
    TextAtMostSameStart("_", Padded(k.index), Padded(l.index));
    TextAtMostSameStart(NameText(k.name), "_" + Padded(k.index), "_" + Padded(l.index));
    TextAtMostSameStart(PrefixText(k.prefix), NameText(k.name) + ("_" + Padded(k.index)), NameText(k.name) + ("_" + Padded(l.index)));
  }

  /** The first index of six digits already sorts before the last of five. */
  lemma LimitIsSharp(p: Prefix, name: Name)
    ensures TextAtMost(Text(Key(p, name, INDEX_LIMIT)), Text(Key(p, name, INDEX_LIMIT - 1)))
  {
    hide Padded;
    var s, t := Padded(INDEX_LIMIT), Padded(INDEX_LIMIT - 1);
    LeadingDigit();
    TextAtMostSameStart("_", s, t);
    TextAtMostSameStart(NameText(name), "_" + s, "_" + t);
    TextAtMostSameStart(PrefixText(p), NameText(name) + ("_" + s), NameText(name) + ("_" + t));
  }

  lemma LeadingDigit()
    ensures |Padded(INDEX_LIMIT)| == 6 && Padded(INDEX_LIMIT)[0] == '1'
    ensures |Padded(INDEX_LIMIT - 1)| == 5 && Padded(INDEX_LIMIT - 1)[0] == '9'
  {
    MoreDigits(100000);
    MoreDigits(10000);
    MoreDigits(1000);
    MoreDigits(100);
    MoreDigits(10);
    MoreDigits(99999);
    MoreDigits(9999);
    MoreDigits(999);
    MoreDigits(99);
  }

  lemma MoreDigits(n: nat)
    requires n >= 10
    ensures |Placeholders.Decimal(n)| == |Placeholders.Decimal(n / 10)| + 1
    ensures Placeholders.Decimal(n)[0] == Placeholders.Decimal(n / 10)[0]
  {}

  // ---- text order is a total order ----

  lemma {:induction false} TextTotal(s: string, t: string)
    ensures TextAtMost(s, t) || TextAtMost(t, s)
  {
    if s != "" && t != "" {
      TextTotal(s[1..], t[1..]);
    }
  }

  lemma {:induction false} TextTransitive(s: string, t: string, u: string)
    requires TextAtMost(s, t) && TextAtMost(t, u)
    ensures TextAtMost(s, u)
  {
    if s != "" && s[0] == t[0] == u[0] {
      TextTransitive(s[1..], t[1..], u[1..]);
    }
  }
}
