/** What normalization leaves of a value: which characters survive, and how they are shown. */
module NormalizedValues {
  import opened RuleMatching

  const DIGITS := "0123456789"
  const CAPITALS := "ABCDEFGHIJKLMNOPQRSTUVWXYZ"
  const SMALL := "abcdefghijklmnopqrstuvwxyz"

  // ---- positions that survive ----

  ghost predicate Increasing(at: seq<nat>) {
    forall i, j :: 0 <= i < j < |at| ==> at[i] < at[j]
  }

  /** r is what stands at these positions of s. */
  ghost predicate Picked(s: string, r: string, at: seq<nat>) {
    |at| == |r| && Increasing(at) && forall k :: 0 <= k < |at| ==> at[k] < |s| && r[k] == s[at[k]]
  }

  function Shifted(at: seq<nat>, n: nat): (r: seq<nat>)
    ensures |r| == |at| && forall k :: 0 <= k < |at| ==> r[k] == at[k] + n
  {
    seq(|at|, k requires 0 <= k < |at| => at[k] + n)
  }

  lemma ShiftedMembers(at: seq<nat>, n: nat)
    ensures forall i: nat :: i in Shifted(at, n) <==> i >= n && i - n in at
  {
    forall i: nat | i >= n && i - n in at ensures i in Shifted(at, n) {
      var k :| 0 <= k < |at| && at[k] == i - n;
      assert Shifted(at, n)[k] == i;
    }
  }

  lemma PickedCons(s: string, r: string, at: seq<nat>)
    requires s != "" && Picked(s[1..], r, at)
    ensures Picked(s, r, Shifted(at, 1)) && Picked(s, [s[0]] + r, [0] + Shifted(at, 1))
  {}

  lemma KeepStep(s: string, p: char -> bool)
    requires s != ""
    ensures Keep(s, p) == (if p(s[0]) then [s[0]] else "") + Keep(s[1..], p)
  {}

  lemma KeptMembers(s: string, p: char -> bool, rest: seq<nat>, at: seq<nat>)
    requires s != "" && at == (if p(s[0]) then [0] else []) + Shifted(rest, 1)
    requires forall i: nat :: i in rest <==> i < |s| - 1 && p(s[i + 1])
    ensures forall i: nat :: i in at <==> i < |s| && p(s[i])
  {
    hide Shifted;
    ShiftedMembers(rest, 1);
    forall i: nat ensures i in at <==> i < |s| && p(s[i]) {
      if i > 0 {
        assert i in at <==> i - 1 in rest;
      }
    }
  }

  /** A filter lets through the characters it is for, in their order and as often as they are there. */
  lemma {:induction false} KeepPicks(s: string, p: char -> bool) returns (at: seq<nat>)
    ensures Picked(s, Keep(s, p), at) && forall i: nat :: i in at <==> i < |s| && p(s[i])
  {
    hide Picked, Shifted, Keep;
    if s == "" {
      at := [];
      NothingPicked(p);
    } else {
      var rest := KeepPicks(s[1..], p);
      PickedCons(s, Keep(s[1..], p), rest);
      KeepStep(s, p);
      var moved := Shifted(rest, 1);
      if p(s[0]) {
        at := [0] + moved;
      } else {
        at := moved;
        assert "" + Keep(s[1..], p) == Keep(s[1..], p) && [] + moved == moved;
      }
      KeptMembers(s, p, rest, at);
    }
  }

  lemma NothingPicked(p: char -> bool)
    ensures Picked("", Keep("", p), [])
  {}

  // ---- the single steps ----

  /** Exactly the leading c are taken off. */
  lemma {:induction false} TrimLeftTakes(s: string, c: char) returns (n: nat)
    ensures n <= |s| && TrimLeft(s, c) == s[n..] && (forall i :: 0 <= i < n ==> s[i] == c) && (n < |s| ==> s[n] != c)
  {
    n := 0;
    if s != "" && s[0] == c {
      var m := TrimLeftTakes(s[1..], c);
      n := m + 1;
      assert forall i :: 0 < i < n ==> s[i] == s[1..][i - 1];
    }
  }

  lemma {:induction false} TrimRightTakes(s: string, c: char) returns (n: nat)
    ensures n <= |s| && TrimRight(s, c) == s[..n] && (forall i :: n <= i < |s| ==> s[i] == c) && (n > 0 ==> s[n - 1] != c)
  {
    n := |s|;
    if s != "" && s[|s| - 1] == c {
      n := TrimRightTakes(s[..|s| - 1], c);
      assert forall i :: n <= i < |s| - 1 ==> s[i] == s[..|s| - 1][i];
    }
  }

  /** A blank with nothing but blanks before it, or behind it. */
  ghost predicate AtEdge(s: string, i: nat)
    requires i < |s|
  {
    (forall j :: 0 <= j <= i ==> s[j] == ' ') || (forall j :: i <= j < |s| ==> s[j] == ' ')
  }

  /** Exactly the blanks at both ends are taken off. */
  lemma TrimTakes(s: string) returns (a: nat, b: nat)
    ensures a <= b <= |s| && Trim(s) == s[a..b] && forall i :: 0 <= i < |s| ==> (AtEdge(s, i) <==> i < a || b <= i)
  {
    a := TrimLeftTakes(s, ' ');
    var m := TrimRightTakes(s[a..], ' ');
    b := a + m;
    assert forall i :: b <= i < |s| ==> s[i] == s[a..][i - a];
    assert m > 0 ==> s[b - 1] == s[a..][m - 1];
    assert forall i :: 0 <= i < |s| && AtEdge(s, i) && i >= a ==> s[i..] == s[i..];
  }

  /** d is c, or the small letter of the capital c where capitals are not kept. */
  ghost predicate ShownAs(lowercase: bool, c: char, d: char) {
    if lowercase && c in CAPITALS then exists k :: 0 <= k < 26 && CAPITALS[k] == c && SMALL[k] == d else d == c
  }

  lemma Letters()
    ensures |CAPITALS| == |SMALL| == 26
    ensures forall k :: 0 <= k < 26 ==> CAPITALS[k] as int == 'A' as int + k && SMALL[k] as int == 'a' as int + k
  {}

  lemma ClassOf(c: char)
    ensures c in CAPITALS <==> 'A' <= c <= 'Z'
    ensures c in SMALL <==> 'a' <= c <= 'z'
    ensures c in DIGITS <==> IsDigit(c)
  {
    Letters();
    if 'A' <= c <= 'Z' {
      assert CAPITALS[c as int - 'A' as int] == c;
    }
    if 'a' <= c <= 'z' {
      assert SMALL[c as int - 'a' as int] == c;
    }
    if '0' <= c <= '9' {
      assert DIGITS[c as int - '0' as int] == c;
    }
  }

  lemma LowerCharShows(c: char)
    ensures ShownAs(true, c, LowerChar(c))
  {
    ClassOf(c);
    Letters();
    if c in CAPITALS {
      var k := c as int - 'A' as int;
      assert CAPITALS[k] == c && SMALL[k] == LowerChar(c);
    }
  }

  lemma {:induction false} LowerShows(s: string)
    ensures |Lower(s)| == |s| && forall i :: 0 <= i < |s| ==> ShownAs(true, s[i], Lower(s)[i])
  {
    hide ShownAs, LowerChar;
    if s != "" {
      LowerShows(s[1..]);
      LowerCharShows(s[0]);
      assert forall i :: 0 < i < |s| ==> s[i] == s[1..][i - 1] && Lower(s)[i] == Lower(s[1..])[i - 1];
    }
  }

  function SmallOf(lowercase: bool, c: char): int {
    if lowercase && 'A' <= c <= 'Z' then c as int - 'A' as int + 'a' as int else c as int
  }

  lemma ShownIsSmall(lowercase: bool, c: char, d: char)
    requires ShownAs(lowercase, c, d)
    ensures d as int == SmallOf(lowercase, c)
  {
    Letters();
    ClassOf(c);
  }

  // ---- all the steps ----

  /** x is what stands at these positions of v, as it is shown. */
  ghost predicate Reads(v: string, x: string, at: seq<nat>, lowercase: bool) {
    |at| == |x| && Increasing(at) && forall k :: 0 <= k < |at| ==> at[k] < |v| && ShownAs(lowercase, v[at[k]], x[k])
  }

  /** The class of a character does not depend on its case. */
  ghost predicate BlindToCase(p: char -> bool) {
    forall c, d :: ShownAs(true, c, d) ==> (p(c) <==> p(d))
  }

  /** The elements at some positions. */
  function Chosen(at: seq<nat>, picked: seq<nat>): (r: seq<nat>)
    requires forall k :: 0 <= k < |picked| ==> picked[k] < |at|
    ensures |r| == |picked| && forall k :: 0 <= k < |picked| ==> r[k] == at[picked[k]]
  {
    seq(|picked|, k requires 0 <= k < |picked| => at[picked[k]])
  }

  lemma ChosenMembers(at: seq<nat>, picked: seq<nat>)
    requires forall k :: 0 <= k < |picked| ==> picked[k] < |at|
    ensures forall m :: 0 <= m < |at| && m in picked ==> at[m] in Chosen(at, picked)
    ensures forall i: nat :: i in Chosen(at, picked) ==> exists m :: 0 <= m < |at| && m in picked && at[m] == i
  {
    var r := Chosen(at, picked);
    forall m | 0 <= m < |at| && m in picked ensures at[m] in r {
      var k :| 0 <= k < |picked| && picked[k] == m;
      assert r[k] == at[m];
    }
    forall i: nat | i in r ensures exists m :: 0 <= m < |at| && m in picked && at[m] == i {
      var k :| 0 <= k < |r| && r[k] == i;
      assert picked[k] in picked && at[picked[k]] == i;
    }
  }

  lemma ReadsChosen(v: string, x: string, at: seq<nat>, lowercase: bool, y: string, picked: seq<nat>)
    requires Reads(v, x, at, lowercase) && Picked(x, y, picked)
    ensures Reads(v, y, Chosen(at, picked), lowercase)
  {
    hide ShownAs;
  }

  lemma ReadsFiltered(v: string, x: string, at: seq<nat>, lowercase: bool, p: char -> bool) returns (at': seq<nat>)
    requires Reads(v, x, at, lowercase) && BlindToCase(p)
    ensures Reads(v, Keep(x, p), at', lowercase) && forall i: nat :: i in at' <==> i in at && p(v[i])
  {
    hide Keep, Chosen, ShownAs;
    var picked := KeepPicks(x, p);
    at' := Chosen(at, picked);
    ReadsChosen(v, x, at, lowercase, Keep(x, p), picked);
    ChosenMembers(at, picked);
    forall m | 0 <= m < |at| ensures p(x[m]) <==> p(v[at[m]]) {
      SameClass(lowercase, v[at[m]], x[m], p);
    }
    forall i: nat | i in at ensures i in at' <==> p(v[i]) {
      var m :| 0 <= m < |at| && at[m] == i;
      assert m in picked <==> p(x[m]);
    }
  }

  lemma SameClass(lowercase: bool, c: char, d: char, p: char -> bool)
    requires ShownAs(lowercase, c, d) && BlindToCase(p)
    ensures p(c) <==> p(d)
  {}

  /** What is left of a list of positions when the first n are dropped. */
  lemma DroppedMembers(at: seq<nat>, n: nat)
    requires Increasing(at) && n <= |at|
    ensures forall m :: 0 <= m < |at| ==> (at[m] in at[n..] <==> m >= n)
    ensures Increasing(at[n..])
  {
    var rest := at[n..];
    forall m | 0 <= m < |at| ensures at[m] in rest <==> m >= n {
      if m >= n {
        assert rest[m - n] == at[m];
      } else {
        assert forall k :: 0 <= k < |rest| ==> rest[k] == at[n + k];
      }
    }
  }

  lemma ReadsDropped(v: string, x: string, at: seq<nat>, lowercase: bool, n: nat)
    requires Reads(v, x, at, lowercase) && n <= |at|
    ensures Reads(v, x[n..], at[n..], lowercase)
  {
    hide ShownAs;
  }

  lemma ZeroIsZero(lowercase: bool, c: char, d: char)
    requires ShownAs(lowercase, c, d)
    ensures c == '0' <==> d == '0'
  {
    ShownIsSmall(lowercase, c, d);
  }

  /** The position has only zeros before it in the list, and is one. */
  ghost predicate LeadingZero(v: string, at: seq<nat>, i: nat)
    requires i < |v| && forall j :: j in at ==> j < |v|
  {
    v[i] == '0' && forall j :: j in at && j < i ==> v[j] == '0'
  }

  /** Leading zeros: those with nothing but zeros read before them. */
  lemma ReadsUnpadded(v: string, x: string, at: seq<nat>, lowercase: bool) returns (at': seq<nat>)
    requires Reads(v, x, at, lowercase)
    ensures Reads(v, TrimLeft(x, '0'), at', lowercase)
    ensures forall i: nat :: i in at' ==> i in at
    ensures forall i: nat :: i in at ==> (i in at' <==> !LeadingZero(v, at, i))
  {
    hide ShownAs, TrimLeft;
    var n := TrimLeftTakes(x, '0');
    at' := at[n..];
    ReadsDropped(v, x, at, lowercase, n);
    DroppedMembers(at, n);
    forall m | 0 <= m < |at| ensures at[m] in at' <==> !LeadingZero(v, at, at[m]) {
      forall k | 0 <= k < |at| ensures x[k] == '0' <==> v[at[k]] == '0' {
        ZeroIsZero(lowercase, v[at[k]], x[k]);
      }
      if m > n {
        assert at[n] in at && at[n] < at[m] && v[at[n]] != '0';
      }
    }
  }

  /** The settings let the character through. */
  predicate Lets(n: Normalization, c: char) {
    && (n.removeNonAlphaNumeric ==> c in DIGITS + CAPITALS + SMALL)
    && (n.removeNonNumeric ==> c in DIGITS)
    && (n.removeSpaces ==> c != ' ')
  }

  /** It is let through, and it is not a blank that is trimmed. */
  ghost predicate Stays(n: Normalization, v: string, i: nat) {
    i < |v| && Lets(n, v[i]) && !(n.trim && AtEdge(v, i))
  }

  /** And it is not a leading zero among those that stay. */
  ghost predicate Survives(n: Normalization, v: string, i: nat) {
    Stays(n, v, i) && !(n.removeLeadingZeros && v[i] == '0' && forall j: nat :: j < i && Stays(n, v, j) ==> v[j] == '0')
  }

  lemma ReadsTrimmed(n: Normalization, v: string) returns (at: seq<nat>)
    ensures Reads(v, Lowered(n, Trimmed(n, v)), at, n.lowercase)
    ensures forall i: nat :: i in at <==> i < |v| && !(n.trim && AtEdge(v, i))
  {
    hide Trim, Lower;
    var a, b := 0, |v|;
    if n.trim {
      a, b := TrimTakes(v);
    }
    var x := Trimmed(n, v);
    assert x == v[a..b];
    at := seq(b - a, k requires 0 <= k < b - a => a + k);
    forall i: nat | a <= i < b ensures i in at {
      assert at[i - a] == i;
    }
    LowerShows(x);
  }

  lemma CaseBlind()
    ensures BlindToCase(IsAlphaNumeric) && BlindToCase(IsDigit) && BlindToCase(IsNotSpace)
  {
    Letters();
    forall c, d | ShownAs(true, c, d)
      ensures (IsAlphaNumeric(c) <==> IsAlphaNumeric(d)) && (IsDigit(c) <==> IsDigit(d)) && (IsNotSpace(c) <==> IsNotSpace(d))
    {
      ClassOf(c);
    }
  }

  /** A normalized value is made of exactly the characters that survive, in their order, capitals small where they are not kept. */
  lemma NormalizedReads(n: Normalization, v: string) returns (at: seq<nat>)
    ensures Reads(v, Normalized(n, v), at, n.lowercase) && forall i: nat :: i in at <==> Survives(n, v, i)
  {
    hide Keep, TrimLeft, Trimmed, Lowered, Reads, BlindToCase, IsAlphaNumeric, IsDigit, IsNotSpace;
    CaseBlind();
    at := ReadsTrimmed(n, v);
    var x := Lowered(n, Trimmed(n, v));
    if n.removeNonAlphaNumeric {
      at := ReadsFiltered(v, x, at, n.lowercase, IsAlphaNumeric);
      x := Keep(x, IsAlphaNumeric);
    }
    if n.removeNonNumeric {
      at := ReadsFiltered(v, x, at, n.lowercase, IsDigit);
      x := Keep(x, IsDigit);
    }
    if n.removeSpaces {
      at := ReadsFiltered(v, x, at, n.lowercase, IsNotSpace);
      x := Keep(x, IsNotSpace);
    }
    forall i: nat ensures i in at <==> Stays(n, v, i) {
      if i < |v| {
        LetsIff(n, v[i]);
      }
    }
    if n.removeLeadingZeros {
      at := ReadsUnpadded(v, x, at, n.lowercase);
      x := TrimLeft(x, '0');
    }
    assert x == Normalized(n, v);
  }

  lemma LetsIff(n: Normalization, c: char)
    ensures Lets(n, c) <==>
      (n.removeNonAlphaNumeric ==> IsAlphaNumeric(c)) && (n.removeNonNumeric ==> IsDigit(c)) && (n.removeSpaces ==> IsNotSpace(c))
  {
    ClassOf(c);
  }

  // ---- values that are taken for the same ----

  ghost predicate ExactlySurvivors(n: Normalization, v: string, at: seq<nat>) {
    Increasing(at) && forall i: nat :: i in at <==> Survives(n, v, i)
  }

  /** The same character, or the capital and the small form of a letter where capitals are not kept. */
  ghost predicate SameShown(lowercase: bool, c: char, d: char) {
    c == d || (lowercase && exists k :: 0 <= k < 26 && {c, d} <= {CAPITALS[k], SMALL[k]})
  }

  /** The values differ in nothing but what the settings drop. */
  ghost predicate ReadAlike(n: Normalization, v: string, w: string) {
    exists at, bt :: ExactlySurvivors(n, v, at) && ExactlySurvivors(n, w, bt) && |at| == |bt| && ShownAlike(n.lowercase, v, at, w, bt)
  }

  ghost predicate ShownAlike(lowercase: bool, v: string, at: seq<nat>, w: string, bt: seq<nat>)
    requires |at| == |bt|
  {
    forall k :: 0 <= k < |at| ==> at[k] < |v| && bt[k] < |w| && SameShown(lowercase, v[at[k]], w[bt[k]])
  }

  lemma WithoutLast(at: seq<nat>)
    requires Increasing(at) && at != []
    ensures var m := |at| - 1; Increasing(at[..m]) && at[m] in at
    ensures forall i: nat :: i in at ==> i <= at[|at| - 1]
    ensures forall i: nat :: i in at[..|at| - 1] <==> i in at && i != at[|at| - 1]
  {
    var m := |at| - 1;
    assert at == at[..m] + [at[m]];
    assert forall k :: 0 <= k < m ==> at[..m][k] == at[k] < at[m];
    assert forall i: nat :: i in at <==> i in at[..m] || i == at[m];
  }

  lemma {:induction false} IncreasingIsUnique(at: seq<nat>, bt: seq<nat>)
    requires Increasing(at) && Increasing(bt) && forall i: nat :: i in at <==> i in bt
    ensures at == bt
    decreases |at|
  {
    hide Increasing;
    assert forall k :: 0 <= k < |at| ==> at[k] in at;
    assert forall k :: 0 <= k < |bt| ==> bt[k] in bt;
    if at != [] && bt != [] {
      var m, n := |at| - 1, |bt| - 1;
      WithoutLast(at);
      WithoutLast(bt);
      assert at[m] == bt[n];
      IncreasingIsUnique(at[..m], bt[..n]);
      assert at == at[..m] + [at[m]] && bt == bt[..n] + [bt[n]];
    }
  }

  lemma SameShownIsSmall(lowercase: bool, c: char, d: char)
    ensures SameShown(lowercase, c, d) <==> SmallOf(lowercase, c) == SmallOf(lowercase, d)
  {
    Letters();
    if lowercase && c != d && SmallOf(lowercase, c) == SmallOf(lowercase, d) {
      var k := SmallOf(lowercase, c) - 'a' as int;
      assert 0 <= k < 26 && {c, d} <= {CAPITALS[k], SMALL[k]};
    }
    if k :| lowercase && 0 <= k < 26 && {c, d} <= {CAPITALS[k], SMALL[k]} {
      assert c in {c, d} && d in {c, d};
    }
  }

  lemma SameShownIff(lowercase: bool, c: char, d: char, x: char, y: char)
    requires ShownAs(lowercase, c, x) && ShownAs(lowercase, d, y)
    ensures x == y <==> SameShown(lowercase, c, d)
  {
    hide ShownAs, SameShown;
    ShownIsSmall(lowercase, c, x);
    ShownIsSmall(lowercase, d, y);
    SameShownIsSmall(lowercase, c, d);
  }

  /** Two values are normalized to the same exactly if they differ in nothing but what the settings drop. */
  lemma NormalizedAlikeIff(n: Normalization, v: string, w: string)
    ensures Normalized(n, v) == Normalized(n, w) <==> ReadAlike(n, v, w)
  {
    hide Normalized, Survives, ShownAs, SameShown;
    var at := NormalizedReads(n, v);
    var bt := NormalizedReads(n, w);
    var x, y := Normalized(n, v), Normalized(n, w);
    if |x| == |y| {
      forall k | 0 <= k < |x| ensures x[k] == y[k] <==> SameShown(n.lowercase, v[at[k]], w[bt[k]]) {
        SameShownIff(n.lowercase, v[at[k]], w[bt[k]], x[k], y[k]);
      }
    }
    if x == y {
      assert ShownAlike(n.lowercase, v, at, w, bt) && ExactlySurvivors(n, v, at) && ExactlySurvivors(n, w, bt);
    }
    if at', bt' :| ExactlySurvivors(n, v, at') && ExactlySurvivors(n, w, bt') && |at'| == |bt'| && ShownAlike(n.lowercase, v, at', w, bt') {
      IncreasingIsUnique(at, at');
      IncreasingIsUnique(bt, bt');
    }
  }

  /** A rule that compares fields with themselves finds a record exactly when every compared field differs in nothing
      but what its settings drop, provided at most one of them may keep an underscore. */
  lemma SameFieldRuleFindsAlike(rule: Rule, r: Record, s: Record)
    requires SameFieldRule(rule) && AtMostOneMarked(Effective(true, rule.conditions))
    ensures Finds(rule, r, s) <==>
      && Applies(rule, r) && Applies(rule, s)
      && forall c :: c in Effective(true, rule.conditions) ==> ReadAlike(c.normalization, ValueOf(true, c, r), ValueOf(true, c, s))
  {
    hide Finds, Applies, AtMostOneMarked, SameFieldRule, Normalized, ReadAlike, ValueOf, Effective;
    SameFieldRuleFinds(rule, r, s);
    forall c | c in Effective(true, rule.conditions)
      ensures Segment(true, c, r) == Segment(true, c, s) <==> ReadAlike(c.normalization, ValueOf(true, c, r), ValueOf(true, c, s))
    {
      NormalizedAlikeIff(c.normalization, ValueOf(true, c, r), ValueOf(true, c, s));
    }
  }

  /** And a rule between two types a record of the other type exactly when every kept pair does. */
  lemma TwoTypeRuleFindsAlike(rule: Rule, t1: string, t2: string, r: Record, s: Record)
    requires TwoTypeRule(rule, t1, t2) && r.objectType == t1 && s.objectType == t2 && Applies(rule, r) && Applies(rule, s)
    requires Effective(true, rule.conditions) == Effective(false, rule.conditions) && AtMostOneMarked(Effective(true, rule.conditions))
    ensures Finds(rule, r, s) <==>
      forall c :: c in Effective(true, rule.conditions) ==> ReadAlike(c.normalization, ValueOf(true, c, r), ValueOf(false, c, s))
  {
    hide Finds, Applies, AtMostOneMarked, TwoTypeRule, Normalized, ReadAlike, ValueOf, Effective;
    TwoTypeRuleFinds(rule, t1, t2, r, s);
    forall c | c in Effective(true, rule.conditions)
      ensures Segment(true, c, r) == Segment(false, c, s) <==> ReadAlike(c.normalization, ValueOf(true, c, r), ValueOf(false, c, s))
    {
      NormalizedAlikeIff(c.normalization, ValueOf(true, c, r), ValueOf(false, c, s));
    }
  }
}
