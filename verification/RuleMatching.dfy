/** Identity resolution rules: what is indexed for a record, and which indexed records a search finds. */
module RuleMatching {
  import opened Lists
  import opened MergeHistory
  import opened FieldResolution

  const PROFILE_OBJECT_TYPE_NAME := "_profile"

  datatype Normalization = Normalization(
    lowercase: bool, trim: bool, removeSpaces: bool, removeNonNumeric: bool, removeNonAlphaNumeric: bool, removeLeadingZeros: bool)

  datatype ConditionType = Match | Skip

  datatype Condition = Condition(
    conditionType: ConditionType,
    incomingType: string, incomingField: string,
    existingType: string, existingField: string,
    normalization: Normalization)

  datatype Rule = Rule(index: nat, conditions: seq<Condition>)

  /** An object with the profile it belongs to. `skippedBy` holds the skip conditions it meets. */
  datatype Record = Record(
    connectId: Id, objectType: string,
    profile: map<string, string>, object_: map<string, string>,
    skippedBy: set<Condition>, timestamp: int)

  datatype IndexRow = IndexRow(connectId: Id, rule: nat, value1: string, value2: string, timestamp: int)

  // ---- normalization ----

  function Keep(s: string, p: char -> bool): (r: string)
    ensures forall c :: c in r <==> c in s && p(c)
  {
    if s == "" then "" else (if p(s[0]) then [s[0]] else "") + Keep(s[1..], p)
  }

  function TrimLeft(s: string, c: char): string {
    if s != "" && s[0] == c then TrimLeft(s[1..], c) else s
  }

  function TrimRight(s: string, c: char): string {
    if s != "" && s[|s| - 1] == c then TrimRight(s[..|s| - 1], c) else s
  }

  function Trim(s: string): string { TrimRight(TrimLeft(s, ' '), ' ') }

  function LowerChar(c: char): char {
    if 'A' <= c <= 'Z' then c - 'A' + 'a' else c
  }

  function Lower(s: string): (r: string) {
    if s == "" then "" else [LowerChar(s[0])] + Lower(s[1..])
  }

  predicate IsDigit(c: char) { '0' <= c <= '9' }

  predicate IsAlphaNumeric(c: char) { 'a' <= c <= 'z' || 'A' <= c <= 'Z' || IsDigit(c) }

  predicate IsNotSpace(c: char) { c != ' ' }

  function Trimmed(n: Normalization, v: string): string { if n.trim then Trim(v) else v }
  function Lowered(n: Normalization, v: string): string { if n.lowercase then Lower(v) else v }
  function AlphaNumeric(n: Normalization, v: string): string { if n.removeNonAlphaNumeric then Keep(v, IsAlphaNumeric) else v }
  function Numeric(n: Normalization, v: string): string { if n.removeNonNumeric then Keep(v, IsDigit) else v }
  function Unspaced(n: Normalization, v: string): string { if n.removeSpaces then Keep(v, IsNotSpace) else v }
  function Unpadded(n: Normalization, v: string): string { if n.removeLeadingZeros then TrimLeft(v, '0') else v }

  function Normalized(n: Normalization, v: string): string {
    Unpadded(n, Unspaced(n, Numeric(n, AlphaNumeric(n, Lowered(n, Trimmed(n, v))))))
  }

  predicate Unmarked(s: string) { '_' !in s }

  /** The normalization may let an underscore through. */
  predicate LeavesMark(n: Normalization) {
    !n.removeNonAlphaNumeric && !n.removeNonNumeric
  }

  lemma {:induction false} TrimLeftChars(s: string, c: char)
    ensures forall d :: d in TrimLeft(s, c) ==> d in s
  {
    if s != "" && s[0] == c {
      TrimLeftChars(s[1..], c);
    }
  }

  /** Both "1" and "1_1" survive every step that keeps their characters. */
  lemma OnesStay(n: Normalization)
    ensures Normalized(n, "1") == "1"
    ensures LeavesMark(n) ==> Normalized(n, "1_1") == "1_1"
  {
    assert "1"[1..] == "" && "1_1"[1..] == "_1" && "_1"[1..] == "1";
    assert Lower("1") == "1" && Lower("_1") == "_1" && Lower("1_1") == "1_1";
    assert Keep("1", IsAlphaNumeric) == "1" && Keep("1", IsDigit) == "1";
    assert Keep("1", IsNotSpace) == "1";
    assert Keep("_1", IsNotSpace) == "_1";
    assert Keep("1_1", IsNotSpace) == "1_1";
  }

  /** No value keeps an underscore exactly when one of the two filters is on. */
  lemma LeavesMarkIff(n: Normalization)
    ensures (exists v :: !Unmarked(Normalized(n, v))) <==> LeavesMark(n)
  {
    OnesStay(n);
    if LeavesMark(n) {
      assert !Unmarked(Normalized(n, "1_1"));
    } else {
      forall v ensures Unmarked(Normalized(n, v)) {
        TrimLeftChars(Unspaced(n, Numeric(n, AlphaNumeric(n, Lowered(n, Trimmed(n, v))))), '0');
      }
    }
  }

  /** The running string of the source. */
  method NormalizeForIRIndex(settings: Normalization, value: string) returns (normalizedValue: string)
    ensures normalizedValue == Normalized(settings, value)
    ensures !LeavesMark(settings) ==> Unmarked(normalizedValue)
  {
    normalizedValue := value;
    if settings.trim {
      normalizedValue := Trim(value);
    }
    if settings.lowercase {
      normalizedValue := Lower(normalizedValue);
    }
    if settings.removeNonAlphaNumeric {
      normalizedValue := Keep(normalizedValue, IsAlphaNumeric);
    }
    if settings.removeNonNumeric {
      normalizedValue := Keep(normalizedValue, IsDigit);
    }
    if settings.removeSpaces {
      normalizedValue := Keep(normalizedValue, IsNotSpace);
    }
    if settings.removeLeadingZeros {
      TrimLeftChars(normalizedValue, '0');
      normalizedValue := TrimLeft(normalizedValue, '0');
    }
  }

  // ---- joining the segments ----

  function Join(segments: seq<string>): string {
    if segments == [] then ""
    else if |segments| == 1 then segments[0]
    else segments[0] + "_" + Join(segments[1..])
  }

  lemma {:induction false} JoinSnoc(segments: seq<string>)
    requires |segments| >= 2
    ensures Join(segments) == Join(segments[..|segments| - 1]) + "_" + segments[|segments| - 1]
  {
    var n := |segments| - 1;
    if n > 1 {
      JoinSnoc(segments[1..]);
      assert segments[1..][..n - 1] == segments[..n][1..];
      assert segments[0] + "_" + (Join(segments[..n][1..]) + "_" + segments[n]) == (segments[0] + "_" + Join(segments[..n][1..])) + "_" + segments[n];
    } else {
      assert segments[1..] == [segments[1]] && segments[..1] == [segments[0]];
    }
  }

  lemma SplitFirst(a: string, b: string, c: string, d: string)
    requires a + "_" + b == c + "_" + d && Unmarked(a) && Unmarked(c)
    ensures a == c && b == d
  {
    var s := a + "_" + b;
    assert s[|a|] == '_' && s[|c|] == '_';
    assert forall i :: 0 <= i < |a| ==> s[i] in a;
    assert forall i :: 0 <= i < |c| ==> s[i] in c;
    assert a == s[..|a|] && b == s[|a| + 1..];
    assert c == s[..|c|] && d == s[|c| + 1..];
  }

  lemma SplitLast(a: string, b: string, c: string, d: string)
    requires a + "_" + b == c + "_" + d && Unmarked(b) && Unmarked(d)
    ensures a == c && b == d
  {
    var s := a + "_" + b;
    assert s == c + "_" + d;
    assert s[|a|] == '_' && s[|c|] == '_';
    assert forall i :: |a| < i < |s| ==> s[i] in b;
    assert forall i :: |c| < i < |s| ==> s[i] in d;
    assert a == s[..|a|] && b == s[|a| + 1..];
    assert c == s[..|c|] && d == s[|c| + 1..];
  }

  /** Only segment k may hold an underscore. */
  predicate UnmarkedBut(segments: seq<string>, k: nat) {
    forall i :: 0 <= i < |segments| && i != k ==> Unmarked(segments[i])
  }

  /** Lists of the same length are told apart by their join as long as at most one position may hold an underscore. */
  lemma {:induction false} JoinInjective(xs: seq<string>, ys: seq<string>, k: nat)
    requires |xs| == |ys| && UnmarkedBut(xs, k) && UnmarkedBut(ys, k) && Join(xs) == Join(ys)
    ensures xs == ys
    decreases |xs|
  {
    var n := |xs| - 1;
    if n >= 1 {
      if k > 0 {
        SplitFirst(xs[0], Join(xs[1..]), ys[0], Join(ys[1..]));
        assert UnmarkedBut(xs[1..], k - 1) && UnmarkedBut(ys[1..], k - 1);
        JoinInjective(xs[1..], ys[1..], k - 1);
        assert xs == [xs[0]] + xs[1..] && ys == [ys[0]] + ys[1..];
      } else {
        JoinSnoc(xs);
        JoinSnoc(ys);
        SplitLast(Join(xs[..n]), xs[n], Join(ys[..n]), ys[n]);
        JoinInjective(xs[..n], ys[..n], k);
        assert xs == xs[..n] + [xs[n]] && ys == ys[..n] + [ys[n]];
      }
    }
  }

  function Underscores(s: string): nat { multiset(s)['_'] }

  lemma {:induction false} JoinUnderscores(segments: seq<string>)
    requires segments != [] && forall i :: 0 <= i < |segments| ==> Unmarked(segments[i])
    ensures Underscores(Join(segments)) == |segments| - 1
  {
    if |segments| > 1 {
      JoinUnderscores(segments[1..]);
    }
  }

  // ---- what a record is indexed under ----

  function TypeOf(incoming: bool, c: Condition): string {
    if incoming || c.existingField == "" then c.incomingType else c.existingType
  }

  function FieldOf(incoming: bool, c: Condition): string {
    if incoming || c.existingField == "" then c.incomingField else c.existingField
  }

  function GetValue(objectType: string, field: string, r: Record): string {
    if objectType == PROFILE_OBJECT_TYPE_NAME then (if field in r.profile then r.profile[field] else "")
    else if objectType == r.objectType then (if field in r.object_ then r.object_[field] else "")
    else ""
  }

  function ValueOf(incoming: bool, c: Condition, r: Record): string {
    GetValue(TypeOf(incoming, c), FieldOf(incoming, c), r)
  }

  predicate Hit(incoming: bool, c: Condition, r: Record) {
    Trim(ValueOf(incoming, c, r)) != ""
  }

  function Segment(incoming: bool, c: Condition, r: Record): string {
    Normalized(c.normalization, ValueOf(incoming, c, r))
  }

  /** What a repeated field is recognised by. */
  function FieldKey(incoming: bool, c: Condition): string {
    TypeOf(incoming, c) + FieldOf(incoming, c)
  }

  function UsedKeys(incoming: bool, cs: seq<Condition>, r: Record): set<string> {
    set c | c in cs && c.conditionType.Match? && Hit(incoming, c, r) :: FieldKey(incoming, c)
  }

  /** The conditions that contribute a segment: those whose field holds something and was not used before. */
  function Taken(incoming: bool, cs: seq<Condition>, r: Record): seq<Condition> {
    if cs == [] then []
    else
      var before, c := cs[..|cs| - 1], cs[|cs| - 1];
      Taken(incoming, before, r) +
      if c.conditionType.Match? && Hit(incoming, c, r) && FieldKey(incoming, c) !in UsedKeys(incoming, before, r) then [c] else []
  }

  function SegmentsOf(incoming: bool, cs: seq<Condition>, r: Record): (s: seq<string>)
    ensures |s| == |cs|
  {
    seq(|cs|, i requires 0 <= i < |cs| => Segment(incoming, cs[i], r))
  }

  function Segments(incoming: bool, rule: Rule, r: Record): seq<string> {
    SegmentsOf(incoming, Taken(incoming, rule.conditions, r), r)
  }

  predicate Applies(rule: Rule, r: Record) {
    && (forall c :: c in rule.conditions && c.conditionType.Skip? ==> c !in r.skippedBy)
    && forall c :: c in rule.conditions && c.conditionType.Match? ==> Hit(true, c, r) || Hit(false, c, r)
  }

  /** Profile fields are read from the profile, fields of the record's own type from the object, and others are blank; a condition
      that names no existing field looks at the incoming one on both sides. */
  lemma ValueRead(incoming: bool, c: Condition, r: Record)
    ensures var t, f := if incoming || c.existingField == "" then c.incomingType else c.existingType,
                        if incoming || c.existingField == "" then c.incomingField else c.existingField;
      ValueOf(incoming, c, r) ==
        if t == "_profile" && f in r.profile then r.profile[f]
        else if t != "_profile" && t == r.objectType && f in r.object_ then r.object_[f]
        else ""
  {}

  lemma {:induction false} TrimLeftBlanks(s: string)
    ensures TrimLeft(s, ' ') == "" <==> forall i :: 0 <= i < |s| ==> s[i] == ' '
    ensures TrimLeft(s, ' ') != "" ==> TrimLeft(s, ' ')[0] != ' '
  {
    if s != "" && s[0] == ' ' {
      TrimLeftBlanks(s[1..]);
      assert forall i :: 0 < i < |s| ==> s[i] == s[1..][i - 1];
    }
  }

  lemma {:induction false} TrimRightKeepsFirst(s: string)
    requires s != "" && s[0] != ' '
    ensures TrimRight(s, ' ') != ""
  {
    if s[|s| - 1] == ' ' {
      TrimRightKeepsFirst(s[..|s| - 1]);
    }
  }

  lemma BlankIff(s: string)
    ensures Trim(s) == "" <==> forall i :: 0 <= i < |s| ==> s[i] == ' '
  {
    TrimLeftBlanks(s);
    if TrimLeft(s, ' ') != "" {
      TrimRightKeepsFirst(TrimLeft(s, ' '));
    }
  }

  predicate HoldsSomething(v: string) {
    exists i :: 0 <= i < |v| && v[i] != ' '
  }

  /** A rule applies to a record exactly if the record meets none of its skip conditions and has, for each of its match conditions,
      something other than blanks in one of the two fields. */
  lemma AppliesIff(rule: Rule, r: Record)
    ensures Applies(rule, r) <==> forall c :: c in rule.conditions ==>
      if c.conditionType.Skip? then c !in r.skippedBy
      else HoldsSomething(ValueOf(true, c, r)) || HoldsSomething(ValueOf(false, c, r))
  {
    hide ValueOf, Trim;
    forall incoming, c ensures Hit(incoming, c, r) <==> HoldsSomething(ValueOf(incoming, c, r)) {
      BlankIff(ValueOf(incoming, c, r));
    }
  }

  function IndexRowOf(rule: Rule, r: Record): IndexRow {
    IndexRow(r.connectId, rule.index, Join(Segments(true, rule, r)), Join(Segments(false, rule, r)), r.timestamp)
  }

  method CreateIndexSegment(incoming: bool, c: Condition, r: Record) returns (segment: string, objectType: string, fieldName: string, matches: bool)
    requires c.conditionType.Match?
    ensures matches == Hit(incoming, c, r)
    ensures matches ==> segment == Segment(incoming, c, r) && objectType == TypeOf(incoming, c) && fieldName == FieldOf(incoming, c)
  {
    var field, type_ := c.incomingField, c.incomingType;
    if !incoming {
      field, type_ := c.existingField, c.existingType;
      if field == "" {
        field, type_ := c.incomingField, c.incomingType;
      }
    }
    var value := GetValue(type_, field, r);
    if Trim(value) != "" {
      segment := NormalizeForIRIndex(c.normalization, value);
      return segment, type_, field, true;
    }
    return "", "", "", false;
  }

  lemma SkipOrMissStops(rule: Rule, r: Record, i: nat)
    requires i < |rule.conditions|
    requires var c := rule.conditions[i];
      (c.conditionType.Skip? && c in r.skippedBy) || (c.conditionType.Match? && !Hit(true, c, r) && !Hit(false, c, r))
    ensures !Applies(rule, r)
  {}

  /** Skip conditions first, then one pass over the match conditions that grows both lists of segments. */
  method CreateRuleIndex(rule: Rule, r: Record) returns (rec: Option<IndexRow>)
    ensures rec == if Applies(rule, r) then Some(IndexRowOf(rule, r)) else None
  {
    hide Hit, Segment, TypeOf, FieldOf;
    var cs := rule.conditions;
    var i := 0;
    while i < |cs|
      invariant 0 <= i <= |cs|
      invariant forall j :: 0 <= j < i && cs[j].conditionType.Skip? ==> cs[j] !in r.skippedBy
    {
      if cs[i].conditionType.Skip? && cs[i] in r.skippedBy {
        SkipOrMissStops(rule, r, i);
        return None;
      }
      i := i + 1;
    }
    var segments1: seq<string>, segments2: seq<string> := [], [];
    var used1: set<string>, used2: set<string> := {}, {};
    i := 0;
    while i < |cs|
      invariant 0 <= i <= |cs|
      invariant forall j :: 0 <= j < i && cs[j].conditionType.Match? ==> Hit(true, cs[j], r) || Hit(false, cs[j], r)
      invariant SoFar(true, cs[..i], r, used1, segments1) && SoFar(false, cs[..i], r, used2, segments2)
    {
      TakenOneMore(true, cs, r, i, used1, segments1);
      TakenOneMore(false, cs, r, i, used2, segments2);
      if cs[i].conditionType.Match? {
        var seg1, type1, field1, matches1 := CreateIndexSegment(true, cs[i], r);
        var seg2, type2, field2, matches2 := CreateIndexSegment(false, cs[i], r);
        if matches1 && type1 + field1 !in used1 {
          used1 := used1 + {type1 + field1};
          segments1 := segments1 + [seg1];
        }
        if matches2 && type2 + field2 !in used2 {
          used2 := used2 + {type2 + field2};
          segments2 := segments2 + [seg2];
        }
        if !matches1 && !matches2 {
          SkipOrMissStops(rule, r, i);
          return None;
        }
      }
      i := i + 1;
    }
    assert cs[..i] == cs;
    return Some(IndexRow(r.connectId, rule.index, Join(segments1), Join(segments2), r.timestamp));
  }

  /** What the pass over the match conditions has gathered for one side. */
  predicate SoFar(incoming: bool, cs: seq<Condition>, r: Record, used: set<string>, segments: seq<string>) {
    used == UsedKeys(incoming, cs, r) && segments == SegmentsOf(incoming, Taken(incoming, cs, r), r)
  }

  lemma TakenOneMore(incoming: bool, cs: seq<Condition>, r: Record, i: nat, used: set<string>, segments: seq<string>)
    requires i < |cs| && SoFar(incoming, cs[..i], r, used, segments)
    ensures var c := cs[i]; var key := FieldKey(incoming, c);
      if !c.conditionType.Match? || !Hit(incoming, c, r) then SoFar(incoming, cs[..i + 1], r, used, segments)
      else if key in used then SoFar(incoming, cs[..i + 1], r, used, segments)
      else SoFar(incoming, cs[..i + 1], r, used + {key}, segments + [Segment(incoming, c, r)])
  {
    hide Hit, Segment, FieldKey;
    assert cs[..i + 1][..i] == cs[..i] && cs[..i + 1][i] == cs[i];
    assert cs[..i + 1] == cs[..i] + [cs[i]];
    var c := cs[i];
    assert UsedKeys(incoming, cs[..i + 1], r) == UsedKeys(incoming, cs[..i], r)
      + if c.conditionType.Match? && Hit(incoming, c, r) then {FieldKey(incoming, c)} else {};
  }

  // ---- searching ----

  /** The index condition of a search: the value for existing records is looked up among the incoming values,
      and only if there is none the other way round. */
  predicate Selects(search: IndexRow, row: IndexRow) {
    if search.value2 != "" then row.value1 == search.value2 else row.value2 == search.value1
  }

  /** Searching with r finds s once s is indexed. */
  predicate Finds(rule: Rule, r: Record, s: Record) {
    Applies(rule, r) && Applies(rule, s) && Selects(IndexRowOf(rule, r), IndexRowOf(rule, s))
  }

  // ---- rules that compare fields with themselves ----

  predicate SameField(c: Condition) {
    c.existingField == "" || (c.existingType == c.incomingType && c.existingField == c.incomingField)
  }

  predicate SameFieldRule(rule: Rule) {
    forall c :: c in rule.conditions && c.conditionType.Match? ==> SameField(c)
  }

  function AllKeys(incoming: bool, cs: seq<Condition>): set<string> {
    set c | c in cs && c.conditionType.Match? :: FieldKey(incoming, c)
  }

  /** The first match condition for each field. */
  function Effective(incoming: bool, cs: seq<Condition>): seq<Condition> {
    if cs == [] then []
    else
      var before, c := cs[..|cs| - 1], cs[|cs| - 1];
      Effective(incoming, before) + if c.conditionType.Match? && FieldKey(incoming, c) !in AllKeys(incoming, before) then [c] else []
  }

  lemma {:induction false} EffectiveIsTaken(incoming: bool, cs: seq<Condition>, r: Record)
    requires forall c :: c in cs && c.conditionType.Match? ==> Hit(incoming, c, r)
    ensures Taken(incoming, cs, r) == Effective(incoming, cs)
  {
    if cs != [] {
      var before := cs[..|cs| - 1];
      assert forall c :: c in before ==> c in cs;
      EffectiveIsTaken(incoming, before, r);
      assert UsedKeys(incoming, before, r) == AllKeys(incoming, before);
    }
  }

  lemma {:induction false} EffectiveMembers(incoming: bool, cs: seq<Condition>)
    ensures forall c :: c in Effective(incoming, cs) ==> c in cs && c.conditionType.Match?
    ensures forall i, j :: 0 <= i < j < |Effective(incoming, cs)| ==>
      FieldKey(incoming, Effective(incoming, cs)[i]) != FieldKey(incoming, Effective(incoming, cs)[j])
  {
    if cs != [] {
      var before := cs[..|cs| - 1];
      EffectiveMembers(incoming, before);
      assert forall c :: c in before ==> c in cs;
      forall i | 0 <= i < |Effective(incoming, before)| ensures FieldKey(incoming, Effective(incoming, before)[i]) in AllKeys(incoming, before) {
        assert Effective(incoming, before)[i] in before;
      }
    }
  }

  predicate AtMostOneMarked(cs: seq<Condition>) {
    forall i, j :: 0 <= i < j < |cs| ==> !LeavesMark(cs[i].normalization) || !LeavesMark(cs[j].normalization)
  }

  /** All the normalized fields the rule compares agree. */
  predicate Agree(cs: seq<Condition>, r: Record, s: Record) {
    forall c :: c in cs ==> Segment(true, c, r) == Segment(true, c, s)
  }

  lemma SameFieldRow(rule: Rule, r: Record)
    requires SameFieldRule(rule) && Applies(rule, r)
    ensures var v := Join(SegmentsOf(true, Effective(true, rule.conditions), r));
            IndexRowOf(rule, r).value1 == v && IndexRowOf(rule, r).value2 == v
  {
    hide Hit, Segment;
    var cs := rule.conditions;
    SameOnBothSides(rule.conditions, r);
    EffectiveIsTaken(true, cs, r);
    EffectiveIsTaken(false, cs, r);
    EffectiveMembers(true, cs);
    var e := Effective(true, cs);
    assert SegmentsOf(true, e, r) == SegmentsOf(false, e, r);
  }

  lemma {:induction false} SameOnBothSides(cs: seq<Condition>, r: Record)
    requires forall c :: c in cs && c.conditionType.Match? ==> SameField(c)
    ensures forall c :: c in cs && c.conditionType.Match? ==>
      (Hit(true, c, r) <==> Hit(false, c, r)) && Segment(true, c, r) == Segment(false, c, r)
    ensures Effective(true, cs) == Effective(false, cs)
  {
    hide Normalized, Trim;
    if cs != [] {
      var before := cs[..|cs| - 1];
      assert forall c :: c in before ==> c in cs;
      SameOnBothSides(before, r);
      assert AllKeys(true, before) == AllKeys(false, before);
    }
  }

  lemma MarkedPosition(cs: seq<Condition>) returns (k: nat)
    requires AtMostOneMarked(cs)
    ensures forall incoming, r :: UnmarkedBut(SegmentsOf(incoming, cs, r), k)
  {
    k := |cs|;
    if i :| 0 <= i < |cs| && LeavesMark(cs[i].normalization) {
      k := i;
    }
    forall incoming, r, i | 0 <= i < |cs| && i != k ensures Unmarked(SegmentsOf(incoming, cs, r)[i]) {
      LeavesMarkIff(cs[i].normalization);
    }
  }

  /** A rule that compares fields with themselves finds a record exactly when all the compared fields agree,
      provided at most one of them may keep an underscore. */
  lemma SameFieldRuleFinds(rule: Rule, r: Record, s: Record)
    requires SameFieldRule(rule) && AtMostOneMarked(Effective(true, rule.conditions))
    ensures Finds(rule, r, s) <==> Applies(rule, r) && Applies(rule, s) && Agree(Effective(true, rule.conditions), r, s)
  {
    hide Segment, LeavesMark, Applies, IndexRowOf;
    if Applies(rule, r) && Applies(rule, s) {
      var e := Effective(true, rule.conditions);
      SameFieldRow(rule, r);
      SameFieldRow(rule, s);
      var k := MarkedPosition(e);
      var xs, ys := SegmentsOf(true, e, r), SegmentsOf(true, e, s);
      if Join(xs) == Join(ys) {
        JoinInjective(xs, ys, k);
        forall i | 0 <= i < |e| ensures Segment(true, e[i], r) == Segment(true, e[i], s) {
          assert xs[i] == ys[i];
        }
      }
      if Agree(e, r, s) {
        assert xs == ys;
      }
    }
  }

  /** Whatever the normalization, such a rule does not depend on which record arrives first. */
  lemma SameFieldRuleIsSymmetric(rule: Rule, r: Record, s: Record)
    requires SameFieldRule(rule)
    ensures Finds(rule, r, s) <==> Finds(rule, s, r)
  {
    hide Applies, IndexRowOf;
    if Applies(rule, r) && Applies(rule, s) {
      SameFieldRow(rule, r);
      SameFieldRow(rule, s);
    }
  }

  // ---- and only then ----

  /** Some kind of record has all the fields of the rule. */
  predicate Fits(rule: Rule, objectType: string) {
    forall c :: c in rule.conditions && c.conditionType.Match? ==> c.incomingType == PROFILE_OBJECT_TYPE_NAME || c.incomingType == objectType
  }

  function Value(marked: Condition, objectType: string, field: string): string {
    if marked.incomingType == objectType && marked.incomingField == field then "1_1" else "1"
  }

  /** "1" in every field of the rule but one. */
  function AllOnes(rule: Rule, objectType: string, marked: Condition): Record {
    Record(NIL_UUID, objectType,
           map f | f in (set c | c in rule.conditions :: c.incomingField) :: Value(marked, PROFILE_OBJECT_TYPE_NAME, f),
           map f | f in (set c | c in rule.conditions :: c.incomingField) :: Value(marked, objectType, f),
           {}, 0)
  }

  lemma AllOnesSegment(rule: Rule, objectType: string, marked: Condition, c: Condition)
    requires Fits(rule, objectType) && c in rule.conditions && c.conditionType.Match?
    requires LeavesMark(marked.normalization)
    ensures var r, same := AllOnes(rule, objectType, marked), c.incomingType == marked.incomingType && c.incomingField == marked.incomingField;
      && ValueOf(true, c, r) == (if same then "1_1" else "1") && Hit(true, c, r)
      && (!same ==> Segment(true, c, r) == "1")
      && (c == marked ==> Segment(true, c, r) == "1_1")
  {
    hide Normalized;
    OnesStay(c.normalization);
    var r := AllOnes(rule, objectType, marked);
    assert c.incomingField in (set c | c in rule.conditions :: c.incomingField);
  }

  function Ones(n: nat): (s: seq<string>)
    ensures |s| == n && forall i :: 0 <= i < n ==> s[i] == "1"
  {
    seq(n, i => "1")
  }

  /** One "1_1" among n ones joins like n + 1 ones. */
  lemma {:induction false} JoinOnes(xs: seq<string>, k: nat)
    requires k < |xs| && xs[k] == "1_1" && forall i :: 0 <= i < |xs| && i != k ==> xs[i] == "1"
    ensures Join(xs) == Join(Ones(|xs| + 1))
    decreases |xs|
  {
    var all := Ones(|xs| + 1);
    assert all[1..] == Ones(|xs|);
    assert Join(all) == "1" + "_" + Join(all[1..]);
    if k > 0 {
      JoinOnes(xs[1..], k - 1);
    } else if |xs| > 1 {
      assert xs[1..] == all[1..][1..];
      assert Join(all[1..]) == "1" + "_" + Join(all[1..][1..]);
      assert "1_1" + "_" + Join(xs[1..]) == "1" + "_" + ("1" + "_" + Join(xs[1..]));
    } else {
      assert all[1..] == ["1"];
    }
  }

  lemma AllOnesRow(rule: Rule, objectType: string, k: nat)
    requires SameFieldRule(rule) && Fits(rule, objectType)
    requires k < |Effective(true, rule.conditions)| && LeavesMark(Effective(true, rule.conditions)[k].normalization)
    ensures var e := Effective(true, rule.conditions); var r := AllOnes(rule, objectType, e[k]);
      && Applies(rule, r)
      && (forall i :: 0 <= i < |e| ==> Segment(true, e[i], r) == if i == k then "1_1" else "1")
      && IndexRowOf(rule, r).value1 == Join(Ones(|e| + 1)) && IndexRowOf(rule, r).value2 == Join(Ones(|e| + 1))
  {
    hide Hit, Segment, IndexRowOf, LeavesMark;
    var e := Effective(true, rule.conditions);
    var r := AllOnes(rule, objectType, e[k]);
    EffectiveMembers(true, rule.conditions);
    forall c | c in rule.conditions && c.conditionType.Match? ensures Hit(true, c, r) {
      AllOnesSegment(rule, objectType, e[k], c);
    }
    forall i | 0 <= i < |e| ensures Segment(true, e[i], r) == if i == k then "1_1" else "1" {
      AllOnesSegment(rule, objectType, e[k], e[i]);
      assert i != k ==> FieldKey(true, e[i]) != FieldKey(true, e[k]);
    }
    JoinOnes(SegmentsOf(true, e, r), k);
    SameFieldRow(rule, r);
  }

  ghost predicate FindsExactly(rule: Rule) {
    forall r, s :: Finds(rule, r, s) <==> Applies(rule, r) && Applies(rule, s) && Agree(Effective(true, rule.conditions), r, s)
  }

  /** For a rule that some kind of record can meet, the condition is exact: with two fields that may keep
      an underscore there are records that differ and find each other. */
  lemma SameFieldRuleExactIff(rule: Rule, objectType: string)
    requires SameFieldRule(rule) && Fits(rule, objectType)
    ensures FindsExactly(rule) <==> AtMostOneMarked(Effective(true, rule.conditions))
  {
    hide Segment, Applies, IndexRowOf, LeavesMark;
    var e := Effective(true, rule.conditions);
    if AtMostOneMarked(e) {
      forall r, s ensures Finds(rule, r, s) <==> Applies(rule, r) && Applies(rule, s) && Agree(e, r, s) {
        SameFieldRuleFinds(rule, r, s);
      }
    } else {
      var i, j :| 0 <= i < j < |e| && LeavesMark(e[i].normalization) && LeavesMark(e[j].normalization);
      TwoMarksConfuse(rule, objectType, i, j);
    }
  }

  /** "1_1" in one of two fields, or in the other: records that differ find each other. */
  lemma TwoMarksConfuse(rule: Rule, objectType: string, i: nat, j: nat)
    requires SameFieldRule(rule) && Fits(rule, objectType) && i < j < |Effective(true, rule.conditions)|
    requires LeavesMark(Effective(true, rule.conditions)[i].normalization) && LeavesMark(Effective(true, rule.conditions)[j].normalization)
    ensures !FindsExactly(rule)
  {
    hide Segment, Applies, IndexRowOf, LeavesMark, Effective, AllOnes, SameFieldRule, Fits, Join;
    var e := Effective(true, rule.conditions);
    AllOnesRow(rule, objectType, i);
    AllOnesRow(rule, objectType, j);
    var r, s := AllOnes(rule, objectType, e[i]), AllOnes(rule, objectType, e[j]);
    assert "1_1"[1] == '_' && |"1"| == 1;
    assert e[i] in e && Segment(true, e[i], r) == "1_1" && Segment(true, e[i], s) == "1";
    assert Finds(rule, r, s) && !Agree(e, r, s);
  }

  /** A field is compared as one of its conditions says: when its conditions agree on type, field and normalization,
      agreement on the first of each is agreement on all. */
  lemma {:induction false} EffectiveIsAll(cs: seq<Condition>, r: Record, s: Record)
    requires forall c, d :: c in cs && d in cs && c.conditionType.Match? && d.conditionType.Match? && FieldKey(true, c) == FieldKey(true, d) ==>
      c.incomingType == d.incomingType && c.incomingField == d.incomingField && c.normalization == d.normalization
    ensures Agree(Effective(true, cs), r, s) <==> forall c :: c in cs && c.conditionType.Match? ==> Segment(true, c, r) == Segment(true, c, s)
  {
    if cs != [] {
      var n := |cs| - 1;
      var before, c := cs[..n], cs[n];
      assert cs == before + [c];
      EffectiveIsAll(before, r, s);
      if c.conditionType.Match? && FieldKey(true, c) in AllKeys(true, before) {
        var d :| d in before && d.conditionType.Match? && FieldKey(true, d) == FieldKey(true, c);
        assert Segment(true, c, r) == Segment(true, d, r) && Segment(true, c, s) == Segment(true, d, s);
      } else if c.conditionType.Match? {
        assert Effective(true, cs) == Effective(true, before) + [c];
        assert Agree(Effective(true, cs), r, s) <==> Agree(Effective(true, before), r, s) && Segment(true, c, r) == Segment(true, c, s);
      }
    }
  }

  // ---- rules between two object types ----

  predicate TwoTypeRule(rule: Rule, incomingType: string, existingType: string) {
    && incomingType != existingType && incomingType != PROFILE_OBJECT_TYPE_NAME && existingType != PROFILE_OBJECT_TYPE_NAME
    && forall c :: c in rule.conditions && c.conditionType.Match? ==>
         c.incomingType == incomingType && c.existingType == existingType && c.existingField != ""
  }

  lemma {:induction false} NothingTaken(incoming: bool, cs: seq<Condition>, r: Record)
    requires forall c :: c in cs && c.conditionType.Match? ==> !Hit(incoming, c, r)
    ensures Taken(incoming, cs, r) == []
  {
    if cs != [] {
      assert forall c :: c in cs[..|cs| - 1] ==> c in cs;
      NothingTaken(incoming, cs[..|cs| - 1], r);
    }
  }

  /** A record of either type is indexed on one side only. */
  lemma TwoTypeRow(rule: Rule, t1: string, t2: string, r: Record, incoming: bool)
    requires TwoTypeRule(rule, t1, t2) && Applies(rule, r) && r.objectType == if incoming then t1 else t2
    ensures var v := Join(SegmentsOf(incoming, Effective(incoming, rule.conditions), r));
      if incoming then IndexRowOf(rule, r).value1 == v && IndexRowOf(rule, r).value2 == ""
      else IndexRowOf(rule, r).value1 == "" && IndexRowOf(rule, r).value2 == v
  {
    forall c | c in rule.conditions && c.conditionType.Match? ensures !Hit(!incoming, c, r) && Hit(incoming, c, r) {
      assert ValueOf(!incoming, c, r) == "";
    }
    hide Hit;
    NothingTaken(!incoming, rule.conditions, r);
    EffectiveIsTaken(incoming, rule.conditions, r);
  }

  /** The value a record of one of the two types is indexed under. */
  function Indexed(rule: Rule, r: Record, incoming: bool): string {
    Join(SegmentsOf(incoming, Effective(incoming, rule.conditions), r))
  }

  /** Between two types, finding is symmetric exactly when the second value is not empty or both are. */
  lemma TwoTypeRuleSymmetricIff(rule: Rule, t1: string, t2: string, r: Record, s: Record)
    requires TwoTypeRule(rule, t1, t2) && r.objectType == t1 && s.objectType == t2 && Applies(rule, r) && Applies(rule, s)
    ensures Finds(rule, r, s) <==> Indexed(rule, r, true) == Indexed(rule, s, false)
    ensures (Finds(rule, r, s) <==> Finds(rule, s, r)) <==> Indexed(rule, s, false) != "" || Indexed(rule, r, true) == ""
  {
    hide Applies, IndexRowOf;
    TwoTypeRow(rule, t1, t2, r, true);
    TwoTypeRow(rule, t1, t2, s, false);
  }

  /** Records of the same side never find each other unless their values are empty. */
  lemma TwoTypeRuleWithinAType(rule: Rule, t1: string, t2: string, r: Record, s: Record, incoming: bool)
    requires TwoTypeRule(rule, t1, t2) && r.objectType == s.objectType == (if incoming then t1 else t2)
    requires Applies(rule, r) && Applies(rule, s)
    ensures Finds(rule, r, s) <==> Indexed(rule, r, incoming) == "" && (incoming || Indexed(rule, s, incoming) == "")
  {
    hide Applies, IndexRowOf;
    TwoTypeRow(rule, t1, t2, r, incoming);
    TwoTypeRow(rule, t1, t2, s, incoming);
  }

  ghost predicate PairsAgree(cs: seq<Condition>, r: Record, s: Record) {
    forall c :: c in cs ==> Segment(true, c, r) == Segment(false, c, s)
  }

  /** With nothing left out on one side only, two records find each other exactly when all the compared pairs agree. */
  lemma TwoTypeRuleFinds(rule: Rule, t1: string, t2: string, r: Record, s: Record)
    requires TwoTypeRule(rule, t1, t2) && r.objectType == t1 && s.objectType == t2 && Applies(rule, r) && Applies(rule, s)
    requires Effective(true, rule.conditions) == Effective(false, rule.conditions) && AtMostOneMarked(Effective(true, rule.conditions))
    ensures Finds(rule, r, s) <==> PairsAgree(Effective(true, rule.conditions), r, s)
  {
    hide Applies, IndexRowOf, Segment, LeavesMark;
    TwoTypeRuleSymmetricIff(rule, t1, t2, r, s);
    var e := Effective(true, rule.conditions);
    var k := MarkedPosition(e);
    var xs, ys := SegmentsOf(true, e, r), SegmentsOf(false, e, s);
    if Join(xs) == Join(ys) {
      JoinInjective(xs, ys, k);
      forall i | 0 <= i < |e| ensures Segment(true, e[i], r) == Segment(false, e[i], s) {
        assert xs[i] == ys[i];
      }
    }
    if PairsAgree(e, r, s) {
      assert xs == ys;
    }
  }

  /** A rule whose two sides keep different numbers of fields: no two records ever find each other. */
  lemma UnequalSidesNeverFind(rule: Rule, t1: string, t2: string, r: Record, s: Record)
    requires TwoTypeRule(rule, t1, t2) && r.objectType == t1 && s.objectType == t2 && Applies(rule, r) && Applies(rule, s)
    requires forall c :: c in rule.conditions && c.conditionType.Match? ==> !LeavesMark(c.normalization)
    requires |Effective(true, rule.conditions)| != |Effective(false, rule.conditions)|
    ensures !Finds(rule, r, s)
  {
    hide Applies, IndexRowOf, Normalized;
    TwoTypeRuleSymmetricIff(rule, t1, t2, r, s);
    var e1, e2 := Effective(true, rule.conditions), Effective(false, rule.conditions);
    EffectiveMembers(true, rule.conditions);
    EffectiveMembers(false, rule.conditions);
    EffectiveNotEmpty(true, rule.conditions);
    EffectiveNotEmpty(false, rule.conditions);
    forall i | 0 <= i < |e1| ensures Unmarked(SegmentsOf(true, e1, r)[i]) {
      assert e1[i] in e1;
      LeavesMarkIff(e1[i].normalization);
    }
    forall i | 0 <= i < |e2| ensures Unmarked(SegmentsOf(false, e2, s)[i]) {
      assert e2[i] in e2;
      LeavesMarkIff(e2[i].normalization);
    }
    JoinUnderscores(SegmentsOf(true, e1, r));
    JoinUnderscores(SegmentsOf(false, e2, s));
  }

  lemma {:induction false} EffectiveNotEmpty(incoming: bool, cs: seq<Condition>)
    ensures Effective(incoming, cs) == [] <==> forall c :: c in cs ==> !c.conditionType.Match?
  {
    if cs != [] {
      var before := cs[..|cs| - 1];
      assert cs == before + [cs[|cs| - 1]];
      EffectiveNotEmpty(incoming, before);
    }
  }

  // ---- which rules between two types find exactly the agreeing records ----

  /** Two conditions compare the same incoming field exactly if they compare the same existing field. */
  predicate Even(cs: seq<Condition>) {
    forall c, d :: c in cs && d in cs && c.conditionType.Match? && d.conditionType.Match? ==>
      (c.incomingField == d.incomingField <==> c.existingField == d.existingField)
  }

  /** A pair of fields is compared under one normalization. */
  predicate OneNormalizationEach(cs: seq<Condition>) {
    forall c, d :: c in cs && d in cs && SamePair(c, d) ==> c.normalization == d.normalization
  }

  predicate SamePair(c: Condition, d: Condition) {
    && c.conditionType.Match? && d.conditionType.Match?
    && c.incomingField == d.incomingField && c.existingField == d.existingField
  }

  ghost predicate AllPairsAgree(cs: seq<Condition>, r: Record, s: Record) {
    forall c :: c in cs && c.conditionType.Match? ==> Segment(true, c, r) == Segment(false, c, s)
  }

  /** Of the records the rule applies to, one of the first type finds exactly those of the second with which it agrees
      in all the pairs of fields that the rule names. */
  ghost predicate FindsAgreeing(rule: Rule, t1: string, t2: string) {
    forall r: Record, s: Record :: r.objectType == t1 && s.objectType == t2 && Applies(rule, r) && Applies(rule, s) ==>
      (Finds(rule, r, s) <==> AllPairsAgree(rule.conditions, r, s))
  }

  lemma SameKeySameField(rule: Rule, t1: string, t2: string, c: Condition, d: Condition)
    requires TwoTypeRule(rule, t1, t2) && c in rule.conditions && d in rule.conditions && c.conditionType.Match? && d.conditionType.Match?
    ensures FieldKey(true, c) == FieldKey(true, d) <==> c.incomingField == d.incomingField
    ensures FieldKey(false, c) == FieldKey(false, d) <==> c.existingField == d.existingField
  {
    assert FieldKey(true, c)[|t1|..] == c.incomingField && FieldKey(true, d)[|t1|..] == d.incomingField;
    assert FieldKey(false, c)[|t2|..] == c.existingField && FieldKey(false, d)[|t2|..] == d.existingField;
  }

  /** Every key is that of exactly one effective condition. */
  lemma {:induction false} EffectiveCovers(incoming: bool, cs: seq<Condition>, c: Condition) returns (i: nat)
    requires c in cs && c.conditionType.Match?
    ensures i < |Effective(incoming, cs)| && FieldKey(incoming, Effective(incoming, cs)[i]) == FieldKey(incoming, c)
  {
    var before, last := cs[..|cs| - 1], cs[|cs| - 1];
    assert cs == before + [last];
    if c in before {
      i := EffectiveCovers(incoming, before, c);
    } else if FieldKey(incoming, c) in AllKeys(incoming, before) {
      var d :| d in before && d.conditionType.Match? && FieldKey(incoming, d) == FieldKey(incoming, c);
      i := EffectiveCovers(incoming, before, d);
    } else {
      i := |Effective(incoming, before)|;
    }
  }

  lemma {:induction false} EvenSidesKeepTheSame(rule: Rule, t1: string, t2: string, n: nat)
    requires TwoTypeRule(rule, t1, t2) && Even(rule.conditions) && n <= |rule.conditions|
    ensures Effective(true, rule.conditions[..n]) == Effective(false, rule.conditions[..n])
  {
    if n > 0 {
      var before, c := rule.conditions[..n - 1], rule.conditions[n - 1];
      assert rule.conditions[..n][..n - 1] == before;
      EvenSidesKeepTheSame(rule, t1, t2, n - 1);
      if c.conditionType.Match? {
        forall d | d in before && d.conditionType.Match?
          ensures FieldKey(true, d) == FieldKey(true, c) <==> FieldKey(false, d) == FieldKey(false, c)
        {
          SameKeySameField(rule, t1, t2, c, d);
        }
        assert FieldKey(true, c) in AllKeys(true, before) <==> FieldKey(false, c) in AllKeys(false, before);
      }
    }
  }

  /** With one normalization for each pair, agreement on the first condition of each is agreement on all. */
  lemma EffectivePairsAreAll(rule: Rule, t1: string, t2: string, r: Record, s: Record)
    requires TwoTypeRule(rule, t1, t2) && Even(rule.conditions) && OneNormalizationEach(rule.conditions)
    ensures PairsAgree(Effective(true, rule.conditions), r, s) <==> AllPairsAgree(rule.conditions, r, s)
  {
    hide Segment, Effective, FieldKey;
    var cs, e := rule.conditions, Effective(true, rule.conditions);
    EffectiveMembers(true, cs);
    if PairsAgree(e, r, s) {
      forall c | c in cs && c.conditionType.Match? ensures Segment(true, c, r) == Segment(false, c, s) {
        var i := EffectiveCovers(true, cs, c);
        assert e[i] in e;
        SameKeySameField(rule, t1, t2, c, e[i]);
        assert SamePair(c, e[i]);
        SamePairSameSegments(rule, t1, t2, c, e[i], r, s);
      }
    }
  }

  lemma SamePairSameSegments(rule: Rule, t1: string, t2: string, c: Condition, d: Condition, r: Record, s: Record)
    requires TwoTypeRule(rule, t1, t2) && c in rule.conditions && d in rule.conditions && SamePair(c, d) && c.normalization == d.normalization
    ensures Segment(true, c, r) == Segment(true, d, r) && Segment(false, c, s) == Segment(false, d, s)
  {
    hide Normalized;
  }

  /** "1" in every field that one side of the rule names, but v in the field x. */
  function OnesBut(rule: Rule, incoming: bool, objectType: string, x: string, v: string): Record {
    Record(NIL_UUID, objectType, map[],
           map f | f in FieldNames(incoming, rule.conditions) :: if f == x then v else "1", {}, 0)
  }

  function FieldNames(incoming: bool, cs: seq<Condition>): set<string> {
    set c | c in cs :: FieldOf(incoming, c)
  }

  lemma OnesButRow(rule: Rule, t1: string, t2: string, incoming: bool, x: string, v: string)
    requires TwoTypeRule(rule, t1, t2) && v in ["1", "2", "1_1"]
    ensures var r := OnesBut(rule, incoming, if incoming then t1 else t2, x, v);
      Applies(rule, r) && forall c :: c in rule.conditions && c.conditionType.Match? ==>
        Segment(incoming, c, r) == if FieldOf(incoming, c) == x then Normalized(c.normalization, v) else "1"
  {
    hide Normalized;
    var r := OnesBut(rule, incoming, if incoming then t1 else t2, x, v);
    forall c | c in rule.conditions && c.conditionType.Match?
      ensures Hit(incoming, c, r) && Segment(incoming, c, r) == if FieldOf(incoming, c) == x then Normalized(c.normalization, v) else "1"
    {
      OnesStay(c.normalization);
      assert FieldOf(incoming, c) in FieldNames(incoming, rule.conditions);
      assert ValueOf(incoming, c, r) == if FieldOf(incoming, c) == x then v else "1";
      assert "2"[1..] == "" && "1"[1..] == "";
    }
  }

  /** With the same value everywhere, a record's index value shows how many fields its side keeps. */
  lemma OnesIndexed(rule: Rule, t1: string, t2: string, incoming: bool)
    requires TwoTypeRule(rule, t1, t2) && Effective(incoming, rule.conditions) != []
    ensures var r := OnesBut(rule, incoming, if incoming then t1 else t2, "", "1");
      && Applies(rule, r) && (forall c :: c in rule.conditions && c.conditionType.Match? ==> Segment(incoming, c, r) == "1")
      && Underscores(Indexed(rule, r, incoming)) == |Effective(incoming, rule.conditions)| - 1
  {
    hide Applies, Segment, Normalized;
    var r, e := OnesBut(rule, incoming, if incoming then t1 else t2, "", "1"), Effective(incoming, rule.conditions);
    OnesButRow(rule, t1, t2, incoming, "", "1");
    forall c | c in rule.conditions && c.conditionType.Match? ensures Segment(incoming, c, r) == "1" {
      OnesStay(c.normalization);
    }
    hide OnesBut, Effective, TwoTypeRule;
    EffectiveMembers(incoming, rule.conditions);
    forall i | 0 <= i < |e| ensures Unmarked(SegmentsOf(incoming, e, r)[i]) {
      assert e[i] in e;
    }
    JoinUnderscores(SegmentsOf(incoming, e, r));
  }

  /** Sides that keep different numbers of fields: records with the same value everywhere do not find each other. */
  lemma UnequalSidesMiss(rule: Rule, t1: string, t2: string)
    requires TwoTypeRule(rule, t1, t2) && |Effective(true, rule.conditions)| != |Effective(false, rule.conditions)|
    ensures !FindsAgreeing(rule, t1, t2)
  {
    hide Applies, IndexRowOf, Segment, TwoTypeRule, Effective, Indexed, Selects;
    var r, s := OnesBut(rule, true, t1, "", "1"), OnesBut(rule, false, t2, "", "1");
    EffectiveNotEmpty(true, rule.conditions);
    EffectiveNotEmpty(false, rule.conditions);
    OnesIndexed(rule, t1, t2, true);
    OnesIndexed(rule, t1, t2, false);
    TwoTypeRuleSymmetricIff(rule, t1, t2, r, s);
    assert !Finds(rule, r, s) && AllPairsAgree(rule.conditions, r, s);
  }

  /** The condition pairs the i-th field that one side keeps with the j-th that the other keeps. */
  predicate Crosses(rule: Rule, c: Condition, i: nat, j: nat) {
    var e1, e2 := Effective(true, rule.conditions), Effective(false, rule.conditions);
    && c in rule.conditions && c.conditionType.Match? && i < |e1| && j < |e2| && i != j
    && e1[i].incomingField == c.incomingField && e2[j].existingField == c.existingField
  }

  /** Sides that keep as many fields each, but a condition pairs fields kept at different places:
      records that differ in that pair find each other. */
  lemma CrossedSidesFind(rule: Rule, t1: string, t2: string, c: Condition, i: nat, j: nat)
    requires TwoTypeRule(rule, t1, t2) && |Effective(true, rule.conditions)| == |Effective(false, rule.conditions)|
    requires Crosses(rule, c, i, j)
    ensures !FindsAgreeing(rule, t1, t2)
  {
    hide Applies, IndexRowOf, Segment, TwoTypeRule, Effective, Indexed, Selects;
    var e1, e2 := Effective(true, rule.conditions), Effective(false, rule.conditions);
    var r, s := OnesBut(rule, true, t1, FieldOf(true, e1[i]), "2"), OnesBut(rule, false, t2, FieldOf(false, e2[i]), "2");
    TwoAtPlace(rule, t1, t2, true, i);
    TwoAtPlace(rule, t1, t2, false, i);
    SameIndexed(rule, r, s);
    TwoTypeRuleSymmetricIff(rule, t1, t2, r, s);
    CrossedSegments(rule, t1, t2, c, i, j);
    assert Finds(rule, r, s) && !AllPairsAgree(rule.conditions, r, s);
  }

  /** "2" at one place of the index value, "1" at the others. */
  lemma TwoAtPlace(rule: Rule, t1: string, t2: string, incoming: bool, i: nat)
    requires TwoTypeRule(rule, t1, t2) && i < |Effective(incoming, rule.conditions)|
    ensures var e := Effective(incoming, rule.conditions);
      var r := OnesBut(rule, incoming, if incoming then t1 else t2, FieldOf(incoming, e[i]), "2");
      && Applies(rule, r) && (forall k :: 0 <= k < |e| ==> Segment(incoming, e[k], r) == if k == i then "2" else "1")
      && forall c :: c in rule.conditions && c.conditionType.Match? ==>
           Segment(incoming, c, r) == if FieldOf(incoming, c) == FieldOf(incoming, e[i]) then "2" else "1"
  {
    hide Applies, Segment, Normalized, FieldKey;
    var e := Effective(incoming, rule.conditions);
    var r := OnesBut(rule, incoming, if incoming then t1 else t2, FieldOf(incoming, e[i]), "2");
    OnesButRow(rule, t1, t2, incoming, FieldOf(incoming, e[i]), "2");
    EffectiveMembers(incoming, rule.conditions);
    hide OnesBut, Effective;
    forall c | c in rule.conditions && c.conditionType.Match? ensures Normalized(c.normalization, "2") == "2" {
      DigitStays(c.normalization, '2');
    }
    forall k | 0 <= k < |e| ensures Segment(incoming, e[k], r) == if k == i then "2" else "1" {
      assert e[k] in e && e[i] in e;
      SameKeySameField(rule, t1, t2, e[i], e[k]);
    }
  }

  lemma SameIndexed(rule: Rule, r: Record, s: Record)
    requires |Effective(true, rule.conditions)| == |Effective(false, rule.conditions)|
    requires forall k :: 0 <= k < |Effective(true, rule.conditions)| ==>
      Segment(true, Effective(true, rule.conditions)[k], r) == Segment(false, Effective(false, rule.conditions)[k], s)
    ensures Indexed(rule, r, true) == Indexed(rule, s, false)
  {
    hide Segment, Effective;
    assert SegmentsOf(true, Effective(true, rule.conditions), r) == SegmentsOf(false, Effective(false, rule.conditions), s);
  }

  /** A condition that pairs the fields at two different places sees the "2" on one side only. */
  lemma CrossedSegments(rule: Rule, t1: string, t2: string, c: Condition, i: nat, j: nat)
    requires TwoTypeRule(rule, t1, t2) && |Effective(true, rule.conditions)| == |Effective(false, rule.conditions)|
    requires Crosses(rule, c, i, j)
    ensures var e1, e2 := Effective(true, rule.conditions), Effective(false, rule.conditions);
      Segment(true, c, OnesBut(rule, true, t1, FieldOf(true, e1[i]), "2"))
        != Segment(false, c, OnesBut(rule, false, t2, FieldOf(false, e2[i]), "2"))
  {
    hide Segment, Effective, OnesBut, Applies;
    var e2 := Effective(false, rule.conditions);
    TwoAtPlace(rule, t1, t2, true, i);
    TwoAtPlace(rule, t1, t2, false, i);
    EffectiveMembers(false, rule.conditions);
    assert e2[i] in e2 && e2[j] in e2;
    SameKeySameField(rule, t1, t2, e2[i], e2[j]);
    assert "2"[0] != "1"[0];
  }

  /** Sides whose conditions all pair fields kept at the same place are even. */
  lemma AlignedIsEven(rule: Rule, t1: string, t2: string)
    requires TwoTypeRule(rule, t1, t2) && |Effective(true, rule.conditions)| == |Effective(false, rule.conditions)|
    requires forall c, i, j :: !Crosses(rule, c, i, j)
    ensures Even(rule.conditions)
  {
    var cs, e1, e2 := rule.conditions, Effective(true, rule.conditions), Effective(false, rule.conditions);
    EffectiveMembers(true, cs);
    EffectiveMembers(false, cs);
    forall c, d | c in cs && d in cs && c.conditionType.Match? && d.conditionType.Match?
      ensures c.incomingField == d.incomingField <==> c.existingField == d.existingField
    {
      var i := EffectiveCovers(true, cs, c);
      var j := EffectiveCovers(true, cs, d);
      var k := EffectiveCovers(false, cs, c);
      var l := EffectiveCovers(false, cs, d);
      SameKeySameField(rule, t1, t2, c, e1[i]);
      SameKeySameField(rule, t1, t2, d, e1[j]);
      SameKeySameField(rule, t1, t2, c, e2[k]);
      SameKeySameField(rule, t1, t2, d, e2[l]);
      SameKeySameField(rule, t1, t2, c, d);
      assert !Crosses(rule, c, i, k) && !Crosses(rule, d, j, l);
    }
  }

  /** "1_1" in one field among ones is indexed like one more field. */
  lemma MarkIndexed(rule: Rule, t1: string, t2: string, incoming: bool, i: nat)
    requires TwoTypeRule(rule, t1, t2) && i < |Effective(incoming, rule.conditions)|
    requires LeavesMark(Effective(incoming, rule.conditions)[i].normalization)
    ensures var e := Effective(incoming, rule.conditions);
      var r := OnesBut(rule, incoming, if incoming then t1 else t2, FieldOf(incoming, e[i]), "1_1");
      && Applies(rule, r) && (forall k :: 0 <= k < |e| ==> Segment(incoming, e[k], r) == if k == i then "1_1" else "1")
      && Indexed(rule, r, incoming) == Join(Ones(|e| + 1))
  {
    hide Applies, Segment, Normalized, LeavesMark, FieldKey;
    var e := Effective(incoming, rule.conditions);
    var r := OnesBut(rule, incoming, if incoming then t1 else t2, FieldOf(incoming, e[i]), "1_1");
    OnesButRow(rule, t1, t2, incoming, FieldOf(incoming, e[i]), "1_1");
    OnesStay(e[i].normalization);
    EffectiveMembers(incoming, rule.conditions);
    hide OnesBut, Effective;
    forall k | 0 <= k < |e| ensures Segment(incoming, e[k], r) == if k == i then "1_1" else "1" {
      assert e[k] in e && e[i] in e;
      SameKeySameField(rule, t1, t2, e[i], e[k]);
    }
    JoinOnes(SegmentsOf(incoming, e, r), i);
  }

  /** Two fields that may keep an underscore: records that differ find each other. */
  lemma TwoMarksFind(rule: Rule, t1: string, t2: string, i: nat, j: nat)
    requires TwoTypeRule(rule, t1, t2) && Effective(true, rule.conditions) == Effective(false, rule.conditions)
    requires i < j < |Effective(true, rule.conditions)|
    requires LeavesMark(Effective(true, rule.conditions)[i].normalization) && LeavesMark(Effective(true, rule.conditions)[j].normalization)
    ensures !FindsAgreeing(rule, t1, t2)
  {
    hide Applies, IndexRowOf, Segment, LeavesMark, Indexed, Effective, TwoTypeRule, Selects;
    var cs, e := rule.conditions, Effective(true, rule.conditions);
    EffectiveMembers(true, cs);
    var r := OnesBut(rule, true, t1, FieldOf(true, e[i]), "1_1");
    var s := OnesBut(rule, false, t2, FieldOf(false, e[j]), "1_1");
    MarkIndexed(rule, t1, t2, true, i);
    MarkIndexed(rule, t1, t2, false, j);
    TwoTypeRuleSymmetricIff(rule, t1, t2, r, s);
    assert e[i] in e && "1_1"[1] == '_' && |"1"| == 1;
    assert Segment(true, e[i], r) == "1_1" && Segment(false, e[i], s) == "1";
    assert Finds(rule, r, s) && !AllPairsAgree(cs, r, s);
  }

  /** A rule between two types finds exactly the agreeing records, of all it applies to, if and only if its conditions are
      even and at most one of the compared pairs may keep an underscore. */
  lemma TwoTypeRuleExactIff(rule: Rule, t1: string, t2: string)
    requires TwoTypeRule(rule, t1, t2) && OneNormalizationEach(rule.conditions)
    ensures FindsAgreeing(rule, t1, t2) <==> Even(rule.conditions) && AtMostOneMarked(Effective(true, rule.conditions))
  {
    hide Applies, IndexRowOf, Segment, Normalized, LeavesMark, TwoTypeRule;
    var cs, e1, e2 := rule.conditions, Effective(true, rule.conditions), Effective(false, rule.conditions);
    assert cs[..|cs|] == cs;
    if Even(cs) {
      EvenSidesKeepTheSame(rule, t1, t2, |cs|);
      if AtMostOneMarked(e1) {
        forall r: Record, s: Record | r.objectType == t1 && s.objectType == t2 && Applies(rule, r) && Applies(rule, s)
          ensures Finds(rule, r, s) <==> AllPairsAgree(cs, r, s)
        {
          TwoTypeRuleFinds(rule, t1, t2, r, s);
          EffectivePairsAreAll(rule, t1, t2, r, s);
        }
      } else {
        var i, j :| 0 <= i < j < |e1| && LeavesMark(e1[i].normalization) && LeavesMark(e1[j].normalization);
        TwoMarksFind(rule, t1, t2, i, j);
      }
    } else {
      UnevenIsNotExact(rule, t1, t2);
    }
  }

  lemma UnevenIsNotExact(rule: Rule, t1: string, t2: string)
    requires TwoTypeRule(rule, t1, t2) && !Even(rule.conditions)
    ensures !FindsAgreeing(rule, t1, t2)
  {
    hide Even, FindsAgreeing, TwoTypeRule;
    var cs, e1, e2 := rule.conditions, Effective(true, rule.conditions), Effective(false, rule.conditions);
    if |e1| != |e2| {
      UnequalSidesMiss(rule, t1, t2);
    } else if c: Condition, i: nat, j: nat :| Crosses(rule, c, i, j) {
      CrossedSidesFind(rule, t1, t2, c, i, j);
    } else {
      AlignedIsEven(rule, t1, t2);
    }
  }

  function Comparing(incomingField: string, existingField: string, n: Normalization): Condition {
    Condition(Match, "in", incomingField, "ex", existingField, n)
  }

  /** a = x, a = y and b = x. */
  function UnevenRule(n: Normalization): Rule {
    Rule(0, [Comparing("a", "x", n), Comparing("a", "y", n), Comparing("b", "x", n)])
  }

  function With(objectType: string, fields: map<string, string>): Record {
    Record(NIL_UUID, objectType, map[], fields, {}, 0)
  }

  lemma EffectiveSnoc(incoming: bool, cs: seq<Condition>, c: Condition)
    requires c.conditionType.Match?
    ensures Effective(incoming, cs + [c]) == Effective(incoming, cs) + if FieldKey(incoming, c) in AllKeys(incoming, cs) then [] else [c]
    ensures AllKeys(incoming, cs + [c]) == AllKeys(incoming, cs) + {FieldKey(incoming, c)}
  {
    hide FieldKey;
    assert (cs + [c])[..|cs|] == cs;
  }

  lemma EffectiveOfOne(incoming: bool, c: Condition)
    requires c.conditionType.Match?
    ensures Effective(incoming, [c]) == [c] && AllKeys(incoming, [c]) == {FieldKey(incoming, c)}
  {
    hide FieldKey;
    assert [] + [c] == [c];
    EffectiveSnoc(incoming, [], c);
  }

  lemma KeptOfThree(incoming: bool, c1: Condition, c2: Condition, c3: Condition)
    requires c1.conditionType.Match? && c2.conditionType.Match? && c3.conditionType.Match?
    ensures FieldKey(incoming, c1) == FieldKey(incoming, c2) != FieldKey(incoming, c3) ==> Effective(incoming, [c1, c2, c3]) == [c1, c3]
    ensures FieldKey(incoming, c1) == FieldKey(incoming, c3) != FieldKey(incoming, c2) ==> Effective(incoming, [c1, c2, c3]) == [c1, c2]
  {
    hide FieldKey, Effective, AllKeys;
    assert [c1] + [c2] == [c1, c2] && [c1, c2] + [c3] == [c1, c2, c3];
    EffectiveOfOne(incoming, c1);
    EffectiveSnoc(incoming, [c1], c2);
    EffectiveSnoc(incoming, [c1, c2], c3);
  }

  lemma KeptOfUneven(n: Normalization)
    ensures Effective(true, UnevenRule(n).conditions) == [Comparing("a", "x", n), Comparing("b", "x", n)]
    ensures Effective(false, UnevenRule(n).conditions) == [Comparing("a", "x", n), Comparing("a", "y", n)]
  {
    var c1, c2, c3 := Comparing("a", "x", n), Comparing("a", "y", n), Comparing("b", "x", n);
    assert FieldKey(true, c1) == "ina" == FieldKey(true, c2) && FieldKey(true, c3) == "inb" && "ina"[2] != "inb"[2];
    assert FieldKey(false, c1) == "exx" == FieldKey(false, c3) && FieldKey(false, c2) == "exy" && "exx"[2] != "exy"[2];
    hide Effective, FieldKey;
    KeptOfThree(true, c1, c2, c3);
    KeptOfThree(false, c1, c2, c3);
  }

  lemma DigitSegment(incoming: bool, c: Condition, r: Record, d: char)
    requires '1' <= d <= '9' && ValueOf(incoming, c, r) == [d]
    ensures Hit(incoming, c, r) && Segment(incoming, c, r) == [d]
  {
    hide Normalized, Trim;
    DigitStays(c.normalization, d);
  }

  lemma UnevenSegments(n: Normalization)
    ensures var rule, r, s := UnevenRule(n), With("in", map["a" := "1", "b" := "2"]), With("ex", map["x" := "1", "y" := "2"]);
      && Applies(rule, r) && Applies(rule, s)
      && Segment(true, rule.conditions[0], r) == Segment(true, rule.conditions[1], r) == "1" && Segment(true, rule.conditions[2], r) == "2"
      && Segment(false, rule.conditions[0], s) == "1" && Segment(false, rule.conditions[1], s) == "2"
  {
    hide Normalized, Trim, Segment, Hit;
    var cs, r, s := UnevenRule(n).conditions, With("in", map["a" := "1", "b" := "2"]), With("ex", map["x" := "1", "y" := "2"]);
    DigitSegment(true, cs[0], r, '1');
    DigitSegment(true, cs[1], r, '1');
    DigitSegment(true, cs[2], r, '2');
    DigitSegment(false, cs[0], s, '1');
    DigitSegment(false, cs[1], s, '2');
    DigitSegment(false, cs[2], s, '1');
  }

  /** One incoming field compared with two existing ones, and one of these with another incoming field:
      the sides keep two fields each, and records that differ in a compared pair find each other. */
  lemma UnevenRuleFindsDiffering(n: Normalization)
    ensures var rule, r, s := UnevenRule(n), With("in", map["a" := "1", "b" := "2"]), With("ex", map["x" := "1", "y" := "2"]);
      Finds(rule, r, s) && Segment(true, rule.conditions[1], r) != Segment(false, rule.conditions[1], s)
  {
    var rule, r, s := UnevenRule(n), With("in", map["a" := "1", "b" := "2"]), With("ex", map["x" := "1", "y" := "2"]);
    UnevenSegments(n);
    KeptOfUneven(n);
    hide Segment, Applies, Effective, IndexRowOf, Selects;
    assert "1"[0] != "2"[0];
    TwoTypeRuleSymmetricIff(rule, "in", "ex", r, s);
    assert SegmentsOf(true, Effective(true, rule.conditions), r) == ["1", "2"];
    assert SegmentsOf(false, Effective(false, rule.conditions), s) == ["1", "2"];
  }

  // ---- digits ----

  lemma KeepOne(d: char, p: char -> bool)
    requires p(d)
    ensures Keep([d], p) == [d]
  {}

  lemma DigitStays(n: Normalization, d: char)
    requires '1' <= d <= '9'
    ensures Normalized(n, [d]) == [d] && Trim([d]) == [d]
  {
    assert [d][1..] == "";
    assert Lower([d]) == [d];
    KeepOne(d, IsAlphaNumeric);
    KeepOne(d, IsDigit);
    KeepOne(d, IsNotSpace);
  }
}
