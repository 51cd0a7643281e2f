/** When a rule finds the same records whichever arrives first. */
module RuleSymmetry {
  import opened Lists
  import opened MergeHistory
  import opened RuleMatching

  /** Searching in either order gives the same. */
  ghost predicate Symmetric(rule: Rule) {
    forall r, s :: Finds(rule, r, s) <==> Finds(rule, s, r)
  }

  // ---- the fields a side keeps ----

  datatype TypedField = TypedField(objectType: string, name: string)

  function FieldAt(incoming: bool, c: Condition): TypedField {
    TypedField(TypeOf(incoming, c), FieldOf(incoming, c))
  }

  function NamedFields(incoming: bool, cs: seq<Condition>): set<TypedField> {
    set c | c in cs && c.conditionType.Match? :: FieldAt(incoming, c)
  }

  function AllNamed(rule: Rule): set<TypedField> {
    NamedFields(true, rule.conditions) + NamedFields(false, rule.conditions)
  }

  function HeldKeys(incoming: bool, cs: seq<Condition>, held: set<TypedField>): set<string> {
    set c | c in cs && c.conditionType.Match? && FieldAt(incoming, c) in held :: FieldKey(incoming, c)
  }

  /** The fields that one side keeps when exactly those in `held` hold something, each at its first condition. */
  function Kept(incoming: bool, cs: seq<Condition>, held: set<TypedField>): seq<TypedField> {
    if cs == [] then []
    else
      var before, c := cs[..|cs| - 1], cs[|cs| - 1];
      Kept(incoming, before, held) +
      if c.conditionType.Match? && FieldAt(incoming, c) in held && FieldKey(incoming, c) !in HeldKeys(incoming, before, held)
      then [FieldAt(incoming, c)] else []
  }

  /** Every match condition has something on one side. */
  predicate AppliesTo(rule: Rule, held: set<TypedField>) {
    forall c :: c in rule.conditions && c.conditionType.Match? ==> FieldAt(true, c) in held || FieldAt(false, c) in held
  }

  predicate Holds(r: Record, f: TypedField) {
    Trim(GetValue(f.objectType, f.name, r)) != ""
  }

  function HeldBy(rule: Rule, r: Record): set<TypedField> {
    set f | f in AllNamed(rule) && Holds(r, f)
  }

  lemma {:induction false} KeptIsTaken(incoming: bool, cs: seq<Condition>, held: set<TypedField>, r: Record)
    requires forall c :: c in cs && c.conditionType.Match? ==> (Hit(incoming, c, r) <==> FieldAt(incoming, c) in held)
    ensures |Taken(incoming, cs, r)| == |Kept(incoming, cs, held)|
    ensures forall i :: 0 <= i < |Taken(incoming, cs, r)| ==>
      var c := Taken(incoming, cs, r)[i];
      c in cs && c.conditionType.Match? && FieldAt(incoming, c) == Kept(incoming, cs, held)[i]
  {
    hide Hit, FieldAt, FieldKey;
    if cs != [] {
      var before := cs[..|cs| - 1];
      assert forall c :: c in before ==> c in cs;
      KeptIsTaken(incoming, before, held, r);
      assert UsedKeys(incoming, before, r) == HeldKeys(incoming, before, held);
    }
  }

  lemma KeptSnoc(incoming: bool, cs: seq<Condition>, c: Condition, held: set<TypedField>)
    ensures var counts := c.conditionType.Match? && FieldAt(incoming, c) in held;
      && Kept(incoming, cs + [c], held) == Kept(incoming, cs, held)
           + (if counts && FieldKey(incoming, c) !in HeldKeys(incoming, cs, held) then [FieldAt(incoming, c)] else [])
      && HeldKeys(incoming, cs + [c], held) == HeldKeys(incoming, cs, held) + (if counts then {FieldKey(incoming, c)} else {})
      && NamedFields(incoming, cs + [c]) == NamedFields(incoming, cs) + if c.conditionType.Match? then {FieldAt(incoming, c)} else {}
  {
    hide FieldAt, FieldKey;
    assert (cs + [c])[..|cs|] == cs;
  }

  function Key(f: TypedField): string { f.objectType + f.name }

  lemma KeyOfField(incoming: bool, c: Condition)
    ensures FieldKey(incoming, c) == Key(FieldAt(incoming, c))
  {}

  /** Kept fields are different, they are held, and there is one for every field held. */
  lemma {:induction false} KeptMembers(incoming: bool, cs: seq<Condition>, held: set<TypedField>)
    ensures NoRepeats(Kept(incoming, cs, held))
    ensures forall f :: f in Kept(incoming, cs, held) ==>
      f in held && f in NamedFields(incoming, cs) && Key(f) in HeldKeys(incoming, cs, held)
    ensures forall f :: f in held && f in NamedFields(incoming, cs) ==> Key(f) in HeldKeys(incoming, cs, held)
    ensures Kept(incoming, cs, held) == [] ==> HeldKeys(incoming, cs, held) == {}
  {
    if cs != [] {
      var before, c := cs[..|cs| - 1], cs[|cs| - 1];
      assert cs == before + [c];
      KeptMembers(incoming, before, held);
      KeptSnoc(incoming, before, c, held);
      KeyOfField(incoming, c);
      hide Kept, HeldKeys, NamedFields, FieldAt, FieldKey, Key;
      var ks := Kept(incoming, before, held);
      assert forall i :: 0 <= i < |ks| ==> ks[i] in ks;
    }
  }

  /** A side keeps nothing exactly if none of its fields is held. */
  lemma KeptNothingIff(incoming: bool, cs: seq<Condition>, held: set<TypedField>)
    ensures Kept(incoming, cs, held) == [] <==> NamedFields(incoming, cs) !! held
  {
    KeptMembers(incoming, cs, held);
    var ks := Kept(incoming, cs, held);
    hide Kept, HeldKeys, NamedFields, Key;
    if ks != [] {
      assert ks[0] in ks;
    }
  }

  // ---- rules whose fields one record may hold ----

  /** All fields are those of one object type or of the profile, and each is normalized in one way. */
  predicate OneRecordRule(rule: Rule, objectType: string, settings: TypedField -> Normalization) {
    forall incoming, c :: c in rule.conditions && c.conditionType.Match? ==>
      && TypeOf(incoming, c) in [objectType, PROFILE_OBJECT_TYPE_NAME]
      && settings(FieldAt(incoming, c)) == c.normalization
  }

  predicate LeavesNoMarks(rule: Rule) {
    forall c :: c in rule.conditions && c.conditionType.Match? ==> !LeavesMark(c.normalization)
  }

  function Shown(settings: TypedField -> Normalization, r: Record, f: TypedField): string {
    Normalized(settings(f), GetValue(f.objectType, f.name, r))
  }

  function AllShown(settings: TypedField -> Normalization, r: Record, fs: seq<TypedField>): (s: seq<string>)
    ensures |s| == |fs| && forall i :: 0 <= i < |fs| ==> s[i] == Shown(settings, r, fs[i])
  {
    seq(|fs|, i requires 0 <= i < |fs| => Shown(settings, r, fs[i]))
  }

  lemma HeldIffHit(rule: Rule, r: Record, incoming: bool, c: Condition)
    requires c in rule.conditions && c.conditionType.Match?
    ensures Hit(incoming, c, r) <==> FieldAt(incoming, c) in HeldBy(rule, r)
  {
    assert FieldAt(incoming, c) in NamedFields(incoming, rule.conditions);
  }

  /** A record is indexed under the values of the fields kept. */
  lemma RowShows(rule: Rule, objectType: string, settings: TypedField -> Normalization, r: Record, incoming: bool)
    requires OneRecordRule(rule, objectType, settings)
    ensures var shown := AllShown(settings, r, Kept(incoming, rule.conditions, HeldBy(rule, r)));
      && Join(Segments(incoming, rule, r)) == Join(shown)
      && (LeavesNoMarks(rule) ==> forall i :: 0 <= i < |shown| ==> Unmarked(shown[i]))
  {
    hide Hit, Join, HeldBy, Kept, Normalized, LeavesMark;
    var held := HeldBy(rule, r);
    forall c | c in rule.conditions && c.conditionType.Match? ensures Hit(incoming, c, r) <==> FieldAt(incoming, c) in held {
      HeldIffHit(rule, r, incoming, c);
    }
    KeptIsTaken(incoming, rule.conditions, held, r);
    var cs, fs := Taken(incoming, rule.conditions, r), Kept(incoming, rule.conditions, held);
    forall i | 0 <= i < |cs|
      ensures Segment(incoming, cs[i], r) == Shown(settings, r, fs[i]) && (LeavesNoMarks(rule) ==> Unmarked(Shown(settings, r, fs[i])))
    {
      LeavesMarkIff(cs[i].normalization);
    }
    hide Taken, Segment, Shown;
    assert Segments(incoming, rule, r) == AllShown(settings, r, fs);
  }

  lemma AppliesWhereHeld(rule: Rule, r: Record)
    ensures Applies(rule, r) ==> AppliesTo(rule, HeldBy(rule, r))
    ensures AppliesTo(rule, HeldBy(rule, r)) && r.skippedBy == {} ==> Applies(rule, r)
  {
    hide Hit, HeldBy, FieldAt;
    forall incoming, c | c in rule.conditions && c.conditionType.Match?
      ensures Hit(incoming, c, r) <==> FieldAt(incoming, c) in HeldBy(rule, r)
    {
      HeldIffHit(rule, r, incoming, c);
    }
  }

  /** Without underscores, lists that are not empty are told apart by their join. */
  lemma JoinsAlikeIff(xs: seq<string>, ys: seq<string>)
    requires xs != [] && ys != []
    requires forall i :: 0 <= i < |xs| ==> Unmarked(xs[i])
    requires forall i :: 0 <= i < |ys| ==> Unmarked(ys[i])
    ensures Join(xs) == Join(ys) <==> xs == ys
  {
    hide Join, Unmarked;
    JoinUnderscores(xs);
    JoinUnderscores(ys);
    if Join(xs) == Join(ys) {
      JoinInjective(xs, ys, |xs|);
    }
  }

  // ---- the condition ----

  /** Searching in either order gives the same between records that hold P and records that hold Q. */
  ghost predicate SymmetricBetween(rule: Rule, P: set<TypedField>, Q: set<TypedField>) {
    forall r, s :: HeldBy(rule, r) == P && HeldBy(rule, s) == Q ==> (Finds(rule, r, s) <==> Finds(rule, s, r))
  }

  /** The fields of one list, each with the field that stands at its place in the other. */
  function Facing(xs: seq<TypedField>, ys: seq<TypedField>): set<(TypedField, TypedField)> {
    set i | 0 <= i < |xs| && i < |ys| :: (xs[i], ys[i])
  }

  /** Between records that hold P and records that hold Q: either way round as many fields are compared,
      or not as many, and if so, each field with the same one. */
  predicate Balanced(rule: Rule, P: set<TypedField>, Q: set<TypedField>) {
    var cs := rule.conditions;
    && (|Kept(false, cs, P)| == |Kept(true, cs, Q)| <==> |Kept(true, cs, P)| == |Kept(false, cs, Q)|)
    && (|Kept(false, cs, P)| == |Kept(true, cs, Q)| ==>
          Facing(Kept(false, cs, P), Kept(true, cs, Q)) == Facing(Kept(true, cs, P), Kept(false, cs, Q)))
  }

  /** Whatever fields of the rule two records hold. */
  ghost predicate AlwaysBalanced(rule: Rule) {
    forall P: set<TypedField>, Q: set<TypedField> ::
      P <= AllNamed(rule) && Q <= AllNamed(rule) && AppliesTo(rule, P) && AppliesTo(rule, Q) ==> Balanced(rule, P, Q)
  }

  predicate AllUnmarked(rule: Rule, settings: TypedField -> Normalization, r: Record) {
    forall f :: f in HeldBy(rule, r) ==> Unmarked(Shown(settings, r, f))
  }

  lemma KeptUnmarked(rule: Rule, objectType: string, settings: TypedField -> Normalization, r: Record, incoming: bool)
    requires OneRecordRule(rule, objectType, settings) && (LeavesNoMarks(rule) || AllUnmarked(rule, settings, r))
    ensures var shown := AllShown(settings, r, Kept(incoming, rule.conditions, HeldBy(rule, r)));
      forall i :: 0 <= i < |shown| ==> Unmarked(shown[i])
  {
    hide HeldBy, Kept, Shown, Segments, Unmarked, LeavesMark;
    RowShows(rule, objectType, settings, r, incoming);
    var fs := Kept(incoming, rule.conditions, HeldBy(rule, r));
    KeptMembers(incoming, rule.conditions, HeldBy(rule, r));
    assert forall i :: 0 <= i < |fs| ==> fs[i] in fs;
  }

  /** The second value of r is the first of s: the fields that r keeps on the one side agree with those that s keeps
      on the other. */
  lemma MeetsIff(rule: Rule, objectType: string, settings: TypedField -> Normalization, r: Record, s: Record, incoming: bool)
    requires OneRecordRule(rule, objectType, settings)
    requires Kept(!incoming, rule.conditions, HeldBy(rule, r)) != [] && Kept(incoming, rule.conditions, HeldBy(rule, s)) != []
    requires LeavesNoMarks(rule) || (AllUnmarked(rule, settings, r) && AllUnmarked(rule, settings, s))
    ensures var xs, ys := Kept(!incoming, rule.conditions, HeldBy(rule, r)), Kept(incoming, rule.conditions, HeldBy(rule, s));
      Join(Segments(!incoming, rule, r)) == Join(Segments(incoming, rule, s)) <==>
      |xs| == |ys| && forall p :: p in Facing(xs, ys) ==> Shown(settings, r, p.0) == Shown(settings, s, p.1)
  {
    hide Join, HeldBy, Kept, Shown, Segments, OneRecordRule, Unmarked, AllUnmarked, LeavesNoMarks;
    RowShows(rule, objectType, settings, r, !incoming);
    RowShows(rule, objectType, settings, s, incoming);
    KeptUnmarked(rule, objectType, settings, r, !incoming);
    KeptUnmarked(rule, objectType, settings, s, incoming);
    var xs, ys := Kept(!incoming, rule.conditions, HeldBy(rule, r)), Kept(incoming, rule.conditions, HeldBy(rule, s));
    JoinsAlikeIff(AllShown(settings, r, xs), AllShown(settings, s, ys));
    if |xs| == |ys| {
      if forall p :: p in Facing(xs, ys) ==> Shown(settings, r, p.0) == Shown(settings, s, p.1) {
        forall i | 0 <= i < |xs| ensures Shown(settings, r, xs[i]) == Shown(settings, s, ys[i]) {
          assert (xs[i], ys[i]) in Facing(xs, ys);
        }
        assert AllShown(settings, r, xs) == AllShown(settings, s, ys);
      }
      if AllShown(settings, r, xs) == AllShown(settings, s, ys) {
        forall i | 0 <= i < |xs| ensures Shown(settings, r, xs[i]) == Shown(settings, s, ys[i]) {
          assert AllShown(settings, r, xs)[i] == AllShown(settings, s, ys)[i];
        }
      }
    }
  }

  // ---- it suffices ----

  /** The two sides have no field in common. */
  predicate Apart(rule: Rule) {
    NamedFields(true, rule.conditions) !! NamedFields(false, rule.conditions)
  }

  predicate HasMatch(rule: Rule) {
    exists c :: c in rule.conditions && c.conditionType.Match?
  }

  /** If some record that meets the rule has nothing on one side, the sides have no field in common. */
  lemma OneSidedIsApart(rule: Rule, held: set<TypedField>, incoming: bool)
    requires AppliesTo(rule, held) && Kept(incoming, rule.conditions, held) == []
    ensures Apart(rule)
  {
    hide FieldAt;
    var cs := rule.conditions;
    KeptNothingIff(incoming, cs, held);
    forall f | f in NamedFields(!incoming, cs) ensures f in held {
      var c :| c in cs && c.conditionType.Match? && FieldAt(!incoming, c) == f;
      assert FieldAt(incoming, c) in NamedFields(incoming, cs);
    }
  }

  /** All the incoming fields and one existing field, or the other way round. */
  function AllAndOne(rule: Rule, incoming: bool, c: Condition): set<TypedField> {
    NamedFields(incoming, rule.conditions) + {FieldAt(!incoming, c)}
  }

  lemma AllAndOneKept(rule: Rule, incoming: bool, c: Condition)
    requires Apart(rule) && c in rule.conditions && c.conditionType.Match?
    ensures var held := AllAndOne(rule, incoming, c);
      && held <= AllNamed(rule) && AppliesTo(rule, held)
      && Kept(!incoming, rule.conditions, held) == [FieldAt(!incoming, c)]
      && Kept(incoming, rule.conditions, held) != []
      && forall f :: f in Kept(incoming, rule.conditions, held) ==> f in NamedFields(incoming, rule.conditions)
  {
    hide FieldAt, Kept;
    var cs, held, f := rule.conditions, AllAndOne(rule, incoming, c), FieldAt(!incoming, c);
    assert f in NamedFields(!incoming, cs) && FieldAt(incoming, c) in NamedFields(incoming, cs);
    KeptMembers(incoming, cs, held);
    KeptNothingIff(incoming, cs, held);
    KeptMembers(!incoming, cs, held);
    KeptNothingIff(!incoming, cs, held);
    OnlyOne(Kept(!incoming, cs, held), f);
  }

  lemma OnlyOne(fs: seq<TypedField>, f: TypedField)
    requires fs != [] && NoRepeats(fs) && forall g :: g in fs ==> g == f
    ensures fs == [f]
  {
    assert fs[0] in fs;
    ListSize(fs, {f});
  }

  /** A rule whose sides have no field in common is never balanced. */
  lemma ApartIsUnbalanced(rule: Rule, c: Condition)
    requires Apart(rule) && c in rule.conditions && c.conditionType.Match?
    ensures !Balanced(rule, AllAndOne(rule, true, c), AllAndOne(rule, false, c))
  {
    hide Kept, FieldAt;
    var cs, P, Q, a, b := rule.conditions, AllAndOne(rule, true, c), AllAndOne(rule, false, c), FieldAt(true, c), FieldAt(false, c);
    AllAndOneKept(rule, true, c);
    AllAndOneKept(rule, false, c);
    assert b in NamedFields(false, cs);
    assert (b, a) in Facing([b], [a]) by {
      assert ([b][0], [a][0]) == (b, a);
    }
    assert forall p :: p in Facing(Kept(true, cs, P), Kept(false, cs, Q)) ==> p.0 in Kept(true, cs, P);
  }

  lemma BalancedBothEnds(rule: Rule, objectType: string, settings: TypedField -> Normalization, r: Record, s: Record)
    requires OneRecordRule(rule, objectType, settings) && LeavesNoMarks(rule) && Balanced(rule, HeldBy(rule, r), HeldBy(rule, s))
    requires forall incoming ::
      Kept(incoming, rule.conditions, HeldBy(rule, r)) != [] && Kept(incoming, rule.conditions, HeldBy(rule, s)) != []
    ensures Join(Segments(false, rule, r)) == Join(Segments(true, rule, s)) <==>
      Join(Segments(true, rule, r)) == Join(Segments(false, rule, s))
  {
    hide Join, HeldBy, Kept, Shown, Segments, OneRecordRule, Facing, LeavesNoMarks;
    MeetsIff(rule, objectType, settings, r, s, true);
    MeetsIff(rule, objectType, settings, r, s, false);
  }

  /** Where the values meet both ways or not at all, it does not matter which of them are empty. */
  lemma MeetingBothWays(rule: Rule, r: Record, s: Record)
    requires Join(Segments(false, rule, r)) == Join(Segments(true, rule, s)) <==>
      Join(Segments(true, rule, r)) == Join(Segments(false, rule, s))
    ensures Finds(rule, r, s) <==> Finds(rule, s, r)
  {
    hide Applies, Join, Segments;
  }

  lemma NoMatchNothingKept(rule: Rule, incoming: bool, r: Record)
    requires !HasMatch(rule)
    ensures Segments(incoming, rule, r) == []
  {
    NothingTaken(incoming, rule.conditions, r);
  }

  lemma BalancedFinds(rule: Rule, objectType: string, settings: TypedField -> Normalization, r: Record, s: Record)
    requires OneRecordRule(rule, objectType, settings) && LeavesNoMarks(rule) && AlwaysBalanced(rule)
    requires Applies(rule, r) && Applies(rule, s)
    ensures Finds(rule, r, s) <==> Finds(rule, s, r)
  {
    hide Applies, Join, Segments, Kept, OneRecordRule, Balanced, FieldAt;
    AppliesWhereHeld(rule, r);
    AppliesWhereHeld(rule, s);
    if c :| c in rule.conditions && c.conditionType.Match? {
      if Apart(rule) {
        AllAndOneKept(rule, true, c);
        AllAndOneKept(rule, false, c);
        ApartIsUnbalanced(rule, c);
        assert false;
      }
      forall incoming
        ensures Kept(incoming, rule.conditions, HeldBy(rule, r)) != [] && Kept(incoming, rule.conditions, HeldBy(rule, s)) != []
      {
        BothSidesHeld(rule, HeldBy(rule, r), incoming);
        BothSidesHeld(rule, HeldBy(rule, s), incoming);
      }
      BalancedBothEnds(rule, objectType, settings, r, s);
    } else {
      NoMatchNothingKept(rule, true, r);
      NoMatchNothingKept(rule, false, r);
      NoMatchNothingKept(rule, true, s);
      NoMatchNothingKept(rule, false, s);
    }
    MeetingBothWays(rule, r, s);
  }

  lemma BothSidesHeld(rule: Rule, held: set<TypedField>, incoming: bool)
    requires AppliesTo(rule, held) && !Apart(rule)
    ensures Kept(incoming, rule.conditions, held) != []
  {
    hide AppliesTo, Apart, Kept;
    if Kept(incoming, rule.conditions, held) == [] {
      OneSidedIsApart(rule, held, incoming);
    }
  }

  // ---- it is necessary ----

  /** The record that holds these values and nothing else. */
  function Holding(objectType: string, values: map<TypedField, string>): Record {
    Record(NIL_UUID, objectType, PartOf(PROFILE_OBJECT_TYPE_NAME, values), PartOf(objectType, values), {}, 0)
  }

  function PartOf(objectType: string, values: map<TypedField, string>): map<string, string> {
    map name | name in (set f | f in values && f.objectType == objectType :: f.name) :: values[TypedField(objectType, name)]
  }

  lemma HoldingValue(objectType: string, values: map<TypedField, string>, f: TypedField)
    requires f.objectType in [objectType, PROFILE_OBJECT_TYPE_NAME]
    ensures GetValue(f.objectType, f.name, Holding(objectType, values)) == if f in values then values[f] else ""
  {
    assert f == TypedField(f.objectType, f.name);
    if f.name in PartOf(f.objectType, values) {
      var g :| g in values && g.objectType == f.objectType && g.name == f.name;
      assert g == f;
    }
  }

  function Digit(c: char): string { [c] }

  /** The digit d in field x and 1 in the other fields of the set. */
  function Digits(objectType: string, held: set<TypedField>, x: TypedField, d: char): Record {
    Holding(objectType, map f | f in held :: Digit(if f == x then d else '1'))
  }

  lemma DigitsShown(rule: Rule, objectType: string, settings: TypedField -> Normalization, held: set<TypedField>, x: TypedField, d: char)
    requires OneRecordRule(rule, objectType, settings) && held <= AllNamed(rule) && AppliesTo(rule, held) && '1' <= d <= '9'
    ensures var r := Digits(objectType, held, x, d);
      && HeldBy(rule, r) == held && Applies(rule, r)
      && forall f :: f in held ==> Shown(settings, r, f) == Digit(if f == x then d else '1')
  {
    hide Normalized, Trim, AppliesTo, LeavesMark, GetValue, Holding, Applies;
    var r := Digits(objectType, held, x, d);
    forall f | f in AllNamed(rule)
      ensures Holds(r, f) <==> f in held
      ensures f in held ==> Shown(settings, r, f) == Digit(if f == x then d else '1')
    {
      HoldingValue(objectType, map f | f in held :: Digit(if f == x then d else '1'), f);
      DigitStays(settings(f), if f == x then d else '1');
      NothingToTrim();
    }
    assert HeldBy(rule, r) == held;
    NeverSkipped(objectType, map f | f in held :: Digit(if f == x then d else '1'));
    AppliesWhereHeld(rule, r);
  }

  lemma NeverSkipped(objectType: string, values: map<TypedField, string>)
    ensures Holding(objectType, values).skippedBy == {}
  {}

  lemma NothingToTrim()
    ensures Trim("") == ""
  {}

  lemma DigitsDiffer(x: char, y: char)
    requires x != y
    ensures Digit(x) != Digit(y) && Digit(x) != ""
  {
    assert Digit(x)[0] != Digit(y)[0];
  }

  /** Records that meet one way and not the other, and whose second values are not empty, are found in one order only. */
  lemma MeetingOneWay(rule: Rule, r: Record, s: Record)
    requires Applies(rule, r) && Applies(rule, s)
    requires Join(Segments(false, rule, r)) != "" && Join(Segments(false, rule, s)) != ""
    requires !(Join(Segments(false, rule, r)) == Join(Segments(true, rule, s)) <==>
      Join(Segments(true, rule, r)) == Join(Segments(false, rule, s)))
    ensures !SymmetricBetween(rule, HeldBy(rule, r), HeldBy(rule, s))
  {
    hide Applies, Join, Segments, HeldBy;
    assert !(Finds(rule, r, s) <==> Finds(rule, s, r));
  }

  /** The second value is not empty where a field with a digit is kept. */
  lemma DigitsAreIndexed(rule: Rule, objectType: string, settings: TypedField -> Normalization, r: Record, incoming: bool)
    requires OneRecordRule(rule, objectType, settings) && Kept(incoming, rule.conditions, HeldBy(rule, r)) != []
    requires forall f :: f in HeldBy(rule, r) ==> Shown(settings, r, f) != ""
    ensures Join(Segments(incoming, rule, r)) != ""
  {
    hide HeldBy, Kept, Shown, Segments, OneRecordRule;
    RowShows(rule, objectType, settings, r, incoming);
    var fs := Kept(incoming, rule.conditions, HeldBy(rule, r));
    KeptMembers(incoming, rule.conditions, HeldBy(rule, r));
    assert fs[0] in fs;
    NotEmptyJoin(AllShown(settings, r, fs));
  }

  lemma NotEmptyJoin(xs: seq<string>)
    requires xs != [] && xs[0] != ""
    ensures Join(xs) != ""
  {}

  /** Records of digits over two sets of fields, with the digit d in x and e in y and 1 elsewhere, that meet one way only. */
  lemma DigitsShow(rule: Rule, objectType: string, settings: TypedField -> Normalization,
                   P: set<TypedField>, Q: set<TypedField>, x: TypedField, y: TypedField, d: char, e: char)
    requires OneRecordRule(rule, objectType, settings) && '1' <= d <= '9' && '1' <= e <= '9'
    requires P <= AllNamed(rule) && Q <= AllNamed(rule) && AppliesTo(rule, P) && AppliesTo(rule, Q)
    requires forall incoming :: Kept(incoming, rule.conditions, P) != [] && Kept(incoming, rule.conditions, Q) != []
    requires !(DigitsMeet(rule, P, Q, false, x, y, d, e) <==> DigitsMeet(rule, P, Q, true, x, y, d, e))
    ensures !SymmetricBetween(rule, P, Q)
  {
    hide SymmetricBetween, Unmarked, LeavesNoMarks, HeldBy, Kept, Shown, Segments, OneRecordRule, Join, Applies, AppliesTo, AllNamed,
         Digits, Digit, DigitsMeet;
    var r, s := Digits(objectType, P, x, d), Digits(objectType, Q, y, e);
    DigitsShown(rule, objectType, settings, P, x, d);
    DigitsShown(rule, objectType, settings, Q, y, e);
    forall c | '1' <= c <= '9' ensures Digit(c) != "" && Unmarked(Digit(c)) {
      PlainDigit(c);
    }
    MeetsIff(rule, objectType, settings, r, s, true);
    MeetsIff(rule, objectType, settings, r, s, false);
    DigitsMeetIff(rule, objectType, settings, P, Q, x, y, d, e, false, r, s);
    DigitsMeetIff(rule, objectType, settings, P, Q, x, y, d, e, true, r, s);
    DigitsAreIndexed(rule, objectType, settings, r, false);
    DigitsAreIndexed(rule, objectType, settings, s, false);
    MeetingOneWay(rule, r, s);
  }

  lemma PlainDigit(c: char)
    requires '1' <= c <= '9'
    ensures Digit(c) != "" && Unmarked(Digit(c))
  {}

  /** Fields that face each other carry the same digit. */
  ghost predicate DigitsMeet(rule: Rule, P: set<TypedField>, Q: set<TypedField>, incoming: bool,
                             x: TypedField, y: TypedField, d: char, e: char)
  {
    var xs, ys := Kept(incoming, rule.conditions, P), Kept(!incoming, rule.conditions, Q);
    |xs| == |ys| && forall p :: p in Facing(xs, ys) ==> (if p.0 == x then d else '1') == (if p.1 == y then e else '1')
  }

  lemma DigitsMeetIff(rule: Rule, objectType: string, settings: TypedField -> Normalization, P: set<TypedField>, Q: set<TypedField>,
                      x: TypedField, y: TypedField, d: char, e: char, incoming: bool, r: Record, s: Record)
    requires forall f :: f in P ==> Shown(settings, r, f) == Digit(if f == x then d else '1')
    requires forall f :: f in Q ==> Shown(settings, s, f) == Digit(if f == y then e else '1')
    ensures var xs, ys := Kept(incoming, rule.conditions, P), Kept(!incoming, rule.conditions, Q);
      DigitsMeet(rule, P, Q, incoming, x, y, d, e) <==>
      |xs| == |ys| && forall p :: p in Facing(xs, ys) ==> Shown(settings, r, p.0) == Shown(settings, s, p.1)
  {
    hide Kept, Shown, Digit, Facing;
    var xs, ys := Kept(incoming, rule.conditions, P), Kept(!incoming, rule.conditions, Q);
    KeptMembers(incoming, rule.conditions, P);
    KeptMembers(!incoming, rule.conditions, Q);
    forall p | p in Facing(xs, ys)
      ensures Shown(settings, r, p.0) == Shown(settings, s, p.1) <==> (if p.0 == x then d else '1') == (if p.1 == y then e else '1')
    {
      FacingMembers(xs, ys, p);
      var c, c' := if p.0 == x then d else '1', if p.1 == y then e else '1';
      if c != c' {
        DigitsDiffer(c, c');
      }
    }
  }

  lemma FacingMembers(xs: seq<TypedField>, ys: seq<TypedField>, p: (TypedField, TypedField))
    requires p in Facing(xs, ys)
    ensures p.0 in xs && p.1 in ys
  {}

  /** In lists without repetition a field faces at most one other. */
  lemma FacesOne(xs: seq<TypedField>, ys: seq<TypedField>, p: (TypedField, TypedField), q: (TypedField, TypedField))
    requires NoRepeats(xs) && NoRepeats(ys) && p in Facing(xs, ys) && q in Facing(xs, ys)
    ensures p.0 == q.0 <==> p.1 == q.1
  {}

  /** A pair that faces each other one way and not the other. */
  lemma UnfacedShows(rule: Rule, objectType: string, settings: TypedField -> Normalization,
                     P: set<TypedField>, Q: set<TypedField>, x: TypedField, y: TypedField)
    requires OneRecordRule(rule, objectType, settings)
    requires P <= AllNamed(rule) && Q <= AllNamed(rule) && AppliesTo(rule, P) && AppliesTo(rule, Q)
    requires forall incoming :: Kept(incoming, rule.conditions, P) != [] && Kept(incoming, rule.conditions, Q) != []
    requires |Kept(false, rule.conditions, P)| == |Kept(true, rule.conditions, Q)|
    requires |Kept(true, rule.conditions, P)| == |Kept(false, rule.conditions, Q)|
    requires (x, y) in Facing(Kept(false, rule.conditions, P), Kept(true, rule.conditions, Q))
    requires (x, y) !in Facing(Kept(true, rule.conditions, P), Kept(false, rule.conditions, Q))
    ensures !SymmetricBetween(rule, P, Q)
  {
    hide SymmetricBetween, Kept, OneRecordRule, AppliesTo, AllNamed, Facing;
    var cs := rule.conditions;
    KeptMembers(false, cs, P);
    KeptMembers(true, cs, Q);
    var fs, gs := Kept(true, cs, P), Kept(false, cs, Q);
    forall p | p in Facing(Kept(false, cs, P), Kept(true, cs, Q)) ensures p.0 == x <==> p.1 == y {
      FacesOne(Kept(false, cs, P), Kept(true, cs, Q), p, (x, y));
    }
    if x in fs || y in gs {
      var p := Partner(fs, gs, x, y);
      assert !DigitsMeet(rule, P, Q, true, x, y, '2', '2');
      assert DigitsMeet(rule, P, Q, false, x, y, '2', '2');
      DigitsShow(rule, objectType, settings, P, Q, x, y, '2', '2');
    } else {
      forall p | p in Facing(fs, gs) ensures p.0 != x && p.1 != y {
        FacingMembers(fs, gs, p);
      }
      assert DigitsMeet(rule, P, Q, true, x, y, '2', '3');
      assert !DigitsMeet(rule, P, Q, false, x, y, '2', '3');
      DigitsShow(rule, objectType, settings, P, Q, x, y, '2', '3');
    }
  }

  /** x or y stands in one of the lists, but they do not face each other. */
  lemma Partner(fs: seq<TypedField>, gs: seq<TypedField>, x: TypedField, y: TypedField) returns (p: (TypedField, TypedField))
    requires |fs| == |gs| && (x in fs || y in gs) && (x, y) !in Facing(fs, gs)
    ensures p in Facing(fs, gs) && (p.0 == x || p.1 == y) && !(p.0 == x && p.1 == y)
  {
    var i :| 0 <= i < |fs| && (fs[i] == x || gs[i] == y);
    p := (fs[i], gs[i]);
  }

  lemma UnbalancedShows(rule: Rule, objectType: string, settings: TypedField -> Normalization, P: set<TypedField>, Q: set<TypedField>)
    requires OneRecordRule(rule, objectType, settings) && !Balanced(rule, P, Q)
    requires P <= AllNamed(rule) && Q <= AllNamed(rule) && AppliesTo(rule, P) && AppliesTo(rule, Q)
    requires forall incoming :: Kept(incoming, rule.conditions, P) != [] && Kept(incoming, rule.conditions, Q) != []
    ensures !SymmetricBetween(rule, P, Q)
  {
    hide SymmetricBetween, Kept, OneRecordRule, AppliesTo, AllNamed, Facing;
    var cs := rule.conditions;
    var fs, gs, fs', gs' := Kept(true, cs, P), Kept(false, cs, P), Kept(true, cs, Q), Kept(false, cs, Q);
    if |gs| == |fs'| && |fs| == |gs'| {
      if p :| p in Facing(gs, fs') && p !in Facing(fs, gs') {
        UnfacedShows(rule, objectType, settings, P, Q, p.0, p.1);
      } else {
        var p :| p in Facing(fs, gs') && p !in Facing(gs, fs');
        FacingSwapped(fs, gs', p);
        FacingSwapped(gs, fs', p);
        UnfacedShows(rule, objectType, settings, Q, P, p.1, p.0);
        BetweenSwapped(rule, P, Q);
      }
    } else {
      var x := fs[0];
      DigitsShow(rule, objectType, settings, P, Q, x, x, '1', '1');
    }
  }

  lemma BetweenSwapped(rule: Rule, P: set<TypedField>, Q: set<TypedField>)
    ensures SymmetricBetween(rule, P, Q) <==> SymmetricBetween(rule, Q, P)
  {
    hide Finds, HeldBy;
  }

  lemma FacingSwapped(xs: seq<TypedField>, ys: seq<TypedField>, p: (TypedField, TypedField))
    ensures p in Facing(xs, ys) <==> (p.1, p.0) in Facing(ys, xs)
  {
    if p in Facing(xs, ys) {
      var i :| 0 <= i < |xs| && i < |ys| && p == (xs[i], ys[i]);
      assert (ys[i], xs[i]) in Facing(ys, xs);
    }
    if (p.1, p.0) in Facing(ys, xs) {
      var i :| 0 <= i < |ys| && i < |xs| && (p.1, p.0) == (ys[i], xs[i]);
      assert (xs[i], ys[i]) in Facing(xs, ys);
    }
  }

  /** Between records that hold P and records that hold Q the order of arrival does not matter if and only if the two
      are balanced, as long as each side keeps something of either. */
  lemma SymmetricBetweenIff(rule: Rule, objectType: string, settings: TypedField -> Normalization, P: set<TypedField>, Q: set<TypedField>)
    requires OneRecordRule(rule, objectType, settings) && LeavesNoMarks(rule)
    requires P <= AllNamed(rule) && Q <= AllNamed(rule) && AppliesTo(rule, P) && AppliesTo(rule, Q)
    requires forall incoming :: Kept(incoming, rule.conditions, P) != [] && Kept(incoming, rule.conditions, Q) != []
    ensures SymmetricBetween(rule, P, Q) <==> Balanced(rule, P, Q)
  {
    hide Applies, AppliesTo, OneRecordRule, Kept, Balanced, Finds, AllNamed, HeldBy;
    if Balanced(rule, P, Q) {
      forall r, s | HeldBy(rule, r) == P && HeldBy(rule, s) == Q ensures Finds(rule, r, s) <==> Finds(rule, s, r) {
        BalancedBothEnds(rule, objectType, settings, r, s);
        MeetingBothWays(rule, r, s);
      }
    } else {
      UnbalancedShows(rule, objectType, settings, P, Q);
    }
  }

  /** A rule all of whose fields one record may hold, and whose normalizations leave no underscore, does not depend on the
      order of arrival, on any records, if and only if it is balanced whatever fields they hold. */
  lemma SymmetricIff(rule: Rule, objectType: string, settings: TypedField -> Normalization)
    requires OneRecordRule(rule, objectType, settings) && LeavesNoMarks(rule)
    ensures Symmetric(rule) <==> AlwaysBalanced(rule)
  {
    hide Applies, AppliesTo, OneRecordRule, Kept, Balanced, Finds, AllNamed, FieldAt;
    if AlwaysBalanced(rule) {
      forall r, s ensures Finds(rule, r, s) <==> Finds(rule, s, r) {
        OnlyApplicableFind(rule, r, s);
        if Applies(rule, r) && Applies(rule, s) {
          BalancedFinds(rule, objectType, settings, r, s);
        }
      }
    } else {
      var P: set<TypedField>, Q: set<TypedField> :|
        P <= AllNamed(rule) && Q <= AllNamed(rule) && AppliesTo(rule, P) && AppliesTo(rule, Q) && !Balanced(rule, P, Q);
      UnbalancedIsAsymmetric(rule, objectType, settings, P, Q);
    }
  }

  /** That the condition is necessary holds whatever the normalizations leave. */
  lemma UnbalancedIsAsymmetric(rule: Rule, objectType: string, settings: TypedField -> Normalization,
                               P: set<TypedField>, Q: set<TypedField>)
    requires OneRecordRule(rule, objectType, settings) && !Balanced(rule, P, Q)
    requires P <= AllNamed(rule) && Q <= AllNamed(rule) && AppliesTo(rule, P) && AppliesTo(rule, Q)
    ensures !Symmetric(rule)
  {
    hide AppliesTo, OneRecordRule, Kept, Balanced, AllNamed, FieldAt, Apart, AllAndOne, HeldBy, Finds;
    if !Apart(rule) {
      forall incoming ensures Kept(incoming, rule.conditions, P) != [] && Kept(incoming, rule.conditions, Q) != [] {
        BothSidesHeld(rule, P, incoming);
        BothSidesHeld(rule, Q, incoming);
      }
      UnbalancedShows(rule, objectType, settings, P, Q);
    } else if c :| c in rule.conditions && c.conditionType.Match? {
      AllAndOneKept(rule, true, c);
      AllAndOneKept(rule, false, c);
      ApartIsUnbalanced(rule, c);
      UnbalancedShows(rule, objectType, settings, AllAndOne(rule, true, c), AllAndOne(rule, false, c));
    } else {
      NoMatchIsBalanced(rule, P, Q);
    }
  }

  lemma NoMatchIsBalanced(rule: Rule, P: set<TypedField>, Q: set<TypedField>)
    requires !HasMatch(rule)
    ensures Balanced(rule, P, Q)
  {
    KeptNothingIff(true, rule.conditions, P);
    KeptNothingIff(false, rule.conditions, P);
    KeptNothingIff(true, rule.conditions, Q);
    KeptNothingIff(false, rule.conditions, Q);
  }

  lemma OnlyApplicableFind(rule: Rule, r: Record, s: Record)
    ensures !Applies(rule, r) || !Applies(rule, s) ==> !Finds(rule, r, s) && !Finds(rule, s, r)
  {
    hide Applies;
  }

  /** Records that hold all the fields the rule names: each pair kept at one place is kept the other way round at some place,
      or the sides keep different numbers of fields. */
  lemma FullSymmetricIff(rule: Rule, objectType: string, settings: TypedField -> Normalization)
    requires OneRecordRule(rule, objectType, settings) && LeavesNoMarks(rule)
    ensures var fs, gs := Kept(true, rule.conditions, AllNamed(rule)), Kept(false, rule.conditions, AllNamed(rule));
      SymmetricBetween(rule, AllNamed(rule), AllNamed(rule)) <==> |fs| != |gs| || Facing(gs, fs) == Facing(fs, gs)
  {
    hide Kept, SymmetricBetween, Facing, OneRecordRule;
    var all := AllNamed(rule);
    KeptNothingIff(true, rule.conditions, all);
    KeptNothingIff(false, rule.conditions, all);
    if c :| c in rule.conditions && c.conditionType.Match? {
      assert FieldAt(true, c) in NamedFields(true, rule.conditions) && FieldAt(false, c) in NamedFields(false, rule.conditions);
      AllApply(rule);
      SymmetricBetweenIff(rule, objectType, settings, all, all);
    } else {
      NoMatchIsSymmetric(rule);
    }
  }

  lemma AllApply(rule: Rule)
    ensures AppliesTo(rule, AllNamed(rule))
  {
    forall c | c in rule.conditions && c.conditionType.Match? ensures FieldAt(true, c) in AllNamed(rule) {
      assert FieldAt(true, c) in NamedFields(true, rule.conditions);
    }
  }

  lemma NoMatchIsSymmetric(rule: Rule)
    requires !HasMatch(rule)
    ensures SymmetricBetween(rule, AllNamed(rule), AllNamed(rule))
    ensures Kept(true, rule.conditions, AllNamed(rule)) == Kept(false, rule.conditions, AllNamed(rule)) == []
  {
    hide Segments, Applies;
    KeptNothingIff(true, rule.conditions, AllNamed(rule));
    KeptNothingIff(false, rule.conditions, AllNamed(rule));
    forall r ensures Segments(true, rule, r) == Segments(false, rule, r) == [] {
      NoMatchNothingKept(rule, true, r);
      NoMatchNothingKept(rule, false, r);
    }
  }

  // ---- one condition ----

  function MatchConditions(cs: seq<Condition>): seq<Condition> {
    if cs == [] then []
    else MatchConditions(cs[..|cs| - 1]) + if cs[|cs| - 1].conditionType.Match? then [cs[|cs| - 1]] else []
  }

  lemma {:induction false} OnlyMatchCounts(incoming: bool, cs: seq<Condition>)
    ensures forall c :: c in MatchConditions(cs) <==> c in cs && c.conditionType.Match?
    ensures Effective(incoming, cs) == Effective(incoming, MatchConditions(cs))
    ensures AllKeys(incoming, cs) == AllKeys(incoming, MatchConditions(cs))
  {
    hide FieldKey, Effective, AllKeys;
    if cs != [] {
      var before, c := cs[..|cs| - 1], cs[|cs| - 1];
      assert cs == before + [c];
      OnlyMatchCounts(incoming, before);
      if c.conditionType.Match? {
        EffectiveSnoc(incoming, MatchConditions(before), c);
        EffectiveSnoc(incoming, before, c);
      } else {
        EffectiveSkips(incoming, before, c);
        assert MatchConditions(cs) == MatchConditions(before);
      }
    }
  }

  lemma EffectiveSkips(incoming: bool, cs: seq<Condition>, c: Condition)
    requires !c.conditionType.Match?
    ensures Effective(incoming, cs + [c]) == Effective(incoming, cs) && AllKeys(incoming, cs + [c]) == AllKeys(incoming, cs)
  {
    hide FieldKey;
    assert (cs + [c])[..|cs|] == cs;
  }

  /** The row of a record that has something in every field the rule names. */
  lemma FullRow(rule: Rule, r: Record)
    requires forall c :: c in rule.conditions && c.conditionType.Match? ==> Hit(true, c, r) && Hit(false, c, r)
    ensures IndexRowOf(rule, r).value1 == Indexed(rule, r, true) && IndexRowOf(rule, r).value2 == Indexed(rule, r, false)
  {
    EffectiveIsTaken(true, rule.conditions, r);
    EffectiveIsTaken(false, rule.conditions, r);
  }

  lemma OneIndexed(rule: Rule, c: Condition, r: Record, incoming: bool)
    requires MatchConditions(rule.conditions) == [c]
    ensures Indexed(rule, r, incoming) == Segment(incoming, c, r)
  {
    hide Segment;
    OnlyMatchCounts(incoming, rule.conditions);
    assert c in MatchConditions(rule.conditions);
    assert [] + [c] == [c];
    EffectiveSnoc(incoming, [], c);
    assert Effective(incoming, []) == [] && AllKeys(incoming, []) == {};
  }

  /** r holds x and y in the two fields of the condition. */
  lemma OneRow(rule: Rule, c: Condition, r: Record, x: char, y: char)
    requires MatchConditions(rule.conditions) == [c] && '1' <= x <= '9' && '1' <= y <= '9' && r.skippedBy == {}
    requires ValueOf(true, c, r) == [x] && ValueOf(false, c, r) == [y]
    ensures Applies(rule, r) && IndexRowOf(rule, r).value1 == [x] && IndexRowOf(rule, r).value2 == [y]
  {
    hide Normalized, Trim, IndexRowOf, ValueOf;
    DigitStays(c.normalization, x);
    DigitStays(c.normalization, y);
    OnlyMatchCounts(true, rule.conditions);
    forall d | d in rule.conditions && d.conditionType.Match? ensures d == c {
      assert d in MatchConditions(rule.conditions);
    }
    OneIndexed(rule, c, r, true);
    OneIndexed(rule, c, r, false);
    FullRow(rule, r);
  }

  lemma OrderMatters(rule: Rule, r: Record, s: Record)
    requires Applies(rule, r) && Applies(rule, s)
    requires IndexRowOf(rule, r).value1 == "1" && IndexRowOf(rule, r).value2 == "3"
    requires IndexRowOf(rule, s).value1 == "3" && IndexRowOf(rule, s).value2 == "5"
    ensures !Symmetric(rule)
  {
    hide Applies, IndexRowOf;
    assert "1"[0] != "5"[0];
    assert Finds(rule, r, s) && !Finds(rule, s, r);
  }

  /** A rule with one match condition, both of whose fields one record may hold, does not depend on the order of arrival
      exactly if it compares a field with itself, whatever the normalization. */
  lemma OneConditionSymmetricIff(rule: Rule, c: Condition)
    requires MatchConditions(rule.conditions) == [c]
    requires TypeOf(true, c) == TypeOf(false, c) || PROFILE_OBJECT_TYPE_NAME in [TypeOf(true, c), TypeOf(false, c)]
    ensures Symmetric(rule) <==> SameField(c)
  {
    hide Applies, IndexRowOf, Selects;
    OnlyMatchCounts(true, rule.conditions);
    if SameField(c) {
      forall r, s ensures Finds(rule, r, s) <==> Finds(rule, s, r) {
        forall d | d in rule.conditions && d.conditionType.Match? ensures SameField(d) {
          assert d in MatchConditions(rule.conditions);
        }
        SameFieldRuleIsSymmetric(rule, r, s);
      }
    } else {
      var a, b := FieldAt(true, c), FieldAt(false, c);
      var t := if a.objectType == PROFILE_OBJECT_TYPE_NAME then b.objectType else a.objectType;
      var r, s := Holding(t, map[a := "1", b := "3"]), Holding(t, map[a := "3", b := "5"]);
      HoldingValue(t, map[a := "1", b := "3"], a);
      HoldingValue(t, map[a := "1", b := "3"], b);
      HoldingValue(t, map[a := "3", b := "5"], a);
      HoldingValue(t, map[a := "3", b := "5"], b);
      OneRow(rule, c, r, '1', '3');
      OneRow(rule, c, s, '3', '5');
      OrderMatters(rule, r, s);
    }
  }

  // ---- rules of a few conditions ----

  function Pair(x: string, y: string, n: Normalization): Condition {
    Condition(Match, "t", x, "t", y, n)
  }

  function T(name: string): TypedField { TypedField("t", name) }

  lemma PairFields(x: string, y: string, n: Normalization)
    ensures y != "" ==> FieldAt(true, Pair(x, y, n)) == T(x) && FieldAt(false, Pair(x, y, n)) == T(y)
  {}

  lemma TypedKeysDiffer(x: string, y: string)
    ensures Key(T(x)) == Key(T(y)) <==> x == y
  {
    assert Key(T(x))[1..] == x && Key(T(y))[1..] == y;
  }

  lemma KeptOfNone(incoming: bool, held: set<TypedField>)
    ensures Kept(incoming, [], held) == [] && HeldKeys(incoming, [], held) == {}
  {}

  /** What a side keeps of two conditions. */
  lemma KeptOfTwo(incoming: bool, c: Condition, d: Condition, held: set<TypedField>)
    requires c.conditionType.Match? && d.conditionType.Match?
    ensures var f, g := FieldAt(incoming, c), FieldAt(incoming, d);
      Kept(incoming, [c, d], held) ==
        (if f in held then [f] else []) + (if g in held && !(f in held && Key(f) == Key(g)) then [g] else [])
  {
    hide FieldAt, FieldKey, Kept, HeldKeys, Key;
    assert [] + [c] == [c] && [c] + [d] == [c, d];
    KeptOfNone(incoming, held);
    KeptSnoc(incoming, [], c, held);
    KeptSnoc(incoming, [c], d, held);
    KeyOfField(incoming, c);
    KeyOfField(incoming, d);
  }

  /** a = b and b = a. */
  function SwappedPair(a: string, b: string, n: Normalization): Rule {
    Rule(0, [Pair(a, b, n), Pair(b, a, n)])
  }

  lemma SwappedPairKept(a: string, b: string, n: Normalization, held: set<TypedField>)
    requires a != "" && b != "" && a != b
    ensures var cs := SwappedPair(a, b, n).conditions;
      && (T(a) in held && T(b) in held ==> Kept(true, cs, held) == [T(a), T(b)] && Kept(false, cs, held) == [T(b), T(a)])
      && (T(a) in held && T(b) !in held ==> Kept(true, cs, held) == Kept(false, cs, held) == [T(a)])
      && (T(a) !in held && T(b) in held ==> Kept(true, cs, held) == Kept(false, cs, held) == [T(b)])
  {
    hide FieldAt, Kept, Key;
    PairFields(a, b, n);
    PairFields(b, a, n);
    TypedKeysDiffer(a, b);
    KeptOfTwo(true, Pair(a, b, n), Pair(b, a, n), held);
    KeptOfTwo(false, Pair(a, b, n), Pair(b, a, n), held);
  }

  lemma FacingTwos(f: TypedField, g: TypedField, f': TypedField, g': TypedField)
    ensures Facing([f, g], [f', g']) == {(f, f'), (g, g')}
  {
    assert ([f, g][0], [f', g'][0]) in Facing([f, g], [f', g']) && ([f, g][1], [f', g'][1]) in Facing([f, g], [f', g']);
  }

  lemma SwappedPairBalanced(a: string, b: string, n: Normalization, P: set<TypedField>, Q: set<TypedField>)
    requires a != "" && b != "" && a != b && AppliesTo(SwappedPair(a, b, n), P) && AppliesTo(SwappedPair(a, b, n), Q)
    ensures Balanced(SwappedPair(a, b, n), P, Q)
  {
    assert SwappedPair(a, b, n).conditions[0] == Pair(a, b, n);
    PairFields(a, b, n);
    hide FieldAt, Kept, Facing;
    SwappedPairKept(a, b, n, P);
    SwappedPairKept(a, b, n, Q);
    FacingTwos(T(a), T(b), T(b), T(a));
    FacingTwos(T(b), T(a), T(a), T(b));
  }

  /** One pair named both ways round does not depend on the order of arrival, blank fields or not. */
  lemma SwappedPairIsSymmetric(a: string, b: string, n: Normalization)
    requires a != "" && b != "" && a != b && !LeavesMark(n)
    ensures Symmetric(SwappedPair(a, b, n))
  {
    hide Symmetric, Balanced, LeavesMark, AllNamed;
    var rule := SwappedPair(a, b, n);
    forall P: set<TypedField>, Q: set<TypedField> | AppliesTo(rule, P) && AppliesTo(rule, Q) ensures Balanced(rule, P, Q) {
      SwappedPairBalanced(a, b, n, P, Q);
    }
    hide AppliesTo;
    SymmetricIff(rule, "t", f => n);
  }

  /** a = a and a = b. */
  function RepeatedField(a: string, b: string, n: Normalization): Rule {
    Rule(0, [Pair(a, a, n), Pair(a, b, n)])
  }

  /** A field compared with itself and with another depends on it, although the sides keep different numbers of fields:
      a record without b finds one with both, and is not found by it. */
  lemma RepeatedFieldIsAsymmetric(a: string, b: string, n: Normalization)
    requires a != "" && b != "" && a != b
    ensures !Symmetric(RepeatedField(a, b, n))
  {
    var rule, P, Q := RepeatedField(a, b, n), {T(a)}, {T(a), T(b)};
    PairFields(a, a, n);
    PairFields(a, b, n);
    assert rule.conditions[0] == Pair(a, a, n) && rule.conditions[1] == Pair(a, b, n);
    assert FieldAt(true, rule.conditions[0]) in AllNamed(rule) && FieldAt(false, rule.conditions[1]) in AllNamed(rule);
    hide Symmetric, FieldAt, Kept, Key, AllNamed;
    TypedKeysDiffer(a, b);
    KeptOfTwo(true, Pair(a, a, n), Pair(a, b, n), P);
    KeptOfTwo(false, Pair(a, a, n), Pair(a, b, n), P);
    KeptOfTwo(true, Pair(a, a, n), Pair(a, b, n), Q);
    KeptOfTwo(false, Pair(a, a, n), Pair(a, b, n), Q);
    UnbalancedIsAsymmetric(rule, "t", f => n, P, Q);
  }

  /** a = b, b = a, c = d and d = c. */
  function TwoSwappedPairs(a: string, b: string, c: string, d: string, n: Normalization): Rule {
    Rule(0, [Pair(a, b, n), Pair(b, a, n), Pair(c, d, n), Pair(d, c, n)])
  }

  function IfHeld(f: TypedField, held: set<TypedField>): seq<TypedField> {
    if f in held then [f] else []
  }

  lemma KeptNew(incoming: bool, cs: seq<Condition>, c: Condition, held: set<TypedField>)
    requires c.conditionType.Match? && forall d :: d in cs ==> FieldKey(incoming, d) != FieldKey(incoming, c)
    ensures Kept(incoming, cs + [c], held) == Kept(incoming, cs, held) + IfHeld(FieldAt(incoming, c), held)
  {
    hide FieldAt, FieldKey, Kept;
    KeptSnoc(incoming, cs, c, held);
  }

  /** Of conditions on four different fields a side keeps those that are held. */
  lemma KeptOfFour(incoming: bool, cs: seq<Condition>, held: set<TypedField>)
    requires |cs| == 4 && forall i :: 0 <= i < 4 ==> cs[i].conditionType.Match?
    requires forall i, j :: 0 <= i < j < 4 ==> FieldKey(incoming, cs[i]) != FieldKey(incoming, cs[j])
    ensures Kept(incoming, cs, held) ==
      IfHeld(FieldAt(incoming, cs[0]), held) + IfHeld(FieldAt(incoming, cs[1]), held)
        + IfHeld(FieldAt(incoming, cs[2]), held) + IfHeld(FieldAt(incoming, cs[3]), held)
  {
    hide FieldAt, FieldKey, Kept, IfHeld;
    assert [] + [cs[0]] == cs[..1] && cs[..1] + [cs[1]] == cs[..2] && cs[..2] + [cs[2]] == cs[..3] && cs[..3] + [cs[3]] == cs;
    KeptOfNone(incoming, held);
    KeptNew(incoming, [], cs[0], held);
    KeptNew(incoming, cs[..1], cs[1], held);
    KeptNew(incoming, cs[..2], cs[2], held);
    KeptNew(incoming, cs[..3], cs[3], held);
  }

  lemma SwappedPairsKept(a: string, b: string, c: string, d: string, n: Normalization, held: set<TypedField>)
    requires NoRepeats([a, b, c, d, ""])
    ensures var cs := TwoSwappedPairs(a, b, c, d, n).conditions;
      && Kept(true, cs, held) == IfHeld(T(a), held) + IfHeld(T(b), held) + IfHeld(T(c), held) + IfHeld(T(d), held)
      && Kept(false, cs, held) == IfHeld(T(b), held) + IfHeld(T(a), held) + IfHeld(T(d), held) + IfHeld(T(c), held)
  {
    var names := [a, b, c, d, ""];
    assert names[0] != names[4] && names[1] != names[4] && names[2] != names[4] && names[3] != names[4];
    PairFields(a, b, n);
    PairFields(b, a, n);
    PairFields(c, d, n);
    PairFields(d, c, n);
    hide FieldAt, Kept, Key, IfHeld, FieldKey;
    var cs := TwoSwappedPairs(a, b, c, d, n).conditions;
    forall incoming, i, j | 0 <= i < j < 4 ensures FieldKey(incoming, cs[i]) != FieldKey(incoming, cs[j]) {
      KeyOfField(incoming, cs[i]);
      KeyOfField(incoming, cs[j]);
      TypedKeysDiffer(FieldAt(incoming, cs[i]).name, FieldAt(incoming, cs[j]).name);
    }
    KeptOfFour(true, TwoSwappedPairs(a, b, c, d, n).conditions, held);
    KeptOfFour(false, TwoSwappedPairs(a, b, c, d, n).conditions, held);
  }

  lemma SwappedPairsFields(a: string, b: string, c: string, d: string, n: Normalization)
    requires NoRepeats([a, b, c, d, ""])
    ensures var rule := TwoSwappedPairs(a, b, c, d, n);
      && {T(a), T(b), T(c), T(d)} <= AllNamed(rule)
      && (forall held :: T(b) in held && T(d) in held ==> AppliesTo(rule, held))
      && OneRecordRule(rule, "t", f => n)
  {
    var names, cs := [a, b, c, d, ""], TwoSwappedPairs(a, b, c, d, n).conditions;
    assert names[0] != names[4] && names[1] != names[4] && names[2] != names[4] && names[3] != names[4];
    PairFields(a, b, n);
    PairFields(b, a, n);
    PairFields(c, d, n);
    PairFields(d, c, n);
    assert cs[0] == Pair(a, b, n) && cs[1] == Pair(b, a, n) && cs[2] == Pair(c, d, n) && cs[3] == Pair(d, c, n);
    assert forall i :: 0 <= i < 4 ==> FieldAt(true, cs[i]) in NamedFields(true, cs);
  }

  lemma SwappedPairsUnbalanced(a: string, b: string, c: string, d: string, n: Normalization)
    requires NoRepeats([a, b, c, d, ""])
    ensures !Balanced(TwoSwappedPairs(a, b, c, d, n), {T(b), T(c), T(d)}, {T(a), T(b), T(d)})
  {
    var names, cs, P, Q := [a, b, c, d, ""], TwoSwappedPairs(a, b, c, d, n).conditions, {T(b), T(c), T(d)}, {T(a), T(b), T(d)};
    assert names[0] != names[1] && names[0] != names[2] && names[0] != names[3];
    assert names[1] != names[2] && names[1] != names[3] && names[2] != names[3];
    hide Kept, TwoSwappedPairs;
    SwappedPairsKept(a, b, c, d, n, P);
    SwappedPairsKept(a, b, c, d, n, Q);
    var fs, gs, fs', gs' := [T(b), T(c), T(d)], [T(b), T(d), T(c)], [T(a), T(b), T(d)], [T(b), T(a), T(d)];
    assert Kept(true, cs, P) == fs && Kept(false, cs, P) == gs && Kept(true, cs, Q) == fs' && Kept(false, cs, Q) == gs';
    assert (gs[0], fs'[0]) in Facing(gs, fs');
    assert (T(b), T(a)) !in Facing(fs, gs');
  }

  /** Two pairs, each named both ways round: between a record without a and a record without c the order matters. */
  lemma BlankFieldsBreakSymmetry(a: string, b: string, c: string, d: string, n: Normalization)
    requires NoRepeats([a, b, c, d, ""])
    ensures !Symmetric(TwoSwappedPairs(a, b, c, d, n))
  {
    hide Symmetric, Balanced, AllNamed, AppliesTo, OneRecordRule, TwoSwappedPairs;
    SwappedPairsFields(a, b, c, d, n);
    SwappedPairsUnbalanced(a, b, c, d, n);
    UnbalancedIsAsymmetric(TwoSwappedPairs(a, b, c, d, n), "t", f => n, {T(b), T(c), T(d)}, {T(a), T(b), T(d)});
  }
}
