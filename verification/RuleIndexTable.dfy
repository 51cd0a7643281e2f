/** The table rules are matched against: indexing a record, searching with one, and moving rows when profiles merge. */
module RuleIndexTable {
  import opened MergeHistory
  import opened FieldResolution
  import opened RuleMatching

  /** PRIMARY KEY (connect_id, rule, index_value_1, index_value_2) */
  datatype IndexKey = IndexKey(connectId: Id, rule: nat, value1: string, value2: string)

  function KeyOf(row: IndexRow): IndexKey {
    IndexKey(row.connectId, row.rule, row.value1, row.value2)
  }

  predicate KeysUnique(rows: set<IndexRow>) {
    forall x, y :: x in rows && y in rows && KeyOf(x) == KeyOf(y) ==> x == y
  }

  function Keys(rows: set<IndexRow>): set<IndexKey> {
    set x | x in rows :: KeyOf(x)
  }

  lemma KeyIn(rows: set<IndexRow>, k: IndexKey) returns (x: IndexRow)
    requires k in Keys(rows)
    ensures x in rows && KeyOf(x) == k
  {
    x :| x in rows && KeyOf(x) == k;
  }

  // ---- inserting ----

  /** The rows the rules that apply give a record. */
  function IndexRowsOf(rules: seq<Rule>, r: Record): seq<IndexRow> {
    if rules == [] then []
    else
      var rule := rules[|rules| - 1];
      IndexRowsOf(rules[..|rules| - 1], r) + if Applies(rule, r) then [IndexRowOf(rule, r)] else []
  }

  lemma {:induction false} IndexRowsOfMembers(rules: seq<Rule>, r: Record)
    ensures forall x :: x in IndexRowsOf(rules, r) <==> exists rule :: rule in rules && Applies(rule, r) && x == IndexRowOf(rule, r)
  {
    hide Applies, IndexRowOf;
    if rules != [] {
      var n := |rules| - 1;
      assert rules == rules[..n] + [rules[n]];
      IndexRowsOfMembers(rules[..n], r);
    }
  }

  lemma {:induction false} NoRowsIff(rules: seq<Rule>, r: Record)
    ensures IndexRowsOf(rules, r) == [] <==> forall rule :: rule in rules ==> !Applies(rule, r)
  {
    hide Applies, IndexRowOf;
    if rules != [] {
      var n := |rules| - 1;
      assert rules == rules[..n] + [rules[n]];
      NoRowsIff(rules[..n], r);
    }
  }

  method CreateRuleSetIndex(rules: seq<Rule>, r: Record) returns (records: seq<IndexRow>)
    ensures records == IndexRowsOf(rules, r)
  {
    hide Applies, IndexRowOf;
    records := [];
    var i := 0;
    while i < |rules|
      invariant 0 <= i <= |rules| && records == IndexRowsOf(rules[..i], r)
    {
      assert rules[..i + 1][..i] == rules[..i] && rules[..i + 1][i] == rules[i];
      var rec := CreateRuleIndex(rules[i], r);
      if rec.Some? {
        records := records + [rec.value];
      }
      i := i + 1;
    }
    assert rules[..i] == rules;
  }

  /** INSERT ... ON CONFLICT DO NOTHING, one row after the other. */
  function Inserted(rows: set<IndexRow>, records: seq<IndexRow>): set<IndexRow> {
    if records == [] then rows
    else
      var before, x := Inserted(rows, records[..|records| - 1]), records[|records| - 1];
      if KeyOf(x) in Keys(before) then before else before + {x}
  }

  function RecordKeys(records: seq<IndexRow>): set<IndexKey> {
    set x | x in records :: KeyOf(x)
  }

  lemma OneMoreKey(rows: set<IndexRow>, x: IndexRow)
    requires KeysUnique(rows) && KeyOf(x) !in Keys(rows)
    ensures KeysUnique(rows + {x}) && Keys(rows + {x}) == Keys(rows) + {KeyOf(x)}
  {}

  lemma OneMoreRecordKey(records: seq<IndexRow>, x: IndexRow)
    ensures RecordKeys(records + [x]) == RecordKeys(records) + {KeyOf(x)}
  {}

  lemma {:induction false} InsertedKeys(rows: set<IndexRow>, records: seq<IndexRow>)
    requires KeysUnique(rows)
    ensures KeysUnique(Inserted(rows, records)) && rows <= Inserted(rows, records)
    ensures Keys(Inserted(rows, records)) == Keys(rows) + RecordKeys(records)
  {
    hide Keys, KeysUnique, KeyOf;
    if records == [] {
      assert RecordKeys([]) == {};
    } else {
      var n := |records| - 1;
      var x := records[n];
      assert records == records[..n] + [x];
      InsertedKeys(rows, records[..n]);
      OneMoreRecordKey(records[..n], x);
      if KeyOf(x) !in Keys(Inserted(rows, records[..n])) {
        OneMoreKey(Inserted(rows, records[..n]), x);
      }
    }
  }

  /** Nothing is added but the rows given. */
  lemma {:induction false} InsertedRows(rows: set<IndexRow>, records: seq<IndexRow>)
    ensures rows <= Inserted(rows, records) && forall x :: x in Inserted(rows, records) ==> x in rows || x in records
  {
    hide Keys, KeyOf;
    if records != [] {
      assert records == records[..|records| - 1] + [records[|records| - 1]];
      InsertedRows(rows, records[..|records| - 1]);
    }
  }

  // ---- searching ----

  /** Rule `rule` of the rule set leads from r to a row of profile id. */
  ghost predicate Matched(keys: set<IndexKey>, rules: seq<Rule>, r: Record, rule: nat, id: Id) {
    exists k, i :: k in keys && 0 <= i < |rules| && MatchedBy(k, rules[i], r, rule, id)
  }

  predicate MatchedBy(k: IndexKey, rl: Rule, r: Record, rule: nat, id: Id) {
    && k.connectId == id && k.rule == rule && rl.index == rule && id != r.connectId && id != Blank
    && Applies(rl, r) && SelectsKey(IndexRowOf(rl, r), k)
  }

  predicate SelectsKey(search: IndexRow, k: IndexKey) {
    if search.value2 != "" then k.value1 == search.value2 else k.value2 == search.value1
  }

  /** The rows the statement selects, each by a record whose rule is the row's. */
  function Selected(rows: set<IndexRow>, records: seq<IndexRow>, own: Id): set<IndexRow> {
    set x | x in rows && x.connectId != own && exists rec :: rec in records && rec.rule == x.rule && Selects(rec, x)
  }

  function RowsFor(rows: set<IndexRow>, rule: nat, id: Id): set<IndexRow> {
    set x | x in rows && x.rule == rule && x.connectId == id
  }

  /** How often a profile is listed for a rule. */
  function Listed(matches: map<nat, seq<Id>>, rule: nat, id: Id): nat {
    if rule in matches then multiset(matches[rule])[id] else 0
  }

  /** The ids of the selected rows by rule; rows without an id are left out. */
  method GroupByRule(selected: set<IndexRow>) returns (matches: map<nat, seq<Id>>)
    ensures forall rule, id :: Listed(matches, rule, id) == if id == Blank then 0 else |RowsFor(selected, rule, id)|
    ensures forall rule :: rule in matches ==> matches[rule] != []
  {
    matches := map[];
    var todo := selected;
    while todo != {}
      invariant todo <= selected
      invariant forall rule, id :: Listed(matches, rule, id) == if id == Blank then 0 else |RowsFor(selected - todo, rule, id)|
      invariant forall rule :: rule in matches ==> matches[rule] != []
    {
      var x :| x in todo;
      var before := if x.rule in matches then matches[x.rule] else [];
      forall rule, id ensures |RowsFor(selected - (todo - {x}), rule, id)| ==
        |RowsFor(selected - todo, rule, id)| + if x.rule == rule && x.connectId == id then 1 else 0
      {
        OneRowMore(selected, todo, x, rule, id);
      }
      todo := todo - {x};
      if x.connectId != Blank {
        matches := matches[x.rule := before + [x.connectId]];
      }
    }
    assert selected - todo == selected;
  }

  lemma OneRowMore(selected: set<IndexRow>, todo: set<IndexRow>, x: IndexRow, rule: nat, id: Id)
    requires x in todo && todo <= selected
    ensures |RowsFor(selected - (todo - {x}), rule, id)| == |RowsFor(selected - todo, rule, id)|
      + if x.rule == rule && x.connectId == id then 1 else 0
  {
    var before, after := RowsFor(selected - todo, rule, id), RowsFor(selected - (todo - {x}), rule, id);
    if x.rule == rule && x.connectId == id {
      assert after == before + {x};
    } else {
      assert after == before;
    }
  }

  /** The rows of a profile to which a rule of the rule set leads from r. */
  ghost function RowsMatched(rows: set<IndexRow>, rules: seq<Rule>, r: Record, rule: nat, id: Id): set<IndexRow> {
    set x | x in rows && exists i :: 0 <= i < |rules| && MatchedBy(KeyOf(x), rules[i], r, rule, id)
  }

  lemma SelectedAreMatched(rows: set<IndexRow>, rules: seq<Rule>, r: Record, rule: nat, id: Id)
    ensures RowsMatched(rows, rules, r, rule, id) == if id == Blank then {} else RowsFor(Selected(rows, IndexRowsOf(rules, r), r.connectId), rule, id)
  {
    hide Applies, IndexRowOf;
    IndexRowsOfMembers(rules, r);
    var found := RowsFor(Selected(rows, IndexRowsOf(rules, r), r.connectId), rule, id);
    forall x | x in RowsMatched(rows, rules, r, rule, id) ensures x in found {
      var i :| 0 <= i < |rules| && MatchedBy(KeyOf(x), rules[i], r, rule, id);
      assert IndexRowOf(rules[i], r) in IndexRowsOf(rules, r) && IndexRowOf(rules[i], r).rule == rule by { RuleOfRow(rules[i], r); }
    }
    forall x | x in found && id != Blank ensures x in RowsMatched(rows, rules, r, rule, id) {
      var rec :| rec in IndexRowsOf(rules, r) && rec.rule == x.rule && Selects(rec, x);
      var rl :| rl in rules && Applies(rl, r) && rec == IndexRowOf(rl, r);
      RuleOfRow(rl, r);
      var i :| 0 <= i < |rules| && rules[i] == rl;
      assert MatchedBy(KeyOf(x), rules[i], r, rule, id);
    }
  }

  /** A rule leads to a profile exactly if it leads to one of its rows. */
  lemma MatchedIffRows(rows: set<IndexRow>, rules: seq<Rule>, r: Record, rule: nat, id: Id)
    ensures Matched(Keys(rows), rules, r, rule, id) <==> |RowsMatched(rows, rules, r, rule, id)| > 0
  {
    hide MatchedBy;
    var found := RowsMatched(rows, rules, r, rule, id);
    if Matched(Keys(rows), rules, r, rule, id) {
      var k, i :| k in Keys(rows) && 0 <= i < |rules| && MatchedBy(k, rules[i], r, rule, id);
      var x := KeyIn(rows, k);
      assert x in found;
    }
    if found != {} {
      var x :| x in found;
      assert KeyOf(x) in Keys(rows);
    }
  }

  lemma RuleOfRow(rule: Rule, r: Record)
    ensures IndexRowOf(rule, r).rule == rule.index && IndexRowOf(rule, r).connectId == r.connectId
    ensures IndexRowOf(rule, r).timestamp == r.timestamp
  {}

  // ---- merging ----

  predicate IsProfileLevel(rule: Rule) {
    forall c :: c in rule.conditions ==> c.existingType == PROFILE_OBJECT_TYPE_NAME && c.incomingType == PROFILE_OBJECT_TYPE_NAME
  }

  predicate IsObjectLevel(rule: Rule) {
    forall c :: c in rule.conditions ==> c.existingType != PROFILE_OBJECT_TYPE_NAME && c.incomingType != PROFILE_OBJECT_TYPE_NAME
  }

  function ProfileRules(rules: seq<Rule>): seq<Rule> {
    if rules == [] then []
    else
      var rule := rules[|rules| - 1];
      ProfileRules(rules[..|rules| - 1]) + if rule.conditions != [] && IsProfileLevel(rule) then [rule] else []
  }

  lemma {:induction false} ProfileRulesMembers(rules: seq<Rule>)
    ensures forall rule :: rule in ProfileRules(rules) <==> rule in rules && rule.conditions != [] && IsProfileLevel(rule)
  {
    hide IsProfileLevel;
    if rules != [] {
      var n := |rules| - 1;
      assert rules == rules[..n] + [rules[n]];
      ProfileRulesMembers(rules[..n]);
    }
  }

  /** Empty rules and rules with conditions of both kinds are in neither list. */
  method OrganizeRules(rules: seq<Rule>) returns (profileLevel: seq<Rule>, objectLevel: seq<Rule>)
    ensures profileLevel == ProfileRules(rules)
    ensures forall rule :: rule in profileLevel <==>
      && rule in rules && rule.conditions != []
      && forall c :: c in rule.conditions ==> c.incomingType == c.existingType == "_profile"
    ensures forall rule :: rule in objectLevel <==>
      && rule in rules && rule.conditions != []
      && forall c :: c in rule.conditions ==> "_profile" !in [c.incomingType, c.existingType]
    ensures forall rule :: rule in objectLevel ==> rule !in profileLevel
  {
    profileLevel, objectLevel := [], [];
    var i := 0;
    while i < |rules|
      invariant 0 <= i <= |rules| && profileLevel == ProfileRules(rules[..i])
      invariant forall rule :: rule in objectLevel <==> rule in rules[..i] && rule.conditions != [] && IsObjectLevel(rule)
    {
      assert rules[..i + 1][..i] == rules[..i] && rules[..i + 1][i] == rules[i];
      assert rules[..i + 1] == rules[..i] + [rules[i]];
      if rules[i].conditions != [] {
        NotBothLevels(rules[i]);
        if IsProfileLevel(rules[i]) {
          profileLevel := profileLevel + [rules[i]];
        } else if IsObjectLevel(rules[i]) {
          objectLevel := objectLevel + [rules[i]];
        }
      }
      i := i + 1;
    }
    assert rules[..i] == rules;
    ProfileRulesMembers(rules);
    forall rule | rule in objectLevel ensures rule !in profileLevel {
      NotBothLevels(rule);
    }
  }

  lemma NotBothLevels(rule: Rule)
    requires rule.conditions != []
    ensures !(IsProfileLevel(rule) && IsObjectLevel(rule))
  {
    assert rule.conditions[0] in rule.conditions;
  }

  predicate SameRest(x: IndexRow, y: IndexRow) {
    x.rule == y.rule && x.value1 == y.value1 && x.value2 == y.value2
  }

  /** The rows of b whose rule and values are also those of a row of a. */
  function Conflicting(rows: set<IndexRow>, b: Id, a: Id): set<IndexRow> {
    set x | x in rows && x.connectId == b &&
      |(set y | y in rows && SameRest(x, y) && (y.connectId == b || y.connectId == a) :: y.connectId)| == 2
  }

  lemma TwoIds(s: set<Id>, a: Id, b: Id)
    requires b in s && forall y :: y in s ==> y == a || y == b
    ensures |s| == 2 <==> a != b && a in s
  {
    if a != b && a in s {
      assert s == {a, b};
    } else {
      assert s == {b};
    }
  }

  lemma ConflictingIff(rows: set<IndexRow>, b: Id, a: Id, x: IndexRow)
    requires x in rows
    ensures x in Conflicting(rows, b, a) <==> x.connectId == b && a != b && exists y :: y in rows && y.connectId == a && SameRest(x, y)
  {
    if x.connectId == b {
      var ids := set y | y in rows && SameRest(x, y) && (y.connectId == b || y.connectId == a) :: y.connectId;
      assert SameRest(x, x) && b in ids;
      TwoIds(ids, a, b);
    }
  }

  function Rekeyed(x: IndexRow, a: Id, b: Id): IndexRow {
    if x.connectId == b then x.(connectId := a) else x
  }

  function RekeyAll(rows: set<IndexRow>, a: Id, b: Id): set<IndexRow> {
    set x | x in rows :: Rekeyed(x, a, b)
  }

  /** UPDATE ... SET connect_id = a WHERE connect_id = b would give two rows one key. */
  ghost predicate BreaksKey(rows: set<IndexRow>, a: Id, b: Id) {
    exists x, y :: x in rows && y in rows && x != y && KeyOf(Rekeyed(x, a, b)) == KeyOf(Rekeyed(y, a, b))
  }

  lemma SameKeyConflicts(rows: set<IndexRow>, a: Id, b: Id, x: IndexRow, y: IndexRow)
    requires KeysUnique(rows) && x in rows && y in rows && x != y && KeyOf(Rekeyed(x, a, b)) == KeyOf(Rekeyed(y, a, b))
    ensures x in Conflicting(rows, b, a) || y in Conflicting(rows, b, a)
  {
    hide Conflicting;
    ConflictingIff(rows, b, a, x);
    ConflictingIff(rows, b, a, y);
    assert SameRest(x, y) && SameRest(y, x);
  }

  lemma ConflictBreaksKey(rows: set<IndexRow>, a: Id, b: Id, x: IndexRow)
    requires x in rows && x in Conflicting(rows, b, a)
    ensures BreaksKey(rows, a, b)
  {
    hide Conflicting;
    ConflictingIff(rows, b, a, x);
    var y :| y in rows && y.connectId == a && SameRest(x, y);
    assert KeyOf(Rekeyed(x, a, b)) == KeyOf(Rekeyed(y, a, b));
  }

  /** The update is refused exactly when there are conflicting rows, so deleting them first is what makes it go through. */
  lemma BreaksKeyIffConflicting(rows: set<IndexRow>, a: Id, b: Id)
    requires KeysUnique(rows)
    ensures BreaksKey(rows, a, b) <==> Conflicting(rows, b, a) != {}
  {
    assert Conflicting(rows, b, a) <= rows;
    hide Conflicting, KeysUnique, KeyOf, Rekeyed;
    if BreaksKey(rows, a, b) {
      var x, y :| x in rows && y in rows && x != y && KeyOf(Rekeyed(x, a, b)) == KeyOf(Rekeyed(y, a, b));
      SameKeyConflicts(rows, a, b, x, y);
    }
    if x :| x in Conflicting(rows, b, a) {
      ConflictBreaksKey(rows, a, b, x);
    }
  }

  lemma NoConflictLeft(rows: set<IndexRow>, a: Id, b: Id)
    requires KeysUnique(rows)
    ensures var kept := rows - Conflicting(rows, b, a); KeysUnique(kept) && !BreaksKey(kept, a, b)
  {
    var kept := rows - Conflicting(rows, b, a);
    BreaksKeyIffConflicting(kept, a, b);
    forall x | x in Conflicting(kept, b, a) ensures x in Conflicting(rows, b, a) {
      ConflictingIff(kept, b, a, x);
      ConflictingIff(rows, b, a, x);
    }
  }

  /** What re-keying does to the keys: those of b become those of a. */
  lemma RekeyedKeys(rows: set<IndexRow>, a: Id, b: Id, k: IndexKey)
    requires KeysUnique(rows) && a != b
    ensures var rows' := RekeyAll(rows - Conflicting(rows, b, a), a, b);
      && KeysUnique(rows')
      && (k in Keys(rows') <==> k.connectId != b && (k in Keys(rows) || (k.connectId == a && k.(connectId := b) in Keys(rows))))
  {
    var kept := rows - Conflicting(rows, b, a);
    var rows' := RekeyAll(kept, a, b);
    NoConflictLeft(rows, a, b);
    if k in Keys(rows') {
      var x' := KeyIn(rows', k);
      var x :| x in kept && Rekeyed(x, a, b) == x';
      assert KeyOf(x) in Keys(rows);
    }
    if k.connectId != b && k in Keys(rows) {
      var x := KeyIn(rows, k);
      assert x in kept && Rekeyed(x, a, b) in rows';
    } else if k.connectId == a && k.(connectId := b) in Keys(rows) {
      var x := KeyIn(rows, k.(connectId := b));
      ConflictingIff(rows, b, a, x);
      assert x in kept && Rekeyed(x, a, b) in rows';
    }
  }

  function OfRules(rules: seq<Rule>): set<nat> {
    set rule | rule in rules :: rule.index
  }

  /** What a merge of b into a makes of the keys: b has none, a has the keys both had for the rules that are not
      profile-level and the recomputed ones for those that are, and no other profile is touched. */
  ghost predicate Reindexed(keys: set<IndexKey>, keys': set<IndexKey>, a: Id, b: Id, rules: seq<Rule>, combined: Record) {
    forall k :: k in keys' <==>
      if k.connectId == b then false
      else if k.connectId != a then k in keys
      else if k.rule in OfRules(ProfileRules(rules)) then Recomputed(rules, combined, k)
      else k in keys || k.(connectId := b) in keys
  }

  ghost predicate Recomputed(rules: seq<Rule>, combined: Record, k: IndexKey) {
    exists rule :: rule in ProfileRules(rules) && Applies(rule, combined) && k == KeyOf(IndexRowOf(rule, combined))
  }

  /** The rows themselves, times included: those of a stay, and those of b join them unless a has the same row already;
      for profile-level rules there are only rows of the combined profile. */
  ghost predicate RowsReindexed(rows: set<IndexRow>, rows': set<IndexRow>, a: Id, b: Id, rules: seq<Rule>, combined: Record) {
    forall x: IndexRow ::
      if x.connectId == b then x !in rows'
      else if x.connectId != a then x in rows' <==> x in rows
      else if x.rule in OfRules(ProfileRules(rules)) then
        x in rows' ==> exists rule :: rule in ProfileRules(rules) && Applies(rule, combined) && x == IndexRowOf(rule, combined)
      else x in rows' <==> x in rows || (x.(connectId := b) in rows && forall y :: y in rows && y.connectId == a ==> !SameRest(y, x))
  }

  lemma RekeyedRows(rows: set<IndexRow>, a: Id, b: Id, x: IndexRow)
    requires a != b
    ensures var rows' := RekeyAll(rows - Conflicting(rows, b, a), a, b);
      if x.connectId == b then x !in rows'
      else if x.connectId != a then x in rows' <==> x in rows
      else x in rows' <==> x in rows || (x.(connectId := b) in rows && forall y :: y in rows && y.connectId == a ==> !SameRest(y, x))
  {
    var kept := rows - Conflicting(rows, b, a);
    var rows' := RekeyAll(kept, a, b);
    if x in rows' {
      var x0 :| x0 in kept && Rekeyed(x0, a, b) == x;
      ConflictingIff(rows, b, a, x0);
      assert x0.connectId == b ==> x.(connectId := b) == x0;
    }
    if x.connectId != b && x in rows {
      assert x in kept && Rekeyed(x, a, b) == x;
    }
    var x1 := x.(connectId := b);
    if x.connectId == a && x1 in rows && forall y :: y in rows && y.connectId == a ==> !SameRest(y, x) {
      ConflictingIff(rows, b, a, x1);
      assert x1 in kept && Rekeyed(x1, a, b) == x;
    }
  }

  lemma ReindexedRows(rows: set<IndexRow>, a: Id, b: Id, rules: seq<Rule>, combined: Record)
    requires a != b && combined.connectId == a
    ensures var moved := RekeyAll(rows - Conflicting(rows, b, a), a, b);
      var kept := set x | x in moved && !(x.connectId == a && x.rule in OfRules(ProfileRules(rules)));
      && RowsReindexed(rows, Inserted(kept, IndexRowsOf(ProfileRules(rules), combined)), a, b, rules, combined)
      && (ProfileRules(rules) == [] ==> RowsReindexed(rows, moved, a, b, rules, combined))
  {
    hide Applies, IndexRowOf, ProfileRules, Conflicting, RekeyAll, Inserted, IndexRowsOf;
    var moved := RekeyAll(rows - Conflicting(rows, b, a), a, b);
    var kept := set x | x in moved && !(x.connectId == a && x.rule in OfRules(ProfileRules(rules)));
    var records := IndexRowsOf(ProfileRules(rules), combined);
    InsertedRows(kept, records);
    IndexRowsOfMembers(ProfileRules(rules), combined);
    forall x | x in records ensures x.connectId == a && x.rule in OfRules(ProfileRules(rules)) {
      var rule :| rule in ProfileRules(rules) && Applies(rule, combined) && x == IndexRowOf(rule, combined);
      RuleOfRow(rule, combined);
    }
    forall x: IndexRow
      ensures if x.connectId == b then x !in moved
        else if x.connectId != a then x in moved <==> x in rows
        else x in moved <==> x in rows || (x.(connectId := b) in rows && forall y :: y in rows && y.connectId == a ==> !SameRest(y, x))
    {
      RekeyedRows(rows, a, b, x);
    }
  }

  lemma ReindexedKeys(rows: set<IndexRow>, a: Id, b: Id, rules: seq<Rule>, combined: Record)
    requires KeysUnique(rows) && a != b && combined.connectId == a
    ensures var moved := RekeyAll(rows - Conflicting(rows, b, a), a, b);
      var kept := set x | x in moved && !(x.connectId == a && x.rule in OfRules(ProfileRules(rules)));
      && KeysUnique(moved) && KeysUnique(kept)
      && Reindexed(Keys(rows), Keys(Inserted(kept, IndexRowsOf(ProfileRules(rules), combined))), a, b, rules, combined)
      && (ProfileRules(rules) == [] ==> Reindexed(Keys(rows), Keys(moved), a, b, rules, combined))
  {
    hide Applies, IndexRowOf, ProfileRules, Conflicting;
    var profileRules := ProfileRules(rules);
    var moved := RekeyAll(rows - Conflicting(rows, b, a), a, b);
    var kept := set x | x in moved && !(x.connectId == a && x.rule in OfRules(profileRules));
    var records := IndexRowsOf(profileRules, combined);
    RekeyedKeys(rows, a, b, IndexKey(a, 0, "", ""));
    InsertedKeys(kept, records);
    IndexRowsOfMembers(profileRules, combined);
    forall k ensures k in Keys(moved) <==> k.connectId != b && (k in Keys(rows) || (k.connectId == a && k.(connectId := b) in Keys(rows))) {
      RekeyedKeys(rows, a, b, k);
    }
    forall k ensures k in Keys(kept) <==> k in Keys(moved) && !(k.connectId == a && k.rule in OfRules(profileRules)) {
      KeptKeys(moved, kept, a, OfRules(profileRules), k);
    }
    forall k ensures k in RecordKeys(records) <==> Recomputed(rules, combined, k) {
      KeysOfRules(profileRules, combined, k);
    }
    forall k | Recomputed(rules, combined, k) ensures k.connectId == a && k.rule in OfRules(profileRules) {
      var rule :| rule in profileRules && Applies(rule, combined) && k == KeyOf(IndexRowOf(rule, combined));
      RuleOfRow(rule, combined);
    }
  }

  lemma KeptKeys(moved: set<IndexRow>, kept: set<IndexRow>, a: Id, dropped: set<nat>, k: IndexKey)
    requires kept == set x | x in moved && !(x.connectId == a && x.rule in dropped)
    ensures k in Keys(kept) <==> k in Keys(moved) && !(k.connectId == a && k.rule in dropped)
  {}

  lemma KeysOfRules(rules: seq<Rule>, r: Record, k: IndexKey)
    ensures k in RecordKeys(IndexRowsOf(rules, r)) <==> exists rule :: rule in rules && Applies(rule, r) && k == KeyOf(IndexRowOf(rule, r))
  {
    hide Applies, IndexRowOf;
    IndexRowsOfMembers(rules, r);
    if rule :| rule in rules && Applies(rule, r) && k == KeyOf(IndexRowOf(rule, r)) {
      assert IndexRowOf(rule, r) in IndexRowsOf(rules, r);
    }
  }

  /** Reindexing after a merge goes through unless there are profile-level rules and none applies. */
  predicate Reindexes(rules: seq<Rule>, combined: Record) {
    ProfileRules(rules) == [] || exists rule :: rule in ProfileRules(rules) && Applies(rule, combined)
  }

  class IndexTable {
    var rows: set<IndexRow>

    ghost predicate Valid()
      reads this
    {
      KeysUnique(rows)
    }

    constructor ()
      ensures Valid() && rows == {}
    {
      rows := {};
    }

    /** The record's rows join the table unless their keys are there already. */
    method IndexInIRTable(rules: seq<Rule>, r: Record)
      requires Valid()
      modifies this
      ensures Valid() && old(rows) <= rows
      ensures Keys(rows) == Keys(old(rows)) + RecordKeys(IndexRowsOf(rules, r))
      ensures forall x :: x in rows ==> x in old(rows) || x in IndexRowsOf(rules, r)
    {
      var records := CreateRuleSetIndex(rules, r);
      InsertedKeys(rows, records);
      InsertedRows(rows, records);
      if |records| > 0 {
        rows := Inserted(rows, records);
      }
    }

    /** The other profiles with a matching row, by rule, each once for every such row. */
    method FindMatches(rules: seq<Rule>, r: Record) returns (matches: map<nat, seq<Id>>)
      ensures forall rule, id :: Listed(matches, rule, id) == |RowsMatched(rows, rules, r, rule, id)|
      ensures forall rule, id :: rule in matches && id in matches[rule] <==> Matched(Keys(rows), rules, r, rule, id)
      ensures forall rule :: rule in matches ==> matches[rule] != []
    {
      hide RowsMatched, Matched, Selected, RowsFor;
      var records := CreateRuleSetIndex(rules, r);
      matches := GroupByRule(Selected(rows, records, r.connectId));
      forall rule, id
        ensures Listed(matches, rule, id) == |RowsMatched(rows, rules, r, rule, id)|
        ensures rule in matches && id in matches[rule] <==> Matched(Keys(rows), rules, r, rule, id)
      {
        SelectedAreMatched(rows, rules, r, rule, id);
        MatchedIffRows(rows, rules, r, rule, id);
        assert rule in matches ==> (id in matches[rule] <==> id in multiset(matches[rule]));
      }
    }

    /** After a merge of b into a. When no profile-level rule applies to the combined profile the INSERT has no rows,
        which is malformed, and everything is rolled back. */
    method ReindexProfileAfterMerge(a: Id, b: Id, combined: Record, rules: seq<Rule>) returns (ok: bool)
      requires Valid() && a != b && combined.connectId == a && combined.objectType == PROFILE_OBJECT_TYPE_NAME
      modifies this
      ensures Valid()
      ensures ok <==> Reindexes(rules, combined)
      ensures ok ==> Reindexed(Keys(old(rows)), Keys(rows), a, b, rules, combined)
      ensures ok ==> RowsReindexed(old(rows), rows, a, b, rules, combined)
      ensures !ok ==> rows == old(rows)
    {
      hide Keys, KeysUnique, Conflicting, RekeyAll, Inserted, Reindexed, RowsReindexed, BreaksKey, ProfileRules, Applies, IndexRowOf;
      var saved := rows;
      ReindexedKeys(rows, a, b, rules, combined);
      ReindexedRows(rows, a, b, rules, combined);
      rows := rows - Conflicting(rows, b, a);
      NoConflictLeft(saved, a, b);
      assert !BreaksKey(rows, a, b);
      rows := RekeyAll(rows, a, b);
      var profileOnlyRules, _ := OrganizeRules(rules);
      if |profileOnlyRules| > 0 {
        rows := set x | x in rows && !(x.connectId == a && x.rule in OfRules(profileOnlyRules));
        var records := CreateRuleSetIndex(profileOnlyRules, combined);
        NoRowsIff(profileOnlyRules, combined);
        InsertedKeys(rows, records);
        if |records| == 0 {
          rows := saved;
          return false;
        }
        rows := Inserted(rows, records);
      }
      return true;
    }
  }

  // ---- what a search means ----

  /** What was put into the table and is still there: records by rules that are not profile-level, and by those that are. */
  datatype Content = Content(objects: set<Record>, profiles: set<Record>)

  predicate OnlyProfile(rule: Rule) {
    rule.conditions != [] && IsProfileLevel(rule)
  }

  function Under(content: Content, rule: Rule): set<Record> {
    if OnlyProfile(rule) then content.profiles else content.objects
  }

  /** The table holds the rows of these records under these rules, and nothing else. */
  ghost predicate Holds(keys: set<IndexKey>, rules: seq<Rule>, content: Content) {
    forall k :: k in keys <==> exists s, i :: 0 <= i < |rules| && s in Under(content, rules[i]) && Gives(rules[i], s, k)
  }

  predicate Gives(rule: Rule, s: Record, k: IndexKey) {
    Applies(rule, s) && k == KeyOf(IndexRowOf(rule, s))
  }

  function WithRecord(content: Content, r: Record): Content {
    Content(content.objects + {r}, content.profiles + {r})
  }

  /** Indexing one more record. */
  lemma HoldsOneMore(keys: set<IndexKey>, rules: seq<Rule>, content: Content, r: Record)
    requires Holds(keys, rules, content)
    ensures Holds(keys + RecordKeys(IndexRowsOf(rules, r)), rules, WithRecord(content, r))
  {
    hide Applies, IndexRowOf, OnlyProfile;
    var keys', content' := keys + RecordKeys(IndexRowsOf(rules, r)), WithRecord(content, r);
    forall rule, s ensures s in Under(content', rule) <==> s in Under(content, rule) || s == r {}
    hide Under;
    forall k ensures k in keys' <==> exists s, i :: 0 <= i < |rules| && s in Under(content', rules[i]) && Gives(rules[i], s, k) {
      KeysOfRules(rules, r, k);
      if s, i :| 0 <= i < |rules| && s in Under(content', rules[i]) && Gives(rules[i], s, k) {
        if s == r {
          assert rules[i] in rules;
        }
      }
      if k in keys {
        var s, i :| 0 <= i < |rules| && s in Under(content, rules[i]) && Gives(rules[i], s, k);
        assert s in Under(content', rules[i]);
      } else if rule :| rule in rules && Applies(rule, r) && k == KeyOf(IndexRowOf(rule, r)) {
        var i :| 0 <= i < |rules| && rules[i] == rule;
        assert r in Under(content', rules[i]) && Gives(rules[i], r, k);
      }
    }
  }

  ghost predicate IndexesDistinct(rules: seq<Rule>) {
    forall i, j :: 0 <= i < j < |rules| ==> rules[i].index != rules[j].index
  }

  /** What a search returns: the other profiles with a record that the rule finds. */
  lemma MatchedIffFinds(keys: set<IndexKey>, rules: seq<Rule>, content: Content, r: Record, n: nat, id: Id)
    requires Holds(keys, rules, content) && IndexesDistinct(rules) && n < |rules|
    ensures Matched(keys, rules, r, rules[n].index, id) <==>
      id != r.connectId && id != Blank && exists s :: s in Under(content, rules[n]) && s.connectId == id && Finds(rules[n], r, s)
  {
    hide Applies, IndexRowOf, Under;
    var rule := rules[n];
    if Matched(keys, rules, r, rule.index, id) {
      var k, i :| k in keys && 0 <= i < |rules| && MatchedBy(k, rules[i], r, rule.index, id);
      var s, j :| 0 <= j < |rules| && s in Under(content, rules[j]) && Gives(rules[j], s, k);
      RuleOfRow(rules[j], s);
      assert i == n && j == n;
      assert Finds(rule, r, s);
    }
    if s :| id != r.connectId && id != Blank && s in Under(content, rule) && s.connectId == id && Finds(rule, r, s) {
      var k := KeyOf(IndexRowOf(rule, s));
      RuleOfRow(rule, s);
      assert Gives(rules[n], s, k) && k in keys;
      assert MatchedBy(k, rules[n], r, rule.index, id);
    }
  }

  /** For a rule that compares fields with themselves: exactly the other profiles with an indexed record
      all of whose compared fields are, normalized, those of the searching record. */
  lemma MatchedIffAgree(keys: set<IndexKey>, rules: seq<Rule>, content: Content, r: Record, n: nat, id: Id)
    requires Holds(keys, rules, content) && IndexesDistinct(rules) && n < |rules|
    requires SameFieldRule(rules[n]) && AtMostOneMarked(Effective(true, rules[n].conditions))
    ensures Matched(keys, rules, r, rules[n].index, id) <==>
      && id != r.connectId && id != Blank && Applies(rules[n], r)
      && exists s :: s in Under(content, rules[n]) && s.connectId == id && Applies(rules[n], s) && Agree(Effective(true, rules[n].conditions), r, s)
  {
    hide Applies, IndexRowOf, Finds, Agree, LeavesMark, Under;
    MatchedIffFinds(keys, rules, content, r, n, id);
    forall s ensures Finds(rules[n], r, s) <==>
      Applies(rules[n], r) && Applies(rules[n], s) && Agree(Effective(true, rules[n].conditions), r, s)
    {
      SameFieldRuleFinds(rules[n], r, s);
    }
  }

  // ---- runs of the table ----

  function Reowned(s: Record, a: Id, b: Id): Record {
    if s.connectId == b then s.(connectId := a) else s
  }

  /** The records of b become records of a. */
  function ReownedAll(records: set<Record>, a: Id, b: Id): set<Record> {
    set s | s in records :: Reowned(s, a, b)
  }

  lemma OwnerDoesNotMatter(rule: Rule, s: Record, id: Id)
    ensures Applies(rule, s.(connectId := id)) <==> Applies(rule, s)
    ensures IndexRowOf(rule, s.(connectId := id)) == IndexRowOf(rule, s).(connectId := id)
  {
    var s' := s.(connectId := id);
    assert forall incoming, c :: ValueOf(incoming, c, s') == ValueOf(incoming, c, s);
    SameTaken(true, rule.conditions, s, s');
    SameTaken(false, rule.conditions, s, s');
    SameTaken(true, Taken(true, rule.conditions, s), s, s');
    SameTaken(false, Taken(false, rule.conditions, s), s, s');
  }

  lemma {:induction false} SameTaken(incoming: bool, cs: seq<Condition>, s: Record, s': Record)
    requires forall inc, c :: ValueOf(inc, c, s') == ValueOf(inc, c, s)
    ensures Taken(incoming, cs, s') == Taken(incoming, cs, s) && SegmentsOf(incoming, cs, s') == SegmentsOf(incoming, cs, s)
  {
    hide ValueOf, Normalized, FieldKey;
    if cs != [] {
      SameTaken(incoming, cs[..|cs| - 1], s, s');
      assert UsedKeys(incoming, cs[..|cs| - 1], s') == UsedKeys(incoming, cs[..|cs| - 1], s);
    }
  }

  lemma ReownedGives(rule: Rule, s: Record, a: Id, b: Id, k: IndexKey)
    requires a != b
    ensures Gives(rule, Reowned(s, a, b), k) <==>
      k.connectId != b && (Gives(rule, s, k) || (k.connectId == a && s.connectId == b && Gives(rule, s, k.(connectId := b))))
  {
    OwnerDoesNotMatter(rule, s, a);
    hide Applies, IndexRowOf;
    RuleOfRow(rule, s);
  }

  /** The profile-level rules and the other rules have no index in common. */
  predicate LevelsApart(rules: seq<Rule>) {
    forall i, j :: 0 <= i < |rules| && 0 <= j < |rules| && rules[i].index == rules[j].index ==>
      (OnlyProfile(rules[i]) <==> OnlyProfile(rules[j]))
  }

  lemma ProfileIndexIff(rules: seq<Rule>, i: nat)
    requires LevelsApart(rules) && i < |rules|
    ensures rules[i].index in OfRules(ProfileRules(rules)) <==> OnlyProfile(rules[i])
  {
    hide OnlyProfile;
    ProfileRulesAre(rules);
    if rule :| rule in ProfileRules(rules) && rule.index == rules[i].index {
      var j :| 0 <= j < |rules| && rules[j] == rule;
    }
    assert rules[i] in rules;
  }

  lemma ProfileRulesAre(rules: seq<Rule>)
    ensures forall rule :: rule in ProfileRules(rules) <==> rule in rules && OnlyProfile(rule)
  {
    ProfileRulesMembers(rules);
  }

  /** A merge of b into a: the objects of b become objects of a, and of all the profile-level records of the two
      only the combined profile is left. */
  function MergedContent(content: Content, a: Id, b: Id, combined: Record): Content {
    Content(ReownedAll(content.objects, a, b), (set s | s in content.profiles && s.connectId != a && s.connectId != b) + {combined})
  }

  /** Whose rows the table holds after a merge. */
  lemma HoldsAfterMerge(keys: set<IndexKey>, keys': set<IndexKey>, a: Id, b: Id, rules: seq<Rule>, combined: Record, content: Content)
    requires Holds(keys, rules, content) && Reindexed(keys, keys', a, b, rules, combined)
    requires a != b && combined.connectId == a && LevelsApart(rules)
    ensures Holds(keys', rules, MergedContent(content, a, b, combined))
  {
    hide Gives, OnlyProfile, Reindexed, Recomputed, ProfileRules, LevelsApart, MergedContent, Holds;
    var content' := MergedContent(content, a, b, combined);
    forall k ensures k in keys' <==> exists s, i :: 0 <= i < |rules| && s in Under(content', rules[i]) && Gives(rules[i], s, k) {
      if k in keys' {
        var s, i := KeptHasRecord(keys, keys', a, b, rules, combined, content, k);
        assert 0 <= i < |rules| && s in Under(content', rules[i]) && Gives(rules[i], s, k);
      }
      if s, i :| 0 <= i < |rules| && s in Under(content', rules[i]) && Gives(rules[i], s, k) {
        RecordIsKept(keys, keys', a, b, rules, combined, content, k, s, i);
      }
    }
    HoldsIf(keys', rules, content');
  }

  lemma HoldsIf(keys: set<IndexKey>, rules: seq<Rule>, content: Content)
    requires forall k :: k in keys <==> exists s, i :: 0 <= i < |rules| && s in Under(content, rules[i]) && Gives(rules[i], s, k)
    ensures Holds(keys, rules, content)
  {
    hide Gives, Under;
  }

  lemma KeptHasRecord(keys: set<IndexKey>, keys': set<IndexKey>, a: Id, b: Id, rules: seq<Rule>, combined: Record, content: Content,
                      k: IndexKey)
    returns (s: Record, i: nat)
    requires Holds(keys, rules, content) && Reindexed(keys, keys', a, b, rules, combined)
    requires a != b && combined.connectId == a && LevelsApart(rules)
    requires k in keys'
    ensures i < |rules| && s in Under(MergedContent(content, a, b, combined), rules[i]) && Gives(rules[i], s, k)
  {
    hide Gives, OnlyProfile, ProfileRules, LevelsApart, Reowned;
    if k.connectId == a && k.rule in OfRules(ProfileRules(rules)) {
      ProfileRulesAre(rules);
      var rule :| rule in ProfileRules(rules) && Applies(rule, combined) && k == KeyOf(IndexRowOf(rule, combined));
      i :| 0 <= i < |rules| && rules[i] == rule;
      s := combined;
      GivesIf(rule, combined, k);
    } else {
      var k0 := if k in keys then k else k.(connectId := b);
      var s0;
      s0, i :| 0 <= i < |rules| && s0 in Under(content, rules[i]) && Gives(rules[i], s0, k0);
      OwnerOfKey(rules[i], s0, k0);
      ProfileIndexIff(rules, i);
      if OnlyProfile(rules[i]) {
        s := s0;
      } else {
        ReownedGives(rules[i], s0, a, b, k);
        s := Reowned(s0, a, b);
      }
    }
  }

  lemma GivesIf(rule: Rule, s: Record, k: IndexKey)
    ensures Gives(rule, s, k) <==> Applies(rule, s) && k == KeyOf(IndexRowOf(rule, s))
  {
    hide Applies, IndexRowOf;
  }

  lemma RecordIsKept(keys: set<IndexKey>, keys': set<IndexKey>, a: Id, b: Id, rules: seq<Rule>, combined: Record, content: Content,
                     k: IndexKey, s: Record, i: nat)
    requires Holds(keys, rules, content) && Reindexed(keys, keys', a, b, rules, combined)
    requires a != b && combined.connectId == a && LevelsApart(rules)
    requires i < |rules| && s in Under(MergedContent(content, a, b, combined), rules[i]) && Gives(rules[i], s, k)
    ensures k in keys'
  {
    hide Gives, OnlyProfile, ProfileRules, LevelsApart, Reowned;
    OwnerOfKey(rules[i], s, k);
    ProfileIndexIff(rules, i);
    if OnlyProfile(rules[i]) {
      if s.connectId == a {
        ProfileRulesAre(rules);
        GivesIf(rules[i], s, k);
        assert Recomputed(rules, combined, k);
      } else {
        assert s in Under(content, rules[i]);
      }
    } else {
      var s0 :| s0 in content.objects && s == Reowned(s0, a, b);
      ReownedGives(rules[i], s0, a, b, k);
      assert s0 in Under(content, rules[i]);
    }
  }

  lemma OwnerOfKey(rule: Rule, s: Record, k: IndexKey)
    requires Gives(rule, s, k)
    ensures k.connectId == s.connectId && k.rule == rule.index
  {
    hide Applies, IndexRowOf;
    RuleOfRow(rule, s);
  }

  /** What happens to the table: a record is indexed, or a profile is merged into another. */
  datatype Change = Indexed(record: Record) | Merged(a: Id, b: Id, combined: Record)

  /** It fails exactly if some rule has conditions on the profile only, and no such rule applies to the combined profile. */
  lemma ReindexFailsIff(rules: seq<Rule>, combined: Record)
    ensures !Reindexes(rules, combined) <==>
      && (exists rule :: rule in rules && ComparesProfilesOnly(rule))
      && forall rule :: rule in rules && ComparesProfilesOnly(rule) ==> !Applies(rule, combined)
  {
    hide Applies;
    ProfileRulesMembers(rules);
    if ProfileRules(rules) != [] {
      assert ProfileRules(rules)[0] in ProfileRules(rules);
    }
  }

  predicate ComparesProfilesOnly(rule: Rule) {
    rule.conditions != [] && forall c :: c in rule.conditions ==> c.incomingType == c.existingType == "_profile"
  }

  ghost predicate Follows(keys: set<IndexKey>, keys': set<IndexKey>, rules: seq<Rule>, change: Change) {
    match change
    case Indexed(r) => keys' == keys + RecordKeys(IndexRowsOf(rules, r))
    case Merged(a, b, combined) =>
      && a != b && combined.connectId == a
      && if Reindexes(rules, combined) then Reindexed(keys, keys', a, b, rules, combined) else keys' == keys
  }

  function AfterChange(rules: seq<Rule>, content: Content, change: Change): Content {
    match change
    case Indexed(r) => WithRecord(content, r)
    case Merged(a, b, combined) => if Reindexes(rules, combined) then MergedContent(content, a, b, combined) else content
  }

  /** The records that were indexed, each with its present owner, and the profiles that were combined last. */
  function ContentOf(rules: seq<Rule>, changes: seq<Change>): Content {
    if changes == [] then Content({}, {})
    else AfterChange(rules, ContentOf(rules, changes[..|changes| - 1]), changes[|changes| - 1])
  }

  lemma ChangeHolds(keys: set<IndexKey>, keys': set<IndexKey>, rules: seq<Rule>, content: Content, change: Change)
    requires Holds(keys, rules, content) && Follows(keys, keys', rules, change) && LevelsApart(rules)
    ensures Holds(keys', rules, AfterChange(rules, content, change))
  {
    hide Holds, Reindexed, IndexRowsOf, ProfileRules, MergedContent, WithRecord, LevelsApart, Reindexes;
    match change
    case Indexed(r) => HoldsOneMore(keys, rules, content, r);
    case Merged(a, b, combined) =>
      if Reindexes(rules, combined) {
        HoldsAfterMerge(keys, keys', a, b, rules, combined, content);
      }
  }

  /** Over every run from an empty table, failed merges included: by rules that are not profile-level it holds the rows of all
      the records indexed so far, each under the profile that holds it now; by those that are, of a merged profile only those of
      the combined profile and of what was indexed since; and nothing else. */
  lemma {:induction false} RunHolds(tables: seq<set<IndexKey>>, rules: seq<Rule>, changes: seq<Change>)
    requires |tables| == |changes| + 1 && tables[0] == {} && LevelsApart(rules)
    requires forall i :: 0 <= i < |changes| ==> Follows(tables[i], tables[i + 1], rules, changes[i])
    ensures Holds(tables[|changes|], rules, ContentOf(rules, changes))
  {
    hide Gives, Follows, AfterChange, LevelsApart, Under;
    var n := |changes| - 1;
    if changes == [] {
      NothingUnder(rules);
    } else {
      forall i | 0 <= i < n ensures Follows(tables[..n + 1][i], tables[..n + 1][i + 1], rules, changes[..n][i]) {
        assert Follows(tables[i], tables[i + 1], rules, changes[i]);
      }
      RunHolds(tables[..n + 1], rules, changes[..n]);
      assert Follows(tables[n], tables[n + 1], rules, changes[n]);
      hide Holds;
      ChangeHolds(tables[n], tables[n + 1], rules, ContentOf(rules, changes[..n]), changes[n]);
    }
  }

  lemma NothingUnder(rules: seq<Rule>)
    ensures forall rule :: Under(Content({}, {}), rule) == {}
  {}

  /** A merge loses no match and invents none: by a rule that is not profile-level the survivor is found
      by exactly the records that found one of the two before. */
  lemma MatchesSurviveMerge(keys: set<IndexKey>, keys': set<IndexKey>, a: Id, b: Id, rules: seq<Rule>, combined: Record, r: Record, rule: nat)
    requires Reindexed(keys, keys', a, b, rules, combined) && a != b && a != Blank && b != Blank
    requires r.connectId != a && r.connectId != b && rule !in OfRules(ProfileRules(rules))
    ensures Matched(keys', rules, r, rule, a) <==> Matched(keys, rules, r, rule, a) || Matched(keys, rules, r, rule, b)
    ensures !Matched(keys', rules, r, rule, b)
    ensures forall id :: id != a && id != b ==> (Matched(keys', rules, r, rule, id) <==> Matched(keys, rules, r, rule, id))
  {
    hide Applies, IndexRowOf, ProfileRules;
    if Matched(keys', rules, r, rule, a) {
      var k, i :| k in keys' && 0 <= i < |rules| && MatchedBy(k, rules[i], r, rule, a);
      assert MatchedBy(k.(connectId := b), rules[i], r, rule, b);
    }
    if Matched(keys, rules, r, rule, b) {
      var k, i :| k in keys && 0 <= i < |rules| && MatchedBy(k, rules[i], r, rule, b);
      assert k.(connectId := a).(connectId := b) == k;
      assert k.(connectId := a) in keys' && MatchedBy(k.(connectId := a), rules[i], r, rule, a);
    }
    if Matched(keys, rules, r, rule, a) {
      var k, i :| k in keys && 0 <= i < |rules| && MatchedBy(k, rules[i], r, rule, a);
      assert k in keys';
    }
  }

  /** By a profile-level rule the survivor is found exactly when its combined profile is what the rule looks for. */
  lemma ProfileRulesSeeTheCombinedProfile(keys: set<IndexKey>, keys': set<IndexKey>, a: Id, b: Id, rules: seq<Rule>, combined: Record, r: Record, n: nat)
    requires Reindexed(keys, keys', a, b, rules, combined) && combined.connectId == a != Blank && a != b && r.connectId != a
    requires IndexesDistinct(rules) && n < |rules| && rules[n] in ProfileRules(rules)
    ensures Matched(keys', rules, r, rules[n].index, a) <==> Finds(rules[n], r, combined)
  {
    hide Applies, IndexRowOf, ProfileRules;
    var rule := rules[n];
    ProfileRulesMembers(rules);
    assert rule.index in OfRules(ProfileRules(rules));
    if Matched(keys', rules, r, rule.index, a) {
      var k, i :| k in keys' && 0 <= i < |rules| && MatchedBy(k, rules[i], r, rule.index, a);
      var rl :| rl in ProfileRules(rules) && Applies(rl, combined) && k == KeyOf(IndexRowOf(rl, combined));
      RuleOfRow(rl, combined);
      var j :| 0 <= j < |rules| && rules[j] == rl;
      assert i == n && j == n;
    }
    if Finds(rule, r, combined) {
      var k := KeyOf(IndexRowOf(rule, combined));
      RuleOfRow(rule, combined);
      assert Recomputed(rules, combined, k);
      assert k in keys' && MatchedBy(k, rules[n], r, rule.index, a);
    }
  }
}
