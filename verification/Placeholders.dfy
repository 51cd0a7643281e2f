/** Query parameters: the placeholder check and numbering done before every statement,
    and the clauses built with placeholders. */
module Placeholders {
  import opened FieldResolution

  function Marks(q: string): nat {
    if q == "" then 0 else Marks(q[1..]) + (if q[0] == '?' then 1 else 0)
  }

  lemma {:induction false} MarksConcat(a: string, b: string)
    ensures Marks(a + b) == Marks(a) + Marks(b)
  {
    if a == "" {
      assert a + b == b;
    } else {
      assert (a + b)[1..] == a[1..] + b;
      MarksConcat(a[1..], b);
    }
  }

  function Decimal(n: nat): (s: string)
    ensures s != "" && forall i :: 0 <= i < |s| ==> '0' <= s[i] <= '9'
  {
    if n < 10 then [DIGITS[n]] else Decimal(n / 10) + [DIGITS[n % 10]]
  }

  const DIGITS := "0123456789"

  /** The number a text of decimal digits stands for. */
  function Parse(s: string): int {
    if s == "" then 0 else 10 * Parse(s[..|s| - 1]) + (s[|s| - 1] as int - '0' as int)
  }

  lemma {:induction false} ParseDecimal(n: nat)
    ensures Parse(Decimal(n)) == n
  {
    var s := Decimal(n);
    DigitValue(n % 10);
    if n < 10 {
      assert s[..|s| - 1] == "";
    } else {
      assert s[..|s| - 1] == Decimal(n / 10);
      ParseDecimal(n / 10);
    }
  }

  lemma DigitValue(d: nat)
    requires d < 10
    ensures DIGITS[d] == '0' + d as char
  {}

  function Parameter(n: nat): string { "$" + Decimal(n) }

  lemma {:induction false} NoMarks(s: string)
    requires forall i :: 0 <= i < |s| ==> s[i] != '?'
    ensures Marks(s) == 0
  {
    if s != "" {
      NoMarks(s[1..]);
    }
  }

  /** strings.Replace(q, "?", by, 1) */
  function ReplaceFirst(q: string, with: string): string {
    if q == "" then "" else if q[0] == '?' then with + q[1..] else [q[0]] + ReplaceFirst(q[1..], with)
  }

  /** The first n placeholders numbered from k, in one pass. */
  function Numbered(q: string, k: nat, n: nat): string {
    if q == "" || n == 0 then q
    else if q[0] == '?' then Parameter(k) + Numbered(q[1..], k + 1, n - 1)
    else [q[0]] + Numbered(q[1..], k, n)
  }

  lemma {:induction false} ReplaceFirstAfter(a: string, b: string, with: string)
    requires forall i :: 0 <= i < |a| ==> a[i] != '?'
    ensures ReplaceFirst(a + b, with) == a + ReplaceFirst(b, with)
  {
    if a == "" {
      assert a + b == b;
    } else {
      assert (a + b)[1..] == a[1..] + b;
      ReplaceFirstAfter(a[1..], b, with);
    }
  }

  lemma ParameterHasNoMark(n: nat)
    ensures forall i :: 0 <= i < |Parameter(n)| ==> Parameter(n)[i] != '?'
  {}

  /** Replacing the first remaining placeholder extends the numbering by one. */
  lemma {:induction false} NumberOneMore(q: string, k: nat, n: nat)
    requires n < Marks(q)
    ensures ReplaceFirst(Numbered(q, k, n), Parameter(k + n)) == Numbered(q, k, n + 1)
  {
    hide Parameter;
    ParameterHasNoMark(k);
    if q[0] == '?' {
      if n == 0 {
        assert Numbered(q[1..], k + 1, 0) == q[1..];
      } else {
        NumberOneMore(q[1..], k + 1, n - 1);
        ReplaceFirstAfter(Parameter(k), Numbered(q[1..], k + 1, n - 1), Parameter(k + n));
      }
    } else {
      NumberOneMore(q[1..], k, n);
      if n == 0 {
        assert Numbered(q[1..], k, 0) == q[1..];
        assert [q[0]] + q[1..] == q;
      } else {
        var rest := Numbered(q[1..], k, n);
        assert ([q[0]] + rest)[1..] == rest;
      }
    }
  }

  lemma {:induction false} NumberedMarks(q: string, k: nat)
    ensures Marks(Numbered(q, k, Marks(q))) == 0
  {
    if q != "" {
      if q[0] == '?' {
        NumberedMarks(q[1..], k + 1);
        NoMarks(Parameter(k));
        MarksConcat(Parameter(k), Numbered(q[1..], k + 1, Marks(q[1..])));
      } else if Marks(q) > 0 {
        NumberedMarks(q[1..], k);
        var rest := Numbered(q[1..], k, Marks(q));
        assert ([q[0]] + rest)[1..] == rest;
      }
    }
  }

  // ---- what the numbering is ----

  /** The pieces with the marks between them. */
  function Woven(pieces: seq<string>, marks: seq<string>): string
    requires |pieces| == |marks| + 1
  {
    if marks == [] then pieces[0] else pieces[0] + marks[0] + Woven(pieces[1..], marks[1..])
  }

  function QuestionMarks(n: nat): (marks: seq<string>)
    ensures |marks| == n && forall i :: 0 <= i < n ==> marks[i] == "?"
  {
    seq(n, i => "?")
  }

  /** "$" and the digits of k, k + 1 and so on, without leading zeros. */
  ghost predicate NumbersFrom(marks: seq<string>, k: nat) {
    forall i :: 0 <= i < |marks| ==>
      && |marks[i]| >= 2 && marks[i][0] == '$' && (forall j :: 1 <= j < |marks[i]| ==> '0' <= marks[i][j] <= '9')
      && Parse(marks[i][1..]) == k + i && (k + i > 0 ==> marks[i][1] != '0')
  }

  /** A text cut at its question marks: the numbered text has $k, $(k+1) and so on between the same pieces. */
  ghost predicate NumberedBetween(q: string, numbered: string, pieces: seq<string>, numbers: seq<string>, k: nat) {
    && |pieces| == |numbers| + 1 && (forall i :: 0 <= i < |pieces| ==> Marks(pieces[i]) == 0)
    && q == Woven(pieces, QuestionMarks(|numbers|)) && numbered == Woven(pieces, numbers) && NumbersFrom(numbers, k)
  }

  lemma {:induction false} NoLeadingZero(n: nat)
    ensures n > 0 ==> Decimal(n)[0] != '0'
  {
    if n < 10 {
      DigitValue(n);
    } else {
      NoLeadingZero(n / 10);
    }
  }

  lemma ParameterIs(k: nat)
    ensures NumbersFrom([Parameter(k)], k)
  {
    ParseDecimal(k);
    NoLeadingZero(k);
    assert Parameter(k)[1..] == Decimal(k);
  }

  lemma OneMorePiece(first: string, pieces: seq<string>, numbers: seq<string>, number: string)
    requires |pieces| == |numbers| + 1
    ensures Woven([first] + pieces, [number] + numbers) == first + number + Woven(pieces, numbers)
    ensures Woven([first] + pieces, QuestionMarks(|numbers| + 1)) == first + "?" + Woven(pieces, QuestionMarks(|numbers|))
  {
    assert ([first] + pieces)[1..] == pieces && ([number] + numbers)[1..] == numbers;
    assert QuestionMarks(|numbers| + 1)[1..] == QuestionMarks(|numbers|);
  }

  /** A character in front of the first piece. */
  lemma LongerPiece(c: char, pieces: seq<string>, marks: seq<string>)
    requires |pieces| == |marks| + 1
    ensures Woven([[c] + pieces[0]] + pieces[1..], marks) == [c] + Woven(pieces, marks)
  {
    var longer := [[c] + pieces[0]] + pieces[1..];
    if marks != [] {
      assert longer[1..] == pieces[1..];
      assert ([c] + pieces[0]) + marks[0] + Woven(pieces[1..], marks[1..]) == [c] + (pieces[0] + marks[0] + Woven(pieces[1..], marks[1..]));
    }
  }

  lemma {:induction false} NumberedIs(q: string, k: nat) returns (pieces: seq<string>, numbers: seq<string>)
    ensures NumberedBetween(q, Numbered(q, k, Marks(q)), pieces, numbers, k) && |numbers| == Marks(q)
  {
    hide Parameter, Woven, QuestionMarks;
    if q == "" {
      pieces, numbers := [""], [];
      NothingWoven();
    } else if q[0] == '?' {
      var ps, ns := NumberedIs(q[1..], k + 1);
      pieces, numbers := [""] + ps, [Parameter(k)] + ns;
      OneMorePiece("", ps, ns, Parameter(k));
      ParameterIs(k);
      assert [Parameter(k)][0] == Parameter(k);
      assert q == "" + "?" + q[1..];
      assert "" + Parameter(k) == Parameter(k);
    } else {
      var ps, ns := NumberedIs(q[1..], k);
      pieces, numbers := [[q[0]] + ps[0]] + ps[1..], ns;
      MarksConcat([q[0]], ps[0]);
      NoMarks([q[0]]);
      LongerPiece(q[0], ps, ns);
      LongerPiece(q[0], ps, QuestionMarks(|ns|));
      NumberedStep(q, k);
    }
  }

  lemma NothingWoven()
    ensures Woven([""], []) == "" && QuestionMarks(0) == []
  {}

  lemma NumberedStep(q: string, k: nat)
    requires q != "" && q[0] != '?'
    ensures Numbered(q, k, Marks(q)) == [q[0]] + Numbered(q[1..], k, Marks(q[1..]))
  {
    if Marks(q) == 0 {
      assert Numbered(q[1..], k, 0) == q[1..];
    }
  }

  /** A statement is rejected unless it has as many placeholders as arguments; then placeholder i becomes $i. */
  method PrepQuery(query: string, nArgs: nat) returns (prepared: Option<string>)
    ensures prepared.Some? <==> Marks(query) == nArgs
    ensures prepared.Some? ==> prepared.value == Numbered(query, 1, nArgs) && Marks(prepared.value) == 0
    ensures prepared.Some? ==> exists pieces, numbers :: |numbers| == nArgs && NumberedBetween(query, prepared.value, pieces, numbers, 1)
  {
    if Marks(query) != nArgs {
      return None;
    }
    var q := query;
    var i := 0;
    while i < nArgs
      invariant 0 <= i <= nArgs && q == Numbered(query, 1, i)
    {
      NumberOneMore(query, 1, i);
      q := ReplaceFirst(q, Parameter(i + 1));
      i := i + 1;
    }
    NumberedMarks(query, 1);
    ghost var pieces, numbers := NumberedIs(query, 1);
    return Some(q);
  }

  // ---- the check whether two profiles were merged before ----

  const SELECT_FROM := "SELECT to_merge, merged_into FROM "
  const WHERE_TYPE := " WHERE (merge_type in (\"rule\", \"ai\", "
  const AND_MERGED := "\"manual\", \"delete\") AND to_merge="
  const WHERE_MERGED := WHERE_TYPE + AND_MERGED
  const AND_INTO := " AND merged_into="

  function HaveBeenMergedSql(table: string): string {
    SELECT_FROM + (table + (WHERE_MERGED + ("?" + (AND_INTO + ("?" + ")")))))
  }

  lemma TwoMarks(a: string, table: string, b: string, c: string, d: string)
    requires Marks(a) == 0 && Marks(b) == 0 && Marks(c) == 0 && Marks(d) == 0
    ensures Marks(a + (table + (b + ("?" + (c + ("?" + d)))))) == Marks(table) + 2
  {
    MarksConcat("?", d);
    MarksConcat(c, "?" + d);
    MarksConcat("?", c + ("?" + d));
    MarksConcat(b, "?" + (c + ("?" + d)));
    MarksConcat(table, b + ("?" + (c + ("?" + d))));
    MarksConcat(a, table + (b + ("?" + (c + ("?" + d)))));
  }

  lemma FixedTextHasNoMarks()
    ensures Marks(SELECT_FROM) == 0 && Marks(WHERE_MERGED) == 0 && Marks(AND_INTO) == 0
  {
    hide Marks;
    NoMarks(SELECT_FROM);
    NoMarks(WHERE_TYPE);
    NoMarks(AND_MERGED);
    MarksConcat(WHERE_TYPE, AND_MERGED);
    NoMarks(AND_INTO);
  }

  lemma MarksOfMergedSql(table: string)
    ensures Marks(HaveBeenMergedSql(table)) == Marks(table) + 2
  {
    hide Marks;
    FixedTextHasNoMarks();
    NoMarks(")");
    TwoMarks(SELECT_FROM, table, WHERE_MERGED, AND_INTO, ")");
  }

  /** The check hands three arguments to a statement with two placeholders, so it fails for every table name without one. */
  method HaveBeenMergedAndNotUnmerged(table: string) returns (found: Option<bool>)
    ensures Marks(table) == 0 ==> found == None
  {
    MarksOfMergedSql(table);
    var prepared := PrepQuery(HaveBeenMergedSql(table), 3);
    found := if prepared.None? then None else Some(false);
  }

  // ---- where clauses ----

  datatype Operator = EQ | NEQ | LT | LTE | GT | GTE | IN | NOTIN | LIKE | NOTLIKE

  function OperatorText(op: Operator): string {
    match op
    case EQ => "=" case NEQ => "!=" case LT => "<" case LTE => "<=" case GT => ">" case GTE => ">="
    case IN => "IN" case NOTIN => "NOT IN" case LIKE => "LIKE" case NOTLIKE => "NOT LIKE"
  }

  datatype Logical = AND | OR

  datatype Value = Single(text: string) | Many(texts: seq<string>)

  datatype Criteria =
    | Criterion(column: string, op: Operator, value: Value)
    | Connective(logical: Logical)
    | Group(criteria: seq<Criteria>)

  datatype Clause = Clause(text: string, parameters: seq<Value>)

  function Repeat(s: string, n: nat): string {
    if n == 0 then "" else Repeat(s, n - 1) + s
  }

  function Singles(texts: seq<string>): (vs: seq<Value>)
    ensures |vs| == |texts|
  {
    seq(|texts|, i requires 0 <= i < |texts| => Single(texts[i]))
  }

  /** IN takes a list and nothing else; the comma after its last placeholder is overwritten by the bracket,
      and so is the opening bracket of an empty list. */
  function CriterionClause(column: string, op: Operator, value: Value): Option<Clause> {
    var head := "\"" + (column + ("\" " + OperatorText(op)));
    if op.IN? || op.NOTIN? then
      if value.Single? then None
      else if value.texts == [] then Some(Clause(head + " )", []))
      else Some(Clause(head + (" (" + (Repeat("?,", |value.texts| - 1) + "?)")), Singles(value.texts)))
    else Some(Clause(head + " ?", [value]))
  }

  /** One clause followed by another. */
  function Followed(a: Option<Clause>, b: Option<Clause>): Option<Clause> {
    if a.None? || b.None? then None else Some(Clause(a.value.text + b.value.text, a.value.parameters + b.value.parameters))
  }

  function WhereClause(cs: seq<Criteria>): Option<Clause> {
    if cs == [] then Some(Clause("", []))
    else Followed(WhereClause(cs[..|cs| - 1]), OwnClause(cs[|cs| - 1]))
  }

  function OwnClause(c: Criteria): Option<Clause> {
    match c
    case Criterion(column, op, value) => CriterionClause(column, op, value)
    case Connective(logical) => Some(Clause(if logical.AND? then " AND " else " OR ", []))
    case Group(inner) => if WhereClause(inner).None? then None
      else Some(Clause("(" + (WhereClause(inner).value.text + ")"), WhereClause(inner).value.parameters))
  }

  /** Question marks that come from column names. */
  function ColumnMarks(cs: seq<Criteria>): nat {
    if cs == [] then 0
    else
      var last := cs[|cs| - 1];
      ColumnMarks(cs[..|cs| - 1]) +
      match last
      case Criterion(column, _, _) => Marks(column)
      case Connective(_) => 0
      case Group(inner) => ColumnMarks(inner)
  }

  lemma {:induction false} MarksRepeat(n: nat)
    ensures Marks(Repeat("?,", n)) == n
  {
    if n > 0 {
      MarksRepeat(n - 1);
      MarksConcat(Repeat("?,", n - 1), "?,");
      assert "?,"[1..] == "," && ","[1..] == "";
    }
  }

  lemma OperatorHasNoMarks(op: Operator)
    ensures Marks(OperatorText(op)) == 0
  {
    NoMarks(OperatorText(op));
  }

  lemma HeadMarks(column: string, op: Operator)
    ensures Marks("\"" + (column + ("\" " + OperatorText(op)))) == Marks(column)
  {
    OperatorHasNoMarks(op);
    NoMarks("\" ");
    NoMarks("\"");
    MarksConcat("\" ", OperatorText(op));
    MarksConcat(column, "\" " + OperatorText(op));
    MarksConcat("\"", column + ("\" " + OperatorText(op)));
  }

  lemma ListMarks(n: nat)
    ensures Marks(" (" + (Repeat("?,", n) + "?)")) == n + 1
  {
    MarksRepeat(n);
    assert "?)"[1..] == ")";
    NoMarks(")");
    NoMarks(" (");
    MarksConcat(Repeat("?,", n), "?)");
    MarksConcat(" (", Repeat("?,", n) + "?)");
  }

  lemma CriterionMarks(column: string, op: Operator, value: Value)
    ensures var c := CriterionClause(column, op, value);
            c.Some? ==> Marks(c.value.text) == |c.value.parameters| + Marks(column)
  {
    var head := "\"" + (column + ("\" " + OperatorText(op)));
    HeadMarks(column, op);
    NoMarks(" )");
    MarksConcat(head, " )");
    assert " ?"[1..] == "?" && "?"[1..] == "";
    MarksConcat(head, " ?");
    if value.Many? && value.texts != [] {
      ListMarks(|value.texts| - 1);
      MarksConcat(head, " (" + (Repeat("?,", |value.texts| - 1) + "?)"));
    }
  }

  lemma GroupMarks(text: string)
    ensures Marks("(" + (text + ")")) == Marks(text)
  {
    NoMarks("(");
    NoMarks(")");
    MarksConcat(text, ")");
    MarksConcat("(", text + ")");
  }

  /** However the criteria nest, a clause has one placeholder per parameter, besides any in column names. */
  lemma {:induction false} WhereClauseMarks(cs: seq<Criteria>)
    ensures var c := WhereClause(cs); c.Some? ==> Marks(c.value.text) == |c.value.parameters| + ColumnMarks(cs)
  {
    if cs != [] && WhereClause(cs).Some? {
      var before, last := WhereClause(cs[..|cs| - 1]).value, cs[|cs| - 1];
      WhereClauseMarks(cs[..|cs| - 1]);
      assert OwnClause(last).Some?;
      match last {
        case Criterion(column, op, value) =>
          CriterionMarks(column, op, value);
          MarksConcat(before.text, CriterionClause(column, op, value).value.text);
        case Connective(logical) =>
          NoMarks(" AND ");
          NoMarks(" OR ");
          MarksConcat(before.text, if logical.AND? then " AND " else " OR ");
        case Group(inner) =>
          var c := WhereClause(inner).value;
          WhereClauseMarks(inner);
          GroupMarks(c.text);
          MarksConcat(before.text, "(" + (c.text + ")"));
      }
    }
  }

  /** How the value of a column can lie to the parameter it is compared with. */
  datatype Order = Less | Equal | Greater

  predicate Meant(op: Operator, o: Order) {
    match op
    case EQ => o.Equal? case NEQ => !o.Equal?
    case LT => o.Less? case LTE => !o.Greater?
    case GT => o.Greater? case GTE => !o.Less?
    case _ => false
  }

  /** What SQL takes the text of a comparison for. */
  predicate SqlHolds(text: string, o: Order) {
    if text == "=" then o.Equal?
    else if text == "!=" then o.Less? || o.Greater?
    else if text == "<" then o.Less?
    else if text == "<=" then o.Less? || o.Equal?
    else if text == ">" then o.Greater?
    else text == ">=" && (o.Greater? || o.Equal?)
  }

  /** The operators say what they mean. */
  lemma OperatorSaysWhatIsMeant(op: Operator)
    ensures forall o :: SqlHolds(OperatorText(op), o) <==> Meant(op, o)
    ensures OperatorText(NOTIN) == "NOT " + OperatorText(IN) && OperatorText(NOTLIKE) == "NOT " + OperatorText(LIKE)
    ensures (op.IN? <==> OperatorText(op) == "IN") && (op.LIKE? <==> OperatorText(op) == "LIKE")
  {
    var text := OperatorText(op);
    assert |"="| == 1 && |"<="| == 2 && "="[0] != "<"[0] && "="[0] != ">"[0] && "<"[0] != ">"[0];
    assert "!="[0] == '!' && "<="[0] == '<' && ">="[0] == '>' && "IN"[0] == 'I' && "NOT IN"[0] == 'N' && "LIKE"[0] == 'L' && "NOT LIKE"[0] == 'N';
  }

  lemma FollowedAssociates(a: Option<Clause>, b: Option<Clause>, c: Option<Clause>)
    ensures Followed(Followed(a, b), c) == Followed(a, Followed(b, c))
    ensures Followed(a, Some(Clause("", []))) == a == Followed(Some(Clause("", [])), a)
  {
    if a.Some? && b.Some? && c.Some? {
      assert (a.value.text + b.value.text) + c.value.text == a.value.text + (b.value.text + c.value.text);
      var x, y, z := a.value.parameters, b.value.parameters, c.value.parameters;
      assert (x + y) + z == x + (y + z);
    }
    if a.Some? {
      assert "" + a.value.text == a.value.text == a.value.text + "";
      assert [] + a.value.parameters == a.value.parameters == a.value.parameters + [];
    }
  }

  lemma ClauseSnoc(before: seq<Criteria>, last: Criteria)
    ensures WhereClause(before + [last]) == Followed(WhereClause(before), OwnClause(last)) && WhereClause([last]) == OwnClause(last)
  {
    hide OwnClause, Followed;
    assert (before + [last])[..|before|] == before && [last][..0] == [];
    FollowedAssociates(OwnClause(last), None, None);
  }

  /** The clause of two lists of criteria is the clause of the first followed by that of the second,
      text and parameters alike. */
  lemma {:induction false} ClauseOfParts(first: seq<Criteria>, second: seq<Criteria>)
    ensures WhereClause(first + second) == Followed(WhereClause(first), WhereClause(second))
    decreases |second|
  {
    if second == [] {
      assert first + second == first;
      FollowedAssociates(WhereClause(first), None, None);
    } else {
      var before, last := second[..|second| - 1], second[|second| - 1];
      assert second == before + [last] && first + second == (first + before) + [last];
      hide WhereClause, Followed;
      ClauseOfParts(first, before);
      ClauseSnoc(first + before, last);
      ClauseSnoc(before, last);
      FollowedAssociates(WhereClause(first), WhereClause(before), WhereClause([last]));
    }
  }

  /** The clauses of a single criterion, of a group and of a connective. */
  lemma ClauseOfOne(column: string, op: Operator, value: Value, inner: seq<Criteria>)
    ensures !op.IN? && !op.NOTIN? ==>
      WhereClause([Criterion(column, op, value)]) == Some(Clause("\"" + (column + ("\" " + OperatorText(op))) + " ?", [value]))
    ensures WhereClause(inner).Some? ==>
      WhereClause([Group(inner)]) == Some(Clause("(" + (WhereClause(inner).value.text + ")"), WhereClause(inner).value.parameters))
    ensures WhereClause([Connective(AND)]) == Some(Clause(" AND ", [])) && WhereClause([Connective(OR)]) == Some(Clause(" OR ", []))
  {
    hide OperatorText, WhereClause;
    ClauseSnoc([], Criterion(column, op, value));
    ClauseSnoc([], Group(inner));
    ClauseSnoc([], Connective(AND));
    ClauseSnoc([], Connective(OR));
  }

  /** IN and NOT IN: one placeholder for each text of the list, in its order. */
  lemma ClauseOfList(column: string, op: Operator, texts: seq<string>)
    requires (op.IN? || op.NOTIN?) && texts != []
    ensures var c := WhereClause([Criterion(column, op, Many(texts))]);
      && c.Some? && c.value.text == "\"" + (column + ("\" " + OperatorText(op))) + (" (" + Woven(Commas(|texts|), QuestionMarks(|texts|)))
      && |c.value.parameters| == |texts| && forall i :: 0 <= i < |texts| ==> c.value.parameters[i] == Single(texts[i])
  {
    hide OperatorText, WhereClause, Woven, Repeat;
    ClauseSnoc([], Criterion(column, op, Many(texts)));
    CommasWoven(|texts|);
  }

  /** Nothing before the first mark, commas between marks, and a bracket at the end. */
  function Commas(n: nat): (pieces: seq<string>)
    requires n > 0
    ensures |pieces| == n + 1 && pieces[0] == "" && pieces[n] == ")" && forall i :: 0 < i < n ==> pieces[i] == ","
  {
    seq(n + 1, i => if i == 0 then "" else if i == n then ")" else ",")
  }

  lemma {:induction false} RepeatFront(n: nat)
    ensures Repeat("?,", n + 1) == "?," + Repeat("?,", n)
  {
    if n > 0 {
      RepeatFront(n - 1);
      assert ("?," + Repeat("?,", n - 1)) + "?," == "?," + (Repeat("?,", n - 1) + "?,");
    }
  }

  lemma {:induction false} CommasWoven(n: nat)
    requires n > 0
    ensures Woven(Commas(n), QuestionMarks(n)) == Repeat("?,", n - 1) + "?)"
  {
    CommasRest(n);
    if n > 1 {
      CommasWoven(n - 1);
      RepeatFront(n - 2);
      LongerPiece(',', Commas(n - 1), QuestionMarks(n - 1));
      assert "?," == "?" + ",";
    } else {
      assert Woven([")"], []) == ")";
    }
  }

  lemma CommasRest(n: nat)
    requires n > 0
    ensures QuestionMarks(n)[1..] == QuestionMarks(n - 1)
    ensures n > 1 ==> Commas(n)[1..] == [[','] + Commas(n - 1)[0]] + Commas(n - 1)[1..]
    ensures n == 1 ==> Commas(n)[1..] == [")"]
  {
    if n > 1 {
      assert [','] + Commas(n - 1)[0] == ",";
    }
  }

  /** The clause as the source builds it: a text and a parameter list that grow together. */
  method BuildParameterizedWhereClause(cs: seq<Criteria>) returns (clause: Option<Clause>)
    ensures clause == WhereClause(cs)
  {
    var text, parameters := "", [];
    var i := 0;
    while i < |cs|
      invariant 0 <= i <= |cs| && WhereClause(cs[..i]) == Some(Clause(text, parameters))
    {
      assert cs[..i + 1][..i] == cs[..i] && cs[..i + 1][i] == cs[i];
      match cs[i] {
        case Criterion(column, op, value) =>
          var c := CriterionClause(column, op, value);
          if c.None? {
            WhereClauseFails(cs, i + 1);
            return None;
          }
          text, parameters := text + c.value.text, parameters + c.value.parameters;
        case Connective(logical) =>
          text := text + (if logical.AND? then " AND " else " OR ");
          assert parameters == parameters + [];
        case Group(inner) =>
          var c := BuildParameterizedWhereClause(inner);
          if c.None? {
            WhereClauseFails(cs, i + 1);
            return None;
          }
          text, parameters := text + ("(" + (c.value.text + ")")), parameters + c.value.parameters;
      }
      i := i + 1;
    }
    assert cs[..i] == cs;
    return Some(Clause(text, parameters));
  }

  lemma {:induction false} WhereClauseFails(cs: seq<Criteria>, n: nat)
    requires n <= |cs| && WhereClause(cs[..n]) == None
    ensures WhereClause(cs) == None
    decreases |cs| - n
  {
    if n == |cs| {
      assert cs[..n] == cs;
    } else {
      assert cs[..n + 1][..n] == cs[..n];
      WhereClauseFails(cs, n + 1);
    }
  }

  /** A search built from criteria is accepted for execution with its own parameters
      exactly when no column name holds a question mark. */
  method PrepareSearch(cs: seq<Criteria>) returns (clause: Option<Clause>, prepared: Option<string>)
    ensures clause == WhereClause(cs)
    ensures clause.Some? ==> (prepared.Some? <==> ColumnMarks(cs) == 0)
    ensures prepared.Some? ==> clause.Some? && exists pieces, numbers ::
      |numbers| == |clause.value.parameters| && NumberedBetween(clause.value.text, prepared.value, pieces, numbers, 1)
  {
    clause := BuildParameterizedWhereClause(cs);
    prepared := None;
    if clause.Some? {
      WhereClauseMarks(cs);
      prepared := PrepQuery(clause.value.text, |clause.value.parameters|);
    }
  }
}
