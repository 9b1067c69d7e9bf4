/** The pure categorizer: a closed set of conditions, AND-only predicates, first match wins. */
module Categorizer {
  import opened Common

  /** A stored text together with what casefolding makes of it. */
  datatype Text = Text(exact: string, folded: string)

  /** What the rules can read from the JSON payload of a transaction. The optional integer is
      the originalMcc key after its attempted conversion; the optional string is the alphabetic
      code of the operation currency, when the payload has one that is mapped. */
  datatype Payload = Payload(texts: map<string, Text>, originalMcc: Option<int>, opCurrency: Option<string>)

  datatype RowView = RowView(
    id: nat,
    amount: int,
    hold: bool,
    locked: bool,
    category: Option<int>,
    description: Option<Text>,
    mcc: Option<int>,
    account: Option<nat>,
    currency: Option<string>,
    payload: Payload)
  {
    function RawText(key: string): Option<Text> {
      if key in payload.texts then Some(payload.texts[key]) else None
    }

    function GetText(field: TextField): Option<Text> {
      match field
      case Description => description
      case Comment => RawText("comment")
      case CounterIban => RawText("counterIban")
      case CounterEdrpou => RawText("counterEdrpou")
    }

    function GetInt(field: IntField): Option<int> {
      match field
      case Mcc => mcc
      case AccountId => if account.Some? then Some(account.value) else None
      case OriginalMcc => payload.originalMcc
    }
  }

  datatype TextField = Description | Comment | CounterIban | CounterEdrpou

  datatype IntField = Mcc | OriginalMcc | AccountId

  datatype Condition =
    | IContains(field: TextField, needle: Text)
    | EqualsText(field: TextField, text: string)
    | EqualsCurrency(code: string)
    | InInt(intField: IntField, ints: seq<int>)
    | InStr(codes: seq<string>)
    | AmountSign(debit: bool)
    | AmountRange(min: Option<int>, max: Option<int>)
    | HoldIs(value: bool)

  /** A predicate is a non-empty AND-list. */
  type Predicate = p: seq<Condition> | |p| > 0 witness [HoldIs(true)]

  datatype Rule = Rule(id: int, priority: int, category: int, conditions: Predicate, description: Option<string>)

  datatype CompiledRule = CompiledRule(priority: int, id: int, category: int, conditions: Predicate)

  datatype Verdict = Skip | Categorized(category: Option<int>)

  predicate OccursAt(needle: string, hay: string, i: nat)
    requires i <= |hay| - |needle|
  {
    hay[i..i + |needle|] == needle
  }

  /** The substring test `needle in hay`. */
  predicate Occurs(needle: string, hay: string) {
    exists i | 0 <= i <= |hay| - |needle| :: OccursAt(needle, hay, i)
  }

  predicate Holds(c: Condition, row: RowView) {
    match c
    case IContains(f, needle) => var v := row.GetText(f); v.Some? && Occurs(needle.folded, v.value.folded)
    case EqualsText(f, text) => var v := row.GetText(f); v.Some? && v.value.exact == text
    case EqualsCurrency(code) => row.currency.Some? && row.currency.value == code
    case InInt(f, ints) => var v := row.GetInt(f); v.Some? && v.value in ints
    case InStr(codes) => row.currency.Some? && row.currency.value in codes
    case AmountSign(debit) => if debit then row.amount < 0 else row.amount > 0
    case AmountRange(min, max) =>
      (min.None? || row.amount >= min.value) && (max.None? || row.amount <= max.value)
    case HoldIs(value) => row.hold == value
  }

  predicate Matches(p: seq<Condition>, row: RowView) {
    forall c | c in p :: Holds(c, row)
  }

  function CompileRule(r: Rule): CompiledRule {
    CompiledRule(r.priority, r.id, r.category, r.conditions)
  }

  function Compile(rules: seq<Rule>): (rs: seq<CompiledRule>)
    ensures |rs| == |rules|
    ensures forall i | 0 <= i < |rules| :: rs[i] == CompileRule(rules[i])
  {
    seq(|rules|, i requires 0 <= i < |rules| => CompileRule(rules[i]))
  }

  /** The category of the first rule that matches, or none. */
  function FirstMatch(row: RowView, rules: seq<CompiledRule>): Option<int>
    decreases |rules|
  {
    if rules == [] then None
    else if Matches(rules[0].conditions, row) then Some(rules[0].category)
    else FirstMatch(row, rules[1..])
  }

  function CategorizeRow(row: RowView, rules: seq<CompiledRule>): Verdict {
    if row.locked then Skip else Categorized(FirstMatch(row, rules))
  }

  /** Where the first match is: |rules| when there is none. */
  function FirstIndex(row: RowView, rules: seq<CompiledRule>): (i: nat)
    ensures i <= |rules|
    ensures i < |rules| ==> Matches(rules[i].conditions, row)
    ensures forall j | 0 <= j < i :: !Matches(rules[j].conditions, row)
    decreases |rules|
  {
    if rules == [] then 0
    else if Matches(rules[0].conditions, row) then 0
    else 1 + FirstIndex(row, rules[1..])
  }

  /** First match wins: the verdict is decided by the matching rule of least position, and is
      "no category" exactly when no rule matches. */
  lemma {:induction false} FirstMatchWins(row: RowView, rules: seq<CompiledRule>)
    ensures var i := FirstIndex(row, rules);
            FirstMatch(row, rules) == if i == |rules| then None else Some(rules[i].category)
    decreases |rules|
  {
    if rules != [] && !Matches(rules[0].conditions, row) {
      FirstMatchWins(row, rules[1..]);
    }
  }

  predicate Fulfils(row: RowView, p: seq<Condition>) {
    forall n | 0 <= n < |p| :: Holds(p[n], row)
  }

  predicate Fails(row: RowView, p: seq<Condition>) {
    exists n | 0 <= n < |p| :: !Holds(p[n], row)
  }

  lemma MatchesAll(p: seq<Condition>, row: RowView)
    ensures Matches(p, row) <==> Fulfils(row, p)
    ensures !Matches(p, row) <==> Fails(row, p)
  {
    assert forall n | 0 <= n < |p| :: p[n] in p;
  }

  /** Some rule of category k has all its conditions fulfilled, and every rule before it has one that
      is not. */
  predicate Decides(row: RowView, l: seq<Rule>, k: int) {
    exists i | 0 <= i < |l| ::
      && l[i].category == k && Fulfils(row, l[i].conditions)
      && forall j | 0 <= j < i :: Fails(row, l[j].conditions)
  }

  /** The verdict spelled out: it is the category the rules decide on, and none exactly when every rule
      has a condition that is not fulfilled. */
  lemma FirstMatchExactly(row: RowView, l: seq<Rule>, k: int)
    ensures FirstMatch(row, Compile(l)) == Some(k) <==> Decides(row, l, k)
    ensures FirstMatch(row, Compile(l)) == None <==> forall j | 0 <= j < |l| :: Fails(row, l[j].conditions)
  {
    var rs := Compile(l);
    FirstMatchWins(row, rs);
    forall j | 0 <= j < |l|
      ensures Matches(rs[j].conditions, row) <==> Fulfils(row, l[j].conditions)
      ensures !Matches(rs[j].conditions, row) <==> Fails(row, l[j].conditions)
    {
      MatchesAll(l[j].conditions, row);
    }
    var first := FirstIndex(row, rs);
    assert first < |l| ==> Fulfils(row, l[first].conditions);
    assert forall j | 0 <= j < first :: !Matches(rs[j].conditions, row) && Fails(row, l[j].conditions);
    if i :| 0 <= i < |l| && l[i].category == k && Fulfils(row, l[i].conditions)
            && forall j | 0 <= j < i :: Fails(row, l[j].conditions) {
      assert Matches(rs[i].conditions, row);
    }
  }

  /** The batch entry point: the verdict of every row that is not locked, in input order. */
  function Verdicts(rows: seq<RowView>, rules: seq<CompiledRule>): seq<(nat, Option<int>)>
    decreases |rows|
  {
    if rows == [] then []
    else
      var v := CategorizeRow(rows[|rows| - 1], rules);
      Verdicts(rows[..|rows| - 1], rules) + (if v.Skip? then [] else [(rows[|rows| - 1].id, v.category)])
  }

  method CategorizeRows(rows: seq<RowView>, rules: seq<CompiledRule>) returns (out: seq<(nat, Option<int>)>)
    ensures out == Verdicts(rows, rules)
  {
    out := [];
    for i := 0 to |rows|
      invariant out == Verdicts(rows[..i], rules)
    {
      assert rows[..i + 1][..i] == rows[..i];
      var v := CategorizeRow(rows[i], rules);
      if !v.Skip? {
        out := out + [(rows[i].id, v.category)];
      }
    }
    assert rows[..|rows|] == rows;
  }

  /** A pair is in the batch output exactly when it is the verdict of an unlocked input row. */
  lemma {:induction false} VerdictsAreVerdicts(rows: seq<RowView>, rules: seq<CompiledRule>, p: (nat, Option<int>))
    ensures p in Verdicts(rows, rules)
      <==> exists i | 0 <= i < |rows| :: !rows[i].locked && p == (rows[i].id, FirstMatch(rows[i], rules))
    decreases |rows|
  {
    if rows != [] {
      var k := |rows| - 1;
      VerdictsAreVerdicts(rows[..k], rules, p);
      if i :| 0 <= i < |rows| && !rows[i].locked && p == (rows[i].id, FirstMatch(rows[i], rules)) {
        if i < k {
          assert rows[..k][i] == rows[i];
        }
      }
      if j :| 0 <= j < k && !rows[..k][j].locked && p == (rows[..k][j].id, FirstMatch(rows[..k][j], rules)) {
        assert rows[j] == rows[..k][j];
      }
    }
  }

  // ----- evaluation reads neither the category, nor the id, nor the rule's own id and priority -----

  predicate SameInputs(a: RowView, b: RowView) {
    a == b.(id := a.id, category := a.category)
  }

  predicate SameMeaning(rs: seq<CompiledRule>, ss: seq<CompiledRule>) {
    |rs| == |ss|
    && forall i | 0 <= i < |rs| :: rs[i].category == ss[i].category && rs[i].conditions == ss[i].conditions
  }

  lemma HoldsSame(c: Condition, a: RowView, b: RowView)
    requires SameInputs(a, b)
    ensures Holds(c, a) == Holds(c, b)
  {
  }

  /** Evaluation depends on nothing but the amount, the hold flag, the payload and the frozen
      columns of the row, and the categories and predicates of the rules in their order. */
  lemma {:induction false} MatchDependsOnInputs(a: RowView, b: RowView, rs: seq<CompiledRule>, ss: seq<CompiledRule>)
    requires SameInputs(a, b) && SameMeaning(rs, ss)
    ensures FirstMatch(a, rs) == FirstMatch(b, ss)
    decreases |rs|
  {
    if rs != [] {
      forall c | c in rs[0].conditions ensures Holds(c, a) == Holds(c, b) {
        HoldsSame(c, a, b);
      }
      MatchDependsOnInputs(a, b, rs[1..], ss[1..]);
    }
  }

  // ----- and conditions tell rows apart by exactly the fields they can read -----

  predicate SameFields(a: RowView, b: RowView) {
    && a.amount == b.amount && a.hold == b.hold && a.currency == b.currency
    && (forall f: TextField :: a.GetText(f) == b.GetText(f))
    && (forall f: IntField :: a.GetInt(f) == b.GetInt(f))
  }

  lemma OccursWhole(s: string)
    ensures Occurs(s, s)
  {
    assert OccursAt(s, s, 0);
  }

  lemma OccursBothWays(s: string, t: string)
    requires Occurs(s, t) && Occurs(t, s)
    ensures s == t
  {
    var i :| 0 <= i <= |t| - |s| && OccursAt(s, t, i);
    var j :| 0 <= j <= |s| - |t| && OccursAt(t, s, j);
    assert t[0..|s|] == t;
  }

  lemma TextTold(f: TextField, a: RowView, b: RowView)
    requires forall c: Condition :: Holds(c, a) == Holds(c, b)
    ensures a.GetText(f) == b.GetText(f)
  {
    var v, w := a.GetText(f), b.GetText(f);
    if v.Some? {
      assert Holds(EqualsText(f, v.value.exact), a) == Holds(EqualsText(f, v.value.exact), b);
      OccursWhole(v.value.folded);
      assert Holds(IContains(f, v.value), a) == Holds(IContains(f, v.value), b);
    }
    if w.Some? {
      assert Holds(EqualsText(f, w.value.exact), a) == Holds(EqualsText(f, w.value.exact), b);
      OccursWhole(w.value.folded);
      assert Holds(IContains(f, w.value), a) == Holds(IContains(f, w.value), b);
    }
    if v.Some? && w.Some? {
      OccursBothWays(v.value.folded, w.value.folded);
    }
  }

  lemma IntTold(f: IntField, a: RowView, b: RowView)
    requires forall c: Condition :: Holds(c, a) == Holds(c, b)
    ensures a.GetInt(f) == b.GetInt(f)
  {
    var v, w := a.GetInt(f), b.GetInt(f);
    if v.Some? {
      assert Holds(InInt(f, [v.value]), a) == Holds(InInt(f, [v.value]), b);
    }
    if w.Some? {
      assert Holds(InInt(f, [w.value]), a) == Holds(InInt(f, [w.value]), b);
    }
  }

  lemma CurrencyTold(a: RowView, b: RowView)
    requires forall c: Condition :: Holds(c, a) == Holds(c, b)
    ensures a.currency == b.currency
  {
    if a.currency.Some? {
      assert Holds(EqualsCurrency(a.currency.value), a) == Holds(EqualsCurrency(a.currency.value), b);
    }
    if b.currency.Some? {
      assert Holds(EqualsCurrency(b.currency.value), a) == Holds(EqualsCurrency(b.currency.value), b);
    }
  }

  /** No condition tells two rows apart if and only if they agree on the amount, the hold flag, the
      currency, the four text fields and the three integer fields. */
  lemma ConditionsTellFields(a: RowView, b: RowView)
    ensures (forall c: Condition :: Holds(c, a) == Holds(c, b)) <==> SameFields(a, b)
  {
    if forall c: Condition :: Holds(c, a) == Holds(c, b) {
      var exactly := AmountRange(Some(a.amount), Some(a.amount));
      assert Holds(exactly, a) == Holds(exactly, b);
      assert Holds(HoldIs(a.hold), a) == Holds(HoldIs(a.hold), b);
      CurrencyTold(a, b);
      forall f: TextField ensures a.GetText(f) == b.GetText(f) {
        TextTold(f, a, b);
      }
      forall f: IntField ensures a.GetInt(f) == b.GetInt(f) {
        IntTold(f, a, b);
      }
    }
  }

  /** The conditions of a predicate may be permuted freely. */
  lemma ConditionsPermute(p: Predicate, q: Predicate, row: RowView)
    requires multiset(p) == multiset(q)
    ensures Matches(p, row) == Matches(q, row)
  {
    assert forall c :: c in p <==> c in multiset(p);
    assert forall c :: c in q <==> c in multiset(q);
  }

  // ----- locality of rule edits -----

  function Without(rules: seq<CompiledRule>, id: int): seq<CompiledRule>
    decreases |rules|
  {
    if rules == [] then []
    else (if rules[0].id == id then [] else [rules[0]]) + Without(rules[1..], id)
  }

  predicate MatchedBy(row: RowView, rules: seq<CompiledRule>, id: int) {
    var i := FirstIndex(row, rules);
    i < |rules| && rules[i].id == id
  }

  lemma {:induction false} WithoutIrrelevant(row: RowView, rules: seq<CompiledRule>, id: int)
    requires !MatchedBy(row, rules, id)
    ensures FirstMatch(row, rules) == FirstMatch(row, Without(rules, id))
    decreases |rules|
  {
    if rules != [] && !Matches(rules[0].conditions, row) {
      WithoutIrrelevant(row, rules[1..], id);
      if rules[0].id != id {
        assert Without(rules, id)[1..] == Without(rules[1..], id);
      } else {
        assert Without(rules, id) == Without(rules[1..], id);
      }
    } else if rules != [] {
      assert rules[0].id != id;
    }
  }

  /** Two rule lists that agree once rule `id` is taken out of both (whether it was inserted,
      deleted, rewritten or moved to another priority) give a row different verdicts only if
      the row is unlocked and its first match is that rule before or after the edit. */
  lemma EditIsLocal(row: RowView, before: seq<CompiledRule>, after: seq<CompiledRule>, id: int)
    requires Without(before, id) == Without(after, id)
    requires CategorizeRow(row, before) != CategorizeRow(row, after)
    ensures !row.locked
    ensures MatchedBy(row, before, id) || MatchedBy(row, after, id)
  {
    if !MatchedBy(row, before, id) && !MatchedBy(row, after, id) {
      WithoutIrrelevant(row, before, id);
      WithoutIrrelevant(row, after, id);
    }
  }
}
