/** Running the rules over history: a preview issues a staleness token, a commit recomputes it
    under row locks and writes only on a match. Also the categorize-on-import step. */
module RulesHistory {
  import opened Common
  import opened Categorizer
  import opened Transactions
  import opened RuleTable
  import opened Accounts

  /** The sha256 digest, represented by the value it digests: the ordered rule signature and the
      sorted (id, category) pairs. The ids are distinct, so the sorted list is a finite map. */
  datatype Token = Token(rules: seq<(int, int, Predicate)>, rows: map<nat, Option<int>>)

  datatype Change = Change(id: nat, before: Option<int>, after: Option<int>)

  datatype Computation = Computation(token: Token, diff: seq<Change>, skippedLocked: nat)

  datatype Preview = Preview(changed: nat, overwritten: nat, skippedLocked: nat, changes: seq<Change>, token: Token)

  function RuleSignature(rs: seq<CompiledRule>): (sig: seq<(int, int, Predicate)>)
    ensures |sig| == |rs|
    ensures forall i | 0 <= i < |rs| :: sig[i] == (rs[i].priority, rs[i].category, rs[i].conditions)
  {
    seq(|rs|, i requires 0 <= i < |rs| => (rs[i].priority, rs[i].category, rs[i].conditions))
  }

  function RowState(rows: seq<RowView>): map<nat, Option<int>>
    decreases |rows|
  {
    if rows == [] then map[]
    else RowState(rows[..|rows| - 1])[rows[|rows| - 1].id := rows[|rows| - 1].category]
  }

  function ComputeToken(rs: seq<CompiledRule>, rows: seq<RowView>): Token {
    Token(RuleSignature(rs), RowState(rows))
  }

  // ----- what a sweep is, in terms of the tables -----

  ghost function CategoryState(txs: seq<Tx>, account: nat): map<nat, Option<int>> {
    map i | i in SweepIds(txs, account) :: txs[i].category
  }

  ghost function TokenOf(l: seq<Rule>, txs: seq<Tx>, account: nat): Token {
    Token(RuleSignature(Compile(l)), CategoryState(txs, account))
  }

  function Verdict(txs: seq<Tx>, l: seq<Rule>, i: nat): Option<int>
    requires i < |txs|
  {
    FirstMatch(View(txs, i), Compile(l))
  }

  ghost predicate IsChange(c: Change, l: seq<Rule>, txs: seq<Tx>, account: nat) {
    c.id in SweepIds(txs, account)
    && c.before == txs[c.id].category && c.after == Verdict(txs, l, c.id) && c.before != c.after
  }

  /** The diff: every row that would change, once, in no promised order. */
  ghost predicate IsDiff(diff: seq<Change>, l: seq<Rule>, txs: seq<Tx>, account: nat) {
    (forall c :: c in diff <==> IsChange(c, l, txs, account))
    && forall i, j | 0 <= i < j < |diff| :: diff[i].id != diff[j].id
  }

  lemma {:induction false} RowStateDomain(rows: seq<RowView>, i: nat)
    ensures i in RowState(rows) <==> exists k :: 0 <= k < |rows| && rows[k].id == i
    decreases |rows|
  {
    if rows != [] {
      var n := |rows| - 1;
      RowStateDomain(rows[..n], i);
      assert forall k | 0 <= k < n :: rows[..n][k] == rows[k];
      if k :| 0 <= k < |rows| && rows[k].id == i && k < n {
        assert rows[..n][k].id == i;
      }
    }
  }

  lemma {:induction false} RowStateValue(rows: seq<RowView>, k: nat)
    requires k < |rows| && forall k, m | 0 <= k < m < |rows| :: rows[k].id != rows[m].id
    ensures rows[k].id in RowState(rows) && RowState(rows)[rows[k].id] == rows[k].category
    decreases |rows|
  {
    var n := |rows| - 1;
    if k < n {
      RowStateValue(rows[..n], k);
    }
  }

  /** The token does not depend on the order in which the rows were read. */
  lemma TokenOrderFree(rs: seq<CompiledRule>, rows: seq<RowView>, txs: seq<Tx>, account: nat)
    requires Lists(rows, txs, SweepIds(txs, account))
    ensures ComputeToken(rs, rows).rows == CategoryState(txs, account)
  {
    var m := RowState(rows);
    forall i: nat ensures i in m <==> i in SweepIds(txs, account) {
      RowStateDomain(rows, i);
    }
    forall i | i in m ensures m[i] == txs[i].category {
      RowStateDomain(rows, i);
      var k :| 0 <= k < |rows| && rows[k].id == i;
      RowStateValue(rows, k);
    }
  }

  // ----- commit soundness -----

  /** Equal tokens: the same rules in the same order up to their ids, the same unlocked live
      rows, and the same category on each of them. */
  lemma TokenIdentifies(l: seq<Rule>, txs: seq<Tx>, m: seq<Rule>, us: seq<Tx>, account: nat)
    requires TokenOf(l, txs, account) == TokenOf(m, us, account)
    ensures |l| == |m|
    ensures forall i | 0 <= i < |l| :: l[i].priority == m[i].priority && l[i].category == m[i].category
                                       && l[i].conditions == m[i].conditions
    ensures SweepIds(txs, account) == SweepIds(us, account)
    ensures forall i | i in SweepIds(txs, account) :: txs[i].category == us[i].category
  {
    var a, b := RuleSignature(Compile(l)), RuleSignature(Compile(m));
    assert |a| == |b|;
    forall i | 0 <= i < |l|
      ensures l[i].priority == m[i].priority && l[i].category == m[i].category && l[i].conditions == m[i].conditions
    {
      assert a[i] == b[i];
    }
    assert SweepIds(txs, account) == CategoryState(txs, account).Keys;
    assert SweepIds(us, account) == CategoryState(us, account).Keys;
    forall i | i in SweepIds(txs, account) ensures txs[i].category == us[i].category {
      assert CategoryState(txs, account)[i] == CategoryState(us, account)[i];
    }
  }

  // ----- when an accepted commit writes what was previewed -----

  ghost predicate SameDiff(l: seq<Rule>, txs: seq<Tx>, m: seq<Rule>, us: seq<Tx>, account: nat) {
    forall c :: IsChange(c, l, txs, account) <==> IsChange(c, m, us, account)
  }

  /** A token issued in state (l, txs) and accepted in state (m, us): what is written is what was
      previewed exactly when every swept row has kept its verdict. */
  lemma CommitWritesPreviewExactly(l: seq<Rule>, txs: seq<Tx>, m: seq<Rule>, us: seq<Tx>, account: nat)
    requires TokenOf(l, txs, account) == TokenOf(m, us, account)
    ensures SameDiff(l, txs, m, us, account) <==>
            forall i | i in SweepIds(txs, account) :: i < |us| && Verdict(txs, l, i) == Verdict(us, m, i)
  {
    TokenIdentifies(l, txs, m, us, account);
    if SameDiff(l, txs, m, us, account) {
      forall i | i in SweepIds(txs, account)
        ensures i < |us| && Verdict(txs, l, i) == Verdict(us, m, i)
      {
        assert i in SweepIds(us, account);
        var c := Change(i, txs[i].category, Verdict(txs, l, i));
        var d := Change(i, us[i].category, Verdict(us, m, i));
        assert IsChange(c, l, txs, account) <==> IsChange(c, m, us, account);
        assert IsChange(d, l, txs, account) <==> IsChange(d, m, us, account);
      }
    }
  }

  /** Equal in what an upsert may move and a condition may read: the amount, the hold flag, and of the
      payload the comment, the two counterparty fields and the original merchant code. */
  predicate SameReadable(t: Tx, u: Tx) {
    && t.amount == u.amount && t.hold == u.hold && t.payload.originalMcc == u.payload.originalMcc
    && (forall key | key in {"comment", "counterIban", "counterEdrpou"} ::
          (key in t.payload.texts <==> key in u.payload.texts)
          && (key in t.payload.texts ==> t.payload.texts[key] == u.payload.texts[key]))
  }

  lemma ReadableIsFields(txs: seq<Tx>, us: seq<Tx>, i: nat)
    requires i < |txs| && i < |us| && SameIdentity(txs[i], us[i])
    ensures SameFields(View(txs, i), View(us, i)) <==> SameReadable(txs[i], us[i])
  {
    var a, b := View(txs, i), View(us, i);
    if SameFields(a, b) {
      assert a.GetText(Comment) == b.GetText(Comment);
      assert a.GetText(CounterIban) == b.GetText(CounterIban);
      assert a.GetText(CounterEdrpou) == b.GetText(CounterEdrpou);
      assert a.GetInt(OriginalMcc) == b.GetInt(OriginalMcc);
    }
  }

  lemma {:induction false} SameFieldsSameMatch(a: RowView, b: RowView, rs: seq<CompiledRule>, ss: seq<CompiledRule>)
    requires SameFields(a, b) && SameMeaning(rs, ss)
    ensures FirstMatch(a, rs) == FirstMatch(b, ss)
    decreases |rs|
  {
    if rs != [] {
      ConditionsTellFields(a, b);
      SameFieldsSameMatch(a, b, rs[1..], ss[1..]);
    }
  }

  /** The verdict of the one-condition rule is the condition. */
  lemma OneCondition(c: Condition, txs: seq<Tx>, i: nat)
    requires i < |txs|
    ensures Verdict(txs, [Rule(1, 1, 1, [c], None)], i) == if Holds(c, View(txs, i)) then Some(1) else None
  {
    var rs := Compile([Rule(1, 1, 1, [c], None)]);
    assert rs[0].conditions == [c];
    assert Matches([c], View(txs, i)) <==> Holds(c, View(txs, i)) by {
      assert c in [c];
    }
    assert FirstMatch(View(txs, i), rs[1..]) == None;
  }

  lemma AgreeingRulesTellNothing(txs: seq<Tx>, us: seq<Tx>, account: nat, i: nat)
    requires CategoryState(txs, account) == CategoryState(us, account) && i in SweepIds(txs, account)
    requires forall l :: SameDiff(l, txs, l, us, account)
    ensures i < |us| && SameFields(View(txs, i), View(us, i))
  {
    SameState(txs, us, account);
    forall c: Condition ensures Holds(c, View(txs, i)) == Holds(c, View(us, i)) {
      var l := [Rule(1, 1, 1, [c], None)];
      assert SameDiff(l, txs, l, us, account);
      CommitWritesPreviewExactly(l, txs, l, us, account);
      OneCondition(c, txs, i);
      OneCondition(c, us, i);
    }
    ConditionsTellFields(View(txs, i), View(us, i));
  }

  lemma SameState(txs: seq<Tx>, us: seq<Tx>, account: nat)
    requires CategoryState(txs, account) == CategoryState(us, account)
    ensures SweepIds(txs, account) == SweepIds(us, account)
    ensures forall i | i in SweepIds(txs, account) :: i < |us|
  {
    assert SweepIds(txs, account) == CategoryState(txs, account).Keys;
    assert SweepIds(us, account) == CategoryState(us, account).Keys;
    assert forall i | i in SweepIds(us, account) :: i < |us|;
  }

  /** The exact proviso, whatever the rules are. The transactions move by any upserts and write-backs
      that leave a token issued before them acceptable. Then a commit writes what was previewed, for
      every list of rules, if and only if on every swept row the amount, the hold flag and the
      readable payload fields are those of the preview. */
  lemma ProvisoExactly(txs: seq<Tx>, events: seq<TxEvent>, account: nat)
    requires CategoryState(txs, account) == CategoryState(After(txs, events), account)
    ensures (forall l :: SameDiff(l, txs, l, After(txs, events), account)) <==>
            forall i | i in SweepIds(txs, account) :: SameReadable(txs[i], After(txs, events)[i])
  {
    var us := After(txs, events);
    SameState(txs, us, account);
    forall i | i in SweepIds(txs, account)
      ensures SameFields(View(txs, i), View(us, i)) <==> SameReadable(txs[i], us[i])
    {
      LockSafety(txs, events, i);
      ReadableIsFields(txs, us, i);
    }
    if forall l :: SameDiff(l, txs, l, us, account) {
      forall i | i in SweepIds(txs, account) ensures SameReadable(txs[i], us[i]) {
        AgreeingRulesTellNothing(txs, us, account, i);
      }
    }
    if forall i | i in SweepIds(txs, account) :: SameReadable(txs[i], us[i]) {
      forall l ensures SameDiff(l, txs, l, us, account) {
        ReadableKeepsDiff(l, txs, l, us, account);
      }
    }
  }

  lemma ReadableKeepsDiff(l: seq<Rule>, txs: seq<Tx>, m: seq<Rule>, us: seq<Tx>, account: nat)
    requires TokenOf(l, txs, account) == TokenOf(m, us, account)
    requires forall i | i in SweepIds(txs, account) :: i < |us| && SameFields(View(txs, i), View(us, i))
    ensures SameDiff(l, txs, m, us, account)
  {
    TokenIdentifies(l, txs, m, us, account);
    forall i | i in SweepIds(txs, account) ensures Verdict(txs, l, i) == Verdict(us, m, i) {
      SameFieldsSameMatch(View(txs, i), View(us, i), Compile(l), Compile(m));
    }
    CommitWritesPreviewExactly(l, txs, m, us, account);
  }

  /** In particular: a token accepted after any upserts and write-backs, none of which left a swept
      row with another amount, hold or readable payload field, commits what it previewed. */
  lemma CommitSoundness(l: seq<Rule>, txs: seq<Tx>, events: seq<TxEvent>, m: seq<Rule>, account: nat)
    requires TokenOf(l, txs, account) == TokenOf(m, After(txs, events), account)
    requires forall i | i in SweepIds(txs, account) :: SameReadable(txs[i], After(txs, events)[i])
    ensures SameDiff(l, txs, m, After(txs, events), account)
  {
    var us := After(txs, events);
    forall i | i in SweepIds(txs, account) ensures SameFields(View(txs, i), View(us, i)) {
      LockSafety(txs, events, i);
      ReadableIsFields(txs, us, i);
    }
    ReadableKeepsDiff(l, txs, m, us, account);
  }

  /** The proviso is needed: the token does not cover the amount, so an import between preview
      and commit can make an accepted commit write something other than the previewed diff. */
  lemma AmountSlipsThroughToken(p: Payload, r: Rule)
    requires r.conditions == [AmountSign(true)]
    ensures var item := Item("a", -5, "UAH", 0, p, false, None, None, 0);
            var txs := [NewTx(0, item)];
            var us := Effect(txs, Upserted(Batch(0, [item.(amount := 5)])));
            && TokenOf([r], txs, 0) == TokenOf([r], us, 0)
            && IsChange(Change(0, None, Some(r.category)), [r], txs, 0)
            && !IsChange(Change(0, None, Some(r.category)), [r], us, 0)
  {
    var item := Item("a", -5, "UAH", 0, p, false, None, None, 0);
    var changed := item.(amount := 5);
    var txs := [NewTx(0, item)];
    var us := Effect(txs, Upserted(Batch(0, [changed])));
    FoundAt(txs, 0, "a", 0);
    assert [changed][..0] == [];
    assert UpsertAll(txs, 0, []) == txs;
    assert us == [NewTx(0, changed)];
    assert SweepIds(txs, 0) == {0} && SweepIds(us, 0) == {0};
    assert CategoryState(txs, 0) == CategoryState(us, 0);
    var rs := Compile([r]);
    assert rs[0].conditions == [AmountSign(true)];
    assert Holds(AmountSign(true), View(txs, 0)) && !Holds(AmountSign(true), View(us, 0));
    assert AmountSign(true) in rs[0].conditions;
    assert FirstMatch(View(us, 0), rs[1..]) == None;
  }

  // ----- convergence -----

  lemma SameVerdict(txs: seq<Tx>, us: seq<Tx>, l: seq<Rule>, m: seq<Rule>, i: nat)
    requires i < |txs| && i < |us| && SameIdentity(txs[i], us[i])
    requires txs[i].amount == us[i].amount && txs[i].hold == us[i].hold && txs[i].payload == us[i].payload
    requires SameMeaning(Compile(l), Compile(m))
    ensures Verdict(txs, l, i) == Verdict(us, m, i)
  {
    MatchDependsOnInputs(View(txs, i), View(us, i), Compile(l), Compile(m));
  }

  function Updates(diff: seq<Change>): (us: seq<(nat, Option<int>)>)
    ensures |us| == |diff| && forall i | 0 <= i < |diff| :: us[i] == (diff[i].id, diff[i].after)
  {
    seq(|diff|, i requires 0 <= i < |diff| => (diff[i].id, diff[i].after))
  }

  /** A commit moves every swept row to its verdict and touches nothing else. */
  lemma CommitEffect(diff: seq<Change>, l: seq<Rule>, txs: seq<Tx>, account: nat, i: nat)
    requires IsDiff(diff, l, txs, account) && i < |txs|
    ensures var r := ApplyAll(txs, Updates(diff))[i];
            if i in SweepIds(txs, account) && txs[i].category != Verdict(txs, l, i)
            then r == txs[i].(category := Verdict(txs, l, i), categorySource := Some("rule"))
            else r == txs[i]
  {
    var us := Updates(diff);
    AppliedRow(txs, us, i);
    if i in SweepIds(txs, account) && txs[i].category != Verdict(txs, l, i) {
      var c := Change(i, txs[i].category, Verdict(txs, l, i));
      assert IsChange(c, l, txs, account);
      var k :| 0 <= k < |diff| && diff[k] == c;
      assert us[k].0 == i;
    } else {
      forall k | 0 <= k < |us| ensures us[k].0 != i {
        assert diff[k] in diff && IsChange(diff[k], l, txs, account);
      }
    }
  }

  /** A commit column by column. It leaves alone every row that is another account's, locked or deleted.
      Of every other row it leaves all but the two category columns alone; the category becomes the one
      the rules decide on for the row, or none if they decide on none; and the source becomes "rule"
      exactly where the category moved. */
  lemma CommitColumns(diff: seq<Change>, l: seq<Rule>, txs: seq<Tx>, account: nat, i: nat)
    requires IsDiff(diff, l, txs, account) && i < |txs|
    ensures var t, r := txs[i], ApplyAll(txs, Updates(diff))[i];
            && (t.account != account || t.locked || t.deleted ==> r == t)
            && (t.account == account && !t.locked && !t.deleted ==>
                  && r == t.(category := r.category, categorySource := r.categorySource)
                  && (forall k :: r.category == Some(k) <==> Decides(View(txs, i), l, k))
                  && r.categorySource == if r.category != t.category then Some("rule") else t.categorySource)
  {
    CommitEffect(diff, l, txs, account, i);
    forall k ensures Verdict(txs, l, i) == Some(k) <==> Decides(View(txs, i), l, k) {
      FirstMatchExactly(View(txs, i), l, k);
    }
  }

  /** Every live row of an account is either swept or counted as skipped, and no row is both. */
  lemma SweptOrSkipped(txs: seq<Tx>, account: nat)
    ensures |SweepIds(txs, account)| + |LockedIds(txs, account)|
            == |set i: nat | i < |txs| && txs[i].account == account && !txs[i].deleted|
  {
    var live := set i: nat | i < |txs| && txs[i].account == account && !txs[i].deleted;
    assert SweepIds(txs, account) !! LockedIds(txs, account);
    assert live == SweepIds(txs, account) + LockedIds(txs, account);
  }

  lemma CommitKeepsSelection(diff: seq<Change>, l: seq<Rule>, txs: seq<Tx>, account: nat)
    requires IsDiff(diff, l, txs, account)
    ensures SweepIds(ApplyAll(txs, Updates(diff)), account) == SweepIds(txs, account)
    ensures forall i | i in SweepIds(txs, account) ::
              Verdict(ApplyAll(txs, Updates(diff)), l, i) == Verdict(txs, l, i)
  {
    var us := ApplyAll(txs, Updates(diff));
    forall i: nat | i < |txs| ensures Sweepable(txs[i], account) == Sweepable(us[i], account) {
      CommitEffect(diff, l, txs, account, i);
    }
    forall i | i in SweepIds(txs, account) ensures Verdict(us, l, i) == Verdict(txs, l, i) {
      CommitEffect(diff, l, txs, account, i);
      SameVerdict(us, txs, l, l, i);
    }
  }

  /** After an accepted commit every swept row carries its verdict, an immediate new preview is
      empty, and replaying the same token is rejected exactly when something was written. */
  lemma SweepConverges(diff: seq<Change>, l: seq<Rule>, txs: seq<Tx>, account: nat)
    requires IsDiff(diff, l, txs, account)
    ensures var us := ApplyAll(txs, Updates(diff));
            && (forall i | i in SweepIds(us, account) :: us[i].category == Verdict(us, l, i))
            && IsDiff([], l, us, account)
            && (TokenOf(l, us, account) != TokenOf(l, txs, account) <==> diff != [])
  {
    var us := ApplyAll(txs, Updates(diff));
    CommitKeepsSelection(diff, l, txs, account);
    forall i | i in SweepIds(us, account) ensures us[i].category == Verdict(us, l, i) {
      CommitEffect(diff, l, txs, account, i);
    }
    if diff == [] {
      assert us == txs;
    } else {
      var c := diff[0];
      assert c in diff && IsChange(c, l, txs, account);
      CommitEffect(diff, l, txs, account, c.id);
      assert CategoryState(us, account)[c.id] != CategoryState(txs, account)[c.id];
    }
  }

  /** From a converged state, editing one rule leaves a diff made only of rows whose first match
      was, or now is, that rule. */
  lemma NextSweepIsLocal(t: Table, u: Table, id: int, l: seq<Rule>, m: seq<Rule>, txs: seq<Tx>, account: nat, c: Change)
    requires t - {id} == u - {id} && IsListing(l, t) && IsListing(m, u)
    requires IsDiff([], l, txs, account)
    requires IsChange(c, m, txs, account)
    ensures MatchedBy(View(txs, c.id), Compile(l), id) || MatchedBy(View(txs, c.id), Compile(m), id)
  {
    var now := Change(c.id, txs[c.id].category, Verdict(txs, l, c.id));
    assert now !in [];
    assert !IsChange(now, l, txs, account);
    EditIsLocalInTable(t, u, id, l, m, View(txs, c.id));
  }

  // ----- categorize on import -----

  function VerdictOf(r: RowView, rs: seq<CompiledRule>): (nat, Option<int>) {
    (r.id, FirstMatch(r, rs))
  }

  lemma {:induction false} UnlockedVerdicts(rows: seq<RowView>, rs: seq<CompiledRule>)
    requires forall k | 0 <= k < |rows| :: !rows[k].locked
    ensures |Verdicts(rows, rs)| == |rows|
    ensures forall k | 0 <= k < |rows| :: Verdicts(rows, rs)[k] == VerdictOf(rows[k], rs)
    decreases |rows|
  {
    if rows != [] {
      UnlockedVerdicts(rows[..|rows| - 1], rs);
    }
  }

  lemma ListedVerdicts(rows: seq<RowView>, txs: seq<Tx>, ids: set<nat>, l: seq<Rule>)
    requires Lists(rows, txs, ids) && forall i | i in ids :: i < |txs| && !txs[i].locked
    ensures var us := Verdicts(rows, Compile(l));
            && |us| == |rows| && DistinctTargets(us)
            && (forall k | 0 <= k < |rows| :: us[k] == (rows[k].id, Verdict(txs, l, rows[k].id)))
            && (forall i | i in ids :: exists k | 0 <= k < |us| :: us[k] == (i, Verdict(txs, l, i)))
  {
    var rs := Compile(l);
    var us := Verdicts(rows, rs);
    UnlockedVerdicts(rows, rs);
    assert forall k | 0 <= k < |rows| :: us[k] == VerdictOf(rows[k], rs);
    forall i | i in ids ensures exists k | 0 <= k < |us| :: us[k] == (i, Verdict(txs, l, i)) {
      var k :| 0 <= k < |rows| && rows[k].id == i;
      assert us[k] == (i, Verdict(txs, l, i));
    }
  }

  /** Rows just touched by an import carry their verdict, so no preview under the same rules
      lists them. */
  lemma TouchedRowsAreSettled(txs: seq<Tx>, rows: seq<RowView>, account: nat, sourceIds: seq<string>, l: seq<Rule>,
                              i: nat)
    requires Lists(rows, txs, TouchedIds(txs, account, sourceIds))
    requires i in TouchedIds(ApplyAll(txs, Verdicts(rows, Compile(l))), account, sourceIds)
    ensures var us := ApplyAll(txs, Verdicts(rows, Compile(l)));
            && us[i].category == Verdict(us, l, i)
            && forall c: Change | c.id == i :: !IsChange(c, l, us, account)
  {
    var updates := Verdicts(rows, Compile(l));
    var us := ApplyAll(txs, updates);
    ListedVerdicts(rows, txs, TouchedIds(txs, account, sourceIds), l);
    ApplyKeeps(txs, updates, i);
    assert i in TouchedIds(txs, account, sourceIds);
    var k :| 0 <= k < |updates| && updates[k] == (i, Verdict(txs, l, i));
    AppliedRow(txs, updates, i);
    SameVerdict(us, txs, l, l, i);
  }

  /** The categorization of an import column by column: it stamps exactly the account's live unlocked
      rows whose source id was delivered, each with the category the rules decide on for it. */
  lemma TouchedColumns(txs: seq<Tx>, rows: seq<RowView>, account: nat, sourceIds: seq<string>, l: seq<Rule>, i: nat)
    requires Lists(rows, txs, TouchedIds(txs, account, sourceIds)) && i < |txs|
    ensures var t, r := txs[i], ApplyAll(txs, Verdicts(rows, Compile(l)))[i];
            if t.account == account && !t.locked && !t.deleted && t.sourceId in sourceIds then
              && r == t.(category := r.category, categorySource := Some("rule"))
              && forall k :: r.category == Some(k) <==> Decides(View(txs, i), l, k)
            else r == t
  {
    var updates := Verdicts(rows, Compile(l));
    var ids := TouchedIds(txs, account, sourceIds);
    ListedVerdicts(rows, txs, ids, l);
    AppliedRow(txs, updates, i);
    if i in ids {
      var k :| 0 <= k < |updates| && updates[k] == (i, Verdict(txs, l, i));
      forall k ensures Verdict(txs, l, i) == Some(k) <==> Decides(View(txs, i), l, k) {
        FirstMatchExactly(View(txs, i), l, k);
      }
    } else {
      forall k | 0 <= k < |updates| ensures updates[k].0 != i {
        assert rows[k].id in ids;
      }
    }
  }

  // ----- the services -----

  class RulesHistoryService {
    const ruleRepo: RuleRepo
    const txRepo: TransactionRepo

    constructor (ruleRepo: RuleRepo, txRepo: TransactionRepo)
      ensures this.ruleRepo == ruleRepo && this.txRepo == txRepo
    {
      this.ruleRepo, this.txRepo := ruleRepo, txRepo;
    }

    /** The one computation behind preview and commit. `order` is the evaluation order of the
        rules at this moment. */
    method ComputeInSession(account: nat) returns (comp: Computation, ghost order: seq<Rule>)
      requires Valid(ruleRepo.rules)
      ensures IsListing(order, ruleRepo.rules)
      ensures comp.token == TokenOf(order, txRepo.rows, account)
      ensures IsDiff(comp.diff, order, txRepo.rows, account)
      ensures comp.skippedLocked == |LockedIds(txRepo.rows, account)|
    {
      var rules := ruleRepo.ListActiveOrdered();
      order := rules;
      var rows := txRepo.FetchAllForCategorize(account);
      var locked := txRepo.CountLocked(account);
      var compiled := Compile(rules);
      var updates := CategorizeRows(rows, compiled);
      ghost var txs := txRepo.rows;
      ghost var ids := SweepIds(txs, account);
      ListedVerdicts(rows, txs, ids, rules);
      var current := RowState(rows);
      TokenOrderFree(compiled, rows, txs, account);
      var diff: seq<Change> := [];
      for k := 0 to |updates|
        invariant IsPartialDiff(diff, updates[..k], order, txs, account)
      {
        var (rowId, newCategory) := updates[k];
        ExtendDiff(diff, updates, k, order, txs, account);
        if newCategory != current[rowId] {
          diff := diff + [Change(rowId, current[rowId], newCategory)];
        }
      }
      assert updates[..|updates|] == updates;
      WholeDiff(diff, updates, order, txs, account);
      comp := Computation(ComputeToken(compiled, rows), diff, locked);
    }

    method CountOverwritten(diff: seq<Change>) returns (n: nat)
      ensures n == |set k | 0 <= k < |diff| && diff[k].before.Some?|
    {
      n := 0;
      ghost var counted: set<int> := {};
      for k := 0 to |diff|
        invariant counted == set j | 0 <= j < k && j < |diff| && diff[j].before.Some?
        invariant n == |counted|
      {
        if diff[k].before.Some? {
          counted := counted + {k};
          n := n + 1;
        }
      }
      assert counted == set j | 0 <= j < |diff| && diff[j].before.Some?;
    }

    /** Read-only: every change with its counts, and the token a commit must echo. */
    method RunPreview(account: nat) returns (p: Preview, ghost order: seq<Rule>)
      requires Valid(ruleRepo.rules)
      ensures IsListing(order, ruleRepo.rules)
      ensures p.token == TokenOf(order, txRepo.rows, account)
      ensures IsDiff(p.changes, order, txRepo.rows, account)
      ensures p.changed == |p.changes|
      ensures p.overwritten == |set k | 0 <= k < |p.changes| && p.changes[k].before.Some?|
      ensures p.skippedLocked == |LockedIds(txRepo.rows, account)|
    {
      var comp, o := ComputeInSession(account);
      order := o;
      var overwritten := CountOverwritten(comp.diff);
      p := Preview(|comp.diff|, overwritten, comp.skippedLocked, comp.diff, comp.token);
    }

    /** Accepts a token exactly when it is the token of the current state, and then writes exactly
        the current diff; a rejected commit changes nothing. */
    method Commit(account: nat, token: Token)
      returns (applied: Result<nat, string>, ghost order: seq<Rule>, ghost diff: seq<Change>)
      requires Valid(ruleRepo.rules)
      modifies txRepo
      ensures IsListing(order, ruleRepo.rules)
      ensures IsDiff(diff, order, old(txRepo.rows), account)
      ensures applied.Success? <==> token == TokenOf(order, old(txRepo.rows), account)
      ensures applied.Success? ==> applied.value == |diff| && txRepo.rows == ApplyAll(old(txRepo.rows), Updates(diff))
      ensures applied.Failure? ==> txRepo.rows == old(txRepo.rows)
    {
      var comp, o := ComputeInSession(account);
      order, diff := o, comp.diff;
      if comp.token != token {
        return Failure("Rules or data changed since preview; re-preview before committing."), order, diff;
      }
      txRepo.ApplyCategories(Updates(comp.diff));
      applied := Success(|comp.diff|);
    }
  }

  /** The changes among a prefix of the verdicts. */
  ghost predicate IsPartialDiff(diff: seq<Change>, updates: seq<(nat, Option<int>)>, l: seq<Rule>, txs: seq<Tx>,
                                account: nat)
  {
    (forall c :: c in diff <==> IsChange(c, l, txs, account) && (c.id, c.after) in updates)
    && forall i, j | 0 <= i < j < |diff| :: diff[i].id != diff[j].id
  }

  lemma ExtendDiff(diff: seq<Change>, updates: seq<(nat, Option<int>)>, k: nat, l: seq<Rule>, txs: seq<Tx>,
                   account: nat)
    requires k < |updates| && DistinctTargets(updates)
    requires updates[k].0 in SweepIds(txs, account) && updates[k].1 == Verdict(txs, l, updates[k].0)
    requires IsPartialDiff(diff, updates[..k], l, txs, account)
    ensures var (i, v) := updates[k];
            IsPartialDiff(if v != txs[i].category then diff + [Change(i, txs[i].category, v)] else diff,
                          updates[..k + 1], l, txs, account)
  {
    var (i, v) := updates[k];
    assert updates[..k + 1] == updates[..k] + [updates[k]];
    var c := Change(i, txs[i].category, v);
    forall j | 0 <= j < |diff| ensures diff[j].id != i {
      assert diff[j] in diff;
      var n :| 0 <= n < k && updates[..k][n] == (diff[j].id, diff[j].after);
      assert updates[n].0 == diff[j].id;
    }
    if v != txs[i].category {
      assert IsChange(c, l, txs, account);
      assert forall d :: d in diff + [c] <==> d in diff || d == c;
    }
  }

  lemma WholeDiff(diff: seq<Change>, updates: seq<(nat, Option<int>)>, l: seq<Rule>, txs: seq<Tx>, account: nat)
    requires IsPartialDiff(diff, updates, l, txs, account)
    requires forall i | i in SweepIds(txs, account) ::
               exists k | 0 <= k < |updates| :: updates[k] == (i, Verdict(txs, l, i))
    ensures IsDiff(diff, l, txs, account)
  {
    forall c | IsChange(c, l, txs, account) ensures (c.id, c.after) in updates {
      var k :| 0 <= k < |updates| && updates[k] == (c.id, Verdict(txs, l, c.id));
    }
  }

  datatype ImportResult = ImportResult(polledCard: nat, statementCount: nat, inserted: nat, skippedDuplicates: int)

  class ImportService {
    const accountRepo: AccountRepo
    const txRepo: TransactionRepo
    const ruleRepo: RuleRepo

    constructor (accountRepo: AccountRepo, txRepo: TransactionRepo, ruleRepo: RuleRepo)
      ensures this.accountRepo == accountRepo && this.txRepo == txRepo && this.ruleRepo == ruleRepo
    {
      this.accountRepo, this.txRepo, this.ruleRepo := accountRepo, txRepo, ruleRepo;
    }

    /** One import: discover accounts if there are none, take the first card, upsert its statement
        and categorize the touched rows, the last two in one transaction. `discovered` and
        `fetched` are what the bank answers. */
    method RunOneCard(discovered: Result<seq<Account>, string>, fetched: Result<seq<Item>, string>)
      returns (result: Result<ImportResult, string>, ghost order: seq<Rule>, ghost updates: seq<(nat, Option<int>)>)
      requires Valid(ruleRepo.rules)
      modifies accountRepo, txRepo
      ensures accountRepo.rows == if old(accountRepo.rows) == [] && discovered.Success?
                                  then StoreAll([], discovered.value) else old(accountRepo.rows)
      ensures result.Success? <==>
                && (old(accountRepo.rows) == [] ==> discovered.Success?)
                && (exists i :: FirstCard(accountRepo.rows, i))
                && fetched.Success? && DistinctIds(fetched.value)
      ensures result.Failure? ==> txRepo.rows == old(txRepo.rows)
      ensures result.Success? ==>
                && fetched.Success?
                && IsListing(order, ruleRepo.rules)
                && var card := result.value.polledCard;
                var batch := Batch(card, fetched.value);
                var ingested := Effect(old(txRepo.rows), Upserted(batch));
                && FirstCard(accountRepo.rows, card)
                && txRepo.rows == Effect(ingested, Applied(updates))
                && (exists rows :: Lists(rows, ingested, TouchedIds(ingested, card, SourceIds(fetched.value)))
                                   && updates == Verdicts(rows, Compile(order)))
                && result.value.inserted == |fetched.value| && result.value.skippedDuplicates == 0
    {
      order, updates := [], [];
      if accountRepo.rows == [] {
        if discovered.Failure? {
          return Failure(discovered.error), order, updates;
        }
        if discovered.value == [] {
          return Failure("Mono /client-info returned no accounts"), order, updates;
        }
        var stored := accountRepo.UpsertMany(discovered.value);
      }
      var card := accountRepo.GetFirstCard();
      if card.None? {
        return Failure("No mono.card account found after discovery."), order, updates;
      }
      if fetched.Failure? {
        return Failure(fetched.error), order, updates;
      }
      var items := fetched.value;
      var counts := txRepo.InsertMany(card.value, items);
      if counts.Failure? {
        return Failure(counts.error), order, updates;
      }
      var rules := ruleRepo.ListActiveOrdered();
      var rows := txRepo.FetchForCategorize(card.value, SourceIds(items));
      var us := CategorizeRows(rows, Compile(rules));
      order, updates := rules, us;
      txRepo.ApplyCategories(us);
      var total := counts.value.0 + counts.value.1;
      result := Success(ImportResult(card.value, |items|, total, |items| - total));
    }
  }

  function SourceIds(items: seq<Item>): seq<string> {
    seq(|items|, i requires 0 <= i < |items| => items[i].sourceId)
  }
}
