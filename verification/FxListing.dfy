/** The listing of an account: every live row with the conversion its day's rate gives. */
module FxListing {
  import opened Common
  import opened FxRollup
  import opened HalfEven
  import opened FxRates
  import opened Transactions

  /** The conversion of one row. */
  ghost function RowFx(rates: Rates, t: Tx): Result<FxFields, string> {
    Rollup(t.amount, t.currency, RateOf(rates, t.currency, t.day), Latest(rates, t.currency, t.day), Some(t.day),
           t.payload.opCurrency)
  }

  /** Some rate of the row's currency is dated on or before its day. */
  ghost predicate HasSomeRate(rates: Rates, t: Tx) {
    exists k :: k in rates && Usable(k, t.currency, t.day)
  }

  /** What a listed foreign row says, in terms of the rates table: it has a value exactly when some
      rate is dated on or before its day; the date it shows is then the latest such date; and its
      value is the exact amount at the rate of that date, rounded half to even. */
  lemma ForeignRowMeaning(rates: Rates, t: Tx)
    requires t.currency != "UAH" && RowFx(rates, t).Success?
    ensures var f := RowFx(rates, t).value;
            && (f.uah.Some? <==> HasSomeRate(rates, t))
            && Found(rates, t.currency, t.day, f.rateDate)
            && (f.uah.Some? ==>
                  && f.rateDate.Some?
                  && var rate := rates[Key(t.currency, f.rateDate.value)];
                  && f.rate == Some(rate)
                  && (Fits(t.amount) && Fits(t.amount * rate) ==> NearestEven(t.amount * rate, UNIT, f.uah.value)))
  {
    var date := Latest(rates, t.currency, t.day);
    Classification(t.amount, t.currency, RateOf(rates, t.currency, t.day), date, Some(t.day), t.payload.opCurrency);
    if date.Some? {
      var k := Key(t.currency, date.value);
      assert k in rates && Usable(k, t.currency, t.day);
      RoundedOnce(t.amount, rates[k]);
    }
  }

  lemma RoundedOnce(amount: int, rate: int)
    ensures Fits(amount) && Fits(amount * rate) && Converted(amount, rate).Success? ==>
              NearestEven(amount * rate, UNIT, Converted(amount, rate).value)
  {
    if Fits(amount) && Fits(amount * rate) {
      SingleRounding(amount, rate);
    }
  }

  /** And when the listing of it raises: exactly when its latest usable rate makes the product as large
      as quantize refuses. */
  lemma ForeignRowRaises(rates: Rates, t: Tx)
    requires t.currency != "UAH" && Fits(t.amount)
    ensures RowFx(rates, t).Failure? <==>
            exists d :: IsLatest(rates, t.currency, t.day, d) && Abs(t.amount * rates[Key(t.currency, d)]) >= OVERFLOW
  {
    var date := Latest(rates, t.currency, t.day);
    Classification(t.amount, t.currency, RateOf(rates, t.currency, t.day), date, Some(t.day), t.payload.opCurrency);
    if date.Some? {
      RaisesExactly(t.amount, rates[Key(t.currency, date.value)]);
      forall d | IsLatest(rates, t.currency, t.day, d) ensures d == date.value {
        FoundUnique(rates, t.currency, t.day, Some(d), date);
      }
    } else {
      forall d ensures !IsLatest(rates, t.currency, t.day, d) {
        if IsLatest(rates, t.currency, t.day, d) {
          FoundUnique(rates, t.currency, t.day, Some(d), date);
        }
      }
    }
  }

  ghost predicate HasOwnRate(rates: Rates, t: Tx) {
    t.currency == "UAH" || Key(t.currency, t.day) in rates
  }

  /** A row is fresh exactly when it is hryvnia or its own day has a rate. */
  lemma FreshExactly(rates: Rates, t: Tx)
    requires RowFx(rates, t).Success?
    ensures !RowFx(rates, t).value.stale <==> HasOwnRate(rates, t)
  {
    if Key(t.currency, t.day) in rates {
      ExactDayIsFinal(rates, rates, t.currency, t.day);
    }
  }

  /** With a rate of its own, a row of unchanged amount converts the same for ever. */
  lemma OwnRateIsFinal(rates: Rates, after: Rates, t: Tx, u: Tx)
    requires Extends(rates, after) && SameIdentity(t, u) && HasOwnRate(rates, t)
    ensures HasOwnRate(after, u)
    ensures u.amount == t.amount && u.payload == t.payload ==> RowFx(after, u) == RowFx(rates, t)
    ensures u.amount == t.amount && RowFx(rates, t).Success? ==>
              RowFx(after, u).Success? && RowFx(after, u).value.uah == RowFx(rates, t).value.uah
  {
    if t.currency != "UAH" {
      ExactDayIsFinal(rates, after, t.currency, t.day);
      ExactDayIsFinal(rates, rates, t.currency, t.day);
    }
  }

  /** Over any run of uploads, upserts and category writes: the date a row converts by never goes
      back; a fresh row never becomes stale again; and while its amount stays, neither its date nor
      its value moves once it is fresh. */
  lemma ConversionOverRuns(rates: Rates, uploads: seq<seq<FxRateRow>>, txs: seq<Tx>, events: seq<TxEvent>, i: nat)
    requires i < |txs| && RowFx(rates, txs[i]).Success?
    ensures var t, u := txs[i], After(txs, events)[i];
            var before, after := RowFx(rates, t), RowFx(UploadAll(rates, uploads), u);
            && (after.Success? && before.value.rateDate.Some? ==>
                  after.value.rateDate.Some? && before.value.rateDate.value <= after.value.rateDate.value <= t.day)
            && (after.Success? && !before.value.stale ==> !after.value.stale)
            && (!before.value.stale && u.amount == t.amount ==> after.Success? && after.value.uah == before.value.uah)
  {
    var t, u := txs[i], After(txs, events)[i];
    var r := UploadAll(rates, uploads);
    LockSafety(txs, events, i);
    UploadAllKeys(rates, uploads);
    FreshExactly(rates, t);
    if HasOwnRate(rates, t) {
      OwnRateIsFinal(rates, r, t, u);
      if RowFx(r, u).Success? {
        FreshExactly(r, u);
      }
    }
    if Latest(rates, t.currency, t.day).Some? {
      LatestMonotone(rates, r, t.currency, t.day);
    }
  }

  // ----- the query -----

  predicate Listed(t: Tx, account: nat) {
    t.account == account && !t.deleted
  }

  /** The requirement on two listed rows, the first listed before the second. */
  predicate Before(txs: seq<Tx>, i: nat, j: nat)
    requires i < |txs| && j < |txs|
  {
    i != j && txs[i].time >= txs[j].time
  }

  /** ORDER BY time DESC over the live rows of the account among the first n, each once. */
  ghost predicate OrderOf(txs: seq<Tx>, n: nat, account: nat, ids: seq<nat>)
    requires n <= |txs|
  {
    && (forall a | 0 <= a < |ids| :: ids[a] < n && Listed(txs[ids[a]], account))
    && (forall i: nat | i < n && Listed(txs[i], account) :: i in ids)
    && (forall a, b | 0 <= a < b < |ids| :: Before(txs, ids[a], ids[b]))
  }

  ghost predicate IsQueryOrder(txs: seq<Tx>, account: nat, ids: seq<nat>) {
    OrderOf(txs, |txs|, account, ids)
  }

  function Placed(ids: seq<nat>, at: nat, n: nat): (r: seq<nat>)
    requires at <= |ids|
    ensures |r| == |ids| + 1
    ensures forall a | 0 <= a < |r| :: r[a] == if a < at then ids[a] else if a == at then n else ids[a - 1]
  {
    ids[..at] + [n] + ids[at..]
  }

  lemma PlacedCovers(ids: seq<nat>, at: nat, n: nat, i: nat)
    requires at <= |ids| && (i in ids || i == n)
    ensures i in Placed(ids, at, n)
  {
    var r := Placed(ids, at, n);
    if i == n {
      assert r[at] == n;
    } else {
      var a :| 0 <= a < |ids| && ids[a] == i;
      assert r[if a < at then a else a + 1] == i;
    }
  }

  lemma PlacedOrder(txs: seq<Tx>, n: nat, account: nat, ids: seq<nat>, at: nat)
    requires n < |txs| && Listed(txs[n], account) && OrderOf(txs, n, account, ids) && at <= |ids|
    requires forall a | 0 <= a < at :: txs[ids[a]].time >= txs[n].time
    requires forall a | at <= a < |ids| :: txs[ids[a]].time < txs[n].time
    ensures OrderOf(txs, n + 1, account, Placed(ids, at, n))
  {
    var r := Placed(ids, at, n);
    forall a | 0 <= a < |r|
      ensures r[a] < n + 1 && Listed(txs[r[a]], account)
    {
    }
    forall i: nat | i < n + 1 && Listed(txs[i], account)
      ensures i in r
    {
      PlacedCovers(ids, at, n, i);
    }
    forall a, b | 0 <= a < b < |r|
      ensures Before(txs, r[a], r[b])
    {
      if a < at && b > at {
        assert Before(txs, ids[a], ids[b - 1]);
      } else if a > at {
        assert Before(txs, ids[a - 1], ids[b - 1]);
      } else if b < at {
        assert Before(txs, ids[a], ids[b]);
      }
    }
  }

  /** Where a row goes: behind all rows at least as new. */
  method PlaceOf(txs: seq<Tx>, n: nat, account: nat, ids: seq<nat>) returns (at: nat)
    requires n < |txs| && OrderOf(txs, n, account, ids)
    ensures at <= |ids|
    ensures forall a | 0 <= a < at :: txs[ids[a]].time >= txs[n].time
    ensures forall a | at <= a < |ids| :: txs[ids[a]].time < txs[n].time
  {
    at := |ids|;
    while at > 0 && txs[ids[at - 1]].time < txs[n].time
      invariant at <= |ids|
      invariant forall b | at <= b < |ids| :: txs[ids[b]].time < txs[n].time
    {
      at := at - 1;
    }
    if at > 0 {
      assert forall a | 0 <= a < at - 1 :: Before(txs, ids[a], ids[at - 1]);
    }
  }

  method QueryOrder(txs: seq<Tx>, account: nat) returns (ids: seq<nat>)
    ensures IsQueryOrder(txs, account, ids)
  {
    ids := [];
    for n := 0 to |txs|
      invariant OrderOf(txs, n, account, ids)
    {
      if Listed(txs[n], account) {
        var at := PlaceOf(txs, n, account, ids);
        PlacedOrder(txs, n, account, ids, at);
        ids := Placed(ids, at, n);
      }
    }
  }

  datatype Category = Category(name: string, color: string)

  /** A listed row: its columns, what the left join finds in the categories, and its conversion. */
  datatype ListedRow = ListedRow(id: nat, tx: Tx, category: Option<Category>, fx: FxFields)

  predicate ListsRow(row: ListedRow, txs: seq<Tx>, categories: map<int, Category>) {
    && row.id < |txs| && row.tx == txs[row.id]
    && (row.category.Some? <==> row.tx.category.Some? && row.tx.category.value in categories)
    && (row.category.Some? ==> row.category.value == categories[row.tx.category.value])
  }

  function Ids(rows: seq<ListedRow>): (ids: seq<nat>)
    ensures |ids| == |rows| && forall a | 0 <= a < |rows| :: ids[a] == rows[a].id
  {
    seq(|rows|, a requires 0 <= a < |rows| => rows[a].id)
  }

  /** A listed row whose conversion raises. */
  ghost predicate Raises(rates: Rates, t: Tx, account: nat) {
    Listed(t, account) && RowFx(rates, t).Failure?
  }

  /** Every live row once, newest first, with its category and its conversion; or nothing, when one of
      them raises. */
  method ListForAccount(transactions: TransactionRepo, fxRates: FxRateRepo, categories: map<int, Category>,
                        account: nat)
    returns (out: Result<seq<ListedRow>, string>)
    ensures out.Failure? <==>
            exists i: nat :: i < |transactions.rows| && Raises(fxRates.rates, transactions.rows[i], account)
    ensures out.Success? ==> IsQueryOrder(transactions.rows, account, Ids(out.value))
    ensures out.Success? ==>
              && (forall a | 0 <= a < |out.value| :: out.value[a].tx.account == account && !out.value[a].tx.deleted)
              && (forall i: nat | i < |transactions.rows| && transactions.rows[i].account == account
                                  && !transactions.rows[i].deleted :: i in Ids(out.value))
              && (forall a, b | 0 <= a < b < |out.value| ::
                    out.value[a].id != out.value[b].id && out.value[a].tx.time >= out.value[b].tx.time)
    ensures out.Success? ==>
              forall a | 0 <= a < |out.value| ::
                && ListsRow(out.value[a], transactions.rows, categories)
                && RowFx(fxRates.rates, out.value[a].tx) == Success(out.value[a].fx)
  {
    var txs := transactions.rows;
    var order := QueryOrder(txs, account);
    var rows: seq<ListedRow> := [];
    for a := 0 to |order|
      invariant |rows| == a
      invariant forall b | 0 <= b < a :: rows[b].id == order[b] && ListsRow(rows[b], txs, categories)
      invariant forall b | 0 <= b < a :: RowFx(fxRates.rates, rows[b].tx) == Success(rows[b].fx)
    {
      var t := txs[order[a]];
      var date := fxRates.LatestOnOrBefore(t.currency, t.day);
      var rate := if date.Some? then Some(fxRates.rates[Key(t.currency, date.value)]) else None;
      var fx := Rollup(t.amount, t.currency, rate, date, Some(t.day), t.payload.opCurrency);
      if fx.Failure? {
        assert Raises(fxRates.rates, t, account);
        return Failure(fx.error);
      }
      var category :=
        if t.category.Some? && t.category.value in categories then Some(categories[t.category.value]) else None;
      rows := rows + [ListedRow(order[a], t, category, fx.value)];
    }
    assert Ids(rows) == order;
    out := Success(rows);
  }
}
