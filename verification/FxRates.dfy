/** The table fx_rates: rates are inserted and never changed, and the rate of a day is the latest
    one on or before it. Days are numbered; a rate is the stored decimal times 10^8. */
module FxRates {
  import opened Common

  datatype Key = Key(currency: string, day: int)

  type Rates = map<Key, int>

  datatype FxRateRow = FxRateRow(currency: string, day: int, rate: int)
  {
    function Id(): Key {
      Key(currency, day)
    }
  }

  /** ON CONFLICT DO NOTHING. */
  function Insert(rates: Rates, row: FxRateRow): Rates {
    if row.Id() in rates then rates else rates[row.Id() := row.rate]
  }

  function InsertAll(rates: Rates, rows: seq<FxRateRow>): Rates
    decreases |rows|
  {
    if rows == [] then rates else Insert(InsertAll(rates, rows[..|rows| - 1]), rows[|rows| - 1])
  }

  /** A run of uploads. */
  function UploadAll(rates: Rates, uploads: seq<seq<FxRateRow>>): Rates
    decreases |uploads|
  {
    if uploads == [] then rates else InsertAll(UploadAll(rates, uploads[..|uploads| - 1]), uploads[|uploads| - 1])
  }

  /** Everything stored stays, with its value. */
  ghost predicate Extends(before: Rates, after: Rates) {
    forall k :: k in before ==> k in after && after[k] == before[k]
  }

  predicate Mentions(rows: seq<FxRateRow>, k: Key) {
    exists n | 0 <= n < |rows| :: rows[n].Id() == k
  }

  predicate Uploaded(uploads: seq<seq<FxRateRow>>, k: Key) {
    exists n | 0 <= n < |uploads| :: Mentions(uploads[n], k)
  }

  /** Of what is not stored yet, the first row of a key wins; the rest of the table stays. */
  lemma {:induction false} InsertAllKeys(rates: Rates, rows: seq<FxRateRow>)
    ensures Extends(rates, InsertAll(rates, rows))
    ensures forall k :: k in InsertAll(rates, rows) <==> k in rates || Mentions(rows, k)
    decreases |rows|
  {
    if rows != [] {
      var n := |rows| - 1;
      InsertAllKeys(rates, rows[..n]);
      forall k
        ensures Mentions(rows, k) <==> Mentions(rows[..n], k) || k == rows[n].Id()
      {
        MentionsLast(rows, k);
      }
    }
  }

  lemma MentionsLast(rows: seq<FxRateRow>, k: Key)
    requires rows != []
    ensures Mentions(rows, k) <==> Mentions(rows[..|rows| - 1], k) || k == rows[|rows| - 1].Id()
  {
    var n := |rows| - 1;
    if Mentions(rows[..n], k) {
      var m :| 0 <= m < n && rows[..n][m].Id() == k;
      assert rows[m].Id() == k;
    }
    if Mentions(rows, k) && k != rows[n].Id() {
      var m :| 0 <= m < |rows| && rows[m].Id() == k;
      assert rows[..n][m].Id() == k;
    }
  }

  lemma UploadedLast(uploads: seq<seq<FxRateRow>>, k: Key)
    requires uploads != []
    ensures Uploaded(uploads, k) <==> Uploaded(uploads[..|uploads| - 1], k) || Mentions(uploads[|uploads| - 1], k)
  {
    var n := |uploads| - 1;
    if Uploaded(uploads[..n], k) {
      var m :| 0 <= m < n && Mentions(uploads[..n][m], k);
      assert Mentions(uploads[m], k);
    }
    if Uploaded(uploads, k) && !Mentions(uploads[n], k) {
      var m :| 0 <= m < |uploads| && Mentions(uploads[m], k);
      assert Mentions(uploads[..n][m], k);
    }
  }

  lemma {:induction false} UploadAllKeys(rates: Rates, uploads: seq<seq<FxRateRow>>)
    ensures Extends(rates, UploadAll(rates, uploads))
    ensures forall k :: k in UploadAll(rates, uploads) <==> k in rates || Uploaded(uploads, k)
    decreases |uploads|
  {
    if uploads != [] {
      var n := |uploads| - 1;
      UploadAllKeys(rates, uploads[..n]);
      InsertAllKeys(UploadAll(rates, uploads[..n]), uploads[n]);
      forall k
        ensures Uploaded(uploads, k) <==> Uploaded(uploads[..n], k) || Mentions(uploads[n], k)
      {
        UploadedLast(uploads, k);
      }
    }
  }

  /** The first row of a new key gives its rate. */
  lemma {:induction false} FirstRateWins(rates: Rates, rows: seq<FxRateRow>, n: nat)
    requires n < |rows| && rows[n].Id() !in rates && !Mentions(rows[..n], rows[n].Id())
    ensures rows[n].Id() in InsertAll(rates, rows) && InsertAll(rates, rows)[rows[n].Id()] == rows[n].rate
    decreases |rows|
  {
    var last := |rows| - 1;
    assert rows[..last][..n] == rows[..n];
    if n < last {
      FirstRateWins(rates, rows[..last], n);
    } else {
      InsertAllKeys(rates, rows[..last]);
    }
  }

  /** Fetching an overlapping range again changes nothing, even when the rates disagree. */
  lemma ReuploadIsNoOp(rates: Rates, rows: seq<FxRateRow>, again: seq<FxRateRow>)
    requires forall n | 0 <= n < |again| :: Mentions(rows, again[n].Id()) || again[n].Id() in rates
    ensures InsertAll(InsertAll(rates, rows), again) == InsertAll(rates, rows)
  {
    InsertAllKeys(rates, rows);
    KnownRows(InsertAll(rates, rows), again);
  }

  lemma {:induction false} KnownRows(rates: Rates, rows: seq<FxRateRow>)
    requires forall n | 0 <= n < |rows| :: rows[n].Id() in rates
    ensures InsertAll(rates, rows) == rates
    decreases |rows|
  {
    if rows != [] {
      KnownRows(rates, rows[..|rows| - 1]);
    }
  }

  // ----- the rate of a day -----

  predicate Usable(k: Key, currency: string, day: int) {
    k.currency == currency && k.day <= day
  }

  /** d is the latest date on or before the day with a rate of the currency. */
  ghost predicate IsLatest(rates: Rates, currency: string, day: int, d: int) {
    && Key(currency, d) in rates && d <= day
    && forall k :: k in rates && Usable(k, currency, day) ==> k.day <= d
  }

  ghost predicate NoneUsable(rates: Rates, currency: string, day: int) {
    forall k :: k in rates ==> !Usable(k, currency, day)
  }

  /** What the lateral join finds. */
  ghost predicate Found(rates: Rates, currency: string, day: int, date: Option<int>) {
    if date.Some? then IsLatest(rates, currency, day, date.value) else NoneUsable(rates, currency, day)
  }

  lemma FoundUnique(rates: Rates, currency: string, day: int, a: Option<int>, b: Option<int>)
    requires Found(rates, currency, day, a) && Found(rates, currency, day, b)
    ensures a == b
  {
    if a.Some? && b.Some? {
      assert Usable(Key(currency, a.value), currency, day) && Usable(Key(currency, b.value), currency, day);
    }
  }

  lemma {:induction false} FoundExists(keys: set<Key>, currency: string, day: int) returns (date: Option<int>)
    ensures date.None? ==> forall k :: k in keys ==> !Usable(k, currency, day)
    ensures date.Some? ==>
              && Key(currency, date.value) in keys && date.value <= day
              && forall k :: k in keys && Usable(k, currency, day) ==> k.day <= date.value
    decreases |keys|
  {
    if keys == {} {
      date := None;
    } else {
      var k := Member(keys);
      date := FoundExists(keys - {k}, currency, day);
      if Usable(k, currency, day) && (date.None? || date.value < k.day) {
        date := Some(k.day);
      }
    }
  }

  /** The date whose rate a row of the day uses. */
  ghost function Latest(rates: Rates, currency: string, day: int): (date: Option<int>)
    ensures Found(rates, currency, day, date)
  {
    SomethingFound(rates, currency, day);
    var date :| Found(rates, currency, day, date);
    date
  }

  lemma SomethingFound(rates: Rates, currency: string, day: int)
    ensures exists date :: Found(rates, currency, day, date)
  {
    var date := FoundExists(rates.Keys, currency, day);
    assert Found(rates, currency, day, date);
  }

  ghost function RateOf(rates: Rates, currency: string, day: int): Option<int> {
    var date := Latest(rates, currency, day);
    if date.Some? then Some(rates[Key(currency, date.value)]) else None
  }

  /** A row that comes after the chosen date and not after the day. */
  ghost predicate Overtakes(k: Key, rates: Rates, currency: string, day: int) {
    var date := Latest(rates, currency, day);
    Usable(k, currency, day) && (date.Some? ==> date.value < k.day)
  }

  /** Over any run of uploads the chosen date changes exactly when a row overtakes it. Rows of
      other currencies, later days and passed days have no effect, and neither does a different
      rate for a stored day. */
  lemma LatestChangesExactly(rates: Rates, uploads: seq<seq<FxRateRow>>, currency: string, day: int)
    ensures Latest(UploadAll(rates, uploads), currency, day) == Latest(rates, currency, day) <==>
            forall k :: Uploaded(uploads, k) ==> !Overtakes(k, rates, currency, day)
    ensures Latest(UploadAll(rates, uploads), currency, day) == Latest(rates, currency, day) ==>
            RateOf(UploadAll(rates, uploads), currency, day) == RateOf(rates, currency, day)
  {
    var after := UploadAll(rates, uploads);
    var date := Latest(rates, currency, day);
    UploadAllKeys(rates, uploads);
    if forall k :: Uploaded(uploads, k) ==> !Overtakes(k, rates, currency, day) {
      StillFound(rates, uploads, currency, day);
      FoundUnique(after, currency, day, date, Latest(after, currency, day));
    } else {
      var k :| Uploaded(uploads, k) && Overtakes(k, rates, currency, day);
      assert k in after && Usable(k, currency, day);
    }
  }

  lemma StillFound(rates: Rates, uploads: seq<seq<FxRateRow>>, currency: string, day: int)
    requires forall k :: Uploaded(uploads, k) ==> !Overtakes(k, rates, currency, day)
    ensures Found(UploadAll(rates, uploads), currency, day, Latest(rates, currency, day))
  {
    UploadAllKeys(rates, uploads);
    var after := UploadAll(rates, uploads);
    var date := Latest(rates, currency, day);
    forall k | k in after && Usable(k, currency, day)
      ensures date.Some? && k.day <= date.value
    {
      if k in rates {
        assert Usable(k, currency, day);
      } else {
        assert Uploaded(uploads, k) && !Overtakes(k, rates, currency, day);
      }
    }
  }

  /** The chosen date never goes back and never passes the day. */
  lemma LatestMonotone(rates: Rates, after: Rates, currency: string, day: int)
    requires Extends(rates, after) && Latest(rates, currency, day).Some?
    ensures Latest(after, currency, day).Some?
    ensures Latest(rates, currency, day).value <= Latest(after, currency, day).value <= day
  {
    var k := Key(currency, Latest(rates, currency, day).value);
    assert k in after && Usable(k, currency, day);
  }

  /** Once the day has a rate of its own, nothing changes what the day uses. */
  lemma ExactDayIsFinal(rates: Rates, after: Rates, currency: string, day: int)
    requires Extends(rates, after) && Key(currency, day) in rates
    ensures Latest(after, currency, day) == Some(day) && RateOf(after, currency, day) == Some(rates[Key(currency, day)])
  {
    assert IsLatest(after, currency, day, day);
    assert Found(after, currency, day, Some(day));
    FoundUnique(after, currency, day, Some(day), Latest(after, currency, day));
  }

  // ----- the repository -----

  ghost function InWindow(rates: Rates, currency: string, since: int): set<Key> {
    set k | k in rates && k.currency == currency && k.day >= since
  }

  class FxRateRepo {
    var rates: Rates

    constructor (stored: Rates)
      ensures rates == stored
    {
      rates := stored;
    }

    /** Reports how many rows were inserted. */
    method UpsertMany(rows: seq<FxRateRow>) returns (inserted: nat)
      modifies this
      ensures rates == InsertAll(old(rates), rows)
      ensures |rates| == |old(rates)| + inserted
    {
      ghost var before := rates;
      inserted := 0;
      for n := 0 to |rows|
        invariant rates == InsertAll(before, rows[..n])
        invariant |rates| == |before| + inserted
      {
        assert rows[..n + 1][..n] == rows[..n];
        if rows[n].Id() !in rates {
          rates := rates[rows[n].Id() := rows[n].rate];
          inserted := inserted + 1;
        }
      }
      assert rows[..|rows|] == rows;
    }

    method CountInWindow(currency: string, since: int) returns (n: nat)
      ensures n == |InWindow(rates, currency, since)|
    {
      var rest := rates.Keys;
      ghost var seen: set<Key> := {};
      n := 0;
      while rest != {}
        invariant rest <= rates.Keys
        invariant seen == set k | k in rates && k !in rest && k.currency == currency && k.day >= since
        invariant n == |seen|
        decreases |rest|
      {
        var k :| k in rest;
        rest := rest - {k};
        if k.currency == currency && k.day >= since {
          seen := seen + {k};
          n := n + 1;
        }
      }
      assert seen == InWindow(rates, currency, since);
    }

    /** The lateral join of the listing query, for one row. */
    method LatestOnOrBefore(currency: string, day: int) returns (date: Option<int>)
      ensures date == Latest(rates, currency, day)
    {
      var rest := rates.Keys;
      date := None;
      while rest != {}
        invariant rest <= rates.Keys
        invariant date.None? ==> forall k :: k in rates && k !in rest ==> !Usable(k, currency, day)
        invariant date.Some? ==>
                    && Key(currency, date.value) in rates && date.value <= day
                    && forall k :: k in rates && k !in rest && Usable(k, currency, day) ==> k.day <= date.value
        decreases |rest|
      {
        var k :| k in rest;
        rest := rest - {k};
        if Usable(k, currency, day) && (date.None? || date.value < k.day) {
          date := Some(k.day);
        }
      }
      FoundUnique(rates, currency, day, date, Latest(rates, currency, day));
    }
  }
}
