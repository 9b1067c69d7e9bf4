/** The life of a tracked currency: a first year of rates is fetched until it lands once, and from
    then on a few days at a time. A fetch is whatever the bank of rates answers. */
module FxLifecycle {
  import opened Common
  import opened FxRates

  datatype Tracked = Tracked(done: bool, error: Option<string>, attempted: Option<int>)

  type Flags = map<string, Tracked>

  /** The two tables. */
  datatype Store = Store(rates: Rates, tracked: Flags)
  {
    predicate IsDone(c: string) {
      c in tracked && tracked[c].done
    }
  }

  datatype Answer = Fetched(rows: seq<FxRateRow>) | Raised(error: string)

  /** What one visit to a currency meets: the day, the answer, the time of the write. */
  datatype Visit = Visit(today: int, answer: Answer, now: int)

  const BOOTSTRAP_THRESHOLD := 250
  const FRESHNESS_WINDOW := 365
  const NO_RATES := "no rates published"

  function Registered(f: Flags, c: string): Flags {
    if c in f then f else f[c := Tracked(false, None, None)]
  }

  /** UPDATE ... WHERE currency = c. */
  function Marked(f: Flags, c: string, error: Option<string>, now: int): Flags {
    if c in f then f[c := f[c].(error := error, attempted := Some(now))] else f
  }

  function DoneSet(f: Flags, c: string): Flags {
    if c in f then f[c := f[c].(done := true)] else f
  }

  function StoredBootstrap(s: Store, c: string, rows: seq<FxRateRow>, now: int): Store {
    Store(InsertAll(s.rates, rows), Marked(DoneSet(s.tracked, c), c, None, now))
  }

  function StoredTick(s: Store, c: string, rows: seq<FxRateRow>, now: int): Store {
    Store(InsertAll(s.rates, rows), Marked(s.tracked, c, None, now))
  }

  function Noted(s: Store, c: string, error: string, now: int): Store {
    s.(tracked := Marked(s.tracked, c, Some(error), now))
  }

  ghost function RecentCount(s: Store, c: string, today: int): nat {
    |InWindow(s.rates, c, today - FRESHNESS_WINDOW)|
  }

  ghost function BootstrapOne(s: Store, c: string, v: Visit): Store {
    if RecentCount(s, c, v.today) >= BOOTSTRAP_THRESHOLD then s else
    match v.answer
    case Raised(e) => Noted(s, c, e, v.now)
    case Fetched(rows) =>
      if rows == [] then Noted(s, c, NO_RATES, v.now) else StoredBootstrap(s, c, rows, v.now)
  }

  /** A fetch that raises outside the bootstrap is caught by the loop and leaves no trace. */
  ghost function TickOne(s: Store, c: string, v: Visit): Store {
    if !s.IsDone(c) then BootstrapOne(s, c, v) else
    match v.answer
    case Raised(_) => s
    case Fetched(rows) =>
      if rows == [] then Noted(s, c, NO_RATES, v.now) else StoredTick(s, c, rows, v.now)
  }

  datatype Job = BootstrapJob | TickJob

  ghost function VisitOne(job: Job, s: Store, c: string, v: Visit): Store {
    if job.BootstrapJob? then BootstrapOne(s, c, v) else TickOne(s, c, v)
  }

  ghost function VisitAll(job: Job, s: Store, cs: seq<string>, visits: string -> Visit): Store
    decreases |cs|
  {
    if cs == [] then s
    else
      var n := |cs| - 1;
      VisitOne(job, VisitAll(job, s, cs[..n], visits), cs[n], visits(cs[n]))
  }

  /** The fetch returned only rows of the currency it was asked for. */
  predicate Only(rows: seq<FxRateRow>, c: string) {
    forall n | 0 <= n < |rows| :: rows[n].currency == c
  }

  predicate Honest(a: Answer, c: string) {
    a.Fetched? ==> Only(a.rows, c)
  }

  /** No rate without a finished bootstrap. */
  ghost predicate Settled(s: Store) {
    forall k :: k in s.rates ==> s.IsDone(k.currency)
  }

  // ----- the freshness skip strands nobody -----

  /** A currency still to be bootstrapped has no rates at all, so its visit always fetches, and
      leaves the mark of the attempt. */
  lemma NeverStranded(job: Job, s: Store, c: string, v: Visit)
    requires Settled(s) && c in s.tracked && !s.tracked[c].done
    ensures RecentCount(s, c, v.today) == 0
    ensures var after := VisitOne(job, s, c, v).tracked[c];
            && after.attempted == Some(v.now)
            && (after.done <==> v.answer.Fetched? && v.answer.rows != [])
            && (after.error.None? <==> after.done)
  {
    assert InWindow(s.rates, c, v.today - FRESHNESS_WINDOW) == {};
  }

  /** Storing a bootstrap keeps every rate settled exactly when the rows belong to the currency or
      to currencies already bootstrapped. */
  lemma StoreSettledExactly(s: Store, c: string, rows: seq<FxRateRow>, now: int)
    requires Settled(s) && c in s.tracked
    ensures Settled(StoredBootstrap(s, c, rows, now)) <==>
            forall n | 0 <= n < |rows| :: rows[n].currency == c || s.IsDone(rows[n].currency)
    ensures Settled(StoredTick(s, c, rows, now)) <==>
            forall n | 0 <= n < |rows| :: s.IsDone(rows[n].currency)
  {
    var boot, tick := StoredBootstrap(s, c, rows, now), StoredTick(s, c, rows, now);
    InsertAllKeys(s.rates, rows);
    forall n | 0 <= n < |rows|
      ensures rows[n].Id() in boot.rates && rows[n].Id() in tick.rates
    {
      assert Mentions(rows, rows[n].Id());
    }
    assert forall d :: boot.IsDone(d) <==> d == c || s.IsDone(d);
    assert forall d :: tick.IsDone(d) <==> s.IsDone(d);
  }

  /** One answer with rows of another currency, and that currency is skipped at every later visit
      in the window, whatever the answer, while its flag says it was never bootstrapped. */
  lemma ForeignRowsStrand(rows: seq<FxRateRow>, v: Visit, w: Visit, job: Job)
    requires |rows| == 250 && w.today == v.today && v.answer == Fetched(rows)
    requires forall n | 0 <= n < |rows| :: rows[n] == FxRateRow("EUR", v.today - n, 45_0000_0000)
    ensures var seeded := Store(map[], map["EUR" := Tracked(false, None, None), "USD" := Tracked(false, None, None)]);
            var s := VisitOne(job, seeded, "USD", v);
            && s.IsDone("USD") && !s.IsDone("EUR") && VisitOne(job, s, "EUR", w) == s
  {
    var seeded := Store(map[], map["EUR" := Tracked(false, None, None), "USD" := Tracked(false, None, None)]);
    assert InWindow(seeded.rates, "USD", v.today - FRESHNESS_WINDOW) == {};
    var s := VisitOne(job, seeded, "USD", v);
    assert s == StoredBootstrap(seeded, "USD", rows, v.now);
    InsertAllKeys(seeded.rates, rows);
    var ids := set n | 0 <= n < |rows| :: rows[n].Id();
    var hit := InWindow(s.rates, "EUR", w.today - FRESHNESS_WINDOW);
    forall k | k in ids
      ensures k in hit
    {
      var n :| 0 <= n < |rows| && rows[n].Id() == k;
      assert Mentions(rows, k);
    }
    DistinctDays(rows, v.today, |rows|);
    assert ids == set n | 0 <= n < |rows| :: rows[n].Id();
    SubsetSize(ids, hit);
  }

  lemma {:induction false} DistinctDays(rows: seq<FxRateRow>, today: int, m: nat)
    requires m <= |rows| && forall n | 0 <= n < |rows| :: rows[n].day == today - n
    ensures |set n | 0 <= n < m :: rows[n].Id()| == m
    decreases m
  {
    var ids := set n | 0 <= n < m :: rows[n].Id();
    if m == 0 {
      assert ids == {};
    } else {
      DistinctDays(rows, today, m - 1);
      var fewer := set n | 0 <= n < m - 1 :: rows[n].Id();
      assert ids == fewer + {rows[m - 1].Id()};
    }
  }

  /** What a visit without rows leaves: no rate, no flag and no other currency changes. A fetch that
      raises in the daily pass over a bootstrapped currency is not even recorded as its last error. */
  lemma FailureSurface(job: Job, s: Store, c: string, v: Visit)
    requires v.answer.Raised? || v.answer.rows == []
    ensures var t := VisitOne(job, s, c, v);
            && t.rates == s.rates
            && t.tracked.Keys == s.tracked.Keys
            && (forall d :: d in s.tracked ==> t.tracked[d].done == s.tracked[d].done)
            && (forall d :: d in s.tracked && d != c ==> t.tracked[d] == s.tracked[d])
            && (job.TickJob? && s.IsDone(c) && v.answer.Raised? ==> t == s)
            && (job.TickJob? && s.IsDone(c) && v.answer.Fetched? ==> t.tracked[c].error == Some(NO_RATES))
  {
  }

  ghost predicate Recorded(s: Store, c: string, error: string, now: int) {
    c in s.tracked && s.tracked[c].error == Some(error) && s.tracked[c].attempted == Some(now)
  }

  /** A raised fetch ends up in the currency's last error (or the same entry was there before) exactly
      when the currency is tracked, its visit is a bootstrap, and fewer than 250 of its rates are dated
      within the last 365 days, so that it was fetched for at all. */
  lemma FailureRecordedExactly(job: Job, s: Store, c: string, v: Visit)
    requires v.answer.Raised?
    ensures Recorded(VisitOne(job, s, c, v), c, v.answer.error, v.now) <==>
            || Recorded(s, c, v.answer.error, v.now)
            || (c in s.tracked && (job.BootstrapJob? || !s.tracked[c].done)
                && |set k | k in s.rates && k.currency == c && k.day >= v.today - 365| < 250)
  {
    assert InWindow(s.rates, c, v.today - 365) == set k | k in s.rates && k.currency == c && k.day >= v.today - 365;
  }

  /** What a visit that gets rows leaves, whatever the job, unless the bootstrap is skipped: the rows'
      unknown keys are stored and nothing stored moves, the currency is done and without an error, and
      the attempt is on record; no other currency's row moves. */
  lemma RowsLand(job: Job, s: Store, c: string, v: Visit)
    requires c in s.tracked && v.answer.Fetched? && v.answer.rows != []
    requires (job.TickJob? && s.tracked[c].done)
             || |set k | k in s.rates && k.currency == c && k.day >= v.today - 365| < 250
    ensures var t := VisitOne(job, s, c, v);
            && (forall k :: k in t.rates <==> k in s.rates || Mentions(v.answer.rows, k))
            && (forall k :: k in s.rates ==> t.rates[k] == s.rates[k])
            && t.tracked == s.tracked[c := Tracked(true, None, Some(v.now))]
  {
    assert InWindow(s.rates, c, v.today - 365) == set k | k in s.rates && k.currency == c && k.day >= v.today - 365;
    InsertAllKeys(s.rates, v.answer.rows);
  }

  /** An empty answer is no failure and no success: the attempt is recorded as finding nothing. */
  lemma EmptyAnswerNoted(job: Job, s: Store, c: string, v: Visit)
    requires c in s.tracked && v.answer == Fetched([])
    requires (job.TickJob? && s.tracked[c].done)
             || |set k | k in s.rates && k.currency == c && k.day >= v.today - 365| < 250
    ensures VisitOne(job, s, c, v)
            == Store(s.rates, s.tracked[c := Tracked(s.tracked[c].done, Some("no rates published"), Some(v.now))])
  {
    assert InWindow(s.rates, c, v.today - 365) == set k | k in s.rates && k.currency == c && k.day >= v.today - 365;
  }

  // ----- every interleaving of the transactions of any number of visitors -----

  /** One transaction each. A visitor stores only for currencies it has listed, and skips the
      bootstrap only for those whose flag it has seen set. */
  datatype FxEvent =
    | Register(currency: string)
    | ListAll
    | SeeDone(currency: string)
    | Note(currency: string, error: string, now: int)
    | StoreBootstrap(currency: string, rows: seq<FxRateRow>, now: int)
    | StoreTick(currency: string, rows: seq<FxRateRow>, now: int)

  /** The tables, what some visitor has listed, and what some visitor has seen set. */
  datatype Fx = Fx(store: Store, listed: set<string>, seen: set<string>)

  predicate Enabled(m: Fx, e: FxEvent) {
    match e
    case Register(_) => true
    case ListAll => true
    case SeeDone(c) => m.store.IsDone(c)
    case Note(c, _, _) => c in m.listed
    case StoreBootstrap(c, _, _) => c in m.listed
    case StoreTick(c, _, _) => c in m.seen
  }

  function Do(m: Fx, e: FxEvent): Fx {
    match e
    case Register(c) => m.(store := m.store.(tracked := Registered(m.store.tracked, c)))
    case ListAll => m.(listed := m.listed + m.store.tracked.Keys)
    case SeeDone(c) => m.(seen := m.seen + {c})
    case Note(c, error, now) => m.(store := Noted(m.store, c, error, now))
    case StoreBootstrap(c, rows, now) => m.(store := StoredBootstrap(m.store, c, rows, now))
    case StoreTick(c, rows, now) => m.(store := StoredTick(m.store, c, rows, now))
  }

  predicate HonestEvent(e: FxEvent) {
    match e
    case StoreBootstrap(c, rows, _) => Only(rows, c)
    case StoreTick(c, rows, _) => Only(rows, c)
    case _ => true
  }

  function Exec(m: Fx, events: seq<FxEvent>): Fx
    decreases |events|
  {
    if events == [] then m else Do(Exec(m, events[..|events| - 1]), events[|events| - 1])
  }

  predicate Legal(m: Fx, events: seq<FxEvent>)
    decreases |events|
  {
    events == [] || (
      var n := |events| - 1;
      Legal(m, events[..n]) && Enabled(Exec(m, events[..n]), events[n]))
  }

  ghost predicate Sound(m: Fx) {
    && Settled(m.store)
    && (forall c :: c in m.listed ==> c in m.store.tracked)
    && (forall c :: c in m.seen ==> m.store.IsDone(c))
  }

  /** Flags are set and never reset; tracked currencies stay; rates are never changed. */
  ghost predicate Grows(a: Store, b: Store) {
    && Extends(a.rates, b.rates)
    && (forall c :: c in a.tracked ==> c in b.tracked)
    && (forall c :: a.IsDone(c) ==> b.IsDone(c))
  }

  lemma StepGrows(m: Fx, e: FxEvent)
    requires Enabled(m, e)
    ensures Grows(m.store, Do(m, e).store)
  {
    match e
    case StoreBootstrap(c, rows, now) => InsertAllKeys(m.store.rates, rows);
    case StoreTick(c, rows, now) => InsertAllKeys(m.store.rates, rows);
    case _ =>
  }

  lemma StepSound(m: Fx, e: FxEvent)
    requires Sound(m) && Enabled(m, e) && HonestEvent(e)
    ensures Sound(Do(m, e))
  {
    StepGrows(m, e);
    match e
    case StoreBootstrap(c, rows, now) => StoreSettledExactly(m.store, c, rows, now);
    case StoreTick(c, rows, now) => StoreSettledExactly(m.store, c, rows, now);
    case _ =>
  }

  lemma {:induction false} AlwaysGrows(m: Fx, events: seq<FxEvent>)
    requires Legal(m, events)
    ensures Grows(m.store, Exec(m, events).store)
    decreases |events|
  {
    if events != [] {
      var n := |events| - 1;
      AlwaysGrows(m, events[..n]);
      StepGrows(Exec(m, events[..n]), events[n]);
    }
  }

  /** From an empty rate table, in every run of honest fetches, no matter how the transactions of
      concurrent visitors interleave or where they stop: every stored rate belongs to a currency
      whose bootstrap is recorded as done. */
  lemma {:induction false} AlwaysSettled(tracked: Flags, events: seq<FxEvent>)
    requires Legal(Fx(Store(map[], tracked), {}, {}), events)
    requires forall n | 0 <= n < |events| :: HonestEvent(events[n])
    ensures Sound(Exec(Fx(Store(map[], tracked), {}, {}), events))
    decreases |events|
  {
    if events != [] {
      var n := |events| - 1;
      AlwaysSettled(tracked, events[..n]);
      StepSound(Exec(Fx(Store(map[], tracked), {}, {}), events[..n]), events[n]);
    }
  }

  /** The transactions of one visit. */
  ghost function Blocks(job: Job, s: Store, c: string, v: Visit): seq<FxEvent> {
    if job.TickJob? && s.IsDone(c) then
      [SeeDone(c)] + (
        if v.answer.Raised? then []
        else if v.answer.rows == [] then [Note(c, NO_RATES, v.now)]
        else [StoreTick(c, v.answer.rows, v.now)])
    else if RecentCount(s, c, v.today) >= BOOTSTRAP_THRESHOLD then []
    else if v.answer.Raised? then [Note(c, v.answer.error, v.now)]
    else if v.answer.rows == [] then [Note(c, NO_RATES, v.now)]
    else [StoreBootstrap(c, v.answer.rows, v.now)]
  }

  lemma OneEvent(m: Fx, e: FxEvent)
    requires Enabled(m, e)
    ensures Legal(m, [e]) && Exec(m, [e]) == Do(m, e)
  {
    assert [e][..0] == [];
  }

  lemma TwoEvents(m: Fx, a: FxEvent, b: FxEvent)
    requires Enabled(m, a) && Enabled(Do(m, a), b)
    ensures Legal(m, [a, b]) && Exec(m, [a, b]) == Do(Do(m, a), b)
  {
    OneEvent(m, a);
    assert [a, b][..1] == [a];
  }

  /** A visit is a run of the machine. */
  lemma VisitIsRun(job: Job, m: Fx, c: string, v: Visit)
    requires c in m.listed
    ensures Legal(m, Blocks(job, m.store, c, v))
    ensures Exec(m, Blocks(job, m.store, c, v)).store == VisitOne(job, m.store, c, v)
  {
    var blocks := Blocks(job, m.store, c, v);
    if |blocks| == 1 {
      OneEvent(m, blocks[0]);
    } else if |blocks| == 2 {
      TwoEvents(m, blocks[0], blocks[1]);
      assert blocks == [blocks[0], blocks[1]];
    }
  }

  // ----- isolation -----

  function RatesOf(rates: Rates, c: string): Rates {
    map k | k in rates && k.currency == c :: rates[k]
  }

  /** All that concerns one currency. */
  function Of(s: Store, c: string): (Rates, Option<Tracked>) {
    (RatesOf(s.rates, c), if c in s.tracked then Some(s.tracked[c]) else None)
  }

  lemma {:induction false} InsertOwn(rates: Rates, rows: seq<FxRateRow>, c: string)
    requires Only(rows, c)
    ensures RatesOf(InsertAll(rates, rows), c) == InsertAll(RatesOf(rates, c), rows)
    decreases |rows|
  {
    if rows != [] {
      InsertOwn(rates, rows[..|rows| - 1], c);
    }
  }

  lemma {:induction false} InsertForeign(rates: Rates, rows: seq<FxRateRow>, c: string, d: string)
    requires Only(rows, c) && c != d
    ensures RatesOf(InsertAll(rates, rows), d) == RatesOf(rates, d)
    decreases |rows|
  {
    if rows != [] {
      InsertForeign(rates, rows[..|rows| - 1], c, d);
    }
  }

  /** A visit touches its own currency only. */
  lemma VisitLocal(job: Job, s: Store, c: string, v: Visit, d: string)
    requires Honest(v.answer, c) && c != d
    ensures Of(VisitOne(job, s, c, v), d) == Of(s, d)
  {
    if v.answer.Fetched? {
      InsertForeign(s.rates, v.answer.rows, c, d);
    }
  }

  /** And its effect there depends on that currency only. */
  lemma VisitDepends(job: Job, s: Store, t: Store, c: string, v: Visit)
    requires Honest(v.answer, c) && Of(s, c) == Of(t, c)
    ensures Of(VisitOne(job, s, c, v), c) == Of(VisitOne(job, t, c, v), c)
  {
    SameCount(s, t, c, v.today);
    if v.answer.Fetched? {
      InsertOwn(s.rates, v.answer.rows, c);
      InsertOwn(t.rates, v.answer.rows, c);
    }
  }

  lemma SameCount(s: Store, t: Store, c: string, today: int)
    requires Of(s, c) == Of(t, c)
    ensures RecentCount(s, c, today) == RecentCount(t, c, today)
  {
    var since := today - FRESHNESS_WINDOW;
    forall k
      ensures k in InWindow(s.rates, c, since) <==> k in InWindow(t.rates, c, since)
    {
      assert k in RatesOf(s.rates, c) <==> k in RatesOf(t.rates, c);
    }
    assert InWindow(s.rates, c, since) == InWindow(t.rates, c, since);
  }

  predicate Distinct(cs: seq<string>) {
    forall a, b | 0 <= a < b < |cs| :: cs[a] != cs[b]
  }

  /** Each currency ends a pass exactly as if it had been visited alone, whatever happened to the
      others; a currency not visited stays as it was. */
  lemma {:induction false} PassIsolated(job: Job, s: Store, cs: seq<string>, visits: string -> Visit, c: string)
    requires Distinct(cs) && forall a | 0 <= a < |cs| :: Honest(visits(cs[a]).answer, cs[a])
    ensures Of(VisitAll(job, s, cs, visits), c) == Of(if c in cs then VisitOne(job, s, c, visits(c)) else s, c)
    decreases |cs|
  {
    if cs != [] {
      var n := |cs| - 1;
      var front := VisitAll(job, s, cs[..n], visits);
      PassIsolated(job, s, cs[..n], visits, c);
      assert cs == cs[..n] + [cs[n]];
      if c == cs[n] {
        VisitDepends(job, front, s, c, visits(c));
      } else {
        VisitLocal(job, front, cs[n], visits(cs[n]), c);
      }
    }
  }

  /** Any order of the listing gives every currency the same end. */
  lemma PassOrderFree(job: Job, s: Store, cs: seq<string>, ds: seq<string>, visits: string -> Visit, c: string)
    requires Distinct(cs) && Distinct(ds) && forall e :: e in cs <==> e in ds
    requires forall a | 0 <= a < |cs| :: Honest(visits(cs[a]).answer, cs[a])
    ensures Of(VisitAll(job, s, cs, visits), c) == Of(VisitAll(job, s, ds, visits), c)
  {
    forall a | 0 <= a < |ds|
      ensures Honest(visits(ds[a]).answer, ds[a])
    {
      assert ds[a] in cs;
    }
    PassIsolated(job, s, cs, visits, c);
    PassIsolated(job, s, ds, visits, c);
  }

  /** The first pass that gets rows for a currency finishes its bootstrap, even if the fetches of
      all the others raise. */
  lemma FirstAnswerFinishes(job: Job, s: Store, cs: seq<string>, visits: string -> Visit, c: string)
    requires Distinct(cs) && forall a | 0 <= a < |cs| :: Honest(visits(cs[a]).answer, cs[a])
    requires Settled(s) && c in cs && c in s.tracked && !s.tracked[c].done
    requires visits(c).answer.Fetched? && visits(c).answer.rows != []
    ensures var t := VisitAll(job, s, cs, visits);
            && t.IsDone(c) && t.tracked[c].error.None?
            && RatesOf(t.rates, c) == InsertAll(map[], visits(c).answer.rows)
  {
    var v := visits(c);
    PassIsolated(job, s, cs, visits, c);
    NeverStranded(job, s, c, v);
    var a :| 0 <= a < |cs| && cs[a] == c;
    InsertOwn(s.rates, v.answer.rows, c);
    assert RatesOf(s.rates, c) == map[];
    var one := VisitOne(job, s, c, v);
    assert one == StoredBootstrap(s, c, v.answer.rows, v.now);
    assert Of(VisitAll(job, s, cs, visits), c) == Of(one, c);
  }

  // ----- the repositories and the service -----

  /** The order of character codes, which for currency codes is the alphabet. */
  predicate Precedes(a: string, b: string)
    decreases |a|
  {
    b != [] && (a == [] || a[0] < b[0] || (a[0] == b[0] && Precedes(a[1..], b[1..])))
  }

  /** The first letter in which two codes differ decides. */
  lemma {:induction false} PrecedesByLetter(p: string, x: char, u: string, y: char, v: string)
    requires x < y
    ensures Precedes(p + [x] + u, p + [y] + v)
    decreases |p|
  {
    var a, b := p + [x] + u, p + [y] + v;
    if p != [] {
      assert a[1..] == p[1..] + [x] + u && b[1..] == p[1..] + [y] + v;
      PrecedesByLetter(p[1..], x, u, y, v);
    }
  }

  lemma {:induction false} PrecedesTotal(a: string, b: string)
    ensures a == b || Precedes(a, b) || Precedes(b, a)
    ensures !Precedes(a, a)
    decreases |a|
  {
    if a != [] {
      PrecedesTotal(a[1..], if b == [] then b else b[1..]);
      if b != [] && a[0] == b[0] && a[1..] == b[1..] {
        assert a == [a[0]] + a[1..] && b == [b[0]] + b[1..];
      }
    }
  }

  lemma {:induction false} PrecedesTransitive(a: string, b: string, c: string)
    requires Precedes(a, b) && Precedes(b, c)
    ensures Precedes(a, c)
    decreases |a|
  {
    if a != [] && a[0] == b[0] && b[0] == c[0] {
      PrecedesTransitive(a[1..], b[1..], c[1..]);
    }
  }

  predicate Alphabetical(cs: seq<string>) {
    forall a, b | 0 <= a < b < |cs| :: Precedes(cs[a], cs[b])
  }

  lemma AlphabeticalDistinct(cs: seq<string>)
    requires Alphabetical(cs)
    ensures Distinct(cs)
  {
    forall a, b | 0 <= a < b < |cs| ensures cs[a] != cs[b] {
      PrecedesTotal(cs[a], cs[b]);
    }
  }

  ghost predicate IsListing(cs: seq<string>, f: Flags) {
    Alphabetical(cs) && Distinct(cs) && forall c :: c in cs <==> c in f
  }

  /** Where a currency goes: behind all that precede it. */
  method PlaceOf(cs: seq<string>, c: string) returns (at: nat)
    requires Alphabetical(cs) && c !in cs
    ensures at <= |cs|
    ensures forall a | 0 <= a < at :: Precedes(cs[a], c)
    ensures forall a | at <= a < |cs| :: Precedes(c, cs[a])
  {
    at := |cs|;
    while at > 0 && !Precedes(cs[at - 1], c)
      invariant at <= |cs|
      invariant forall a | at <= a < |cs| :: Precedes(c, cs[a])
    {
      PrecedesTotal(cs[at - 1], c);
      at := at - 1;
    }
    forall a | 0 <= a < at ensures Precedes(cs[a], c) {
      if a < at - 1 {
        PrecedesTransitive(cs[a], cs[at - 1], c);
      }
    }
  }

  lemma PlacedAlphabetical(cs: seq<string>, at: nat, c: string)
    requires Alphabetical(cs) && at <= |cs|
    requires forall a | 0 <= a < at :: Precedes(cs[a], c)
    requires forall a | at <= a < |cs| :: Precedes(c, cs[a])
    ensures Alphabetical(cs[..at] + [c] + cs[at..])
    ensures forall d :: d in cs[..at] + [c] + cs[at..] <==> d in cs || d == c
  {
    var r := cs[..at] + [c] + cs[at..];
    forall a, b | 0 <= a < b < |r| ensures Precedes(r[a], r[b]) {
      var i := if a < at then a else a - 1;
      var j := if b < at then b else b - 1;
      if a != at && b != at {
        assert r[a] == cs[i] && r[b] == cs[j];
      }
    }
    assert cs == cs[..at] + cs[at..];
  }

  class TrackedFxCurrencyRepo {
    var rows: Flags

    constructor (stored: Flags)
      ensures rows == stored
    {
      rows := stored;
    }

    method ListCurrencies() returns (cs: seq<string>)
      ensures IsListing(cs, rows)
    {
      cs := [];
      var rest := rows.Keys;
      while rest != {}
        invariant rest <= rows.Keys && Alphabetical(cs)
        invariant forall c :: c in cs <==> c in rows && c !in rest
        decreases |rest|
      {
        var c :| c in rest;
        rest := rest - {c};
        var at := PlaceOf(cs, c);
        PlacedAlphabetical(cs, at, c);
        cs := cs[..at] + [c] + cs[at..];
      }
      AlphabeticalDistinct(cs);
    }

    method Get(currency: string) returns (tracked: Option<Tracked>)
      ensures tracked == if currency in rows then Some(rows[currency]) else None
    {
      tracked := if currency in rows then Some(rows[currency]) else None;
    }

    method UpsertCurrency(currency: string)
      modifies this
      ensures rows == Registered(old(rows), currency)
    {
      if currency !in rows {
        rows := rows[currency := Tracked(false, None, None)];
      }
    }

    method SetBootstrapDone(currency: string)
      modifies this
      ensures rows == DoneSet(old(rows), currency)
    {
      if currency in rows {
        rows := rows[currency := rows[currency].(done := true)];
      }
    }

    method MarkAttempted(currency: string, error: Option<string>, now: int)
      modifies this
      ensures rows == Marked(old(rows), currency, error, now)
    {
      if currency in rows {
        rows := rows[currency := rows[currency].(error := error, attempted := Some(now))];
      }
    }
  }

  class FxBootstrapService {
    const rateRepo: FxRateRepo
    const trackedRepo: TrackedFxCurrencyRepo

    constructor (rateRepo: FxRateRepo, trackedRepo: TrackedFxCurrencyRepo)
      ensures this.rateRepo == rateRepo && this.trackedRepo == trackedRepo
    {
      this.rateRepo, this.trackedRepo := rateRepo, trackedRepo;
    }

    function Tables(): Store
      reads rateRepo, trackedRepo
    {
      Store(rateRepo.rates, trackedRepo.rows)
    }

    method MaybeBootstrapFx(currency: string, v: Visit)
      modifies rateRepo, trackedRepo
      ensures Tables() == BootstrapOne(old(Tables()), currency, v)
    {
      var count := rateRepo.CountInWindow(currency, v.today - FRESHNESS_WINDOW);
      if count >= BOOTSTRAP_THRESHOLD {
        return;
      }
      match v.answer {
        case Raised(e) =>
          trackedRepo.MarkAttempted(currency, Some(e), v.now);
        case Fetched(rows) =>
          if rows == [] {
            trackedRepo.MarkAttempted(currency, Some(NO_RATES), v.now);
            return;
          }
          var inserted := rateRepo.UpsertMany(rows);
          trackedRepo.SetBootstrapDone(currency);
          trackedRepo.MarkAttempted(currency, None, v.now);
      }
    }

    method MaybeBootstrapFxAllTracked(visits: string -> Visit) returns (ghost cs: seq<string>)
      modifies rateRepo, trackedRepo
      ensures IsListing(cs, old(trackedRepo.rows))
      ensures Tables() == VisitAll(BootstrapJob, old(Tables()), cs, visits)
    {
      ghost var start := Tables();
      var currencies := trackedRepo.ListCurrencies();
      cs := currencies;
      for n := 0 to |currencies|
        invariant Tables() == VisitAll(BootstrapJob, start, currencies[..n], visits)
      {
        assert currencies[..n + 1][..n] == currencies[..n];
        MaybeBootstrapFx(currencies[n], visits(currencies[n]));
      }
      assert currencies[..|currencies|] == currencies;
    }
  }
}
