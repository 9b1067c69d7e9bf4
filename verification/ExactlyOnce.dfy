/** Safety of the scheduler over whole runs: exactly-once import, permanence of terminal runs,
    and the sticky authentication failure. */
module ExactlyOnce {
  import opened Common
  import opened Windows
  import opened Accounts
  import opened ImportQueue
  import opened SchedulerMachine
  import T = Transactions

  // ----- what one block may do to the queue -----

  /** A row of the queue keeps what it was created with, and a terminal row keeps everything. */
  predicate Evolves(a: Run, b: Run) {
    && a.account == b.account && a.kind == b.kind && a.window == b.window && a.createdAt == b.createdAt
    && (a.Terminal() ==> b == a)
  }

  ghost predicate QueueEvolves(before: seq<Run>, after: seq<Run>) {
    |before| <= |after| && forall i | 0 <= i < |before| :: Evolves(before[i], after[i])
  }

  /** The run in the process's hands is in flight. */
  ghost predicate HeldInFlight(s: State) {
    s.pc.Held().Some? ==> s.pc.Held().value < |s.runs| && s.runs[s.pc.Held().value].status.InFlight?
  }

  lemma EnqueuedAppends(runs: seq<Run>, sofar: seq<Run>, c: nat, kind: Kind, ws: seq<Window>, now: int)
    requires |runs| <= |sofar| && sofar[..|runs|] == runs
    requires forall i | |runs| <= i < |sofar| :: sofar[i].status.Pending? && sofar[i].createdAt == now
    ensures var r := Enqueued(sofar, c, kind, ws, now);
            && r[..|runs|] == runs
            && forall i | |runs| <= i < |r| :: r[i].status.Pending? && r[i].createdAt == now
  {
    var r := Enqueued(sofar, c, kind, ws, now);
    EnqueuedRows(sofar, c, kind, ws, now);
    assert r[..|runs|] == sofar[..|runs|];
  }

  lemma {:induction false} BackfillEachAppends(runs: seq<Run>, cards: seq<nat>, ws: seq<Window>, now: int)
    ensures var r := BackfillEach(runs, cards, ws, now);
            && r[..|runs|] == runs
            && forall i | |runs| <= i < |r| :: r[i].status.Pending? && r[i].createdAt == now
    decreases |cards|
  {
    if cards != [] {
      var n := |cards| - 1;
      var sofar := BackfillEach(runs, cards[..n], ws, now);
      BackfillEachAppends(runs, cards[..n], ws, now);
      EnqueuedAppends(runs, sofar, cards[n], Backfill, ws, now);
    }
  }

  lemma {:induction false} LiveEachAppends(runs: seq<Run>, cards: seq<nat>, w: Window, now: int)
    ensures var r := LiveEach(runs, cards, w, now);
            && r[..|runs|] == runs
            && forall i | |runs| <= i < |r| :: r[i].status.Pending? && r[i].createdAt == now
    decreases |cards|
  {
    if cards != [] {
      var n := |cards| - 1;
      var sofar := LiveEach(runs, cards[..n], w, now);
      LiveEachAppends(runs, cards[..n], w, now);
      EnqueuedAppends(runs, sofar, cards[n], Live, [w], now);
    }
  }

  /** Requests only append pending rows stamped with the time of the request. */
  lemma RequestsAppend(s: State, e: Event)
    requires Enabled(s, e) && (e.AskBackfill? || e.AskLive? || e.EnqueuePicked?)
    ensures var r := Do(s, e).runs;
            && |s.runs| <= |r| && r[..|s.runs|] == s.runs
            && forall i | |s.runs| <= i < |r| :: r[i].status.Pending? && r[i].createdAt == e.now
  {
    match e
    case AskBackfill(account, months, appNow, now) =>
      var cards := BackfillCards(s.accounts, account);
      if cards.Success? {
        BackfillEachAppends(s.runs, cards.value, BackfillChunks(appNow, months), now);
      }
    case AskLive(appNow, now) =>
      LiveEachAppends(s.runs, PollableIds(s.accounts), LiveWindow(appNow), now);
    case EnqueuePicked(appNow, now) =>
  }

  /** Every block keeps the rows' identity and never touches a terminal row, because the
      unguarded mark_done and mark_error only ever meet the run in hand, which is in flight. */
  lemma StepEvolves(s: State, e: Event)
    requires Enabled(s, e) && HeldInFlight(s)
    ensures QueueEvolves(s.runs, Do(s, e).runs) && HeldInFlight(Do(s, e))
  {
    if e.AskBackfill? || e.AskLive? || e.EnqueuePicked? {
      RequestsAppend(s, e);
      var r := Do(s, e).runs;
      assert forall i | 0 <= i < |s.runs| :: r[i] == r[..|s.runs|][i];
    } else {
      StepEvolvesInPlace(s, e);
    }
  }

  predicate TouchesRuns(e: Event) {
    e.Boot? || e.StartTick? || e.Claim? || e.Store? || e.RecordMissing? || e.RecordError?
  }

  lemma StepEvolvesInPlace(s: State, e: Event)
    requires Enabled(s, e) && HeldInFlight(s)
    requires !e.AskBackfill? && !e.AskLive? && !e.EnqueuePicked?
    ensures |Do(s, e).runs| == |s.runs|
    ensures QueueEvolves(s.runs, Do(s, e).runs) && HeldInFlight(Do(s, e))
  {
    if !TouchesRuns(e) {
      OtherEventsKeepRuns(s, e);
    } else if e.Boot? || e.StartTick? {
      SweepEvolves(s, e);
    } else {
      MarksEvolve(s, e);
    }
  }

  lemma OtherEventsKeepRuns(s: State, e: Event)
    requires Enabled(s, e) && HeldInFlight(s)
    requires !e.AskBackfill? && !e.AskLive? && !e.EnqueuePicked? && !TouchesRuns(e)
    ensures Do(s, e).runs == s.runs
    ensures Do(s, e).pc.Held().Some? ==> s.pc.Held() == Do(s, e).pc.Held()
  {
  }

  lemma SweepEvolves(s: State, e: Event)
    requires Enabled(s, e) && (e.Boot? || e.StartTick?)
    ensures |Do(s, e).runs| == |s.runs|
    ensures QueueEvolves(s.runs, Do(s, e).runs) && Do(s, e).pc.Held().None?
  {
  }

  lemma MarksEvolve(s: State, e: Event)
    requires Enabled(s, e) && HeldInFlight(s)
    requires e.Claim? || e.Store? || e.RecordMissing? || e.RecordError?
    ensures |Do(s, e).runs| == |s.runs|
    ensures QueueEvolves(s.runs, Do(s, e).runs) && HeldInFlight(Do(s, e))
  {
    if !e.Claim? {
      var i := s.pc.Held().value;
      var after := Do(s, e).runs;
      assert forall j | 0 <= j < |after| && j != i :: after[j] == s.runs[j];
    }
  }

  lemma {:induction false} AlwaysHeldInFlight(s: State, es: seq<Event>)
    requires HeldInFlight(s) && Legal(s, es)
    ensures HeldInFlight(Exec(s, es))
    decreases |es|
  {
    if es != [] {
      AlwaysHeldInFlight(s, es[..|es| - 1]);
      StepEvolves(Exec(s, es[..|es| - 1]), es[|es| - 1]);
    }
  }

  /** Over any run, with crashes and restarts: a done or failed run never becomes pending or
      in-flight again, nor changes in any other way. */
  lemma {:induction false} TerminalForever(s: State, es: seq<Event>)
    requires HeldInFlight(s) && Legal(s, es)
    ensures QueueEvolves(s.runs, Exec(s, es).runs)
    decreases |es|
  {
    if es != [] {
      var n := |es| - 1;
      TerminalForever(s, es[..n]);
      AlwaysHeldInFlight(s, es[..n]);
      var mid := Exec(s, es[..n]);
      StepEvolves(mid, es[n]);
      forall i | 0 <= i < |s.runs| ensures Evolves(s.runs[i], Do(mid, es[n]).runs[i]) {
        assert Evolves(s.runs[i], mid.runs[i]) && Evolves(mid.runs[i], Do(mid, es[n]).runs[i]);
      }
    }
  }

  // ----- exactly once -----

  function Writes(log: seq<Entry>): (events: seq<T.TxEvent>)
    ensures |events| == |log|
    ensures forall k | 0 <= k < |log| :: events[k] ==
              if log[k].Imported? then T.Upserted(log[k].batch) else log[k].event
  {
    seq(|log|, k requires 0 <= k < |log| => if log[k].Imported? then T.Upserted(log[k].batch) else log[k].event)
  }

  /** How often the batch of a run was applied. */
  function Times(log: seq<Entry>, run: nat): nat
    decreases |log|
  {
    if log == [] then 0
    else
      var last := log[|log| - 1];
      Times(log[..|log| - 1], run) + (if last.Imported? && last.run == run then 1 else 0)
  }

  /** An applied batch is the one its run asked for: for the run's account, with distinct keys,
      and counted in the run's row. */
  ghost predicate Sound(s: State, entry: Entry) {
    entry.Imported? ==>
      && entry.run < |s.runs|
      && s.runs[entry.run].account == entry.batch.account
      && s.runs[entry.run].statementCount == Some(|entry.batch.items|)
      && s.runs[entry.run].inserted == Some(|entry.batch.items|)
      && T.DistinctIds(entry.batch.items)
  }

  ghost predicate Inv(s: State) {
    && HeldInFlight(s)
    && s.txs == T.After([], Writes(s.log))
    && (forall r: nat :: Times(s.log, r) == if r < |s.runs| && s.runs[r].status.Done? then 1 else 0)
    && (forall k | 0 <= k < |s.log| :: Sound(s, s.log[k]))
    && (forall k | 0 <= k < |s.log| && s.log[k].Imported? ::
          s.log[k].run < |s.runs| && s.runs[s.log[k].run].status.Done?)
  }

  lemma WritesGrow(s: State, entry: Entry)
    requires s.txs == T.After([], Writes(s.log))
    ensures T.After([], Writes(s.log + [entry])) ==
            T.Effect(s.txs, if entry.Imported? then T.Upserted(entry.batch) else entry.event)
    ensures forall r: nat :: Times(s.log + [entry], r)
                             == Times(s.log, r) + (if entry.Imported? && entry.run == r then 1 else 0)
  {
    var w := Writes(s.log + [entry]);
    assert w[..|s.log|] == Writes(s.log);
    assert (s.log + [entry])[..|s.log|] == s.log;
  }

  /** Marking the run in hand done keeps the entries sound, and the new entry is sound. */
  lemma StoreKeepsSound(s: State, now: int, k: nat)
    requires Inv(s) && s.pc.Storing? && T.DistinctIds(s.pc.items)
    requires var t := Do(s, Store(now)); k < |t.log|
    ensures var t := Do(s, Store(now));
            && Sound(t, t.log[k])
            && (t.log[k].Imported? ==> t.log[k].run < |t.runs| && t.runs[t.log[k].run].status.Done?)
  {
    if k < |s.log| {
      assert Sound(s, s.log[k]);
    }
  }

  lemma StoreShape(s: State, now: int)
    requires HeldInFlight(s) && s.pc.Storing? && T.DistinctIds(s.pc.items)
    ensures var batch := T.Batch(s.runs[s.pc.run].account, s.pc.items);
            var t := Do(s, Store(now));
            && t.log == s.log + [Imported(s.pc.run, batch)] && t.txs == T.Ingest(s.txs, batch)
            && |t.runs| == |s.runs| && t.runs[s.pc.run].status.Done? && !s.runs[s.pc.run].status.Done?
            && forall r | 0 <= r < |s.runs| && r != s.pc.run :: t.runs[r] == s.runs[r]
  {
  }

  lemma StoreIsLogged(s: State, now: int)
    requires Inv(s) && s.pc.Storing? && T.DistinctIds(s.pc.items)
    ensures var t := Do(s, Store(now));
            && t.txs == T.After([], Writes(t.log))
            && forall r: nat :: Times(t.log, r) == if r < |t.runs| && t.runs[r].status.Done? then 1 else 0
  {
    StoreShape(s, now);
    WritesGrow(s, Imported(s.pc.run, T.Batch(s.runs[s.pc.run].account, s.pc.items)));
  }

  lemma StoreKeepsInv(s: State, now: int)
    requires Inv(s) && s.pc.Storing?
    ensures Inv(Do(s, Store(now)))
  {
    if T.DistinctIds(s.pc.items) {
      var t := Do(s, Store(now));
      StoreIsLogged(s, now);
      assert HeldInFlight(t);
      forall k | 0 <= k < |t.log|
        ensures Sound(t, t.log[k])
        ensures t.log[k].Imported? ==> t.log[k].run < |t.runs| && t.runs[t.log[k].run].status.Done?
      {
        StoreKeepsSound(s, now, k);
      }
    }
  }

  lemma DoneOnlyByStore(s: State, e: Event, r: nat)
    requires Inv(s) && Enabled(s, e) && !e.Store?
    ensures (r < |Do(s, e).runs| && Do(s, e).runs[r].status.Done?) <==> (r < |s.runs| && s.runs[r].status.Done?)
  {
    if e.AskBackfill? || e.AskLive? || e.EnqueuePicked? {
      RequestsAppend(s, e);
      var q := Do(s, e).runs;
      assert r < |s.runs| ==> q[r] == q[..|s.runs|][r];
    } else {
      NoNewDone(s, e, r);
    }
  }

  lemma NoNewDone(s: State, e: Event, r: nat)
    requires Inv(s) && Enabled(s, e) && !e.Store?
    requires !e.AskBackfill? && !e.AskLive? && !e.EnqueuePicked?
    ensures |Do(s, e).runs| == |s.runs|
    ensures r < |s.runs| ==> (Do(s, e).runs[r].status.Done? <==> s.runs[r].status.Done?)
  {
  }

  lemma OtherKeepsSound(s: State, e: Event, k: nat)
    requires Inv(s) && Enabled(s, e) && !e.Store? && k < |Do(s, e).log|
    ensures Sound(Do(s, e), Do(s, e).log[k])
  {
    var t := Do(s, e);
    StepEvolves(s, e);
    if !e.WriteOutside? {
      LogOnlyByWrites(s, e);
    }
    if k < |s.log| && s.log[k].Imported? {
      assert Sound(s, s.log[k]) && Evolves(s.runs[s.log[k].run], t.runs[s.log[k].run]);
    }
  }

  lemma OtherKeepsInv(s: State, e: Event)
    requires Inv(s) && Enabled(s, e) && !e.Store?
    ensures Inv(Do(s, e))
  {
    var t := Do(s, e);
    StepEvolves(s, e);
    if e.WriteOutside? {
      WritesGrow(s, Outside(e.event));
    } else {
      LogOnlyByWrites(s, e);
    }
    forall r: nat ensures Times(t.log, r) == if r < |t.runs| && t.runs[r].status.Done? then 1 else 0 {
      DoneOnlyByStore(s, e, r);
    }
    forall k | 0 <= k < |t.log| ensures Sound(t, t.log[k]) {
      OtherKeepsSound(s, e, k);
    }
    forall k | 0 <= k < |t.log| && t.log[k].Imported?
      ensures t.log[k].run < |t.runs| && t.runs[t.log[k].run].status.Done?
    {
      DoneOnlyByStore(s, e, t.log[k].run);
    }
  }

  lemma LogOnlyByWrites(s: State, e: Event)
    requires Enabled(s, e) && !e.Store? && !e.WriteOutside?
    ensures Do(s, e).log == s.log && Do(s, e).txs == s.txs
  {
  }

  /** Exactly-once import. After any sequence of blocks, answers, crashes, restarts, sweeps and
      requests from the migrated database: the transactions table is the fold of the logged
      writes in commit order; every done run's batch is in the log exactly once, and no other
      run is there at all. */
  lemma {:induction false} ImportsExactlyOnce(es: seq<Event>)
    requires Legal(MIGRATED, es)
    ensures Inv(Exec(MIGRATED, es))
    decreases |es|
  {
    if es != [] {
      var n := |es| - 1;
      ImportsExactlyOnce(es[..n]);
      var s := Exec(MIGRATED, es[..n]);
      if es[n].Store? {
        StoreKeepsInv(s, es[n].now);
      } else {
        OtherKeepsInv(s, es[n]);
      }
    }
  }

  /** Applied once means: at one position of the log and at no other. */
  lemma {:induction false} OnceIsOnePlace(log: seq<Entry>, run: nat)
    requires Times(log, run) == 1
    ensures exists k | 0 <= k < |log| ::
      && log[k].Imported? && log[k].run == run
      && forall j | 0 <= j < |log| && j != k :: !(log[j].Imported? && log[j].run == run)
    decreases |log|
  {
    var n := |log| - 1;
    if log[n].Imported? && log[n].run == run {
      NoneIsNoPlace(log[..n], run);
      assert forall j | 0 <= j < n :: log[..n][j] == log[j];
    } else {
      OnceIsOnePlace(log[..n], run);
      var k :| 0 <= k < n && log[..n][k].Imported? && log[..n][k].run == run
               && forall j | 0 <= j < n && j != k :: !(log[..n][j].Imported? && log[..n][j].run == run);
      assert log[k] == log[..n][k];
      assert forall j | 0 <= j < n :: log[..n][j] == log[j];
    }
  }

  lemma {:induction false} NoneIsNoPlace(log: seq<Entry>, run: nat)
    requires Times(log, run) == 0
    ensures forall j | 0 <= j < |log| :: !(log[j].Imported? && log[j].run == run)
    decreases |log|
  {
    if log != [] {
      var n := |log| - 1;
      NoneIsNoPlace(log[..n], run);
      assert forall j | 0 <= j < n :: log[..n][j] == log[j];
    }
  }

  // ----- the sticky authentication failure -----

  predicate Persisted(s: State) {
    s.stored.Some? && s.stored.value.mode.AuthFailed?
  }

  /** The singleton row exists, a cached failure is persisted, and with a persisted one no process
      that has read it is in a tick. */
  predicate AuthInv(s: State) {
    && s.stored.Some?
    && (s.cached.mode.AuthFailed? ==> Persisted(s))
    && (Persisted(s) ==> s.pc.Down? || s.pc.Booting? || (s.pc.Idle? && s.cached.mode.AuthFailed?))
    && (s.pc.InTick() ==> s.cached.mode.Running?)
  }

  predicate TickEvent(e: Event) {
    !e.Boot? && !e.LoadState? && !e.Crash? && !e.AskBackfill? && !e.AskLive? && !e.WriteOutside?
  }

  lemma AuthStep(s: State, e: Event)
    requires AuthInv(s) && Enabled(s, e)
    ensures AuthInv(Do(s, e))
    ensures Persisted(s) ==> Do(s, e).stored == s.stored && !TickEvent(e) && Do(s, e).contacts == s.contacts
  {
  }

  /** In every run with restarts a cached auth_failed implies a persisted one. */
  lemma {:induction false} CachedImpliesPersisted(es: seq<Event>)
    requires Legal(MIGRATED, es)
    ensures AuthInv(Exec(MIGRATED, es))
    decreases |es|
  {
    if es != [] {
      CachedImpliesPersisted(es[..|es| - 1]);
      AuthStep(Exec(MIGRATED, es[..|es| - 1]), es[|es| - 1]);
    }
  }

  /** Once the failure is persisted it is never left, by any process: from then on no block of
      any tick runs, so no tick touches an import run, and the bank is not contacted. */
  lemma {:induction false} AuthFailureSticks(s: State, es: seq<Event>)
    requires AuthInv(s) && Persisted(s) && Legal(s, es)
    ensures Exec(s, es).stored == s.stored && Exec(s, es).contacts == s.contacts && AuthInv(Exec(s, es))
    ensures forall k | 0 <= k < |es| :: !TickEvent(es[k])
    decreases |es|
  {
    if es != [] {
      var n := |es| - 1;
      AuthFailureSticks(s, es[..n]);
      AuthStep(Exec(s, es[..n]), es[n]);
      forall k | 0 <= k < |es|
        ensures !TickEvent(es[k])
      {
        if k < n {
          assert es[..n][k] == es[k];
        }
      }
    }
  }

  /** A failure recorded by one process is what the next one reads at its start exactly when the
      singleton row exists; without it the next process runs. */
  lemma FailureOutlivesProcess(s: State, now: int)
    requires s.pc.Sticking?
    ensures var es := [Stick, Crash, Boot(now), LoadState];
            && Legal(s, es)
            && (s.stored.Some? <==> Exec(s, es).cached == SchedulerState(AuthFailed, Some(s.pc.reason)))
            && (s.stored.None? <==> Exec(s, es).cached.mode.Running?)
  {
    var a, b, c := [Stick], [Stick, Crash], [Stick, Crash, Boot(now)];
    var es := [Stick, Crash, Boot(now), LoadState];
    assert a[..0] == [] && b[..1] == a && c[..2] == b && es[..3] == c;
    assert Legal(s, a) && Exec(s, a) == Do(s, Stick);
    assert Legal(s, b) && Exec(s, b) == Do(Exec(s, a), Crash);
    assert Legal(s, c) && Exec(s, c) == Do(Exec(s, b), Boot(now));
    assert Legal(s, es) && Exec(s, es) == Do(Exec(s, c), LoadState);
  }

  predicate Rejection(e: Event) {
    (e.Discover? && e.found.Unauthorized?) || (e.Fetch? && e.statement.Unauthorized?)
  }

  predicate Rejects(e: Event, error: string) {
    (e.Discover? && e.found == Unauthorized(error)) || (e.Fetch? && e.statement == Unauthorized(error))
  }

  /** Between the 401 and the end of its tick, and ever after: the failure is on its way, or it is
      cached and, with a row, persisted. */
  predicate Stopping(s: State, error: string, rowExists: bool) {
    && s.stored.Some? == rowExists
    && (|| s.pc == Sticking(error)
        || (s.pc.Failing? && s.pc.auth && s.pc.error == error)
        || (s.pc.Idle? && s.cached == SchedulerState(AuthFailed, Some(error))
            && (rowExists ==> s.stored == Some(s.cached))))
  }

  lemma StoppingStep(s: State, e: Event, error: string, rowExists: bool)
    requires Stopping(s, error, rowExists) && Enabled(s, e) && !e.Abort? && !e.Crash?
    ensures Stopping(Do(s, e), error, rowExists)
  {
  }

  lemma RejectionStarts(s: State, e: Event, error: string)
    requires Enabled(s, e) && Rejects(e, error)
    ensures Stopping(Do(s, e), error, s.stored.Some?)
  {
  }

  lemma {:induction false} StaysStopping(s: State, es: seq<Event>, k: nat, error: string)
    requires Legal(s, es) && k < |es| && Rejects(es[k], error)
    requires forall j | k < j < |es| :: !es[j].Abort? && !es[j].Crash?
    ensures Stopping(Exec(s, es), error, s.stored.Some?)
    decreases |es|
  {
    var n := |es| - 1;
    var mid := Exec(s, es[..n]);
    if k == n {
      RowStays(s, es[..n]);
      RejectionStarts(mid, es[n], error);
    } else {
      assert forall j | 0 <= j < n :: es[..n][j] == es[j];
      StaysStopping(s, es[..n], k, error);
      StoppingStep(mid, es[n], error, s.stored.Some?);
    }
  }

  /** No block creates or removes the singleton row. */
  lemma {:induction false} RowStays(s: State, es: seq<Event>)
    requires Legal(s, es)
    ensures Exec(s, es).stored.Some? == s.stored.Some?
    decreases |es|
  {
    if es != [] {
      RowStays(s, es[..|es| - 1]);
      RowStaysStep(Exec(s, es[..|es| - 1]), es[|es| - 1]);
    }
  }

  lemma RowStaysStep(s: State, e: Event)
    requires Enabled(s, e)
    ensures Do(s, e).stored.Some? == s.stored.Some?
  {
  }

  /** In every run: once the bank has answered 401, to discovery or to the request for a statement, and
      the tick is over without its process dying or an exception escaping, the scheduler is stopped in
      this process, for exactly that reason, and with a singleton row it is so persistently. */
  lemma RejectionStops(s: State, es: seq<Event>, k: nat, error: string)
    requires Legal(s, es) && k < |es| && Rejects(es[k], error)
    requires forall j | k < j < |es| :: !es[j].Abort? && !es[j].Crash?
    requires Exec(s, es).pc.Idle?
    ensures Exec(s, es).cached == SchedulerState(AuthFailed, Some(error))
    ensures s.stored.Some? ==> Exec(s, es).stored == Some(SchedulerState(AuthFailed, Some(error)))
  {
    StaysStopping(s, es, k, error);
  }

  predicate NotRejected(s: State) {
    !s.pc.Sticking? && (s.pc.Failing? ==> !s.pc.auth)
  }

  lemma NotRejectedStep(s: State, e: Event)
    requires NotRejected(s) && Enabled(s, e) && !Rejection(e)
    ensures NotRejected(Do(s, e)) && Do(s, e).stored == s.stored
  {
  }

  /** Only a 401 changes the persisted state: rate limits, transient failures, crashes and every
      other exception leave it as it is. */
  lemma {:induction false} OnlyRejectionSticks(s: State, es: seq<Event>)
    requires NotRejected(s) && Legal(s, es)
    requires forall k | 0 <= k < |es| :: !Rejection(es[k])
    ensures Exec(s, es).stored == s.stored && NotRejected(Exec(s, es))
    decreases |es|
  {
    if es != [] {
      var n := |es| - 1;
      assert forall k | 0 <= k < n :: es[..n][k] == es[k];
      OnlyRejectionSticks(s, es[..n]);
      NotRejectedStep(Exec(s, es[..n]), es[n]);
    }
  }
}
