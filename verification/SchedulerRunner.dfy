/** The scheduler itself: the repositories it works on, the cached state, and its operations. Each
    operation is proved to be a run of the machine, answered by the environment it is given. */
module SchedulerRunner {
  import opened Common
  import opened Windows
  import opened Accounts
  import opened ImportQueue
  import opened SchedulerMachine
  import opened TickRuns
  import opened TickOutcome
  import T = Transactions
  import FxRates
  import Fx = FxLifecycle

  /** Owner of the singleton row of scheduler_state. */
  class SchedulerStateRepo {
    var row: Option<SchedulerState>

    constructor (stored: Option<SchedulerState>)
      ensures row == stored
    {
      row := stored;
    }

    method Read() returns (state: Option<SchedulerState>)
      ensures state == row
    {
      state := row;
    }

    method Write(mode: Mode, error: Option<string>)
      modifies this
      ensures row == Overwritten(old(row), SchedulerState(mode, error))
    {
      if row.Some? {
        row := Some(SchedulerState(mode, error));
      }
    }
  }

  lemma BackfillEachNext(runs: seq<Run>, cards: seq<nat>, i: nat, ws: seq<Window>, now: int)
    requires i < |cards|
    ensures var sofar := BackfillEach(runs, cards[..i], ws, now);
            BackfillEach(runs, cards[..i + 1], ws, now)
              == if HasOpen(sofar, cards[i], Backfill) then sofar else Enqueued(sofar, cards[i], Backfill, ws, now)
  {
    assert cards[..i + 1][..i] == cards[..i];
  }

  lemma LiveEachNext(runs: seq<Run>, cards: seq<nat>, i: nat, w: Window, now: int)
    requires i < |cards|
    ensures var sofar := LiveEach(runs, cards[..i], w, now);
            LiveEach(runs, cards[..i + 1], w, now)
              == if HasOpen(sofar, cards[i], Backfill) || HasOpen(sofar, cards[i], Live) then sofar
                 else Enqueued(sofar, cards[i], Live, [w], now)
  {
    assert cards[..i + 1][..i] == cards[..i];
  }

  /** What a tick without faults does to the state of the scheduler. */
  lemma Concludes(s: State, path: seq<Event>, t: State, inp: TickInput, ch: Choices)
    requires path != [] && Took(s, path, t, inp, ch) && s.pc.Idle? && s.cached.mode.Running? && t.pc.Idle?
    ensures NoFault(inp) ==>
              var rejected := Rejected(s, inp, ch);
              && (rejected.Some? ==> t.cached == SchedulerState(AuthFailed, rejected))
              && (rejected.Some? && s.stored.Some? ==> t.stored == Some(t.cached))
              && (rejected.None? ==> t.cached == s.cached && t.stored == s.stored)
  {
    if NoFault(inp) {
      assert Ticked(s, t, inp, ch);
      StoppedExactly(s, t, inp, ch);
    }
  }

  class SchedulerRunner {
    const runRepo: ImportRunRepo
    const accountRepo: AccountRepo
    const txRepo: T.TransactionRepo
    const stateRepo: SchedulerStateRepo
    var cached: SchedulerState
    ghost var log: seq<Entry>
    ghost var contacts: nat
    ghost var clock: int

    constructor (runRepo: ImportRunRepo, accountRepo: AccountRepo, txRepo: T.TransactionRepo,
                 stateRepo: SchedulerStateRepo)
      ensures this.runRepo == runRepo && this.accountRepo == accountRepo
      ensures this.txRepo == txRepo && this.stateRepo == stateRepo
      ensures cached == SchedulerState(Running, None)
    {
      this.runRepo, this.accountRepo, this.txRepo, this.stateRepo := runRepo, accountRepo, txRepo, stateRepo;
      cached := SchedulerState(Running, None);
      log, contacts, clock := [], 0, 0;
    }

    /** The state of the machine, at a given point of the process. */
    ghost function View(pc: Pc): State
      reads this, runRepo, accountRepo, txRepo, stateRepo
    {
      State(runRepo.rows, accountRepo.rows, txRepo.rows, stateRepo.row, cached, pc, log, contacts, clock)
    }

    /** Start-up, first block. */
    method RecoverInFlight(now: int) returns (count: nat)
      modifies this`clock, runRepo
      ensures runRepo.rows == Swept(old(runRepo.rows), now) && clock == now
      ensures View(Booting) == Do(old(View(Down)), Boot(now))
    {
      count := runRepo.RecoverInFlight(now);
      clock := now;
    }

    /** Start-up, second block: the persisted state is read once. */
    method ReadState()
      modifies this`cached
      ensures View(Idle) == Do(old(View(Booting)), LoadState)
    {
      var stored := stateRepo.Read();
      if stored.None? {
        cached := SchedulerState(Running, None);
      } else {
        cached := stored.value;
      }
    }

    /** `pc` is where the tick stands while the request is served; it stays there. */
    method EnqueueBackfill(account: Option<nat>, months: int, appNow: int, now: int, ghost pc: Pc)
      returns (ids: Result<seq<nat>, string>)
      modifies this`clock, runRepo
      ensures ids.Failure? <==> account.Some? && account.value !in PollableIds(accountRepo.rows)
      ensures ids.Failure? ==> runRepo.rows == old(runRepo.rows)
      ensures ids.Success? ==>
                && runRepo.rows == BackfillEach(old(runRepo.rows), BackfillCards(accountRepo.rows, account).value,
                                                BackfillChunks(appNow, months), now)
                && |ids.value| == |runRepo.rows| - |old(runRepo.rows)|
                && forall n | 0 <= n < |ids.value| :: ids.value[n] == |old(runRepo.rows)| + n
      ensures Enabled(old(View(pc)), AskBackfill(account, months, appNow, now)) ==>
                View(pc) == Do(old(View(pc)), AskBackfill(account, months, appNow, now))
    {
      var cards := PollableIds(accountRepo.rows);
      clock := now;
      if account.Some? {
        if account.value !in cards {
          return Failure(NOT_POLLABLE);
        }
        cards := [account.value];
      }
      var out := EnqueueBackfillEach(cards, BackfillChunks(appNow, months), now);
      ids := Success(out);
    }

    method EnqueueBackfillEach(cards: seq<nat>, chunks: seq<Window>, now: int) returns (out: seq<nat>)
      modifies runRepo
      ensures runRepo.rows == BackfillEach(old(runRepo.rows), cards, chunks, now)
      ensures |out| == |runRepo.rows| - |old(runRepo.rows)|
      ensures forall n | 0 <= n < |out| :: out[n] == |old(runRepo.rows)| + n
    {
      ghost var before := runRepo.rows;
      out := [];
      for i := 0 to |cards|
        invariant runRepo.rows == BackfillEach(before, cards[..i], chunks, now)
        invariant |out| == |runRepo.rows| - |before|
        invariant forall n | 0 <= n < |out| :: out[n] == |before| + n
      {
        BackfillEachNext(before, cards, i, chunks, now);
        var open := runRepo.CountOpen(cards[i], Backfill);
        if open > 0 {
          continue;
        }
        var ids := runRepo.EnqueueBackfill(cards[i], chunks, now);
        out := out + ids;
      }
      assert cards[..|cards|] == cards;
    }

    /** One card of a force-poll request. */
    method EnqueueLiveUnlessOpen(card: nat, w: Window, now: int) returns (id: Option<nat>)
      modifies runRepo
      ensures id.None? <==> HasOpen(old(runRepo.rows), card, Backfill) || HasOpen(old(runRepo.rows), card, Live)
      ensures runRepo.rows == if id.None? then old(runRepo.rows) else Enqueued(old(runRepo.rows), card, Live, [w], now)
      ensures id.Some? ==> id.value == |old(runRepo.rows)|
    {
      var backfill := runRepo.CountOpen(card, Backfill);
      if backfill > 0 {
        return None;
      }
      var live := runRepo.CountOpen(card, Live);
      if live > 0 {
        return None;
      }
      var row := runRepo.EnqueueLive(card, w, now);
      id := Some(row);
    }

    method EnqueueLiveForAllActiveCards(appNow: int, now: int, ghost pc: Pc) returns (out: seq<(nat, nat)>)
      modifies this`clock, runRepo
      ensures runRepo.rows == LiveEach(old(runRepo.rows), PollableIds(accountRepo.rows), LiveWindow(appNow), now)
      ensures |out| == |runRepo.rows| - |old(runRepo.rows)|
      ensures forall k | 0 <= k < |out| ::
                out[k].1 == |old(runRepo.rows)| + k && runRepo.rows[out[k].1].account == out[k].0
      ensures Enabled(old(View(pc)), AskLive(appNow, now)) ==> View(pc) == Do(old(View(pc)), AskLive(appNow, now))
    {
      clock := now;
      out := EnqueueLiveEach(PollableIds(accountRepo.rows), LiveWindow(appNow), now);
    }

    method EnqueueLiveEach(cards: seq<nat>, w: Window, now: int) returns (out: seq<(nat, nat)>)
      modifies runRepo
      ensures runRepo.rows == LiveEach(old(runRepo.rows), cards, w, now)
      ensures |out| == |runRepo.rows| - |old(runRepo.rows)|
      ensures forall k | 0 <= k < |out| ::
                out[k].1 == |old(runRepo.rows)| + k && runRepo.rows[out[k].1].account == out[k].0
    {
      ghost var before := runRepo.rows;
      out := [];
      for i := 0 to |cards|
        invariant runRepo.rows == LiveEach(before, cards[..i], w, now)
        invariant |out| == |runRepo.rows| - |before|
        invariant forall k | 0 <= k < |out| :: out[k].1 == |before| + k && runRepo.rows[out[k].1].account == out[k].0
      {
        LiveEachNext(before, cards, i, w, now);
        var id := EnqueueLiveUnlessOpen(cards[i], w, now);
        if id.Some? {
          out := out + [(cards[i], id.value)];
        }
      }
      assert cards[..|cards|] == cards;
    }

    /** The choice of a card, for whatever the database reports as last live runs. */
    method PickNextActiveCard() returns (card: Option<nat>)
      ensures exists last: map<nat, nat> ::
                IsLastLive(runRepo.rows, last) && card == Pick(runRepo.rows, last, PollableIds(accountRepo.rows))
    {
      var cards := PollableIds(accountRepo.rows);
      var lastLive := runRepo.LastLivePerAccount();
      var eligible: seq<nat> := [];
      for i := 0 to |cards|
        invariant eligible == EligibleCards(runRepo.rows, lastLive, cards[..i])
      {
        assert cards[..i + 1][..i] == cards[..i];
        var backfill := runRepo.CountOpen(cards[i], Backfill);
        if backfill > 0 {
          continue;
        }
        if cards[i] in lastLive && !runRepo.rows[lastLive[cards[i]]].Terminal() {
          continue;
        }
        eligible := eligible + [cards[i]];
      }
      assert cards[..|cards|] == cards;
      if eligible == [] {
        return None;
      }
      card := FirstNeverPolled(lastLive, eligible);
      if card.None? {
        card := Some(LeastRecent(runRepo.rows, lastLive, eligible, DATETIME_MIN));
      }
    }

    method SetStateAuthFailed(error: string)
      modifies this`cached, stateRepo
      ensures View(Idle) == Do(old(View(Sticking(error))), Stick)
    {
      stateRepo.Write(AuthFailed, Some(error));
      cached := SchedulerState(AuthFailed, Some(error));
    }

    /** Sweep and cold boot: the tick goes on to its claim or is over. */
    method Prepare(inp: TickInput, ghost ch: Choices) returns (go: bool, ghost path: seq<Event>)
      requires cached.mode.Running?
      modifies this, runRepo, accountRepo, stateRepo
      ensures Took(old(View(Idle)), path, View(if go then Claiming else Idle), inp, ch)
      ensures path != [] && NoChoice(path)
    {
      ghost var start := View(Idle);
      if inp.fault(Idle).None? {
        var count := runRepo.RecoverInFlight(inp.sweepNow);
      }
      clock := inp.sweepNow;
      ghost var mid := View(CheckingAccounts);
      TookFirst(start, mid, inp, ch);
      path := [StartTick(inp.sweepNow, inp.fault(Idle).None?)];
      ghost var rest: seq<Event>;
      go, rest := EnsureAccountsDiscovered(inp, ch);
      TookOn(start, path, mid, rest, View(if go then Claiming else Idle), inp, ch);
      path := path + rest;
    }

    method EnsureAccountsDiscovered(inp: TickInput, ghost ch: Choices) returns (go: bool, ghost path: seq<Event>)
      modifies this, accountRepo, stateRepo
      ensures Took(old(View(CheckingAccounts)), path, View(if go then Claiming else Idle), inp, ch)
      ensures NoChoice(path)
    {
      ghost var start := View(CheckingAccounts);
      if inp.fault(CheckingAccounts).Some? {
        TookAbort(start, inp, ch);
        return false, [Abort];
      }
      path := [CheckAccounts];
      if accountRepo.rows != [] {
        TookFirst(start, View(Claiming), inp, ch);
        return true, path;
      }
      ghost var mid := View(Discovering);
      TookFirst(start, mid, inp, ch);
      ghost var rest: seq<Event>;
      go, rest := DiscoverAccounts(inp, ch);
      TookOn(start, path, mid, rest, View(if go then Claiming else Idle), inp, ch);
      path := path + rest;
    }

    method DiscoverAccounts(inp: TickInput, ghost ch: Choices) returns (go: bool, ghost path: seq<Event>)
      requires accountRepo.rows == []
      modifies this, accountRepo, stateRepo
      ensures Took(old(View(Discovering)), path, View(if go then Claiming else Idle), inp, ch)
      ensures NoChoice(path)
    {
      ghost var start := View(Discovering);
      contacts := contacts + 1;
      path := [Discover(inp.discovered)];
      go := false;
      if inp.discovered.Delivered? && inp.discovered.value == [] {
        TookFirst(start, View(Claiming), inp, ch);
        go := true;
      } else if inp.discovered.Delivered? {
        ghost var mid := View(StoringAccounts(inp.discovered.value));
        TookFirst(start, mid, inp, ch);
        ghost var rest;
        go, rest := StoreDiscovered(inp.discovered.value, inp, ch);
        TookOn(start, path, mid, rest, View(if go then Claiming else Idle), inp, ch);
        path := path + rest;
      } else if inp.discovered.Unauthorized? {
        ghost var mid := View(Sticking(inp.discovered.error));
        TookFirst(start, mid, inp, ch);
        ghost var rest := StickAuthFailed(inp.discovered.error, inp, ch);
        TookOn(start, path, mid, rest, View(Idle), inp, ch);
        path := path + rest;
      } else {
        TookFirst(start, View(Idle), inp, ch);
      }
    }

    method StoreDiscovered(found: seq<Account>, inp: TickInput, ghost ch: Choices)
      returns (go: bool, ghost path: seq<Event>)
      modifies accountRepo
      ensures Took(old(View(StoringAccounts(found))), path, View(if go then Claiming else Idle), inp, ch)
      ensures NoChoice(path)
    {
      ghost var start := View(StoringAccounts(found));
      if inp.fault(StoringAccounts(found)).Some? {
        TookAbort(start, inp, ch);
        return false, [Abort];
      }
      var n := accountRepo.UpsertMany(found);
      TookFirst(start, View(Claiming), inp, ch);
      go, path := true, [StoreAccounts];
    }

    /** The last block after a 401. */
    method StickAuthFailed(error: string, inp: TickInput, ghost ch: Choices)
      returns (ghost path: seq<Event>)
      modifies this`cached, stateRepo
      ensures Took(old(View(Sticking(error))), path, View(Idle), inp, ch) && NoChoice(path)
    {
      ghost var start := View(Sticking(error));
      if inp.fault(Sticking(error)).Some? {
        TookAbort(start, inp, ch);
        return [Abort];
      }
      SetStateAuthFailed(error);
      TookFirst(start, View(Idle), inp, ch);
      path := [Stick];
    }

    /** Nothing was pending: choose a card and enqueue its live row. */
    method EnqueueNextLive(inp: TickInput, ghost claimed: Option<nat>)
      returns (ghost path: seq<Event>, ghost last: map<nat, nat>)
      modifies this`clock, runRepo
      ensures Took(old(View(Picking)), path, View(Idle), inp, Choices(claimed, last))
    {
      ghost var start := View(Picking);
      last := map[];
      if inp.fault(Picking).Some? {
        TookAbort(start, inp, Choices(claimed, last));
        return [Abort], last;
      }
      var card := PickNextActiveCard();
      last :| IsLastLive(runRepo.rows, last) && card == Pick(runRepo.rows, last, PollableIds(accountRepo.rows));
      ghost var ch := Choices(claimed, last);
      ghost var mid := View(if card.Some? then Picked(card.value) else Idle);
      TookFirst(start, mid, inp, ch);
      path := [PickCard(last)];
      if card.Some? {
        ghost var rest := EnqueuePickedCard(card.value, inp, ch);
        TookOn(start, path, mid, rest, View(Idle), inp, ch);
        path := path + rest;
      }
    }

    method EnqueuePickedCard(card: nat, inp: TickInput, ghost ch: Choices) returns (ghost path: seq<Event>)
      modifies this`clock, runRepo
      ensures Took(old(View(Picked(card))), path, View(Idle), inp, ch)
    {
      ghost var start := View(Picked(card));
      if inp.fault(Picked(card)).Some? {
        TookAbort(start, inp, ch);
        return [Abort];
      }
      var id := runRepo.EnqueueLive(card, LiveWindow(inp.appNow), inp.enqueueNow);
      clock := inp.enqueueNow;
      TookFirst(start, View(Idle), inp, ch);
      path := [EnqueuePicked(inp.appNow, inp.enqueueNow)];
    }

    /** Record how the run in hand failed and, after a 401, stop for good. */
    method RecordFailure(run: nat, error: string, auth: bool, inp: TickInput, ghost ch: Choices)
      returns (ghost path: seq<Event>)
      modifies this, runRepo, stateRepo
      ensures Took(old(View(Failing(run, error, auth))), path, View(Idle), inp, ch)
    {
      ghost var start := View(Failing(run, error, auth));
      if inp.fault(Failing(run, error, auth)).Some? {
        TookAbort(start, inp, ch);
        return [Abort];
      }
      runRepo.MarkError(run, error, inp.recordNow);
      clock := inp.recordNow;
      path := [RecordError(inp.recordNow)];
      ghost var mid := View(if auth then Sticking(error) else Idle);
      TookFirst(start, mid, inp, ch);
      if auth {
        ghost var rest := StickAuthFailed(error, inp, ch);
        TookOn(start, path, mid, rest, View(Idle), inp, ch);
        path := path + rest;
      }
    }

    /** The import transaction did not go through: record the error. */
    method FailStore(run: nat, items: seq<T.Item>, e: Event, error: string, inp: TickInput, ghost ch: Choices)
      returns (ghost path: seq<Event>)
      requires run < |runRepo.rows|
      requires e == Response(Storing(run, items), inp, ch)
      requires var f := inp.fault(Storing(run, items));
               if f.Some? then error == f.value else !T.DistinctIds(items) && error == T.REPEATED_KEY
      modifies this, runRepo, stateRepo
      ensures Took(old(View(Storing(run, items))), path, View(Idle), inp, ch)
    {
      ghost var start := View(Storing(run, items));
      if inp.fault(Storing(run, items)).None? {
        clock := inp.storeNow;
      }
      path := [e];
      ghost var mid := View(Failing(run, error, false));
      StoreFails(start, run, items, error, inp, ch);
      ghost var rest := RecordFailure(run, error, false, inp, ch);
      TookOn(start, path, mid, rest, View(Idle), inp, ch);
      path := path + rest;
    }

    /** Upsert and mark_done in one transaction. */
    method StoreRun(run: nat, items: seq<T.Item>, inp: TickInput, ghost ch: Choices)
      returns (ghost path: seq<Event>)
      requires run < |runRepo.rows|
      modifies this, runRepo, txRepo, stateRepo
      ensures Took(old(View(Storing(run, items))), path, View(Idle), inp, ch)
    {
      ghost var start := View(Storing(run, items));
      var fault := inp.fault(Storing(run, items));
      if fault.Some? {
        path := FailStore(run, items, Break(fault.value), fault.value, inp, ch);
        return;
      }
      var account := runRepo.rows[run].account;
      var counts := txRepo.InsertMany(account, items);
      if counts.Failure? {
        path := FailStore(run, items, Store(inp.storeNow), T.REPEATED_KEY, inp, ch);
        return;
      }
      runRepo.MarkDone(run, |items|, counts.value.0 + counts.value.1, inp.storeNow);
      clock := inp.storeNow;
      log := log + [Imported(run, T.Batch(account, items))];
      StoreIs(start, run, items, inp, ch);
      path := [Store(inp.storeNow)];
    }

    /** Fetch the statement of the claimed run and deal with the answer. */
    method ProcessRun(run: nat, inp: TickInput, ghost ch: Choices) returns (ghost path: seq<Event>)
      requires run < |runRepo.rows|
      modifies this, runRepo, txRepo, stateRepo
      ensures Took(old(View(Holding(run))), path, View(Idle), inp, ch)
    {
      ghost var start := View(Holding(run));
      var fault := inp.fault(Holding(run));
      if fault.Some? {
        path := RecordBreak(run, Holding(run), fault.value, inp, ch);
        return;
      }
      path := [LoadAccount];
      ghost var rest: seq<Event>;
      if runRepo.rows[run].account >= |accountRepo.rows| {
        ghost var mid := View(MissingAccount(run));
        TookFirst(start, mid, inp, ch);
        rest := RecordMissingAccount(run, inp, ch);
        TookOn(start, path, mid, rest, View(Idle), inp, ch);
      } else {
        ghost var mid := View(Fetching(run));
        TookFirst(start, mid, inp, ch);
        rest := AnswerRun(run, inp, ch);
        TookOn(start, path, mid, rest, View(Idle), inp, ch);
      }
      path := path + rest;
    }

    method RecordMissingAccount(run: nat, inp: TickInput, ghost ch: Choices)
      returns (ghost path: seq<Event>)
      modifies this, runRepo, stateRepo
      ensures Took(old(View(MissingAccount(run))), path, View(Idle), inp, ch)
    {
      ghost var start := View(MissingAccount(run));
      var fault := inp.fault(MissingAccount(run));
      if fault.Some? {
        path := RecordBreak(run, MissingAccount(run), fault.value, inp, ch);
        return;
      }
      runRepo.MarkError(run, NO_ACCOUNT_ROW, inp.recordNow);
      clock := inp.recordNow;
      TookFirst(start, View(Idle), inp, ch);
      path := [RecordMissing(inp.recordNow)];
    }

    /** A transaction failed while the tick works on the run: record that. */
    method RecordBreak(run: nat, pc: Pc, error: string, inp: TickInput, ghost ch: Choices)
      returns (ghost path: seq<Event>)
      requires pc == Holding(run) || pc == MissingAccount(run)
      requires inp.fault(pc) == Some(error)
      modifies this, runRepo, stateRepo
      ensures Took(old(View(pc)), path, View(Idle), inp, ch)
    {
      ghost var start := View(pc);
      ghost var mid := View(Failing(run, error, false));
      TookBreak(start, run, error, inp, ch);
      path := [Break(error)];
      ghost var rest := RecordFailure(run, error, false, inp, ch);
      TookOn(start, path, mid, rest, View(Idle), inp, ch);
      path := path + rest;
    }

    method AnswerRun(run: nat, inp: TickInput, ghost ch: Choices) returns (ghost path: seq<Event>)
      requires run < |runRepo.rows|
      modifies this, runRepo, txRepo, stateRepo
      ensures Took(old(View(Fetching(run))), path, View(Idle), inp, ch)
    {
      ghost var start := View(Fetching(run));
      contacts := contacts + 1;
      path := [Fetch(inp.statement)];
      ghost var mid: State;
      ghost var rest: seq<Event>;
      match inp.statement {
        case Delivered(items) =>
          mid := View(Storing(run, items));
          TookFirst(start, mid, inp, ch);
          rest := StoreRun(run, items, inp, ch);
        case Unauthorized(error) =>
          mid := View(Failing(run, error, true));
          TookFirst(start, mid, inp, ch);
          rest := RecordFailure(run, error, true, inp, ch);
        case RateLimited(error) =>
          mid := View(Failing(run, error, false));
          TookFirst(start, mid, inp, ch);
          rest := RecordFailure(run, error, false, inp, ch);
        case Transient(error) =>
          mid := View(Failing(run, error, false));
          TookFirst(start, mid, inp, ch);
          rest := RecordFailure(run, error, false, inp, ch);
        case Broken(error) =>
          mid := View(Failing(run, error, false));
          TookFirst(start, mid, inp, ch);
          rest := RecordFailure(run, error, false, inp, ch);
      }
      TookOn(start, path, mid, rest, View(Idle), inp, ch);
      path := path + rest;
    }

    /** One tick. A scheduler that is not running does nothing. Otherwise the tick is the run of the
        machine that answers every point with its response, from the start until it is idle again:
        with the given clock readings, answers and faults it can do nothing else. */
    method Tick(inp: TickInput) returns (ghost path: seq<Event>, ghost ch: Choices)
      modifies this, runRepo, accountRepo, txRepo, stateRepo
      ensures old(cached.mode) != Running ==> View(Idle) == old(View(Idle)) && path == []
      ensures old(cached.mode) == Running ==> path != [] && Took(old(View(Idle)), path, View(Idle), inp, ch)
      ensures old(cached.mode) == Running && NoFault(inp) ==>
                var rejected := Rejected(old(View(Idle)), inp, ch);
                && (rejected.Some? ==> cached == SchedulerState(AuthFailed, rejected))
                && (rejected.Some? && old(stateRepo.row).Some? ==> stateRepo.row == Some(cached))
                && (rejected.None? ==> cached == old(cached) && stateRepo.row == old(stateRepo.row))
    {
      path, ch := [], Choices(None, map[]);
      if !cached.mode.Running? {
        return;
      }
      ghost var start := View(Idle);
      var go;
      go, path := Prepare(inp, ch);
      if !go {
        Concludes(start, path, View(Idle), inp, ch);
        return;
      }
      ghost var mid := View(Claiming);
      ghost var first := ch;
      ghost var rest: seq<Event>;
      ch, rest := ClaimAndRun(inp);
      TookAnyChoice(start, path, mid, inp, first, ch);
      TookOn(start, path, mid, rest, View(Idle), inp, ch);
      path := path + rest;
      Concludes(start, path, View(Idle), inp, ch);
    }

    /** The rest of the tick: claim, then either process the claimed run or enqueue a live poll. */
    method ClaimAndRun(inp: TickInput) returns (ghost ch: Choices, ghost path: seq<Event>)
      modifies this, runRepo, txRepo, stateRepo
      ensures Took(old(View(Claiming)), path, View(Idle), inp, ch)
    {
      ghost var start := View(Claiming);
      ch := Choices(None, map[]);
      if inp.fault(Claiming).Some? {
        TookAbort(start, inp, ch);
        return ch, [Abort];
      }
      var claimed := runRepo.ClaimNextPending(inp.claimNow);
      clock := inp.claimNow;
      ch := Choices(claimed, map[]);
      ghost var mid := View(if claimed.Some? then Holding(claimed.value) else Picking);
      ghost var rest: seq<Event>;
      if claimed.Some? {
        rest := ProcessRun(claimed.value, inp, ch);
      } else {
        ghost var last;
        rest, last := EnqueueNextLive(inp, claimed);
        ch := Choices(claimed, last);
      }
      TookFirst(start, mid, inp, ch);
      path := [Claim(inp.claimNow, claimed)];
      TookOn(start, path, mid, rest, View(Idle), inp, ch);
      path := path + rest;
    }

    /** The daily pass over the tracked currencies. It reads and writes the two tables of rates, and
        nothing of what the polling of the bank works on. */
    method FxTick(hasImporter: bool, rateRepo: FxRates.FxRateRepo, trackedRepo: Fx.TrackedFxCurrencyRepo,
                  visits: string -> Fx.Visit)
      returns (ghost cs: seq<string>)
      modifies rateRepo, trackedRepo
      ensures !hasImporter ==> rateRepo.rates == old(rateRepo.rates) && trackedRepo.rows == old(trackedRepo.rows)
      ensures hasImporter ==>
                && Fx.IsListing(cs, old(trackedRepo.rows))
                && Fx.Store(rateRepo.rates, trackedRepo.rows)
                   == Fx.VisitAll(Fx.TickJob, old(Fx.Store(rateRepo.rates, trackedRepo.rows)), cs, visits)
      ensures forall pc :: View(pc) == old(View(pc))
    {
      cs := [];
      if !hasImporter {
        return;
      }
      var bootstrap := new Fx.FxBootstrapService(rateRepo, trackedRepo);
      ghost var start := bootstrap.Tables();
      var currencies := trackedRepo.ListCurrencies();
      cs := currencies;
      for n := 0 to |currencies|
        invariant bootstrap.Tables() == Fx.VisitAll(Fx.TickJob, start, currencies[..n], visits)
      {
        assert currencies[..n + 1][..n] == currencies[..n];
        FxTickCurrency(currencies[n], bootstrap, visits(currencies[n]));
      }
      assert currencies[..|currencies|] == currencies;
    }

    method FxTickCurrency(currency: string, bootstrap: Fx.FxBootstrapService, v: Fx.Visit)
      modifies bootstrap.rateRepo, bootstrap.trackedRepo
      ensures bootstrap.Tables() == Fx.TickOne(old(bootstrap.Tables()), currency, v)
    {
      var tracked := bootstrap.trackedRepo.Get(currency);
      var bootstrapDone := tracked.Some? && tracked.value.done;
      if !bootstrapDone {
        bootstrap.MaybeBootstrapFx(currency, v);
        return;
      }
      match v.answer {
        case Raised(_) =>
          return;
        case Fetched(rows) =>
          if rows == [] {
            bootstrap.trackedRepo.MarkAttempted(currency, Some(Fx.NO_RATES), v.now);
            return;
          }
          var inserted := bootstrap.rateRepo.UpsertMany(rows);
          bootstrap.trackedRepo.MarkAttempted(currency, None, v.now);
      }
    }
  }
}
