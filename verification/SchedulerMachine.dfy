/** The import scheduler as a machine of atomic blocks. Every event is one database transaction,
    one answer from the bank, or the death of the process. Whatever the environment decides (which
    of several oldest rows is claimed, what the bank answers, what the clocks say, when requests
    and crashes fall) is in the event; the machine itself is deterministic. */
module SchedulerMachine {
  import opened Common
  import opened Windows
  import opened Accounts
  import opened ImportQueue
  import T = Transactions

  datatype Mode = Running | Stopped | AuthFailed

  datatype SchedulerState = SchedulerState(mode: Mode, lastError: Option<string>)

  /** What a process that reads the singleton row goes by: without a row it runs. */
  function Effective(row: Option<SchedulerState>): SchedulerState {
    if row.Some? then row.value else SchedulerState(Running, None)
  }

  /** UPDATE ... WHERE id = 1: it does not create the row. */
  function Overwritten(row: Option<SchedulerState>, state: SchedulerState): Option<SchedulerState> {
    if row.Some? then Some(state) else None
  }

  /** Where the process is between two blocks. All of it is lost in a crash. */
  datatype Pc =
    | Down
    | Booting
    | Idle
    | CheckingAccounts
    | Discovering
    | StoringAccounts(found: seq<Account>)
    | Claiming
    | Picking
    | Picked(card: nat)
    | Holding(run: nat)
    | MissingAccount(run: nat)
    | Fetching(run: nat)
    | Storing(run: nat, items: seq<T.Item>)
    | Failing(run: nat, error: string, auth: bool)
    | Sticking(reason: string)
  {
    function Held(): Option<nat> {
      if Holding? || MissingAccount? || Fetching? || Storing? || Failing? then Some(run) else None
    }

    predicate InTick() {
      !Down? && !Booting? && !Idle?
    }
  }

  datatype Answer<T> =
    | Delivered(value: T)
    | Unauthorized(error: string)
    | RateLimited(error: string)
    | Transient(error: string)
    | Broken(error: string)

  /** Who wrote to the transactions table: a scheduler run, or anybody else. */
  datatype Entry = Imported(run: nat, batch: T.Batch) | Outside(event: T.TxEvent)

  datatype State = State(
    runs: seq<Run>,
    accounts: seq<Account>,
    txs: seq<T.Tx>,
    stored: Option<SchedulerState>,    // the singleton row of scheduler_state
    cached: SchedulerState,
    pc: Pc,
    log: seq<Entry>,      // history: the committed writes to txs, in commit order
    contacts: nat,        // history: requests sent to the bank by the scheduler
    clock: int)           // history: the last database timestamp

  datatype Event =
    | Boot(now: int)
    | LoadState
    | StartTick(now: int, sweepOk: bool)
    | CheckAccounts
    | Discover(found: Answer<seq<Account>>)
    | StoreAccounts
    | Claim(now: int, choice: Option<nat>)
    | PickCard(last: map<nat, nat>)
    | EnqueuePicked(appNow: int, now: int)
    | LoadAccount
    | Fetch(statement: Answer<seq<T.Item>>)
    | Store(now: int)
    | Break(error: string)
    | RecordMissing(now: int)
    | RecordError(now: int)
    | Stick
    | Abort
    | Crash
    | AskBackfill(account: Option<nat>, months: int, appNow: int, now: int)
    | AskLive(appNow: int, now: int)
    | WriteOutside(event: T.TxEvent)

  const NO_ACCOUNT_ROW: string := "account row missing"
  const NOT_POLLABLE: string := "account not found or not pollable"
  const LOOKBACK := 3_600 * MICROS

  function LiveWindow(now: int): Window {
    Window(now - LOOKBACK, now)
  }

  /** The cards a backfill request is for; asking for one card that is not pollable is an error. */
  function BackfillCards(accounts: seq<Account>, account: Option<nat>): Result<seq<nat>, string> {
    var cards := PollableIds(accounts);
    if account.None? then Success(cards)
    else if account.value in cards then Success([account.value])
    else Failure(NOT_POLLABLE)
  }

  function BackfillEach(runs: seq<Run>, cards: seq<nat>, ws: seq<Window>, now: int): (r: seq<Run>)
    ensures |runs| <= |r|
    decreases |cards|
  {
    if cards == [] then runs
    else
      var sofar := BackfillEach(runs, cards[..|cards| - 1], ws, now);
      var c := cards[|cards| - 1];
      if HasOpen(sofar, c, Backfill) then sofar else Enqueued(sofar, c, Backfill, ws, now)
  }

  function LiveEach(runs: seq<Run>, cards: seq<nat>, w: Window, now: int): (r: seq<Run>)
    ensures |runs| <= |r|
    decreases |cards|
  {
    if cards == [] then runs
    else
      var sofar := LiveEach(runs, cards[..|cards| - 1], w, now);
      var c := cards[|cards| - 1];
      if HasOpen(sofar, c, Backfill) || HasOpen(sofar, c, Live) then sofar
      else Enqueued(sofar, c, Live, [w], now)
  }

  predicate Enabled(s: State, e: Event) {
    match e
    case Boot(_) => s.pc.Down?
    case LoadState => s.pc.Booting?
    case StartTick(_, _) => s.pc.Idle? && s.cached.mode.Running?
    case CheckAccounts => s.pc.CheckingAccounts?
    case Discover(_) => s.pc.Discovering?
    case StoreAccounts => s.pc.StoringAccounts?
    case Claim(_, choice) => s.pc.Claiming? && Claimable(s.runs, choice)
    case PickCard(last) => s.pc.Picking? && IsLastLive(s.runs, last)
    case EnqueuePicked(_, _) => s.pc.Picked?
    case LoadAccount => s.pc.Holding?
    case Fetch(_) => s.pc.Fetching?
    case Store(_) => s.pc.Storing?
    case Break(_) => s.pc.Holding? || s.pc.MissingAccount? || s.pc.Fetching? || s.pc.Storing?
    case RecordMissing(_) => s.pc.MissingAccount?
    case RecordError(_) => s.pc.Failing?
    case Stick => s.pc.Sticking?
    case Abort => s.pc.InTick() && (s.pc.Held().None? || s.pc.Failing?)
    case Crash => !s.pc.Down?
    case AskBackfill(_, months, _, _) => !s.pc.Down? && !s.pc.Booting? && 1 <= months <= 36
    case AskLive(_, _) => !s.pc.Down? && !s.pc.Booting?
    case WriteOutside(_) => true
  }

  function Do(s: State, e: Event): State
    requires Enabled(s, e)
  {
    match e
    // start-up: sweep, then read the persisted state once
    case Boot(now) => s.(runs := Swept(s.runs, now), pc := Booting, clock := now)
    case LoadState => s.(cached := Effective(s.stored), pc := Idle)
    // one tick
    case StartTick(now, ok) =>
      s.(runs := if ok then Swept(s.runs, now) else s.runs, pc := CheckingAccounts, clock := now)
    case CheckAccounts => s.(pc := if s.accounts == [] then Discovering else Claiming)
    case Discover(found) => AfterDiscovery(s, found)
    case StoreAccounts => s.(accounts := StoreAll(s.accounts, s.pc.found), pc := Claiming)
    case Claim(now, choice) =>
      if choice.Some?
      then s.(runs := Claimed(s.runs, choice.value, now), pc := Holding(choice.value), clock := now)
      else s.(pc := Picking, clock := now)
    case PickCard(last) =>
      var card := Pick(s.runs, last, PollableIds(s.accounts));
      s.(pc := if card.Some? then Picked(card.value) else Idle)
    case EnqueuePicked(appNow, now) =>
      s.(runs := Enqueued(s.runs, s.pc.card, Live, [LiveWindow(appNow)], now), pc := Idle, clock := now)
    case LoadAccount =>
      var r := s.pc.run;
      s.(pc := if r < |s.runs| && s.runs[r].account < |s.accounts| then Fetching(r) else MissingAccount(r))
    case Fetch(answer) => AfterFetch(s, answer)
    case Store(now) => AfterStore(s, now)
    // any other exception while a run is in hand
    case Break(error) => s.(pc := Failing(s.pc.run, error, false))
    case RecordMissing(now) =>
      s.(runs := MarkedError(s.runs, s.pc.run, now, NO_ACCOUNT_ROW), pc := Idle, clock := now)
    case RecordError(now) =>
      s.(runs := MarkedError(s.runs, s.pc.run, now, s.pc.error),
         pc := if s.pc.auth then Sticking(s.pc.error) else Idle, clock := now)
    case Stick =>
      var failed := SchedulerState(AuthFailed, Some(s.pc.reason));
      s.(stored := Overwritten(s.stored, failed), cached := failed, pc := Idle)
    // an exception that nothing in the tick catches
    case Abort => s.(pc := Idle)
    case Crash => s.(pc := Down, cached := SchedulerState(Running, None))
    // requests
    case AskBackfill(account, months, appNow, now) =>
      var cards := BackfillCards(s.accounts, account);
      if cards.Failure? then s.(clock := now)
      else s.(runs := BackfillEach(s.runs, cards.value, BackfillChunks(appNow, months), now), clock := now)
    case AskLive(appNow, now) =>
      s.(runs := LiveEach(s.runs, PollableIds(s.accounts), LiveWindow(appNow), now), clock := now)
    case WriteOutside(event) => s.(txs := T.Effect(s.txs, event), log := s.log + [Outside(event)])
  }

  function AfterDiscovery(s: State, found: Answer<seq<Account>>): State {
    var t := s.(contacts := s.contacts + 1);
    match found
    case Delivered(accounts) => t.(pc := if accounts == [] then Claiming else StoringAccounts(accounts))
    case Unauthorized(error) => t.(pc := Sticking(error))
    case RateLimited(_) => t.(pc := Idle)
    case Transient(_) => t.(pc := Idle)
    case Broken(_) => t.(pc := Idle)
  }

  function AfterFetch(s: State, answer: Answer<seq<T.Item>>): State
    requires s.pc.Fetching?
  {
    var t := s.(contacts := s.contacts + 1);
    match answer
    case Delivered(items) => t.(pc := Storing(s.pc.run, items))
    case Unauthorized(error) => t.(pc := Failing(s.pc.run, error, true))
    case RateLimited(error) => t.(pc := Failing(s.pc.run, error, false))
    case Transient(error) => t.(pc := Failing(s.pc.run, error, false))
    case Broken(error) => t.(pc := Failing(s.pc.run, error, false))
  }

  /** Upsert and mark_done in one transaction: a rejected batch rolls both back. */
  function AfterStore(s: State, now: int): State
    requires s.pc.Storing?
  {
    var run, items := s.pc.run, s.pc.items;
    if run >= |s.runs| || !T.DistinctIds(items) then
      s.(pc := Failing(run, T.REPEATED_KEY, false), clock := now)
    else
      var batch := T.Batch(s.runs[run].account, items);
      s.(txs := T.Ingest(s.txs, batch), runs := MarkedDone(s.runs, run, now, |items|, |items|),
         log := s.log + [Imported(run, batch)], pc := Idle, clock := now)
  }

  // ----- runs of the machine -----

  function Exec(s: State, es: seq<Event>): State
    requires Legal(s, es)
    decreases |es|, 1
  {
    if es == [] then s else Do(Exec(s, es[..|es| - 1]), es[|es| - 1])
  }

  predicate Legal(s: State, es: seq<Event>)
    decreases |es|, 0
  {
    es == [] || (Legal(s, es[..|es| - 1]) && Enabled(Exec(s, es[..|es| - 1]), es[|es| - 1]))
  }

  /** The database as the migrations leave it, no process running. */
  const MIGRATED :=
    State([], [], [], Some(SchedulerState(Running, None)), SchedulerState(Running, None), Down, [], 0, 0)
}
