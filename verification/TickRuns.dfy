/** One tick as a run of the machine: which event it answers at each point, given its environment. */
module TickRuns {
  import opened Common
  import opened Accounts
  import opened ImportQueue
  import opened SchedulerMachine
  import T = Transactions

  /** What the environment does during one tick: clock readings, answers of the bank, and whether
      the database transaction at a point fails, with which error. */
  datatype TickInput = TickInput(
    sweepNow: int,
    discovered: Answer<seq<Account>>,
    claimNow: int,
    appNow: int,
    enqueueNow: int,
    statement: Answer<seq<T.Item>>,
    storeNow: int,
    recordNow: int,
    fault: Pc -> Option<string>)

  /** What the database chooses during one tick: the row it lets the tick claim, and the last live
      rows it reports. */
  datatype Choices = Choices(claimed: Option<nat>, last: map<nat, nat>)

  /** What a tick does at a point whose transaction fails: while it works on a run it records the
      error there, everything else ends the tick. The sweep's failure is part of its own event. */
  function Faulted(pc: Pc, error: string): Event {
    if pc.Holding? || pc.MissingAccount? || pc.Storing? then Break(error) else Abort
  }

  /** The points at which a tick is about to run a transaction that is not the sweep. */
  predicate InDatabase(pc: Pc) {
    !pc.Down? && !pc.Booting? && !pc.Idle? && !pc.Discovering? && !pc.Fetching?
  }

  /** What a tick does at each point. */
  function Response(pc: Pc, inp: TickInput, ch: Choices): Event {
    if InDatabase(pc) && inp.fault(pc).Some? then Faulted(pc, inp.fault(pc).value)
    else Unfaulted(pc, inp, ch)
  }

  function Unfaulted(pc: Pc, inp: TickInput, ch: Choices): Event {
    match pc
    case Down => Crash
    case Booting => Crash
    case Idle => StartTick(inp.sweepNow, inp.fault(Idle).None?)
    case CheckingAccounts => CheckAccounts
    case Discovering => Discover(inp.discovered)
    case StoringAccounts(_) => StoreAccounts
    case Claiming => Claim(inp.claimNow, ch.claimed)
    case Picking => PickCard(ch.last)
    case Picked(_) => EnqueuePicked(inp.appNow, inp.enqueueNow)
    case Holding(_) => LoadAccount
    case MissingAccount(_) => RecordMissing(inp.recordNow)
    case Fetching(_) => Fetch(inp.statement)
    case Storing(_, _) => Store(inp.storeNow)
    case Failing(_, _, _) => RecordError(inp.recordNow)
    case Sticking(_) => Stick
  }

  /** A path on which every event is the response to the point it is at, and which does not go on
      once the tick is over. */
  predicate Follows(s: State, path: seq<Event>, inp: TickInput, ch: Choices)
    requires Legal(s, path)
    decreases |path|
  {
    path == [] || (
      var n := |path| - 1;
      && Follows(s, path[..n], inp, ch)
      && path[n] == Response(Exec(s, path[..n]).pc, inp, ch)
      && (n > 0 ==> !Exec(s, path[..n]).pc.Idle?))
  }

  /** The tick took s to t along the path. */
  ghost predicate Took(s: State, path: seq<Event>, t: State, inp: TickInput, ch: Choices) {
    Legal(s, path) && Exec(s, path) == t && Follows(s, path, inp, ch)
  }

  lemma TookFirst(s: State, t: State, inp: TickInput, ch: Choices)
    requires Enabled(s, Response(s.pc, inp, ch)) && t == Do(s, Response(s.pc, inp, ch))
    ensures Took(s, [Response(s.pc, inp, ch)], t, inp, ch)
  {
    assert [Response(s.pc, inp, ch)][..0] == [];
  }

  lemma TookStep(s: State, path: seq<Event>, t: State, e: Event, u: State, inp: TickInput, ch: Choices)
    requires Took(s, path, t, inp, ch) && (path != [] ==> !t.pc.Idle?)
    requires e == Response(t.pc, inp, ch) && Enabled(t, e) && u == Do(t, e)
    ensures Took(s, path + [e], u, inp, ch)
  {
    assert (path + [e])[..|path|] == path;
  }

  lemma TookLast(s: State, path: seq<Event>, t: State, inp: TickInput, ch: Choices)
    requires Took(s, path, t, inp, ch) && path != []
    ensures var n := |path| - 1;
            && Legal(s, path[..n])
            && var mid := Exec(s, path[..n]);
            && Took(s, path[..n], mid, inp, ch)
            && path[n] == Response(mid.pc, inp, ch) && Enabled(mid, path[n]) && t == Do(mid, path[n])
            && (n > 0 ==> !mid.pc.Idle?)
  {
  }

  lemma {:induction false} TookOn(s: State, a: seq<Event>, t: State, b: seq<Event>, u: State,
                                  inp: TickInput, ch: Choices)
    requires Took(s, a, t, inp, ch) && Took(t, b, u, inp, ch)
    requires a != [] ==> !t.pc.Idle?
    ensures Took(s, a + b, u, inp, ch)
    decreases |b|
  {
    if b == [] {
      assert a + b == a;
    } else {
      TookLast(t, b, u, inp, ch);
      var front := b[..|b| - 1];
      var mid := Exec(t, front);
      TookOn(s, a, t, front, mid, inp, ch);
      Regroup(a, b);
      TookStep(s, a + front, mid, b[|b| - 1], u, inp, ch);
    }
  }

  predicate NoChoice(path: seq<Event>) {
    forall k | 0 <= k < |path| :: !path[k].Claim? && !path[k].PickCard?
  }

  lemma ResponseAnyChoice(pc: Pc, e: Event, inp: TickInput, c: Choices, d: Choices)
    requires e == Response(pc, inp, c) && !e.Claim? && !e.PickCard?
    ensures e == Response(pc, inp, d)
  {
  }

  /** What the database chooses matters only where it chooses. */
  lemma {:induction false} TookAnyChoice(s: State, path: seq<Event>, t: State, inp: TickInput, c: Choices, d: Choices)
    requires Took(s, path, t, inp, c) && NoChoice(path)
    ensures Took(s, path, t, inp, d)
    decreases |path|
  {
    if path != [] {
      TookLast(s, path, t, inp, c);
      var n := |path| - 1;
      var mid := Exec(s, path[..n]);
      TookAnyChoice(s, path[..n], mid, inp, c, d);
      ResponseAnyChoice(mid.pc, path[n], inp, c, d);
      TookStep(s, path[..n], mid, path[n], t, inp, d);
      assert path == path[..n] + [path[n]];
    }
  }

  /** The one step of a tick that imports. */
  lemma StoreIs(s: State, run: nat, items: seq<T.Item>, inp: TickInput, ch: Choices)
    requires s.pc == Storing(run, items) && run < |s.runs| && T.DistinctIds(items) && inp.fault(s.pc).None?
    ensures var batch := T.Batch(s.runs[run].account, items);
            var t := s.(txs := T.Ingest(s.txs, batch), runs := MarkedDone(s.runs, run, inp.storeNow, |items|, |items|),
                        log := s.log + [Imported(run, batch)], pc := Idle, clock := inp.storeNow);
            Took(s, [Store(inp.storeNow)], t, inp, ch)
  {
    TookFirst(s, Do(s, Store(inp.storeNow)), inp, ch);
  }

  /** The one step of a tick whose import transaction does not go through. */
  lemma StoreFails(s: State, run: nat, items: seq<T.Item>, error: string, inp: TickInput, ch: Choices)
    requires s.pc == Storing(run, items) && run < |s.runs|
    requires if inp.fault(s.pc).Some? then error == inp.fault(s.pc).value
             else !T.DistinctIds(items) && error == T.REPEATED_KEY
    ensures var e := Response(s.pc, inp, ch);
            var t := s.(pc := Failing(run, error, false),
                        clock := if inp.fault(s.pc).None? then inp.storeNow else s.clock);
            Took(s, [e], t, inp, ch)
  {
    var e := Response(s.pc, inp, ch);
    TookFirst(s, Do(s, e), inp, ch);
  }

  /** A tick that ends where it stands. */
  lemma TookAbort(s: State, inp: TickInput, ch: Choices)
    requires InDatabase(s.pc) && inp.fault(s.pc).Some? && Faulted(s.pc, inp.fault(s.pc).value) == Abort
    ensures Took(s, [Abort], s.(pc := Idle), inp, ch)
  {
    TookFirst(s, Do(s, Abort), inp, ch);
  }

  /** A transaction that fails while the tick works on a run. */
  lemma TookBreak(s: State, run: nat, error: string, inp: TickInput, ch: Choices)
    requires s.pc == Holding(run) || s.pc == MissingAccount(run)
    requires inp.fault(s.pc) == Some(error)
    ensures Took(s, [Break(error)], s.(pc := Failing(run, error, false)), inp, ch)
  {
    TookFirst(s, Do(s, Break(error)), inp, ch);
  }
}
