/** What a whole tick leaves in the tables and in the process, when none of its transactions fails: one
    statement for each way a tick can go, over its inputs and the state it starts from. */
module TickOutcome {
  import opened Common
  import opened Windows
  import opened Accounts
  import opened ImportQueue
  import opened SchedulerMachine
  import opened TickRuns
  import T = Transactions

  /** The tick goes on from s for n blocks and is over in t. */
  ghost predicate EndsIn(s: State, t: State, inp: TickInput, ch: Choices, n: nat)
    decreases n
  {
    if n == 0 then s.pc.Idle? && t == s
    else
      var e := Response(s.pc, inp, ch);
      !s.pc.Idle? && Enabled(s, e) && EndsIn(Do(s, e), t, inp, ch, n - 1)
  }

  /** A tick that does something, from its start to its end. */
  ghost predicate Ticked(s: State, t: State, inp: TickInput, ch: Choices) {
    && s.pc.Idle? && s.cached.mode.Running? && t.pc.Idle?
    && exists path :: path != [] && Took(s, path, t, inp, ch)
  }

  ghost predicate NoFault(inp: TickInput) {
    forall pc :: inp.fault(pc).None?
  }

  lemma {:induction false} TookHead(s: State, path: seq<Event>, t: State, inp: TickInput, ch: Choices)
    requires Took(s, path, t, inp, ch) && path != []
    ensures var e := Response(s.pc, inp, ch);
            && Enabled(s, e) && Took(Do(s, e), path[1..], t, inp, ch)
            && (|path| > 1 ==> !Do(s, e).pc.Idle?)
    decreases |path|
  {
    TookLast(s, path, t, inp, ch);
    var n := |path| - 1;
    var mid := Exec(s, path[..n]);
    if n == 0 {
      assert path[..0] == [] && path[1..] == [];
    } else {
      TookHead(s, path[..n], mid, inp, ch);
      TookTail(Do(s, Response(s.pc, inp, ch)), path, mid, t, inp, ch);
    }
  }

  lemma TookTail(u: State, path: seq<Event>, mid: State, t: State, inp: TickInput, ch: Choices)
    requires |path| > 1
    requires var n := |path| - 1;
             && Took(u, path[..n][1..], mid, inp, ch) && !mid.pc.Idle?
             && path[n] == Response(mid.pc, inp, ch) && Enabled(mid, path[n]) && t == Do(mid, path[n])
    ensures Took(u, path[1..], t, inp, ch)
  {
    var n := |path| - 1;
    TookStep(u, path[..n][1..], mid, path[n], t, inp, ch);
    assert path[1..] == path[..n][1..] + [path[n]];
  }

  lemma {:induction false} PathEnds(s: State, path: seq<Event>, t: State, inp: TickInput, ch: Choices)
    requires Took(s, path, t, inp, ch) && t.pc.Idle? && (s.pc.Idle? ==> path == [])
    ensures EndsIn(s, t, inp, ch, |path|)
    decreases |path|
  {
    if path != [] {
      TookHead(s, path, t, inp, ch);
      PathEnds(Do(s, Response(s.pc, inp, ch)), path[1..], t, inp, ch);
    }
  }

  /** The first block of a tick. */
  lemma Starts(s: State, t: State, inp: TickInput, ch: Choices) returns (m: nat)
    requires Ticked(s, t, inp, ch)
    ensures Enabled(s, Response(s.pc, inp, ch)) && EndsIn(Do(s, Response(s.pc, inp, ch)), t, inp, ch, m)
  {
    var path :| path != [] && Took(s, path, t, inp, ch);
    TookHead(s, path, t, inp, ch);
    PathEnds(Do(s, Response(s.pc, inp, ch)), path[1..], t, inp, ch);
    m := |path| - 1;
  }

  /** One block of a tick that is under way. */
  lemma Next(s: State, t: State, u: State, inp: TickInput, ch: Choices, n: nat) returns (m: nat)
    requires EndsIn(s, t, inp, ch, n) && !s.pc.Idle?
    requires Enabled(s, Response(s.pc, inp, ch)) ==> u == Do(s, Response(s.pc, inp, ch))
    ensures Enabled(s, Response(s.pc, inp, ch)) && EndsIn(u, t, inp, ch, m)
  {
    m := n - 1;
  }

  lemma Over(s: State, t: State, inp: TickInput, ch: Choices, n: nat)
    requires EndsIn(s, t, inp, ch, n) && s.pc.Idle?
    ensures t == s
  {
  }

  // ----- up to the claim -----

  lemma ToCheck(s: State, t: State, inp: TickInput, ch: Choices) returns (m: nat)
    requires Ticked(s, t, inp, ch) && NoFault(inp)
    ensures var swept := s.(runs := Swept(s.runs, inp.sweepNow), clock := inp.sweepNow);
            && (s.accounts == [] ==> EndsIn(swept.(pc := Discovering), t, inp, ch, m))
            && (s.accounts != [] ==> EndsIn(swept.(pc := Claiming), t, inp, ch, m))
  {
    var swept := s.(runs := Swept(s.runs, inp.sweepNow), clock := inp.sweepNow);
    m := Starts(s, t, inp, ch);
    assert Do(s, Response(s.pc, inp, ch)) == swept.(pc := CheckingAccounts);
    m := Checked(swept.(pc := CheckingAccounts), t, inp, ch, m);
  }

  lemma Checked(f: State, t: State, inp: TickInput, ch: Choices, n: nat) returns (m: nat)
    requires NoFault(inp) && f.pc == CheckingAccounts && EndsIn(f, t, inp, ch, n)
    ensures EndsIn(f.(pc := if f.accounts == [] then Discovering else Claiming), t, inp, ch, m)
  {
    m := Next(f, t, f.(pc := if f.accounts == [] then Discovering else Claiming), inp, ch, n);
  }

  /** The state at the claim of a tick: the stale runs are back in the queue and, where no account was
      known, those the bank named are stored. */
  ghost function AtClaim(s: State, inp: TickInput): State {
    s.(runs := Swept(s.runs, inp.sweepNow),
       accounts := if s.accounts == [] && inp.discovered.Delivered? then StoreAll([], inp.discovered.value)
                   else s.accounts,
       contacts := s.contacts + (if s.accounts == [] then 1 else 0),
       clock := inp.sweepNow,
       pc := Claiming)
  }

  lemma StoredFound(f: State, t: State, inp: TickInput, ch: Choices, found: seq<Account>, n: nat) returns (m: nat)
    requires NoFault(inp) && f.pc == StoringAccounts(found) && EndsIn(f, t, inp, ch, n)
    ensures EndsIn(f.(accounts := StoreAll(f.accounts, found), pc := Claiming), t, inp, ch, m)
  {
    m := Next(f, t, f.(accounts := StoreAll(f.accounts, found), pc := Claiming), inp, ch, n);
  }

  lemma Discovered(f: State, t: State, u: State, inp: TickInput, ch: Choices, found: seq<Account>, n: nat)
    returns (m: nat)
    requires NoFault(inp) && f.pc == Discovering && EndsIn(f, t, inp, ch, n) && inp.discovered == Delivered(found)
    requires u == f.(accounts := StoreAll(f.accounts, found), contacts := f.contacts + 1, pc := Claiming)
    ensures EndsIn(u, t, inp, ch, m)
  {
    var asked := f.(contacts := f.contacts + 1);
    if found == [] {
      m := Next(f, t, u, inp, ch, n);
    } else {
      m := Next(f, t, asked.(pc := StoringAccounts(found)), inp, ch, n);
      m := StoredFound(asked.(pc := StoringAccounts(found)), t, inp, ch, found, m);
    }
  }

  lemma Stopped(f: State, t: State, inp: TickInput, ch: Choices, error: string, n: nat)
    requires NoFault(inp) && f.pc == Sticking(error) && EndsIn(f, t, inp, ch, n)
    ensures var failed := SchedulerState(AuthFailed, Some(error));
            t == f.(stored := if f.stored.Some? then Some(failed) else None, cached := failed, pc := Idle)
  {
    var failed := SchedulerState(AuthFailed, Some(error));
    var stopped := f.(stored := Overwritten(f.stored, failed), cached := failed, pc := Idle);
    var m := Next(f, t, stopped, inp, ch, n);
    Over(stopped, t, inp, ch, m);
  }

  lemma ToClaim(s: State, t: State, inp: TickInput, ch: Choices) returns (m: nat)
    requires Ticked(s, t, inp, ch) && NoFault(inp)
    requires s.accounts != [] || inp.discovered.Delivered?
    ensures EndsIn(AtClaim(s, inp), t, inp, ch, m)
  {
    m := ToCheck(s, t, inp, ch);
    if s.accounts == [] {
      m := ToClaimAsking(s, t, inp, ch, m);
    } else {
      assert s.(runs := Swept(s.runs, inp.sweepNow), clock := inp.sweepNow, pc := Claiming) == AtClaim(s, inp);
    }
  }

  lemma ToClaimAsking(s: State, t: State, inp: TickInput, ch: Choices, n: nat) returns (m: nat)
    requires NoFault(inp) && s.accounts == [] && inp.discovered.Delivered?
    requires EndsIn(s.(runs := Swept(s.runs, inp.sweepNow), clock := inp.sweepNow, pc := Discovering), t, inp, ch, n)
    ensures EndsIn(AtClaim(s, inp), t, inp, ch, m)
  {
    var asking := s.(runs := Swept(s.runs, inp.sweepNow), clock := inp.sweepNow, pc := Discovering);
    m := Discovered(asking, t, AtClaim(s, inp), inp, ch, inp.discovered.value, n);
  }

  // ----- the discovery of accounts -----

  /** A 401 on discovery stops the scheduler, for good where the singleton row exists, and touches
      nothing but the stale runs. */
  lemma DiscoveryRejected(s: State, t: State, inp: TickInput, ch: Choices, error: string)
    requires Ticked(s, t, inp, ch) && NoFault(inp) && s.accounts == [] && inp.discovered == Unauthorized(error)
    ensures t.cached == SchedulerState(AuthFailed, Some(error))
    ensures t.stored == if s.stored.Some? then Some(t.cached) else None
    ensures t.runs == Swept(s.runs, inp.sweepNow) && t.accounts == [] && t.txs == s.txs && t.log == s.log
  {
    var m := ToCheck(s, t, inp, ch);
    var asking := s.(runs := Swept(s.runs, inp.sweepNow), clock := inp.sweepNow, pc := Discovering);
    var sticking := asking.(contacts := s.contacts + 1, pc := Sticking(error));
    m := Next(asking, t, sticking, inp, ch, m);
    Stopped(sticking, t, inp, ch, error, m);
  }

  /** Any other failure of discovery ends the tick and changes nothing but the stale runs. */
  lemma DiscoveryFailed(s: State, t: State, inp: TickInput, ch: Choices)
    requires Ticked(s, t, inp, ch) && NoFault(inp) && s.accounts == []
    requires !inp.discovered.Delivered? && !inp.discovered.Unauthorized?
    ensures t == s.(runs := Swept(s.runs, inp.sweepNow), contacts := s.contacts + 1, clock := inp.sweepNow)
  {
    var m := ToCheck(s, t, inp, ch);
    var asking := s.(runs := Swept(s.runs, inp.sweepNow), clock := inp.sweepNow, pc := Discovering);
    var over := s.(runs := Swept(s.runs, inp.sweepNow), contacts := s.contacts + 1, clock := inp.sweepNow);
    m := Next(asking, t, over, inp, ch, m);
    Over(over, t, inp, ch, m);
  }

  // ----- a claimed run -----

  /** The tick claims run r, and the run's account is known. */
  ghost predicate Claims(s: State, inp: TickInput, ch: Choices, r: nat) {
    && (s.accounts != [] || inp.discovered.Delivered?)
    && ch.claimed == Some(r) && r < |s.runs| && s.runs[r].account < |AtClaim(s, inp).accounts|
  }

  /** The state when the statement of run r is asked for. */
  ghost function AtFetch(s: State, inp: TickInput, r: nat): State
    requires r < |s.runs|
  {
    var c := AtClaim(s, inp);
    c.(runs := Claimed(c.runs, r, inp.claimNow), clock := inp.claimNow, pc := Fetching(r))
  }

  lemma ToFetch(s: State, t: State, inp: TickInput, ch: Choices, r: nat) returns (m: nat)
    requires Ticked(s, t, inp, ch) && NoFault(inp) && Claims(s, inp, ch, r)
    ensures var c := AtClaim(s, inp);
            && c.runs[r].status.Pending?
            && EndsIn(AtFetch(s, inp, r), t, inp, ch, m)
  {
    m := ToClaim(s, t, inp, ch);
    var c := AtClaim(s, inp);
    var held := c.(runs := Claimed(c.runs, r, inp.claimNow), clock := inp.claimNow, pc := Holding(r));
    m := Next(c, t, held, inp, ch, m);
    assert held.runs[r].account == s.runs[r].account;
    m := Next(held, t, AtFetch(s, inp, r), inp, ch, m);
  }

  /** How the claimed row ends when its poll fails: the error is on record with its time, the attempt is
      counted, and no other row moves. */
  ghost predicate EndsInError(before: seq<Run>, after: seq<Run>, r: nat, inp: TickInput, error: string)
    requires r < |before|
  {
    && |after| == |before|
    && after[r] == before[r].(status := Error, attempts := before[r].attempts + 1, startedAt := Some(inp.claimNow),
                              completedAt := Some(inp.recordNow), lastError := Some(error))
    && forall i | 0 <= i < |before| && i != r :: after[i] == before[i]
  }

  lemma ToError(f: State, t: State, inp: TickInput, ch: Choices, r: nat, error: string, auth: bool, n: nat)
    requires NoFault(inp) && r < |f.runs|
    requires EndsIn(f.(pc := Failing(r, error, auth)), t, inp, ch, n)
    ensures var marked := f.(runs := MarkedError(f.runs, r, inp.recordNow, error), clock := inp.recordNow);
            var failed := SchedulerState(AuthFailed, Some(error));
            t == if auth then
                   marked.(stored := if f.stored.Some? then Some(failed) else None, cached := failed, pc := Idle)
                 else marked.(pc := Idle)
  {
    var marked := f.(runs := MarkedError(f.runs, r, inp.recordNow, error), clock := inp.recordNow);
    var failed := SchedulerState(AuthFailed, Some(error));
    if auth {
      var m := Next(f.(pc := Failing(r, error, auth)), t, marked.(pc := Sticking(error)), inp, ch, n);
      Stopped(marked.(pc := Sticking(error)), t, inp, ch, error, m);
    } else {
      var m := Next(f.(pc := Failing(r, error, auth)), t, marked.(pc := Idle), inp, ch, n);
      Over(marked.(pc := Idle), t, inp, ch, m);
    }
  }

  /** A 401 on a statement ends its run in error and stops the scheduler, for good where the singleton
      row exists. Nothing is imported. */
  lemma StatementRejected(s: State, t: State, inp: TickInput, ch: Choices, r: nat, error: string)
    requires Ticked(s, t, inp, ch) && NoFault(inp) && Claims(s, inp, ch, r) && inp.statement == Unauthorized(error)
    ensures t.cached == SchedulerState(AuthFailed, Some(error))
    ensures t.stored == if s.stored.Some? then Some(t.cached) else None
    ensures EndsInError(Swept(s.runs, inp.sweepNow), t.runs, r, inp, error) && t.txs == s.txs && t.log == s.log
  {
    var m := ToFetch(s, t, inp, ch, r);
    var f := AtFetch(s, inp, r);
    var answered := f.(contacts := f.contacts + 1);
    m := AnsweredError(f, t, inp, ch, r, error, m);
    ToError(answered, t, inp, ch, r, error, true, m);
    RowsError(Swept(s.runs, inp.sweepNow), r, inp, error);
  }

  /** A 429, a transient failure or any other exception ends the run in error and leaves the scheduler
      running; the next tick goes on. Nothing is imported. */
  lemma StatementFailed(s: State, t: State, inp: TickInput, ch: Choices, r: nat, error: string)
    requires Ticked(s, t, inp, ch) && NoFault(inp) && Claims(s, inp, ch, r)
    requires inp.statement in {RateLimited(error), Transient(error), Broken(error)}
    ensures t.cached == s.cached && t.stored == s.stored
    ensures EndsInError(Swept(s.runs, inp.sweepNow), t.runs, r, inp, error) && t.txs == s.txs && t.log == s.log
  {
    var m := ToFetch(s, t, inp, ch, r);
    var f := AtFetch(s, inp, r);
    var answered := f.(contacts := f.contacts + 1);
    m := AnsweredError(f, t, inp, ch, r, error, m);
    ToError(answered, t, inp, ch, r, error, false, m);
    RowsError(Swept(s.runs, inp.sweepNow), r, inp, error);
  }

  lemma AnsweredItems(f: State, t: State, inp: TickInput, ch: Choices, r: nat, items: seq<T.Item>, n: nat)
    returns (m: nat)
    requires f.pc == Fetching(r) && inp.statement == Delivered(items) && EndsIn(f, t, inp, ch, n)
    ensures EndsIn(f.(contacts := f.contacts + 1, pc := Storing(r, items)), t, inp, ch, m)
  {
    m := Next(f, t, f.(contacts := f.contacts + 1, pc := Storing(r, items)), inp, ch, n);
  }

  lemma AnsweredError(f: State, t: State, inp: TickInput, ch: Choices, r: nat, error: string, n: nat) returns (m: nat)
    requires f.pc == Fetching(r) && EndsIn(f, t, inp, ch, n)
    requires inp.statement in {Unauthorized(error), RateLimited(error), Transient(error), Broken(error)}
    ensures EndsIn(f.(contacts := f.contacts + 1, pc := Failing(r, error, inp.statement.Unauthorized?)), t, inp, ch, m)
  {
    m := Next(f, t, f.(contacts := f.contacts + 1, pc := Failing(r, error, inp.statement.Unauthorized?)), inp, ch, n);
  }

  /** The import transaction of a batch without repetitions. */
  lemma Imports(f: State, t: State, inp: TickInput, ch: Choices, r: nat, items: seq<T.Item>, n: nat)
    requires NoFault(inp) && f.pc == Storing(r, items) && r < |f.runs| && T.DistinctIds(items)
    requires EndsIn(f, t, inp, ch, n)
    ensures t == f.(txs := T.UpsertAll(f.txs, f.runs[r].account, items),
                    runs := MarkedDone(f.runs, r, inp.storeNow, |items|, |items|),
                    log := f.log + [Imported(r, T.Batch(f.runs[r].account, items))],
                    clock := inp.storeNow, pc := Idle)
  {
    var over := Do(f, Store(inp.storeNow));
    var m := Next(f, t, over, inp, ch, n);
    Over(over, t, inp, ch, m);
  }

  lemma Refused(f: State, t: State, inp: TickInput, ch: Choices, r: nat, items: seq<T.Item>, n: nat) returns (m: nat)
    requires NoFault(inp) && f.pc == Storing(r, items) && !T.DistinctIds(items) && EndsIn(f, t, inp, ch, n)
    ensures EndsIn(f.(clock := inp.storeNow, pc := Failing(r, T.REPEATED_KEY, false)), t, inp, ch, m)
  {
    m := Next(f, t, Do(f, Store(inp.storeNow)), inp, ch, n);
  }

  /** A delivered statement is imported into the run's account, and its run is done with the number of
      its items, the time, and no error; no other row moves. */
  lemma StatementImported(s: State, t: State, inp: TickInput, ch: Choices, r: nat, items: seq<T.Item>)
    requires Ticked(s, t, inp, ch) && NoFault(inp) && Claims(s, inp, ch, r)
    requires inp.statement == Delivered(items) && T.DistinctIds(items)
    ensures t.cached == s.cached && t.stored == s.stored
    ensures t.txs == T.UpsertAll(s.txs, s.runs[r].account, items)
    ensures EndsDone(Swept(s.runs, inp.sweepNow), t.runs, r, inp, |items|)
  {
    var m := ToFetch(s, t, inp, ch, r);
    FetchImports(AtFetch(s, inp, r), t, inp, ch, r, items, m);
    RowsDone(Swept(s.runs, inp.sweepNow), r, inp, |items|);
  }

  /** How it ends when its statement is imported: done, with the number of its items, the time and no
      error; the attempt is counted, and no other row moves. */
  ghost predicate EndsDone(before: seq<Run>, after: seq<Run>, r: nat, inp: TickInput, count: nat)
    requires r < |before|
  {
    && |after| == |before|
    && after[r] == before[r].(status := Done, attempts := before[r].attempts + 1, startedAt := Some(inp.claimNow),
                              completedAt := Some(inp.storeNow), statementCount := Some(count),
                              inserted := Some(count), lastError := None)
    && forall i | 0 <= i < |before| && i != r :: after[i] == before[i]
  }

  lemma RowsDone(before: seq<Run>, r: nat, inp: TickInput, count: nat)
    requires r < |before|
    ensures EndsDone(before, MarkedDone(Claimed(before, r, inp.claimNow), r, inp.storeNow, count, count), r, inp, count)
  {
  }

  lemma RowsError(before: seq<Run>, r: nat, inp: TickInput, error: string)
    requires r < |before|
    ensures EndsInError(before, MarkedError(Claimed(before, r, inp.claimNow), r, inp.recordNow, error), r, inp, error)
  {
  }

  lemma FetchImports(f: State, t: State, inp: TickInput, ch: Choices, r: nat, items: seq<T.Item>, n: nat)
    requires NoFault(inp) && f.pc == Fetching(r) && r < |f.runs| && EndsIn(f, t, inp, ch, n)
    requires inp.statement == Delivered(items) && T.DistinctIds(items)
    ensures t.cached == f.cached && t.stored == f.stored
    ensures t.txs == T.UpsertAll(f.txs, f.runs[r].account, items)
    ensures t.runs == MarkedDone(f.runs, r, inp.storeNow, |items|, |items|)
  {
    var m := AnsweredItems(f, t, inp, ch, r, items, n);
    Imports(f.(contacts := f.contacts + 1, pc := Storing(r, items)), t, inp, ch, r, items, m);
  }

  /** A statement that names one transaction twice is not imported: its run ends in error. */
  lemma StatementRepeats(s: State, t: State, inp: TickInput, ch: Choices, r: nat, items: seq<T.Item>)
    requires Ticked(s, t, inp, ch) && NoFault(inp) && Claims(s, inp, ch, r)
    requires inp.statement == Delivered(items) && !T.DistinctIds(items)
    ensures t.cached == s.cached && t.stored == s.stored
    ensures EndsInError(Swept(s.runs, inp.sweepNow), t.runs, r, inp, T.REPEATED_KEY) && t.txs == s.txs && t.log == s.log
  {
    var m := ToFetch(s, t, inp, ch, r);
    FetchRepeats(AtFetch(s, inp, r), t, inp, ch, r, items, m);
    RowsError(Swept(s.runs, inp.sweepNow), r, inp, T.REPEATED_KEY);
  }

  lemma FetchRepeats(f: State, t: State, inp: TickInput, ch: Choices, r: nat, items: seq<T.Item>, n: nat)
    requires NoFault(inp) && f.pc == Fetching(r) && r < |f.runs| && EndsIn(f, t, inp, ch, n)
    requires inp.statement == Delivered(items) && !T.DistinctIds(items)
    ensures t.cached == f.cached && t.stored == f.stored && t.txs == f.txs && t.log == f.log
    ensures t.runs == MarkedError(f.runs, r, inp.recordNow, T.REPEATED_KEY)
  {
    var m := AnsweredItems(f, t, inp, ch, r, items, n);
    var answered := f.(contacts := f.contacts + 1);
    m := Refused(answered.(pc := Storing(r, items)), t, inp, ch, r, items, m);
    ToError(answered.(clock := inp.storeNow), t, inp, ch, r, T.REPEATED_KEY, false, m);
  }

  /** A run whose account is not there ends in error without a request for its statement. */
  lemma AccountUnknown(s: State, t: State, inp: TickInput, ch: Choices, r: nat)
    requires Ticked(s, t, inp, ch) && NoFault(inp) && (s.accounts != [] || inp.discovered.Delivered?)
    requires ch.claimed == Some(r) && !Claims(s, inp, ch, r)
    ensures t.cached == s.cached && t.stored == s.stored && t.txs == s.txs && t.contacts == AtClaim(s, inp).contacts
    ensures r < |s.runs| && EndsInError(Swept(s.runs, inp.sweepNow), t.runs, r, inp, "account row missing")
  {
    var m := ToClaim(s, t, inp, ch);
    var c := AtClaim(s, inp);
    var held := c.(runs := if r < |c.runs| then Claimed(c.runs, r, inp.claimNow) else c.runs,
                   clock := inp.claimNow, pc := Holding(r));
    m := Next(c, t, held, inp, ch, m);
    assert held.runs[r].account == s.runs[r].account;
    MissingEnds(held, t, inp, ch, r, m);
    RowsError(Swept(s.runs, inp.sweepNow), r, inp, NO_ACCOUNT_ROW);
  }

  lemma MissingEnds(h: State, t: State, inp: TickInput, ch: Choices, r: nat, n: nat)
    requires NoFault(inp) && h.pc == Holding(r) && r < |h.runs| && h.runs[r].account >= |h.accounts|
    requires EndsIn(h, t, inp, ch, n)
    ensures t == h.(runs := MarkedError(h.runs, r, inp.recordNow, NO_ACCOUNT_ROW), clock := inp.recordNow, pc := Idle)
  {
    var over := h.(runs := MarkedError(h.runs, r, inp.recordNow, NO_ACCOUNT_ROW), clock := inp.recordNow, pc := Idle);
    var m := Next(h, t, h.(pc := MissingAccount(r)), inp, ch, n);
    m := Next(h.(pc := MissingAccount(r)), t, over, inp, ch, m);
    Over(over, t, inp, ch, m);
  }

  // ----- nothing to claim -----

  /** With nothing pending the tick enqueues a live row for the chosen card, which looks back one hour
      from the reading of the clock; without a card to choose it changes nothing but the stale runs. */
  lemma NothingPendingPolls(s: State, t: State, inp: TickInput, ch: Choices)
    requires Ticked(s, t, inp, ch) && NoFault(inp) && ch.claimed.None?
    requires s.accounts != [] || inp.discovered.Delivered?
    ensures var c := AtClaim(s, inp);
            && IsLastLive(c.runs, ch.last) && t.cached == s.cached && t.stored == s.stored && t.txs == s.txs
            && var card := Pick(c.runs, ch.last, PollableIds(c.accounts));
            t.runs == if card.None? then c.runs else
                        c.runs + [Run(card.value, Live, Window(inp.appNow - 3_600_000_000, inp.appNow), Pending, 0,
                                      inp.enqueueNow, None, None, None, None, None)]
  {
    var m := ToClaim(s, t, inp, ch);
    var c := AtClaim(s, inp);
    var picking := c.(clock := inp.claimNow, pc := Picking);
    m := Next(c, t, picking, inp, ch, m);
    var card := if IsLastLive(c.runs, ch.last) then Pick(c.runs, ch.last, PollableIds(c.accounts)) else None;
    var picked := picking.(pc := if card.Some? then Picked(card.value) else Idle);
    m := Next(picking, t, picked, inp, ch, m);
    if card.Some? {
      Polled(picked, t, inp, ch, card.value, m);
    } else {
      Over(picked, t, inp, ch, m);
    }
  }

  lemma Polled(p: State, t: State, inp: TickInput, ch: Choices, card: nat, n: nat)
    requires NoFault(inp) && p.pc == Picked(card) && EndsIn(p, t, inp, ch, n)
    ensures t == p.(runs := p.runs + [Run(card, Live, Window(inp.appNow - 3_600_000_000, inp.appNow), Pending, 0,
                                          inp.enqueueNow, None, None, None, None, None)],
                    clock := inp.enqueueNow, pc := Idle)
  {
    var w := LiveWindow(inp.appNow);
    var over := p.(runs := Enqueued(p.runs, card, Live, [w], inp.enqueueNow), clock := inp.enqueueNow, pc := Idle);
    var m := Next(p, t, over, inp, ch, n);
    Over(over, t, inp, ch, m);
    assert over.runs == p.runs + [NewRun(card, Live, w, inp.enqueueNow)];
  }

  // ----- the 401, wherever it comes -----

  /** The answer of the bank that rejects the token in this tick, if one does. */
  ghost function Rejected(s: State, inp: TickInput, ch: Choices): Option<string> {
    if s.accounts == [] && inp.discovered.Unauthorized? then Some(inp.discovered.error)
    else if ch.claimed.Some? && Claims(s, inp, ch, ch.claimed.value) && inp.statement.Unauthorized? then
      Some(inp.statement.error)
    else None
  }

  /** A tick that asks for accounts or for a statement and is answered 401 ends with the scheduler
      stopped in this process and, where the singleton row exists, in every later one; and a tick
      stops the scheduler only then. */
  lemma StoppedExactly(s: State, t: State, inp: TickInput, ch: Choices)
    requires Ticked(s, t, inp, ch) && NoFault(inp)
    ensures var rejected := Rejected(s, inp, ch);
            && (rejected.Some? ==> t.cached == SchedulerState(AuthFailed, rejected))
            && (rejected.Some? && s.stored.Some? ==> t.stored == Some(t.cached))
            && (rejected.None? ==> t.cached == s.cached && t.stored == s.stored)
  {
    if s.accounts == [] && inp.discovered.Unauthorized? {
      DiscoveryRejected(s, t, inp, ch, inp.discovered.error);
    } else if s.accounts == [] && !inp.discovered.Delivered? {
      DiscoveryFailed(s, t, inp, ch);
    } else if ch.claimed.None? {
      NothingPendingPolls(s, t, inp, ch);
    } else {
      ClaimedStopsExactly(s, t, inp, ch, ch.claimed.value);
    }
  }

  lemma ClaimedStopsExactly(s: State, t: State, inp: TickInput, ch: Choices, r: nat)
    requires Ticked(s, t, inp, ch) && NoFault(inp) && ch.claimed == Some(r)
    requires s.accounts != [] || inp.discovered.Delivered?
    ensures var rejected := Rejected(s, inp, ch);
            && (rejected.Some? ==> t.cached == SchedulerState(AuthFailed, rejected))
            && (rejected.Some? && s.stored.Some? ==> t.stored == Some(t.cached))
            && (rejected.None? ==> t.cached == s.cached && t.stored == s.stored)
  {
    if Claims(s, inp, ch, r) {
      match inp.statement
      case Unauthorized(e) => StatementRejected(s, t, inp, ch, r, e);
      case RateLimited(e) => StatementFailed(s, t, inp, ch, r, e);
      case Transient(e) => StatementFailed(s, t, inp, ch, r, e);
      case Broken(e) => StatementFailed(s, t, inp, ch, r, e);
      case Delivered(items) =>
        if T.DistinctIds(items) {
          StatementImported(s, t, inp, ch, r, items);
        } else {
          StatementRepeats(s, t, inp, ch, r, items);
        }
    } else {
      AccountUnknown(s, t, inp, ch, r);
    }
  }
}
