/** Order in the queue: no starvation, and one backfill at a time per card. */
module QueueDiscipline {
  import opened Common
  import opened Windows
  import opened Accounts
  import opened ImportQueue
  import opened SchedulerMachine
  import opened ExactlyOnce

  predicate Request(e: Event) {
    e.AskBackfill? || e.AskLive?
  }

  /** The process drops the run in its hands without recording how it ended. */
  predicate Orphans(s: State, e: Event) {
    s.pc.Held().Some? && (e.Crash? || e.Abort?)
  }

  // ----- no starvation -----

  /** The unfinished rows created no later than row r, r itself included. */
  ghost function Ahead(runs: seq<Run>, r: nat): set<nat>
    requires r < |runs|
  {
    set i: nat | i < |runs| && !runs[i].Terminal() && runs[i].createdAt <= runs[r].createdAt
  }

  ghost predicate Waiting(s: State, r: nat) {
    HeldInFlight(s) && r < |s.runs| && s.runs[r].status.Pending?
  }

  /** The run in the process's hands is one of those ahead of row r. */
  ghost predicate HoldsAhead(s: State, r: nat)
    requires r < |s.runs|
  {
    s.pc.Held().Some? && s.pc.Held().value in Ahead(s.runs, r)
  }

  /** Ticks that claim finish, and whatever is enqueued carries a later timestamp than row r. */
  predicate Calm(s: State, e: Event, r: nat)
    requires r < |s.runs|
  {
    && !Orphans(s, e)
    && (e.AskBackfill? || e.AskLive? || e.EnqueuePicked? ==> e.now > s.runs[r].createdAt)
  }

  predicate ClaimsRow(e: Event, r: nat) {
    e.Claim? && e.choice == Some(r)
  }

  function Count(b: bool): nat {
    if b then 1 else 0
  }

  lemma AheadAfterRequest(s: State, e: Event, r: nat)
    requires Waiting(s, r) && Enabled(s, e) && Calm(s, e, r)
    requires e.AskBackfill? || e.AskLive? || e.EnqueuePicked?
    ensures Waiting(Do(s, e), r)
    ensures Ahead(Do(s, e).runs, r) == Ahead(s.runs, r) && Do(s, e).pc.Held() == s.pc.Held()
    ensures Do(s, e).runs[r] == s.runs[r]
  {
    StepEvolves(s, e);
    RequestsAppend(s, e);
    var q := Do(s, e).runs;
    assert forall i | 0 <= i < |s.runs| :: q[i] == q[..|s.runs|][i];
  }

  lemma AheadAfterSweep(runs: seq<Run>, r: nat, now: int)
    requires r < |runs| && runs[r].status.Pending?
    ensures Ahead(Swept(runs, now), r) == Ahead(runs, r) && Swept(runs, now)[r] == runs[r]
  {
  }

  /** While a row waits a claim takes some row, and one that is ahead of it. */
  lemma AheadAfterClaim(s: State, e: Event, r: nat)
    requires Waiting(s, r) && Enabled(s, e) && e.Claim? && !ClaimsRow(e, r)
    ensures Waiting(Do(s, e), r)
    ensures Ahead(Do(s, e).runs, r) == Ahead(s.runs, r)
    ensures !HoldsAhead(s, r) && HoldsAhead(Do(s, e), r)
    ensures Do(s, e).runs[r] == s.runs[r]
  {
    StepEvolves(s, e);
    var x := e.choice.value;
    assert s.runs[x].createdAt <= s.runs[r].createdAt;
  }

  lemma AheadAfterFinish(s: State, e: Event, r: nat)
    requires Waiting(s, r) && Enabled(s, e) && (e.RecordMissing? || e.RecordError? || e.Store?)
    requires Do(s, e).pc.Held().None?
    ensures Waiting(Do(s, e), r) && s.pc.Held().Some?
    ensures Ahead(Do(s, e).runs, r) == Ahead(s.runs, r) - {s.pc.Held().value}
    ensures Do(s, e).runs[r] == s.runs[r]
  {
    StepEvolves(s, e);
  }

  lemma QuietStep(s: State, e: Event, r: nat)
    requires Waiting(s, r) && Enabled(s, e) && Calm(s, e, r) && !e.Claim?
    requires !e.AskBackfill? && !e.AskLive? && !e.EnqueuePicked? && !e.Boot? && !e.StartTick?
    requires !((e.RecordMissing? || e.RecordError? || e.Store?) && Do(s, e).pc.Held().None?)
    ensures Do(s, e).runs == s.runs && Do(s, e).pc.Held() == s.pc.Held()
  {
  }

  /** One block while row r waits: a claim takes a row ahead of it, a run that ends was one of those
      ahead or never mattered, and nothing makes more rows come ahead. */
  lemma WaitingStep(s: State, e: Event, r: nat)
    requires Waiting(s, r) && Enabled(s, e) && Calm(s, e, r) && !ClaimsRow(e, r)
    ensures Waiting(Do(s, e), r) && Do(s, e).runs[r] == s.runs[r]
    ensures |Ahead(Do(s, e).runs, r)| + Count(e.Claim?) + Count(HoldsAhead(s, r))
         == |Ahead(s.runs, r)| + Count(HoldsAhead(Do(s, e), r))
  {
    if e.AskBackfill? || e.AskLive? || e.EnqueuePicked? {
      AheadAfterRequest(s, e, r);
    } else if e.Claim? {
      AheadAfterClaim(s, e, r);
    } else if e.Boot? || e.StartTick? {
      AheadAfterSweep(s.runs, r, e.now);
      SweepEvolves(s, e);
    } else if (e.RecordMissing? || e.RecordError? || e.Store?) && Do(s, e).pc.Held().None? {
      AheadAfterFinish(s, e, r);
    } else {
      QuietStep(s, e, r);
    }
  }

  predicate CalmRun(s: State, es: seq<Event>, r: nat)
    requires Legal(s, es)
    decreases |es|
  {
    es == [] || (
      var n := |es| - 1;
      && CalmRun(s, es[..n], r)
      && r < |Exec(s, es[..n]).runs|
      && Calm(Exec(s, es[..n]), es[n], r))
  }

  predicate EverClaimed(es: seq<Event>, r: nat) {
    exists k | 0 <= k < |es| :: ClaimsRow(es[k], r)
  }

  /** How many ticks got as far as their claim. */
  function ClaimCount(es: seq<Event>): nat
    decreases |es|
  {
    if es == [] then 0 else ClaimCount(es[..|es| - 1]) + Count(es[|es| - 1].Claim?)
  }

  lemma {:induction false} WaitingRun(s: State, es: seq<Event>, r: nat)
    requires Waiting(s, r) && Legal(s, es) && CalmRun(s, es, r) && !EverClaimed(es, r)
    ensures Waiting(Exec(s, es), r)
    ensures |Ahead(Exec(s, es).runs, r)| + ClaimCount(es) + Count(HoldsAhead(s, r))
         == |Ahead(s.runs, r)| + Count(HoldsAhead(Exec(s, es), r))
    decreases |es|
  {
    if es != [] {
      var n := |es| - 1;
      assert forall k | 0 <= k < n :: es[..n][k] == es[k];
      WaitingRun(s, es[..n], r);
      WaitingStep(Exec(s, es[..n]), es[n], r);
    }
  }

  /** Row r itself is ahead and not in anybody's hands. */
  lemma AheadHasRoom(t: State, r: nat)
    requires Waiting(t, r)
    ensures |Ahead(t.runs, r)| > Count(HoldsAhead(t, r))
  {
    var ahead := Ahead(t.runs, r);
    assert r in ahead;
    if HoldsAhead(t, r) {
      var x := t.pc.Held().value;
      assert {r, x} <= ahead;
      SubsetSize({r, x}, ahead);
    } else {
      SubsetSize({r}, ahead);
    }
  }

  /** No starvation: let row r be pending, with m unfinished rows created no later, itself included
      and the one in the process's hands, if it is among them, not counted. In a run in which m
      ticks get as far as their claim, one of them claims r: whatever is enqueued with a later
      timestamp, whatever the sweeps revive, and wherever the run starts. */
  lemma NoStarvation(s: State, es: seq<Event>, r: nat)
    requires Waiting(s, r) && Legal(s, es) && CalmRun(s, es, r)
    requires ClaimCount(es) >= |Ahead(s.runs, r)| - Count(HoldsAhead(s, r))
    ensures exists k | 0 <= k < |es| :: ClaimsRow(es[k], r)
  {
    if !EverClaimed(es, r) {
      WaitingRun(s, es, r);
      AheadHasRoom(Exec(s, es), r);
    }
  }

  /** The measure of draining: between two moments at which no run is in hand, every tick that got as
      far as its claim has taken exactly one row off those ahead of a row still waiting. */
  lemma TicksDrain(s: State, es: seq<Event>, r: nat)
    requires Waiting(s, r) && Legal(s, es) && CalmRun(s, es, r) && !EverClaimed(es, r)
    requires s.pc.Held().None? && Exec(s, es).pc.Held().None?
    ensures Waiting(Exec(s, es), r)
    ensures |Ahead(Exec(s, es).runs, r)| == |Ahead(s.runs, r)| - ClaimCount(es)
  {
    WaitingRun(s, es, r);
  }

  // ----- the claim is not newest first -----

  /** A backfill enqueued when nothing is pending: any of its rows may be claimed first, so that the
      newest window, which is the first row, must come first exactly when it is the only one. */
  lemma NewestFirstExactly(runs: seq<Run>, account: nat, ws: seq<Window>, now: int)
    requires NothingPending(runs) && ws != []
    ensures var r := Enqueued(runs, account, Backfill, ws, now);
            && (forall x: nat :: OldestPending(r, x) <==> |runs| <= x < |r|)
            && ((forall x: nat :: OldestPending(r, x) ==> x == |runs|) <==> |ws| == 1)
  {
    var r := Enqueued(runs, account, Backfill, ws, now);
    var n := |runs|;
    EnqueuedRows(runs, account, Backfill, ws, now);
    assert forall x: nat :: OldestPending(r, x) <==> n <= x < |r|;
    if |ws| > 1 {
      assert OldestPending(r, n + 1);
    }
  }

  // ----- one backfill at a time -----

  predicate OpenBackfill(run: Run, account: nat) {
    Open(run, account, Backfill)
  }

  /** Unfinished backfill rows of one card sit in one batch: same creation time, at most 35
      positions apart, and windows offset by exactly 30 days per position. */
  ghost predicate Batched(runs: seq<Run>) {
    && (forall i | 0 <= i < |runs| && runs[i].kind.Backfill? :: runs[i].window.from == runs[i].window.to - CHUNK)
    && (forall i, j | 0 <= i < j < |runs| && runs[j].kind.Backfill? && OpenBackfill(runs[i], runs[j].account)
                      && !runs[j].Terminal() ::
          runs[i].createdAt == runs[j].createdAt && j - i < 36
          && runs[i].window.to == runs[j].window.to + (j - i) * CHUNK)
  }

  /** Hence their windows do not overlap. */
  lemma BatchedDisjoint(runs: seq<Run>, i: nat, j: nat, account: nat, t: int)
    requires Batched(runs) && i < j < |runs| && OpenBackfill(runs[i], account) && OpenBackfill(runs[j], account)
    ensures !(Covers(runs[i].window, t) && Covers(runs[j].window, t))
  {
    assert runs[j].kind.Backfill? && OpenBackfill(runs[i], runs[j].account);
    assert (j - i) * CHUNK >= CHUNK;
  }

  lemma BatchedEvolves(a: seq<Run>, b: seq<Run>)
    requires Batched(a) && QueueEvolves(a, b) && |a| == |b|
    ensures Batched(b)
  {
    forall i | 0 <= i < |b| && b[i].kind.Backfill? ensures b[i].window.from == b[i].window.to - CHUNK {
      assert Evolves(a[i], b[i]);
    }
    forall i, j | 0 <= i < j < |b| && b[j].kind.Backfill? && OpenBackfill(b[i], b[j].account) && !b[j].Terminal()
      ensures b[i].createdAt == b[j].createdAt && j - i < 36 && b[i].window.to == b[j].window.to + (j - i) * CHUNK
    {
      assert Evolves(a[i], b[i]) && Evolves(a[j], b[j]);
      assert OpenBackfill(a[i], a[j].account) && a[j].kind.Backfill?;
    }
  }

  lemma BatchedAppendLive(runs: seq<Run>, account: nat, w: Window, now: int)
    requires Batched(runs)
    ensures Batched(Enqueued(runs, account, Live, [w], now))
  {
    var r := Enqueued(runs, account, Live, [w], now);
    assert r[|runs|] == NewRun(account, Live, w, now);
  }

  lemma BatchedAppendBackfill(runs: seq<Run>, account: nat, appNow: int, months: int, now: int)
    requires Batched(runs) && !HasOpen(runs, account, Backfill) && months <= 36
    ensures Batched(Enqueued(runs, account, Backfill, BackfillChunks(appNow, months), now))
  {
    var ws := BackfillChunks(appNow, months);
    var r := Enqueued(runs, account, Backfill, ws, now);
    forall i, j | 0 <= i < j < |r| && r[j].kind.Backfill? && OpenBackfill(r[i], r[j].account) && !r[j].Terminal()
      ensures r[i].createdAt == r[j].createdAt && j - i < 36 && r[i].window.to == r[j].window.to + (j - i) * CHUNK
    {
      if j >= |runs| {
        assert r[j] == NewRun(account, Backfill, ws[j - |runs|], now);
        assert i >= |runs|;
        assert r[i] == NewRun(account, Backfill, ws[i - |runs|], now);
        assert (j - |runs|) * CHUNK - (i - |runs|) * CHUNK == (j - i) * CHUNK;
      } else {
        assert OpenBackfill(runs[i], runs[j].account);
      }
    }
    forall i | 0 <= i < |r| && r[i].kind.Backfill? ensures r[i].window.from == r[i].window.to - CHUNK {
      if i >= |runs| {
        assert r[i] == NewRun(account, Backfill, ws[i - |runs|], now);
      }
    }
  }

  lemma {:induction false} BatchedBackfillEach(runs: seq<Run>, cards: seq<nat>, appNow: int, months: int, now: int)
    requires Batched(runs) && months <= 36
    ensures Batched(BackfillEach(runs, cards, BackfillChunks(appNow, months), now))
    decreases |cards|
  {
    if cards != [] {
      var n := |cards| - 1;
      BatchedBackfillEach(runs, cards[..n], appNow, months, now);
      var sofar := BackfillEach(runs, cards[..n], BackfillChunks(appNow, months), now);
      if !HasOpen(sofar, cards[n], Backfill) {
        BatchedAppendBackfill(sofar, cards[n], appNow, months, now);
      }
    }
  }

  lemma {:induction false} BatchedLiveEach(runs: seq<Run>, cards: seq<nat>, w: Window, now: int)
    requires Batched(runs)
    ensures Batched(LiveEach(runs, cards, w, now))
    decreases |cards|
  {
    if cards != [] {
      var n := |cards| - 1;
      BatchedLiveEach(runs, cards[..n], w, now);
      BatchedAppendLive(LiveEach(runs, cards[..n], w, now), cards[n], w, now);
    }
  }

  lemma BatchedStep(s: State, e: Event)
    requires HeldInFlight(s) && Batched(s.runs) && Enabled(s, e)
    ensures Batched(Do(s, e).runs)
  {
    match e
    case AskBackfill(account, months, appNow, now) =>
      var cards := BackfillCards(s.accounts, account);
      if cards.Success? {
        BatchedBackfillEach(s.runs, cards.value, appNow, months, now);
      }
    case AskLive(appNow, now) =>
      BatchedLiveEach(s.runs, PollableIds(s.accounts), LiveWindow(appNow), now);
    case EnqueuePicked(appNow, now) =>
      BatchedAppendLive(s.runs, s.pc.card, LiveWindow(appNow), now);
    case _ =>
      StepEvolvesInPlace(s, e);
      BatchedEvolves(s.runs, Do(s, e).runs);
  }

  /** In every reachable state, crashes included. */
  lemma {:induction false} AlwaysBatched(es: seq<Event>)
    requires Legal(MIGRATED, es)
    ensures Batched(Exec(MIGRATED, es).runs)
    decreases |es|
  {
    if es != [] {
      AlwaysBatched(es[..|es| - 1]);
      AlwaysHeldInFlight(MIGRATED, es[..|es| - 1]);
      BatchedStep(Exec(MIGRATED, es[..|es| - 1]), es[|es| - 1]);
    }
  }

  ghost predicate NoBackfillSince(runs: seq<Run>, from: nat, account: nat) {
    forall j | from <= j < |runs| :: !(runs[j].account == account && runs[j].kind.Backfill?)
  }

  lemma {:induction false} BackfillEachSkips(runs: seq<Run>, cards: seq<nat>, ws: seq<Window>, now: int,
                                             i: nat, account: nat)
    requires i < |runs| && OpenBackfill(runs[i], account)
    ensures NoBackfillSince(BackfillEach(runs, cards, ws, now), |runs|, account)
    decreases |cards|
  {
    if cards != [] {
      var n := |cards| - 1;
      BackfillEachSkips(runs, cards[..n], ws, now, i, account);
      BackfillEachAppends(runs, cards[..n], ws, now);
      var sofar := BackfillEach(runs, cards[..n], ws, now);
      assert sofar[i] == sofar[..|runs|][i] == runs[i];
      if !HasOpen(sofar, cards[n], Backfill) {
        assert cards[n] != account;
        EnqueuedRows(sofar, cards[n], Backfill, ws, now);
      }
    }
  }

  lemma {:induction false} LiveEachIsLive(runs: seq<Run>, cards: seq<nat>, w: Window, now: int)
    ensures forall j | |runs| <= j < |LiveEach(runs, cards, w, now)| :: LiveEach(runs, cards, w, now)[j].kind.Live?
    decreases |cards|
  {
    if cards != [] {
      LiveEachIsLive(runs, cards[..|cards| - 1], w, now);
    }
  }

  lemma OpenBlocksBackfill(s: State, e: Event, i: nat, account: nat)
    requires HeldInFlight(s) && Enabled(s, e) && i < |s.runs| && OpenBackfill(s.runs[i], account)
    ensures NoBackfillSince(Do(s, e).runs, |s.runs|, account)
  {
    match e
    case AskBackfill(a, months, appNow, now) =>
      var cards := BackfillCards(s.accounts, a);
      if cards.Success? {
        BackfillEachSkips(s.runs, cards.value, BackfillChunks(appNow, months), now, i, account);
      }
    case AskLive(appNow, now) =>
      LiveEachIsLive(s.runs, PollableIds(s.accounts), LiveWindow(appNow), now);
    case EnqueuePicked(appNow, now) =>
    case _ =>
      StepEvolvesInPlace(s, e);
  }

  /** The unfinished backfill rows of a card come from a single enqueue: from any moment at which
      such a row exists until it is finished, no request adds a backfill row for that card. */
  lemma {:induction false} SingleBackfillRequest(s: State, es: seq<Event>, i: nat, account: nat)
    requires HeldInFlight(s) && Legal(s, es) && i < |s.runs|
    requires i < |Exec(s, es).runs| && OpenBackfill(Exec(s, es).runs[i], account)
    ensures NoBackfillSince(Exec(s, es).runs, |s.runs|, account)
    decreases |es|
  {
    if es != [] {
      var n := |es| - 1;
      var mid := Exec(s, es[..n]);
      TerminalForever(s, es[..n]);
      AlwaysHeldInFlight(s, es[..n]);
      StepEvolves(mid, es[n]);
      assert Evolves(mid.runs[i], Do(mid, es[n]).runs[i]);
      SingleBackfillRequest(s, es[..n], i, account);
      OpenBlocksBackfill(mid, es[n], i, account);
      forall j | |s.runs| <= j < |Do(mid, es[n]).runs|
        ensures var q := Do(mid, es[n]).runs[j]; !(q.account == account && q.kind.Backfill?)
      {
        if j < |mid.runs| {
          assert Evolves(mid.runs[j], Do(mid, es[n]).runs[j]);
        }
      }
    }
  }
}
