/** Runs of the machine that break what one would expect of live rows. */
module LiveCounterexamples {
  import opened Common
  import opened Windows
  import opened Accounts
  import opened ImportQueue
  import opened SchedulerMachine
  import opened LiveDiscipline

  lemma Extend(es: seq<Event>, s: State, e: Event) returns (longer: seq<Event>, t: State)
    requires Legal(MIGRATED, es) && Exec(MIGRATED, es) == s && Enabled(s, e)
    ensures longer == es + [e] && Legal(MIGRATED, longer) && t == Do(s, e) && Exec(MIGRATED, longer) == t
    ensures Crash in longer <==> Crash in es || e == Crash
  {
    longer := es + [e];
    t := Do(s, e);
    assert longer[..|longer| - 1] == es;
  }

  const CARD := Account("mono.card", "a", "UAH", Some("black"))

  /** The system is up, knows one card and has not been rejected. */
  predicate OneCardUp(s: State) {
    s.accounts == [CARD] && s.cached.mode.Running? && s.stored == Some(SchedulerState(Running, None))
  }

  predicate FinishedLive(run: Run) {
    IsLive(run, 0) && run.status.Done? && run.completedAt.Some?
  }

  predicate OpenLive(run: Run) {
    Open(run, 0, Live) && run.completedAt.None?
  }

  /** A started system with one card and an empty queue. */
  lemma OneCard() returns (es: seq<Event>, s: State)
    ensures Legal(MIGRATED, es) && Exec(MIGRATED, es) == s && OneCardUp(s) && s.runs == [] && s.pc == Claiming
    ensures Crash !in es
  {
    es, s := [], MIGRATED;
    es, s := Extend(es, s, Boot(0));
    es, s := Extend(es, s, LoadState);
    es, s := Extend(es, s, StartTick(1, true));
    es, s := Extend(es, s, CheckAccounts);
    es, s := Extend(es, s, Discover(Delivered([CARD])));
    es, s := Extend(es, s, StoreAccounts);
    assert [CARD][..0] == [];
    assert StoreAll([], []) == [];
  }

  lemma OneCardIsPollable()
    ensures PollableIds([CARD]) == [0]
  {
    assert [CARD][..0] == [];
    assert PollableIds([]) == [];
  }

  lemma PickOnlyCard(runs: seq<Run>, last: map<nat, nat>)
    requires IsLastLive(runs, last) && Eligible(runs, last, 0)
    ensures Pick(runs, last, [0]) == Some(0)
  {
    assert [0][..0] == [];
    assert EligibleCards(runs, last, []) == [];
    assert EligibleCards(runs, last, [0]) == [0];
  }

  lemma SweepNothing(runs: seq<Run>, now: int)
    requires forall i | 0 <= i < |runs| :: !Stale(runs[i], now)
    ensures Swept(runs, now) == runs
  {
  }

  lemma AfterFinished(runs: seq<Run>, now: int)
    requires 1 <= |runs| <= 2 && FinishedLive(runs[0]) && (|runs| == 2 ==> runs[1].status.Pending?)
    ensures Swept(runs, now) == runs
    ensures |runs| == 1 ==> NothingPending(runs)
  {
    SweepNothing(runs, now);
  }

  lemma ClaimNothing(s: State, now: int)
    requires s.pc == Claiming && NothingPending(s.runs)
    ensures Enabled(s, Claim(now, None)) && Do(s, Claim(now, None)) == s.(pc := Picking, clock := now)
  {
  }

  lemma ClaimSecond(s: State, now: int)
    requires s.pc == Claiming && |s.runs| == 2 && !s.runs[0].status.Pending? && s.runs[1].status.Pending?
    ensures Enabled(s, Claim(now, Some(1)))
    ensures Do(s, Claim(now, Some(1))) == s.(runs := Claimed(s.runs, 1, now), pc := Holding(1), clock := now)
  {
  }

  /** A tick up to its claim, when nothing is stale. */
  lemma Begin(es: seq<Event>, s: State, now: int) returns (longer: seq<Event>, t: State)
    requires Legal(MIGRATED, es) && Exec(MIGRATED, es) == s && OneCardUp(s) && s.pc == Idle
    requires Swept(s.runs, now) == s.runs
    ensures Legal(MIGRATED, longer) && Exec(MIGRATED, longer) == t && OneCardUp(t)
    ensures t.pc == Claiming && t.runs == s.runs
    ensures Crash in longer ==> Crash in es
  {
    longer, t := Extend(es, s, StartTick(now, true));
    longer, t := Extend(longer, t, CheckAccounts);
  }

  lemma PickStep(s: State, last: map<nat, nat>)
    requires s.accounts == [CARD] && s.pc == Picking && IsLastLive(s.runs, last) && Eligible(s.runs, last, 0)
    ensures Enabled(s, PickCard(last)) && Do(s, PickCard(last)) == s.(pc := Picked(0))
  {
    OneCardIsPollable();
    PickOnlyCard(s.runs, last);
  }

  /** The card is chosen and its live row enqueued. */
  lemma EnqueueForCard(es: seq<Event>, s: State, last: map<nat, nat>, now: int) returns (longer: seq<Event>, t: State)
    requires Legal(MIGRATED, es) && Exec(MIGRATED, es) == s && s.accounts == [CARD] && s.pc == Picking
    requires Enabled(s, PickCard(last)) && Do(s, PickCard(last)) == s.(pc := Picked(0))
    ensures Legal(MIGRATED, longer) && Exec(MIGRATED, longer) == t
    ensures t == s.(pc := Idle, runs := s.runs + [NewRun(0, Live, LiveWindow(now), now)], clock := now)
    ensures Crash in longer ==> Crash in es
  {
    longer, t := Extend(es, s, PickCard(last));
    longer, t := Extend(longer, t, EnqueuePicked(now, now));
  }

  lemma Poll(es: seq<Event>, s: State) returns (longer: seq<Event>, t: State)
    requires Legal(MIGRATED, es) && Exec(MIGRATED, es) == s && OneCardUp(s) && s.pc == Claiming
    requires s.runs == [NewRun(0, Live, LiveWindow(3), 3)]
    ensures Legal(MIGRATED, longer) && Exec(MIGRATED, longer) == t && OneCardUp(t)
    ensures t.pc == Idle && |t.runs| == 1 && FinishedLive(t.runs[0])
    ensures Crash in longer ==> Crash in es
  {
    longer, t := Extend(es, s, Claim(4, Some(0)));
    longer, t := FetchNothing(longer, t);
    longer, t := StoreNothing(longer, t);
  }

  lemma FetchNothing(es: seq<Event>, s: State) returns (longer: seq<Event>, t: State)
    requires Legal(MIGRATED, es) && Exec(MIGRATED, es) == s && OneCardUp(s) && s.pc == Holding(0)
    requires |s.runs| == 1 && s.runs[0].account == 0
    ensures Legal(MIGRATED, longer) && Exec(MIGRATED, longer) == t && OneCardUp(t)
    ensures t.pc == Storing(0, []) && t.runs == s.runs
    ensures Crash in longer ==> Crash in es
  {
    longer, t := Extend(es, s, LoadAccount);
    longer, t := Extend(longer, t, Fetch(Delivered([])));
  }

  lemma StoreNothing(es: seq<Event>, s: State) returns (longer: seq<Event>, t: State)
    requires Legal(MIGRATED, es) && Exec(MIGRATED, es) == s && OneCardUp(s) && s.pc == Storing(0, [])
    requires |s.runs| == 1 && IsLive(s.runs[0], 0)
    ensures Legal(MIGRATED, longer) && Exec(MIGRATED, longer) == t && OneCardUp(t)
    ensures t.pc == Idle && |t.runs| == 1 && FinishedLive(t.runs[0])
    ensures Crash in longer ==> Crash in es
  {
    longer, t := Extend(es, s, Store(5));
  }

  /** The first tick of a started system: the card gets its first live row. */
  lemma FirstEnqueue() returns (es: seq<Event>, s: State)
    ensures Legal(MIGRATED, es) && Exec(MIGRATED, es) == s && OneCardUp(s)
    ensures s.pc == Idle && s.runs == [NewRun(0, Live, LiveWindow(3), 3)]
    ensures Crash !in es
  {
    es, s := OneCard();
    es, s := Extend(es, s, Claim(2, None));
    PickStep(s, map[]);
    es, s := EnqueueForCard(es, s, map[], 3);
  }

  lemma FirstPoll() returns (es: seq<Event>, s: State)
    ensures Legal(MIGRATED, es) && Exec(MIGRATED, es) == s && OneCardUp(s)
    ensures s.pc == Idle && |s.runs| == 1 && FinishedLive(s.runs[0])
    ensures Crash !in es
  {
    es, s := FirstEnqueue();
    SweepNothing(s.runs, 4);
    es, s := Begin(es, s, 4);
    es, s := Poll(es, s);
  }

  /** One live poll of the card is done, and the next tick has found nothing to claim. */
  lemma OnePoll() returns (es: seq<Event>, s: State)
    ensures Legal(MIGRATED, es) && Exec(MIGRATED, es) == s && OneCardUp(s)
    ensures s.pc == Picking && |s.runs| == 1 && FinishedLive(s.runs[0])
    ensures Crash !in es
  {
    es, s := FirstPoll();
    AfterFinished(s.runs, 6);
    es, s := Begin(es, s, 6);
    ClaimNothing(s, 7);
    es, s := Extend(es, s, Claim(7, None));
  }

  /** Two unfinished live rows of one card. */
  ghost predicate Duplicate(s: State) {
    exists i, j | 0 <= i < j < |s.runs| :: Open(s.runs[i], 0, Live) && Open(s.runs[j], 0, Live)
  }

  /** The only row the card selection looks at is the finished one. */
  lemma FinishedHidesOpen(s: State)
    requires s.accounts == [CARD] && s.pc == Picking
    requires 1 <= |s.runs| <= 2 && FinishedLive(s.runs[0]) && (|s.runs| == 2 ==> OpenLive(s.runs[1]))
    ensures Enabled(s, PickCard(map[0 := 0])) && Do(s, PickCard(map[0 := 0])) == s.(pc := Picked(0))
  {
    var last: map<nat, nat> := map[0 := 0];
    assert IsLastLive(s.runs, last);
    assert Eligible(s.runs, last, 0);
    PickStep(s, last);
  }

  lemma EnqueueAgain(es: seq<Event>, s: State, now: int) returns (longer: seq<Event>, t: State)
    requires Legal(MIGRATED, es) && Exec(MIGRATED, es) == s && s.accounts == [CARD] && s.pc == Picking
    requires 1 <= |s.runs| <= 2 && FinishedLive(s.runs[0]) && (|s.runs| == 2 ==> OpenLive(s.runs[1]))
    ensures Legal(MIGRATED, longer) && Exec(MIGRATED, longer) == t
    ensures t == s.(pc := Idle, runs := s.runs + [NewRun(0, Live, LiveWindow(now), now)], clock := now)
    ensures Crash in longer ==> Crash in es
  {
    FinishedHidesOpen(s);
    longer, t := EnqueueForCard(es, s, map[0 := 0], now);
  }

  /** So a second live row is enqueued behind an open one. */
  lemma EnqueueBehind(es: seq<Event>, s: State, now: int) returns (longer: seq<Event>)
    requires Legal(MIGRATED, es) && Exec(MIGRATED, es) == s && s.accounts == [CARD] && s.pc == Picking
    requires |s.runs| == 2 && FinishedLive(s.runs[0]) && OpenLive(s.runs[1])
    ensures Legal(MIGRATED, longer) && Duplicate(Exec(MIGRATED, longer))
    ensures Crash in longer ==> Crash in es
  {
    var t: State;
    longer, t := EnqueueAgain(es, s, now);
    assert t.runs[1] == s.runs[1];
    assert Open(t.runs[1], 0, Live) && Open(t.runs[2], 0, Live);
  }

  /** The row is claimed and the process dies with it in hand. */
  lemma ClaimAndCrash(es: seq<Event>, s: State) returns (longer: seq<Event>, t: State)
    requires Legal(MIGRATED, es) && Exec(MIGRATED, es) == s && OneCardUp(s) && s.pc == Claiming
    requires |s.runs| == 2 && FinishedLive(s.runs[0]) && s.runs[1] == NewRun(0, Live, LiveWindow(8), 8)
    ensures Legal(MIGRATED, longer) && Exec(MIGRATED, longer) == t && OneCardUp(t) && t.pc == Down
    ensures t.runs == Claimed(s.runs, 1, 10)
  {
    ClaimSecond(s, 10);
    longer, t := Extend(es, s, Claim(10, Some(1)));
    longer, t := Extend(longer, t, Crash);
  }

  /** It restarts before the orphan is stale. */
  lemma Restart(es: seq<Event>, s: State) returns (longer: seq<Event>, t: State)
    requires Legal(MIGRATED, es) && Exec(MIGRATED, es) == s && OneCardUp(s) && s.pc == Down
    requires Swept(s.runs, 11) == s.runs
    ensures Legal(MIGRATED, longer) && Exec(MIGRATED, longer) == t && OneCardUp(t)
    ensures t.pc == Idle && t.runs == s.runs
  {
    longer, t := Extend(es, s, Boot(11));
    longer, t := Extend(longer, t, LoadState);
  }

  /** Nothing is stale yet and nothing is pending. */
  lemma OrphanUnseen(runs: seq<Run>, now: int)
    requires |runs| == 2 && FinishedLive(runs[0]) && runs[1].status.InFlight? && runs[1].startedAt == Some(10)
    requires now < 20
    ensures Swept(runs, now) == runs && NothingPending(runs)
  {
    SweepNothing(runs, now);
  }

  lemma SecondTick() returns (es: seq<Event>, s: State)
    ensures Legal(MIGRATED, es) && Exec(MIGRATED, es) == s && OneCardUp(s) && s.pc == Claiming
    ensures |s.runs| == 2 && FinishedLive(s.runs[0]) && s.runs[1] == NewRun(0, Live, LiveWindow(8), 8)
    ensures Crash !in es
  {
    es, s := OnePoll();
    es, s := EnqueueAgain(es, s, 8);
    AfterFinished(s.runs, 9);
    es, s := Begin(es, s, 9);
  }

  lemma CrashInHand() returns (es: seq<Event>, s: State)
    ensures Legal(MIGRATED, es) && Exec(MIGRATED, es) == s && OneCardUp(s) && s.pc == Down
    ensures |s.runs| == 2 && FinishedLive(s.runs[0]) && OpenLive(s.runs[1])
    ensures s.runs[1].status.InFlight? && s.runs[1].startedAt == Some(10)
  {
    es, s := SecondTick();
    es, s := ClaimAndCrash(es, s);
  }

  /** After a crash with a claimed live row in hand, the restarted scheduler does not see the
      orphan and enqueues a second live row for the card. */
  lemma CrashDuplicatesLive() returns (es: seq<Event>)
    ensures Legal(MIGRATED, es) && Duplicate(Exec(MIGRATED, es))
  {
    var s: State;
    es, s := CrashInHand();
    OrphanUnseen(s.runs, 11);
    es, s := Restart(es, s);
    es := PollAnyway(es, s);
  }

  /** Without any crash or restart: recording a 429 fails, the tick ends, and the next one does not
      see the row it left in flight. */
  lemma AbortDuplicatesLive() returns (es: seq<Event>)
    ensures Legal(MIGRATED, es) && Duplicate(Exec(MIGRATED, es)) && Crash !in es
  {
    var s: State;
    es, s := AbortInHand();
    es := PollAnyway(es, s);
  }

  /** A tick that does not see the orphan. */
  lemma PollAnyway(es: seq<Event>, s: State) returns (longer: seq<Event>)
    requires Legal(MIGRATED, es) && Exec(MIGRATED, es) == s && OneCardUp(s) && s.pc == Idle
    requires |s.runs| == 2 && FinishedLive(s.runs[0]) && OpenLive(s.runs[1])
    requires s.runs[1].status.InFlight? && s.runs[1].startedAt == Some(10)
    ensures Legal(MIGRATED, longer) && Duplicate(Exec(MIGRATED, longer))
    ensures Crash in longer ==> Crash in es
  {
    var t: State;
    OrphanUnseen(s.runs, 12);
    longer, t := Begin(es, s, 12);
    ClaimNothing(t, 12);
    longer, t := Extend(longer, t, Claim(12, None));
    longer := EnqueueBehind(longer, t, 13);
  }

  /** The row is claimed, the bank answers 429, and that cannot be recorded. */
  lemma AbortInHand() returns (es: seq<Event>, s: State)
    ensures Legal(MIGRATED, es) && Exec(MIGRATED, es) == s && OneCardUp(s) && s.pc == Idle && Crash !in es
    ensures |s.runs| == 2 && FinishedLive(s.runs[0]) && OpenLive(s.runs[1])
    ensures s.runs[1].status.InFlight? && s.runs[1].startedAt == Some(10)
  {
    es, s := SecondTick();
    ClaimSecond(s, 10);
    es, s := Extend(es, s, Claim(10, Some(1)));
    es, s := FailAndAbort(es, s);
  }

  lemma FailAndAbort(es: seq<Event>, s: State) returns (longer: seq<Event>, t: State)
    requires Legal(MIGRATED, es) && Exec(MIGRATED, es) == s && OneCardUp(s) && s.pc == Holding(1)
    requires |s.runs| == 2 && s.runs[1].account == 0
    ensures Legal(MIGRATED, longer) && Exec(MIGRATED, longer) == t && OneCardUp(t)
    ensures t.pc == Idle && t.runs == s.runs
    ensures Crash in longer ==> Crash in es
  {
    longer, t := Extend(es, s, LoadAccount);
    longer, t := Extend(longer, t, Fetch(RateLimited("")));
    longer, t := Extend(longer, t, Abort);
  }

  lemma AskLiveOnce(s: State, now: int)
    requires s.accounts == [CARD] && (s.pc == Picking || s.pc == Picked(0)) && |s.runs| == 1 && FinishedLive(s.runs[0])
    ensures Enabled(s, AskLive(now, now))
    ensures Do(s, AskLive(now, now)) == s.(runs := s.runs + [NewRun(0, Live, LiveWindow(now), now)], clock := now)
  {
    OneCardIsPollable();
    assert [0][..0] == [];
    assert LiveEach(s.runs, [], LiveWindow(now), now) == s.runs;
    assert !HasOpen(s.runs, 0, Backfill) && !HasOpen(s.runs, 0, Live);
    assert Enqueued(s.runs, 0, Live, [LiveWindow(now)], now) == s.runs + [NewRun(0, Live, LiveWindow(now), now)];
  }

  /** Without any crash: a force-poll request between a fruitless claim and the card choice. */
  lemma RequestDuplicatesLive() returns (es: seq<Event>)
    ensures Legal(MIGRATED, es) && Duplicate(Exec(MIGRATED, es))
  {
    var s: State;
    es, s := OnePoll();
    AskLiveOnce(s, 8);
    es, s := Extend(es, s, AskLive(8, 8));
    es := EnqueueBehind(es, s, 9);
  }

  /** Nor does the request have to fall before the choice: after it will do. */
  lemma LateRequestDuplicatesLive() returns (es: seq<Event>)
    ensures Legal(MIGRATED, es) && Duplicate(Exec(MIGRATED, es))
    ensures |es| >= 3 && es[|es| - 3].PickCard? && es[|es| - 2].AskLive? && es[|es| - 1].EnqueuePicked?
  {
    var s: State;
    es, s := OnePoll();
    FinishedHidesOpen(s);
    es, s := Extend(es, s, PickCard(map[0 := 0]));
    AskLiveOnce(s, 8);
    es, s := Extend(es, s, AskLive(8, 8));
    es, s := Extend(es, s, EnqueuePicked(9, 9));
    assert Open(s.runs[1], 0, Live) && Open(s.runs[2], 0, Live);
  }

  // ----- a live row behind a backfill row -----

  lemma AskBackfillOnce(s: State, now: int)
    requires s.accounts == [CARD] && !s.pc.Down? && !s.pc.Booting? && !HasOpen(s.runs, 0, Backfill)
    ensures Enabled(s, AskBackfill(None, 1, now, now))
    ensures Do(s, AskBackfill(None, 1, now, now))
            == s.(runs := s.runs + [NewRun(0, Backfill, Chunk(now, 0), now)], clock := now)
  {
    OneCardIsPollable();
    assert [0][..0] == [];
    assert BackfillEach(s.runs, [], BackfillChunks(now, 1), now) == s.runs;
    assert BackfillChunks(now, 1) == [Chunk(now, 0)];
    assert Enqueued(s.runs, 0, Backfill, [Chunk(now, 0)], now) == s.runs + [NewRun(0, Backfill, Chunk(now, 0), now)];
  }

  /** With stamps going forward: a backfill request between the choice of a card and its enqueue puts
      the live row behind the whole backfill. */
  lemma BackfillOvertakesLive() returns (es: seq<Event>)
    ensures Legal(MIGRATED, es) && !LiveFirst(Exec(MIGRATED, es).runs)
    ensures |es| >= 3 && es[|es| - 3].PickCard? && es[|es| - 2].AskBackfill? && es[|es| - 1].EnqueuePicked?
    ensures Exec(MIGRATED, es).runs == [NewRun(0, Backfill, Chunk(3, 0), 3), NewRun(0, Live, LiveWindow(4), 4)]
  {
    var s: State;
    es, s := FirstPick();
    AskBackfillOnce(s, 3);
    es, s := Extend(es, s, AskBackfill(None, 1, 3, 3));
    es, s := Extend(es, s, EnqueuePicked(4, 4));
    assert Open(s.runs[1], s.runs[0].account, Live);
  }

  /** The first tick of a started system, up to the choice of its card. */
  lemma FirstPick() returns (es: seq<Event>, s: State)
    ensures Legal(MIGRATED, es) && Exec(MIGRATED, es) == s && OneCardUp(s) && s.runs == [] && s.pc == Picked(0)
    ensures es != [] && es[|es| - 1].PickCard?
  {
    es, s := OneCard();
    es, s := Extend(es, s, Claim(2, None));
    PickStep(s, map[]);
    es, s := Extend(es, s, PickCard(map[]));
  }

  /** So does a database clock that steps back before a backfill request, between two ticks. */
  lemma ClockOvertakesLive() returns (es: seq<Event>)
    ensures Legal(MIGRATED, es) && !LiveFirst(Exec(MIGRATED, es).runs)
    ensures Exec(MIGRATED, es).pc == Idle && es != [] && es[|es| - 1].AskBackfill?
  {
    var s: State;
    es, s := FirstEnqueue();
    AskBackfillOnce(s, 2);
    es, s := Extend(es, s, AskBackfill(None, 1, 2, 2));
    assert Open(s.runs[0], s.runs[1].account, Live);
  }
}
