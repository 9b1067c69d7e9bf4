/** What becomes of a run that was claimed and not finished: the sweep returns it to the queue after
    five minutes, and from there it is claimed again. */
module Recovery {
  import opened Common
  import opened Windows
  import opened Accounts
  import opened ImportQueue
  import opened SchedulerMachine
  import opened ExactlyOnce
  import opened QueueDiscipline

  // ----- what is on record about claims -----

  function ClaimsOf(es: seq<Event>, r: nat): nat
    decreases |es|
  {
    if es == [] then 0 else ClaimsOf(es[..|es| - 1], r) + Count(ClaimsRow(es[|es| - 1], r))
  }

  /** When row r was last claimed. */
  function LastClaim(es: seq<Event>, r: nat): Option<int>
    decreases |es|
  {
    if es == [] then None
    else
      var e := es[|es| - 1];
      if ClaimsRow(e, r) then Some(e.now) else LastClaim(es[..|es| - 1], r)
  }

  ghost predicate OnRecord(run: Run, claims: nat, last: Option<int>) {
    run.attempts == claims && (run.status.InFlight? ==> run.startedAt.Some? && run.startedAt == last)
  }

  lemma RecordStep(s: State, e: Event, r: nat, claims: nat, last: Option<int>)
    requires HeldInFlight(s) && Enabled(s, e) && r < |s.runs| && OnRecord(s.runs[r], claims, last)
    ensures r < |Do(s, e).runs|
    ensures if ClaimsRow(e, r) then OnRecord(Do(s, e).runs[r], claims + 1, Some(e.now))
            else OnRecord(Do(s, e).runs[r], claims, last)
  {
    StepEvolves(s, e);
    if e.AskBackfill? || e.AskLive? || e.EnqueuePicked? {
      RequestsAppend(s, e);
      assert Do(s, e).runs[r] == Do(s, e).runs[..|s.runs|][r];
    } else if TouchesRuns(e) {
      MarksRecord(s, e, r, claims, last);
    } else {
      OtherEventsKeepRuns(s, e);
    }
  }

  lemma MarksRecord(s: State, e: Event, r: nat, claims: nat, last: Option<int>)
    requires HeldInFlight(s) && Enabled(s, e) && r < |s.runs| && OnRecord(s.runs[r], claims, last) && TouchesRuns(e)
    ensures r < |Do(s, e).runs|
    ensures if ClaimsRow(e, r) then OnRecord(Do(s, e).runs[r], claims + 1, Some(e.now))
            else OnRecord(Do(s, e).runs[r], claims, last)
  {
  }

  lemma {:induction false} NoEarlyClaims(es: seq<Event>, r: nat)
    requires Legal(MIGRATED, es) && r >= |Exec(MIGRATED, es).runs|
    ensures ClaimsOf(es, r) == 0
    decreases |es|
  {
    if es != [] {
      var n := |es| - 1;
      AlwaysHeldInFlight(MIGRATED, es[..n]);
      StepEvolves(Exec(MIGRATED, es[..n]), es[n]);
      NoEarlyClaims(es[..n], r);
    }
  }

  /** In every reachable state: a row counts as many attempts as there were claims of it, and while it
      is in flight it shows the time of the last one. */
  lemma {:induction false} ClaimsOnRecord(es: seq<Event>, r: nat)
    requires Legal(MIGRATED, es) && r < |Exec(MIGRATED, es).runs|
    ensures OnRecord(Exec(MIGRATED, es).runs[r], ClaimsOf(es, r), LastClaim(es, r))
    decreases |es|
  {
    if es != [] {
      var n := |es| - 1;
      var mid := Exec(MIGRATED, es[..n]);
      AlwaysHeldInFlight(MIGRATED, es[..n]);
      if r < |mid.runs| {
        ClaimsOnRecord(es[..n], r);
        RecordStep(mid, es[n], r, ClaimsOf(es[..n], r), LastClaim(es[..n], r));
      } else {
        NoEarlyClaims(es[..n], r);
        NewRowsUnclaimed(mid, es[n], r);
      }
    }
  }

  lemma NewRowsUnclaimed(s: State, e: Event, r: nat)
    requires HeldInFlight(s) && Enabled(s, e) && |s.runs| <= r < |Do(s, e).runs|
    ensures Do(s, e).runs[r].attempts == 0 && Do(s, e).runs[r].status.Pending? && !ClaimsRow(e, r)
  {
    if e.AskBackfill? || e.AskLive? || e.EnqueuePicked? {
      AppendedUnclaimed(s, e);
    } else {
      StepEvolvesInPlace(s, e);
    }
  }

  ghost predicate UnclaimedSince(runs: seq<Run>, from: nat) {
    forall j | from <= j < |runs| :: runs[j].attempts == 0 && runs[j].status.Pending?
  }

  lemma {:induction false} BackfillEachUnclaimed(runs: seq<Run>, cards: seq<nat>, ws: seq<Window>, now: int)
    ensures UnclaimedSince(BackfillEach(runs, cards, ws, now), |runs|)
    decreases |cards|
  {
    if cards != [] {
      var n := |cards| - 1;
      BackfillEachUnclaimed(runs, cards[..n], ws, now);
      EnqueuedRows(BackfillEach(runs, cards[..n], ws, now), cards[n], Backfill, ws, now);
    }
  }

  lemma {:induction false} LiveEachUnclaimed(runs: seq<Run>, cards: seq<nat>, w: Window, now: int)
    ensures UnclaimedSince(LiveEach(runs, cards, w, now), |runs|)
    decreases |cards|
  {
    if cards != [] {
      var n := |cards| - 1;
      LiveEachUnclaimed(runs, cards[..n], w, now);
      EnqueuedRows(LiveEach(runs, cards[..n], w, now), cards[n], Live, [w], now);
    }
  }

  lemma AppendedUnclaimed(s: State, e: Event)
    requires Enabled(s, e) && (e.AskBackfill? || e.AskLive? || e.EnqueuePicked?)
    ensures UnclaimedSince(Do(s, e).runs, |s.runs|)
  {
    match e
    case AskBackfill(account, months, appNow, now) =>
      var cards := BackfillCards(s.accounts, account);
      if cards.Success? {
        BackfillEachUnclaimed(s.runs, cards.value, BackfillChunks(appNow, months), now);
      }
    case AskLive(appNow, now) =>
      LiveEachUnclaimed(s.runs, PollableIds(s.accounts), LiveWindow(appNow), now);
    case EnqueuePicked(appNow, now) =>
      EnqueuedRows(s.runs, s.pc.card, Live, [LiveWindow(appNow)], now);
  }

  // ----- the sweep -----

  /** At the start of a process, or of a tick whose sweep goes through. */
  predicate Sweeps(e: Event, now: int) {
    e == Boot(now) || e == StartTick(now, true)
  }

  /** A sweep puts a row back into the queue exactly when it has been in flight for more than 300
      seconds, and changes nothing else. */
  lemma SweepExactly(s: State, e: Event, now: int, r: nat)
    requires Enabled(s, e) && Sweeps(e, now) && r < |s.runs|
    ensures var a := s.runs[r];
            && |Do(s, e).runs| == |s.runs|
            && Do(s, e).runs[r] ==
                 if a.status.InFlight? && a.startedAt.Some? && now - a.startedAt.value > 300_000_000
                 then a.(status := Pending, startedAt := None) else a
  {
  }

  // ----- a run left behind comes back -----

  /** Row r was claimed at t0 and then left behind, or is back in the queue. */
  ghost predicate LeftBehind(s: State, r: nat, t0: int) {
    && HeldInFlight(s) && r < |s.runs|
    && (s.runs[r].status.Pending?
        || (s.runs[r].status.InFlight? && s.runs[r].startedAt == Some(t0) && s.pc.Held() != Some(r)))
  }

  lemma LeftBehindStep(s: State, e: Event, r: nat, t0: int)
    requires LeftBehind(s, r, t0) && Enabled(s, e) && !ClaimsRow(e, r)
    ensures LeftBehind(Do(s, e), r, t0)
  {
    StepEvolves(s, e);
    if e.AskBackfill? || e.AskLive? || e.EnqueuePicked? {
      RequestsAppend(s, e);
      assert Do(s, e).runs[r] == Do(s, e).runs[..|s.runs|][r];
    } else if TouchesRuns(e) {
      MarksLeaveBehind(s, e, r, t0);
    } else {
      OtherEventsKeepRuns(s, e);
    }
  }

  lemma MarksLeaveBehind(s: State, e: Event, r: nat, t0: int)
    requires LeftBehind(s, r, t0) && Enabled(s, e) && !ClaimsRow(e, r) && TouchesRuns(e)
    ensures r < |Do(s, e).runs|
    ensures Do(s, e).runs[r].status.Pending?
            || (Do(s, e).runs[r].status.InFlight? && Do(s, e).runs[r].startedAt == Some(t0)
                && Do(s, e).pc.Held() != Some(r))
  {
  }

  lemma {:induction false} StaysBehind(s: State, es: seq<Event>, r: nat, t0: int)
    requires LeftBehind(s, r, t0) && Legal(s, es) && !EverClaimed(es, r)
    ensures LeftBehind(Exec(s, es), r, t0)
    decreases |es|
  {
    if es != [] {
      var n := |es| - 1;
      assert forall k | 0 <= k < n :: es[..n][k] == es[k];
      StaysBehind(s, es[..n], r, t0);
      LeftBehindStep(Exec(s, es[..n]), es[n], r, t0);
    }
  }

  /** Whatever happens in between, a sweep more than 300 seconds after the claim puts it back, and then
      as many ticks that reach their claim as there are unfinished rows no younger claim it. */
  lemma LeftBehindReturns(s: State, r: nat, t0: int, a: seq<Event>, e: Event, now: int, b: seq<Event>)
    requires LeftBehind(s, r, t0) && Legal(s, a)
    requires Enabled(Exec(s, a), e) && Sweeps(e, now) && now - t0 > 300_000_000
    requires var w := Do(Exec(s, a), e);
             r < |w.runs| && Legal(w, b) && CalmRun(w, b, r) && ClaimCount(b) >= |Ahead(w.runs, r)|
    ensures EverClaimed(a, r) || EverClaimed(b, r)
  {
    if !EverClaimed(a, r) {
      var v := Exec(s, a);
      StaysBehind(s, a, r, t0);
      LeftBehindStep(v, e, r, t0);
      SweepExactly(v, e, now, r);
      NoStarvation(Do(v, e), b, r);
    }
  }

  /** From the migrated database: a run in the process's hands when it dies is claimed again, in every
      continuation with a sweep more than 300 seconds after its last claim followed by enough ticks
      that reach their claim. */
  lemma CrashedRunReturns(es: seq<Event>, r: nat, a: seq<Event>, e: Event, now: int, b: seq<Event>)
    requires Legal(MIGRATED, es) && Exec(MIGRATED, es).pc.Held() == Some(r) && LastClaim(es, r).Some?
    requires var u := Do(Exec(MIGRATED, es), Crash);
             && Legal(u, a) && Enabled(Exec(u, a), e) && Sweeps(e, now) && now - LastClaim(es, r).value > 300_000_000
             && var w := Do(Exec(u, a), e);
             r < |w.runs| && Legal(w, b) && CalmRun(w, b, r) && ClaimCount(b) >= |Ahead(w.runs, r)|
    ensures EverClaimed(a, r) || EverClaimed(b, r)
  {
    AlwaysHeldInFlight(MIGRATED, es);
    ClaimsOnRecord(es, r);
    LeftBehindReturns(Do(Exec(MIGRATED, es), Crash), r, LastClaim(es, r).value, a, e, now, b);
  }
}
