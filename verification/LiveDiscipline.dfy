/** Where live rows may stand: never behind a backfill row of their own card, and one per card. The
    code keeps neither in all its runs; for both it is proved exactly in which runs it does. */
module LiveDiscipline {
  import opened Common
  import opened Windows
  import opened Accounts
  import opened ImportQueue
  import opened SchedulerMachine
  import opened ExactlyOnce
  import opened QueueDiscipline

  // ----- a live row never sits behind a backfill row of its own card -----

  ghost predicate LiveFirst(runs: seq<Run>) {
    forall i, j | 0 <= i < |runs| && 0 <= j < |runs| && runs[j].kind.Backfill? && !runs[j].Terminal()
                  && Open(runs[i], runs[j].account, Live) ::
      runs[i].createdAt <= runs[j].createdAt
  }

  ghost predicate OlderBackfill(runs: seq<Run>, account: nat, now: int) {
    exists j | 0 <= j < |runs| :: Open(runs[j], account, Backfill) && runs[j].createdAt < now
  }

  ghost predicate YoungerLive(runs: seq<Run>, account: nat, now: int) {
    exists i | 0 <= i < |runs| :: Open(runs[i], account, Live) && runs[i].createdAt > now
  }

  /** One of the cards gets backfill rows that are older than a live row it has. */
  ghost predicate Predates(runs: seq<Run>, cards: seq<nat>, now: int) {
    exists k | 0 <= k < |cards| :: !HasOpen(runs, cards[k], Backfill) && YoungerLive(runs, cards[k], now)
  }

  /** The block enqueues a live row for a card with an older backfill row, or, the clock having
      stepped back, backfill rows for a card with a younger live row. */
  ghost predicate Overtakes(s: State, e: Event)
    requires Enabled(s, e)
  {
    || (e.EnqueuePicked? && OlderBackfill(s.runs, s.pc.card, e.now))
    || (e.AskBackfill? && BackfillCards(s.accounts, e.account).Success?
        && Predates(s.runs, BackfillCards(s.accounts, e.account).value, e.now))
  }

  lemma LiveFirstEvolves(a: seq<Run>, b: seq<Run>)
    requires LiveFirst(a) && QueueEvolves(a, b) && |a| == |b|
    ensures LiveFirst(b)
  {
    forall i, j | 0 <= i < |b| && 0 <= j < |b| && b[j].kind.Backfill? && !b[j].Terminal()
                  && Open(b[i], b[j].account, Live)
      ensures b[i].createdAt <= b[j].createdAt
    {
      assert Evolves(a[i], b[i]) && Evolves(a[j], b[j]);
      assert Open(a[i], a[j].account, Live);
    }
  }

  lemma LiveFirstPrefix(a: seq<Run>, b: seq<Run>)
    requires |a| <= |b| && b[..|a|] == a && LiveFirst(b)
    ensures LiveFirst(a)
  {
    assert forall i | 0 <= i < |a| :: b[i] == b[..|a|][i];
  }

  lemma AppendLiveExactly(runs: seq<Run>, account: nat, w: Window, now: int)
    requires LiveFirst(runs)
    ensures LiveFirst(Enqueued(runs, account, Live, [w], now)) <==> !OlderBackfill(runs, account, now)
  {
    var r := Enqueued(runs, account, Live, [w], now);
    var n := |runs|;
    assert r[n] == NewRun(account, Live, w, now);
    if OlderBackfill(runs, account, now) {
      var j :| 0 <= j < n && Open(runs[j], account, Backfill) && runs[j].createdAt < now;
      assert r[j] == runs[j] && Open(r[n], r[j].account, Live);
    } else {
      forall i, j | 0 <= i < |r| && 0 <= j < |r| && r[j].kind.Backfill? && !r[j].Terminal()
                    && Open(r[i], r[j].account, Live)
        ensures r[i].createdAt <= r[j].createdAt
      {
        assert r[j] == runs[j] && Open(runs[j], runs[j].account, Backfill);
      }
    }
  }

  lemma AppendBackfillExactly(runs: seq<Run>, account: nat, ws: seq<Window>, now: int)
    requires LiveFirst(runs) && ws != []
    ensures LiveFirst(Enqueued(runs, account, Backfill, ws, now)) <==> !YoungerLive(runs, account, now)
  {
    var r := Enqueued(runs, account, Backfill, ws, now);
    EnqueuedRows(runs, account, Backfill, ws, now);
    if YoungerLive(runs, account, now) {
      var i :| 0 <= i < |runs| && Open(runs[i], account, Live) && runs[i].createdAt > now;
      assert r[i] == runs[i] && Open(r[i], r[|runs|].account, Live);
    } else {
      forall i, j | 0 <= i < |r| && 0 <= j < |r| && r[j].kind.Backfill? && !r[j].Terminal()
                    && Open(r[i], r[j].account, Live)
        ensures r[i].createdAt <= r[j].createdAt
      {
        assert r[i] == runs[i];
      }
    }
  }

  lemma {:induction false} EachOpens(runs: seq<Run>, cards: seq<nat>, ws: seq<Window>, now: int, c: nat)
    requires ws != []
    ensures HasOpen(BackfillEach(runs, cards, ws, now), c, Backfill) <==> HasOpen(runs, c, Backfill) || c in cards
    ensures forall t :: YoungerLive(BackfillEach(runs, cards, ws, now), c, t) <==> YoungerLive(runs, c, t)
    decreases |cards|
  {
    if cards != [] {
      var n := |cards| - 1;
      var sofar := BackfillEach(runs, cards[..n], ws, now);
      EachOpens(runs, cards[..n], ws, now, c);
      assert cards == cards[..n] + [cards[n]];
      if !HasOpen(sofar, cards[n], Backfill) {
        EnqueueOpens(sofar, cards[n], ws, now, c);
      }
    }
  }

  lemma EnqueueOpens(runs: seq<Run>, account: nat, ws: seq<Window>, now: int, c: nat)
    requires ws != []
    ensures var r := Enqueued(runs, account, Backfill, ws, now);
            && (HasOpen(r, c, Backfill) <==> HasOpen(runs, c, Backfill) || c == account)
            && forall t :: YoungerLive(r, c, t) <==> YoungerLive(runs, c, t)
  {
    var r := Enqueued(runs, account, Backfill, ws, now);
    var n := |runs|;
    EnqueuedRows(runs, account, Backfill, ws, now);
    if c == account {
      assert Open(r[n], c, Backfill);
    }
    if HasOpen(runs, c, Backfill) {
      var i :| 0 <= i < n && Open(runs[i], c, Backfill);
      assert Open(r[i], c, Backfill);
    }
    forall t ensures YoungerLive(r, c, t) <==> YoungerLive(runs, c, t) {
      EnqueueKeepsYounger(runs, account, ws, now, c, t);
    }
  }

  lemma EnqueueKeepsYounger(runs: seq<Run>, account: nat, ws: seq<Window>, now: int, c: nat, t: int)
    ensures YoungerLive(Enqueued(runs, account, Backfill, ws, now), c, t) <==> YoungerLive(runs, c, t)
  {
    var r := Enqueued(runs, account, Backfill, ws, now);
    EnqueuedRows(runs, account, Backfill, ws, now);
    if YoungerLive(runs, c, t) {
      var i :| 0 <= i < |runs| && Open(runs[i], c, Live) && runs[i].createdAt > t;
      assert Open(r[i], c, Live);
    }
  }

  lemma {:induction false} BackfillEachExactly(runs: seq<Run>, cards: seq<nat>, ws: seq<Window>, now: int)
    requires LiveFirst(runs) && ws != []
    ensures LiveFirst(BackfillEach(runs, cards, ws, now)) <==> !Predates(runs, cards, now)
    decreases |cards|
  {
    if cards != [] {
      var n := |cards| - 1;
      var sofar := BackfillEach(runs, cards[..n], ws, now);
      BackfillEachExactly(runs, cards[..n], ws, now);
      PredatesLast(runs, cards, now);
      EachOpens(runs, cards[..n], ws, now, cards[n]);
      if LiveFirst(sofar) {
        LastCardExactly(runs, cards, ws, now);
      } else {
        assert BackfillEach(runs, cards, ws, now)[..|sofar|] == sofar;
        if LiveFirst(BackfillEach(runs, cards, ws, now)) {
          LiveFirstPrefix(sofar, BackfillEach(runs, cards, ws, now));
        }
      }
    }
  }

  lemma PredatesLast(runs: seq<Run>, cards: seq<nat>, now: int)
    requires cards != []
    ensures var n := |cards| - 1;
            Predates(runs, cards, now) <==>
            Predates(runs, cards[..n], now) || (!HasOpen(runs, cards[n], Backfill) && YoungerLive(runs, cards[n], now))
  {
    var n := |cards| - 1;
    assert forall k | 0 <= k < n :: cards[..n][k] == cards[k];
  }

  lemma LastCardExactly(runs: seq<Run>, cards: seq<nat>, ws: seq<Window>, now: int)
    requires cards != [] && ws != [] && !Predates(runs, cards[..|cards| - 1], now)
    requires LiveFirst(BackfillEach(runs, cards[..|cards| - 1], ws, now))
    ensures var c := cards[|cards| - 1];
            LiveFirst(BackfillEach(runs, cards, ws, now)) <==> HasOpen(runs, c, Backfill) || !YoungerLive(runs, c, now)
  {
    var n := |cards| - 1;
    var c := cards[n];
    var sofar := BackfillEach(runs, cards[..n], ws, now);
    EachOpens(runs, cards[..n], ws, now, c);
    if HasOpen(sofar, c, Backfill) {
      if !HasOpen(runs, c, Backfill) {
        var k :| 0 <= k < n && cards[..n][k] == c;
        assert !YoungerLive(runs, c, now);
      }
    } else {
      AppendBackfillExactly(sofar, c, ws, now);
    }
  }

  lemma {:induction false} LiveFirstLiveEach(runs: seq<Run>, cards: seq<nat>, w: Window, now: int)
    requires LiveFirst(runs)
    ensures LiveFirst(LiveEach(runs, cards, w, now))
    decreases |cards|
  {
    if cards != [] {
      var n := |cards| - 1;
      LiveFirstLiveEach(runs, cards[..n], w, now);
      AppendLiveExactly(LiveEach(runs, cards[..n], w, now), cards[n], w, now);
    }
  }

  /** One block: it keeps live rows first exactly when it does not overtake. */
  lemma LiveFirstStepExactly(s: State, e: Event)
    requires HeldInFlight(s) && LiveFirst(s.runs) && Enabled(s, e)
    ensures LiveFirst(Do(s, e).runs) <==> !Overtakes(s, e)
  {
    match e
    case AskBackfill(account, months, appNow, now) =>
      var cards := BackfillCards(s.accounts, account);
      if cards.Success? {
        BackfillEachExactly(s.runs, cards.value, BackfillChunks(appNow, months), now);
      }
    case AskLive(appNow, now) =>
      LiveFirstLiveEach(s.runs, PollableIds(s.accounts), LiveWindow(appNow), now);
    case EnqueuePicked(appNow, now) =>
      AppendLiveExactly(s.runs, s.pc.card, LiveWindow(appNow), now);
    case _ =>
      StepEvolvesInPlace(s, e);
      LiveFirstEvolves(s.runs, Do(s, e).runs);
  }

  ghost predicate NeverOvertakes(s: State, es: seq<Event>)
    requires Legal(s, es)
    decreases |es|
  {
    es == [] || (NeverOvertakes(s, es[..|es| - 1]) && !Overtakes(Exec(s, es[..|es| - 1]), es[|es| - 1]))
  }

  ghost predicate AlwaysLiveFirst(s: State, es: seq<Event>)
    requires Legal(s, es)
    decreases |es|
  {
    LiveFirst(Exec(s, es).runs) && (es == [] || AlwaysLiveFirst(s, es[..|es| - 1]))
  }

  /** Over any run, crashes included: no live row ever stands behind an unfinished backfill row of
      its card, if and only if no block of the run overtakes. */
  lemma {:induction false} LiveFirstExactly(s: State, es: seq<Event>)
    requires HeldInFlight(s) && LiveFirst(s.runs) && Legal(s, es)
    ensures AlwaysLiveFirst(s, es) <==> NeverOvertakes(s, es)
    decreases |es|
  {
    if es != [] {
      var n := |es| - 1;
      LiveFirstExactly(s, es[..n]);
      AlwaysHeldInFlight(s, es[..n]);
      if AlwaysLiveFirst(s, es[..n]) {
        assert LiveFirst(Exec(s, es[..n]).runs);
        LiveFirstStepExactly(Exec(s, es[..n]), es[n]);
      }
    }
  }

  // ----- in particular -----

  function Stamp(e: Event): Option<int> {
    match e
    case Boot(now) => Some(now)
    case StartTick(now, _) => Some(now)
    case Claim(now, _) => Some(now)
    case EnqueuePicked(_, now) => Some(now)
    case Store(now) => Some(now)
    case RecordMissing(now) => Some(now)
    case RecordError(now) => Some(now)
    case AskBackfill(_, _, _, now) => Some(now)
    case AskLive(_, now) => Some(now)
    case _ => None
  }

  /** Database time does not run backwards. */
  predicate Forward(s: State, e: Event) {
    Stamp(e).Some? ==> s.clock <= Stamp(e).value
  }

  ghost predicate CreatedBy(runs: seq<Run>, clock: int) {
    forall i | 0 <= i < |runs| :: runs[i].createdAt <= clock
  }

  /** Stamps go forward and no backfill request falls between the choice of a card and its enqueue. */
  predicate Orderly(s: State, e: Event) {
    Forward(s, e) && !(e.AskBackfill? && s.pc.Picked?)
  }

  predicate OrderlyRun(s: State, es: seq<Event>)
    requires Legal(s, es)
    decreases |es|
  {
    es == [] || (OrderlyRun(s, es[..|es| - 1]) && Orderly(Exec(s, es[..|es| - 1]), es[|es| - 1]))
  }

  ghost predicate Punctual(s: State) {
    && HeldInFlight(s)
    && CreatedBy(s.runs, s.clock)
    && (s.pc.Picked? ==> !HasOpen(s.runs, s.pc.card, Backfill))
  }

  lemma PickIsEligible(runs: seq<Run>, last: map<nat, nat>, cards: seq<nat>)
    requires IsLastLive(runs, last)
    ensures Pick(runs, last, cards).Some? ==> Eligible(runs, last, Pick(runs, last, cards).value)
                                              && Pick(runs, last, cards).value in cards
  {
  }

  lemma {:induction false} LiveEachOpensNoBackfill(runs: seq<Run>, cards: seq<nat>, w: Window, now: int, c: nat)
    requires !HasOpen(runs, c, Backfill)
    ensures !HasOpen(LiveEach(runs, cards, w, now), c, Backfill)
    decreases |cards|
  {
    if cards != [] {
      LiveEachOpensNoBackfill(runs, cards[..|cards| - 1], w, now, c);
    }
  }

  lemma RequestPunctual(s: State, e: Event)
    requires Punctual(s) && Enabled(s, e) && Orderly(s, e) && (Request(e) || e.EnqueuePicked?)
    ensures Punctual(Do(s, e))
  {
    StepEvolves(s, e);
    RequestsAppend(s, e);
    var q := Do(s, e).runs;
    assert forall i | 0 <= i < |s.runs| :: q[i] == q[..|s.runs|][i];
    if e.AskLive? && s.pc.Picked? {
      LiveEachOpensNoBackfill(s.runs, PollableIds(s.accounts), LiveWindow(e.appNow), e.now, s.pc.card);
    }
  }

  lemma InPlacePunctual(s: State, e: Event)
    requires Punctual(s) && Enabled(s, e) && Orderly(s, e) && !Request(e) && !e.EnqueuePicked?
    ensures Punctual(Do(s, e))
  {
    StepEvolvesInPlace(s, e);
    var t := Do(s, e);
    assert forall i | 0 <= i < |t.runs| :: Evolves(s.runs[i], t.runs[i]);
    if e.PickCard? {
      PickIsEligible(s.runs, e.last, PollableIds(s.accounts));
    }
  }

  lemma {:induction false} OrderlyNeverOvertakes(es: seq<Event>)
    requires Legal(MIGRATED, es) && OrderlyRun(MIGRATED, es)
    ensures Punctual(Exec(MIGRATED, es)) && NeverOvertakes(MIGRATED, es)
    decreases |es|
  {
    if es != [] {
      var n := |es| - 1;
      var s := Exec(MIGRATED, es[..n]);
      OrderlyNeverOvertakes(es[..n]);
      if Request(es[n]) || es[n].EnqueuePicked? {
        RequestPunctual(s, es[n]);
      } else {
        InPlacePunctual(s, es[n]);
      }
    }
  }

  /** Database time going forward, and no backfill request between the choice of a card and its
      enqueue: then, crashes included, a live row was created no later than any unfinished backfill
      row of its card, so the claim never makes it wait for them. */
  lemma LiveNeverBehindBackfill(es: seq<Event>)
    requires Legal(MIGRATED, es) && OrderlyRun(MIGRATED, es)
    ensures AlwaysLiveFirst(MIGRATED, es)
  {
    OrderlyNeverOvertakes(es);
    LiveFirstExactly(MIGRATED, es);
  }

  // ----- at most one unfinished live row per card -----

  ghost predicate OneLive(runs: seq<Run>) {
    forall i, j | 0 <= i < j < |runs| && runs[j].kind.Live? && !runs[j].Terminal() ::
      !Open(runs[i], runs[j].account, Live)
  }

  /** The chosen card has an unfinished live row when its new one is enqueued. */
  ghost predicate Doubles(s: State, e: Event)
    requires Enabled(s, e)
  {
    e.EnqueuePicked? && HasOpen(s.runs, s.pc.card, Live)
  }

  lemma OneLiveEvolves(a: seq<Run>, b: seq<Run>)
    requires OneLive(a) && QueueEvolves(a, b) && |a| == |b|
    ensures OneLive(b)
  {
    forall i, j | 0 <= i < j < |b| && b[j].kind.Live? && !b[j].Terminal() ensures !Open(b[i], b[j].account, Live) {
      assert Evolves(a[i], b[i]) && Evolves(a[j], b[j]);
      assert !Open(a[i], a[j].account, Live);
    }
  }

  lemma OneLiveAppendExactly(runs: seq<Run>, account: nat, w: Window, now: int)
    requires OneLive(runs)
    ensures OneLive(Enqueued(runs, account, Live, [w], now)) <==> !HasOpen(runs, account, Live)
  {
    var r := Enqueued(runs, account, Live, [w], now);
    assert r[|runs|] == NewRun(account, Live, w, now);
    if HasOpen(runs, account, Live) {
      var i :| 0 <= i < |runs| && Open(runs[i], account, Live);
      assert r[i] == runs[i];
    } else {
      forall i, j | 0 <= i < j < |r| && r[j].kind.Live? && !r[j].Terminal()
        ensures !Open(r[i], r[j].account, Live)
      {
        assert r[i] == runs[i];
      }
    }
  }

  lemma OneLiveAppendBackfill(runs: seq<Run>, account: nat, ws: seq<Window>, now: int)
    requires OneLive(runs)
    ensures OneLive(Enqueued(runs, account, Backfill, ws, now))
  {
    EnqueuedRows(runs, account, Backfill, ws, now);
  }

  lemma {:induction false} OneLiveBackfillEach(runs: seq<Run>, cards: seq<nat>, ws: seq<Window>, now: int)
    requires OneLive(runs)
    ensures OneLive(BackfillEach(runs, cards, ws, now))
    decreases |cards|
  {
    if cards != [] {
      OneLiveBackfillEach(runs, cards[..|cards| - 1], ws, now);
      OneLiveAppendBackfill(BackfillEach(runs, cards[..|cards| - 1], ws, now), cards[|cards| - 1], ws, now);
    }
  }

  lemma {:induction false} OneLiveLiveEach(runs: seq<Run>, cards: seq<nat>, w: Window, now: int)
    requires OneLive(runs)
    ensures OneLive(LiveEach(runs, cards, w, now))
    decreases |cards|
  {
    if cards != [] {
      var n := |cards| - 1;
      OneLiveLiveEach(runs, cards[..n], w, now);
      var sofar := LiveEach(runs, cards[..n], w, now);
      if !HasOpen(sofar, cards[n], Live) {
        OneLiveAppendExactly(sofar, cards[n], w, now);
      }
    }
  }

  /** One block: it keeps one live row per card exactly when it does not double. */
  lemma OneLiveStepExactly(s: State, e: Event)
    requires HeldInFlight(s) && OneLive(s.runs) && Enabled(s, e)
    ensures OneLive(Do(s, e).runs) <==> !Doubles(s, e)
  {
    match e
    case AskBackfill(account, months, appNow, now) =>
      var cards := BackfillCards(s.accounts, account);
      if cards.Success? {
        OneLiveBackfillEach(s.runs, cards.value, BackfillChunks(appNow, months), now);
      }
    case AskLive(appNow, now) =>
      OneLiveLiveEach(s.runs, PollableIds(s.accounts), LiveWindow(appNow), now);
    case EnqueuePicked(appNow, now) =>
      OneLiveAppendExactly(s.runs, s.pc.card, LiveWindow(appNow), now);
    case _ =>
      StepEvolvesInPlace(s, e);
      OneLiveEvolves(s.runs, Do(s, e).runs);
  }

  ghost predicate NeverDoubles(s: State, es: seq<Event>)
    requires Legal(s, es)
    decreases |es|
  {
    es == [] || (NeverDoubles(s, es[..|es| - 1]) && !Doubles(Exec(s, es[..|es| - 1]), es[|es| - 1]))
  }

  ghost predicate AlwaysOneLive(s: State, es: seq<Event>)
    requires Legal(s, es)
    decreases |es|
  {
    OneLive(Exec(s, es).runs) && (es == [] || AlwaysOneLive(s, es[..|es| - 1]))
  }

  /** Over any run, crashes included: every card always has at most one unfinished live row, if and
      only if no enqueue of the run meets an unfinished live row of its card. */
  lemma {:induction false} OneLiveExactly(s: State, es: seq<Event>)
    requires HeldInFlight(s) && OneLive(s.runs) && Legal(s, es)
    ensures AlwaysOneLive(s, es) <==> NeverDoubles(s, es)
    decreases |es|
  {
    if es != [] {
      var n := |es| - 1;
      OneLiveExactly(s, es[..n]);
      AlwaysHeldInFlight(s, es[..n]);
      if AlwaysOneLive(s, es[..n]) {
        assert OneLive(Exec(s, es[..n]).runs);
        OneLiveStepExactly(Exec(s, es[..n]), es[n]);
      }
    }
  }

  // ----- when the choice lets such a card through -----

  ghost predicate CompletedWhenFinished(runs: seq<Run>) {
    forall i | 0 <= i < |runs| :: runs[i].Terminal() <==> runs[i].completedAt.Some?
  }

  lemma StepCompletes(s: State, e: Event)
    requires HeldInFlight(s) && CompletedWhenFinished(s.runs) && Enabled(s, e)
    ensures CompletedWhenFinished(Do(s, e).runs)
  {
    var q := Do(s, e).runs;
    if Request(e) || e.EnqueuePicked? {
      AppendedUncompleted(s, e);
    } else if !TouchesRuns(e) {
      OtherEventsKeepRuns(s, e);
    }
  }

  lemma {:induction false} BackfillEachUncompleted(runs: seq<Run>, cards: seq<nat>, ws: seq<Window>, now: int)
    requires CompletedWhenFinished(runs)
    ensures CompletedWhenFinished(BackfillEach(runs, cards, ws, now))
    decreases |cards|
  {
    if cards != [] {
      var n := |cards| - 1;
      BackfillEachUncompleted(runs, cards[..n], ws, now);
      EnqueuedUncompleted(BackfillEach(runs, cards[..n], ws, now), cards[n], Backfill, ws, now);
    }
  }

  lemma {:induction false} LiveEachUncompleted(runs: seq<Run>, cards: seq<nat>, w: Window, now: int)
    requires CompletedWhenFinished(runs)
    ensures CompletedWhenFinished(LiveEach(runs, cards, w, now))
    decreases |cards|
  {
    if cards != [] {
      var n := |cards| - 1;
      LiveEachUncompleted(runs, cards[..n], w, now);
      EnqueuedUncompleted(LiveEach(runs, cards[..n], w, now), cards[n], Live, [w], now);
    }
  }

  lemma EnqueuedUncompleted(runs: seq<Run>, account: nat, kind: Kind, ws: seq<Window>, now: int)
    requires CompletedWhenFinished(runs)
    ensures CompletedWhenFinished(Enqueued(runs, account, kind, ws, now))
  {
    EnqueuedRows(runs, account, kind, ws, now);
  }

  lemma AppendedUncompleted(s: State, e: Event)
    requires CompletedWhenFinished(s.runs) && Enabled(s, e) && (Request(e) || e.EnqueuePicked?)
    ensures CompletedWhenFinished(Do(s, e).runs)
  {
    match e
    case AskBackfill(account, months, appNow, now) =>
      var cards := BackfillCards(s.accounts, account);
      if cards.Success? {
        BackfillEachUncompleted(s.runs, cards.value, BackfillChunks(appNow, months), now);
      }
    case AskLive(appNow, now) =>
      LiveEachUncompleted(s.runs, PollableIds(s.accounts), LiveWindow(appNow), now);
    case EnqueuePicked(appNow, now) =>
      EnqueuedUncompleted(s.runs, s.pc.card, Live, [LiveWindow(appNow)], now);
  }

  lemma {:induction false} AlwaysCompletedWhenFinished(es: seq<Event>)
    requires Legal(MIGRATED, es)
    ensures CompletedWhenFinished(Exec(MIGRATED, es).runs)
    decreases |es|
  {
    if es != [] {
      AlwaysCompletedWhenFinished(es[..|es| - 1]);
      AlwaysHeldInFlight(MIGRATED, es[..|es| - 1]);
      StepCompletes(Exec(MIGRATED, es[..|es| - 1]), es[|es| - 1]);
    }
  }

  ghost predicate HasFinishedLive(runs: seq<Run>, account: nat) {
    exists i | 0 <= i < |runs| :: IsLive(runs[i], account) && runs[i].Terminal()
  }

  /** In any reachable state, whatever the database reports as last live rows: a card with an
      unfinished live row passes the filter exactly when it also has a finished one, which the
      report then prefers, and no unfinished backfill row. */
  lemma OpenCardPassesExactly(es: seq<Event>, last: map<nat, nat>, c: nat)
    requires Legal(MIGRATED, es) && IsLastLive(Exec(MIGRATED, es).runs, last)
    requires HasOpen(Exec(MIGRATED, es).runs, c, Live)
    ensures var runs := Exec(MIGRATED, es).runs;
            Eligible(runs, last, c) <==> HasFinishedLive(runs, c) && !HasOpen(runs, c, Backfill)
  {
    var runs := Exec(MIGRATED, es).runs;
    AlwaysCompletedWhenFinished(es);
    var i :| 0 <= i < |runs| && Open(runs[i], c, Live);
    assert IsLive(runs[i], c);
    if HasFinishedLive(runs, c) {
      var j :| 0 <= j < |runs| && IsLive(runs[j], c) && runs[j].Terminal();
      assert Later(runs[last[c]], runs[j]);
    }
  }

  // ----- in particular -----

  ghost predicate NoLiveOrphans(s: State) {
    forall i | 0 <= i < |s.runs| && s.runs[i].kind.Live? && s.runs[i].status.InFlight? :: s.pc.Held() == Some(i)
  }

  ghost predicate NoPendingLive(runs: seq<Run>) {
    forall i | 0 <= i < |runs| :: !(runs[i].kind.Live? && runs[i].status.Pending?)
  }

  ghost predicate LiveQuiet(s: State) {
    && HeldInFlight(s)
    && NoLiveOrphans(s)
    && (s.pc.Picking? || s.pc.Picked? ==> NoPendingLive(s.runs))
  }

  /** No claimed live row is left behind, and no force-poll request falls between a fruitless claim
      and the enqueue of the same tick. */
  predicate Tidy(s: State, e: Event) {
    && !(Orphans(s, e) && s.pc.Held().value < |s.runs| && s.runs[s.pc.Held().value].kind.Live?)
    && !(e.AskLive? && (s.pc.Picking? || s.pc.Picked?))
  }

  predicate TidyRun(s: State, es: seq<Event>)
    requires Legal(s, es)
    decreases |es|
  {
    es == [] || (TidyRun(s, es[..|es| - 1]) && Tidy(Exec(s, es[..|es| - 1]), es[|es| - 1]))
  }

  ghost predicate OnlyBackfillSince(runs: seq<Run>, from: nat) {
    forall j | from <= j < |runs| :: runs[j].kind.Backfill?
  }

  lemma EnqueuedKind(runs: seq<Run>, account: nat, ws: seq<Window>, now: int)
    ensures OnlyBackfillSince(Enqueued(runs, account, Backfill, ws, now), |runs|)
  {
    EnqueuedRows(runs, account, Backfill, ws, now);
  }

  lemma {:induction false} BackfillEachKind(runs: seq<Run>, cards: seq<nat>, ws: seq<Window>, now: int)
    ensures OnlyBackfillSince(BackfillEach(runs, cards, ws, now), |runs|)
    decreases |cards|
  {
    if cards != [] {
      var n := |cards| - 1;
      BackfillEachKind(runs, cards[..n], ws, now);
      EnqueuedKind(BackfillEach(runs, cards[..n], ws, now), cards[n], ws, now);
    }
  }

  lemma RequestQuiet(s: State, e: Event)
    requires LiveQuiet(s) && Enabled(s, e) && Tidy(s, e) && (Request(e) || e.EnqueuePicked?)
    ensures LiveQuiet(Do(s, e))
  {
    StepEvolves(s, e);
    RequestsAppend(s, e);
    var q := Do(s, e).runs;
    assert forall i | 0 <= i < |s.runs| :: q[i] == q[..|s.runs|][i];
    if e.AskBackfill? {
      BackfillAddsNoLive(s, e);
    }
  }

  lemma BackfillAddsNoLive(s: State, e: Event)
    requires Enabled(s, e) && e.AskBackfill?
    ensures OnlyBackfillSince(Do(s, e).runs, |s.runs|)
  {
    var cards := BackfillCards(s.accounts, e.account);
    if cards.Success? {
      BackfillEachKind(s.runs, cards.value, BackfillChunks(e.appNow, e.months), e.now);
    }
  }

  lemma MarksQuiet(s: State, e: Event)
    requires LiveQuiet(s) && Enabled(s, e) && TouchesRuns(e)
    ensures NoLiveOrphans(Do(s, e))
    ensures Do(s, e).pc.Picking? || Do(s, e).pc.Picked? ==> NoPendingLive(Do(s, e).runs)
  {
  }

  lemma OthersQuiet(s: State, e: Event)
    requires LiveQuiet(s) && Enabled(s, e) && Tidy(s, e)
    requires !Request(e) && !e.EnqueuePicked? && !TouchesRuns(e)
    ensures LiveQuiet(Do(s, e))
  {
    OtherEventsKeepRuns(s, e);
    StepEvolvesInPlace(s, e);
    if Do(s, e).pc.Held().None? && s.pc.Held().Some? {
      assert Orphans(s, e);
    }
  }

  lemma QuietLiveStep(s: State, e: Event)
    requires LiveQuiet(s) && Enabled(s, e) && Tidy(s, e)
    ensures LiveQuiet(Do(s, e)) && !Doubles(s, e)
  {
    if Request(e) || e.EnqueuePicked? {
      RequestQuiet(s, e);
    } else if TouchesRuns(e) {
      StepEvolvesInPlace(s, e);
      MarksQuiet(s, e);
    } else {
      OthersQuiet(s, e);
    }
  }

  lemma {:induction false} TidyNeverDoubles(es: seq<Event>)
    requires Legal(MIGRATED, es) && TidyRun(MIGRATED, es)
    ensures LiveQuiet(Exec(MIGRATED, es)) && NeverDoubles(MIGRATED, es)
    decreases |es|
  {
    if es != [] {
      TidyNeverDoubles(es[..|es| - 1]);
      QuietLiveStep(Exec(MIGRATED, es[..|es| - 1]), es[|es| - 1]);
    }
  }

  /** No claimed live row left behind and no force-poll request inside a tick: then every card always
      has at most one unfinished live row. */
  lemma AlwaysLiveSingle(es: seq<Event>)
    requires Legal(MIGRATED, es) && TidyRun(MIGRATED, es)
    ensures AlwaysOneLive(MIGRATED, es)
  {
    TidyNeverDoubles(es);
    OneLiveExactly(MIGRATED, es);
  }

  // ----- the queue is bounded -----

  /** In exactly these runs, at most one unfinished live row and 36 unfinished backfill rows per
      account, 37 in all. */
  lemma QueueBounded(es: seq<Event>, account: nat)
    requires Legal(MIGRATED, es) && NeverDoubles(MIGRATED, es)
    ensures var runs := Exec(MIGRATED, es).runs;
            && |OpenIds(runs, account, Live)| <= 1
            && |OpenIds(runs, account, Backfill)| <= 36
            && |OpenIds(runs, account, Live) + OpenIds(runs, account, Backfill)| <= 37
  {
    OneLiveExactly(MIGRATED, es);
    AlwaysBatched(es);
    var runs := Exec(MIGRATED, es).runs;
    assert OneLive(runs);
    OneLiveBound(runs, account);
    BatchBound(runs, account);
  }

  lemma SingleOpen(runs: seq<Run>, i: nat, j: nat, account: nat)
    requires OneLive(runs) && i < |runs| && j < |runs| && Open(runs[i], account, Live) && Open(runs[j], account, Live)
    ensures i == j
  {
  }

  lemma OneLiveBound(runs: seq<Run>, account: nat)
    requires OneLive(runs)
    ensures |OpenIds(runs, account, Live)| <= 1
  {
    var ids := OpenIds(runs, account, Live);
    if ids != {} {
      var x := Member(ids);
      forall y | y in ids ensures y == x {
        SingleOpen(runs, x, y, account);
      }
      assert ids == {x};
    }
  }

  lemma BatchBound(runs: seq<Run>, account: nat)
    requires Batched(runs)
    ensures |OpenIds(runs, account, Backfill)| <= 36
  {
    var ids: set<int> := set i: int | 0 <= i < |runs| && Open(runs[i], account, Backfill);
    var nats := OpenIds(runs, account, Backfill);
    if ids != {} {
      var lo := Least(ids);
      forall y | y in ids ensures lo <= y < lo + 36 {
        if lo < y {
          assert runs[y].kind.Backfill? && OpenBackfill(runs[lo], runs[y].account);
        }
      }
      IntervalBound(ids, lo, 36);
    }
    SameSize(nats, ids);
  }

  lemma {:induction false} SameSize(a: set<nat>, b: set<int>)
    requires forall x: int :: x in b <==> x >= 0 && x in a
    ensures |a| <= |b|
    decreases |a|
  {
    if a != {} {
      var x := Member(a);
      SameSize(a - {x}, b - {x});
    }
  }

}
