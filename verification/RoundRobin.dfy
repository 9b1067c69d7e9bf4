/** Fairness of the live polls: with nothing else going on, the scheduler polls the cards in a
    fixed rotation. */
module RoundRobin {
  import opened Common
  import opened Accounts
  import opened ImportQueue
  import opened SchedulerMachine
  import opened ExactlyOnce
  import opened QueueDiscipline

  ghost predicate Polled(runs: seq<Run>, c: nat) {
    exists i | 0 <= i < |runs| :: IsLive(runs[i], c)
  }

  /** Every live row of c was completed before some live row of d. */
  ghost predicate CompletedBefore(runs: seq<Run>, c: nat, d: nat) {
    exists j | 0 <= j < |runs| :: IsLive(runs[j], d) && runs[j].completedAt.Some?
      && forall i | 0 <= i < |runs| && IsLive(runs[i], c) ::
           runs[i].completedAt.Some? && runs[i].completedAt.value < runs[j].completedAt.value
  }

  /** c is due before d: never-polled cards first, by id; then the longest unpolled. */
  ghost predicate Due(runs: seq<Run>, c: nat, d: nat) {
    if Polled(runs, c) then Polled(runs, d) && CompletedBefore(runs, c, d)
    else Polled(runs, d) || c < d
  }

  ghost predicate DueOrder(runs: seq<Run>, q: seq<nat>) {
    forall a, b | 0 <= a < b < |q| :: Due(runs, q[a], q[b])
  }

  ghost predicate Permutes(q: seq<nat>, cards: seq<nat>) {
    (forall c :: c in q <==> c in cards) && forall a, b | 0 <= a < b < |q| :: q[a] != q[b]
  }

  ghost predicate AllFinished(runs: seq<Run>) {
    forall i | 0 <= i < |runs| :: runs[i].Terminal()
  }

  ghost predicate Stamped(runs: seq<Run>) {
    forall i | 0 <= i < |runs| && runs[i].Terminal() :: runs[i].completedAt.Some?
  }

  /** In the warm-up, before any live poll, the order is that of the ids. */
  lemma WarmUpOrder(runs: seq<Run>, accounts: seq<Account>)
    requires forall i | 0 <= i < |runs| :: !runs[i].kind.Live?
    ensures DueOrder(runs, PollableIds(accounts)) && Permutes(PollableIds(accounts), PollableIds(accounts))
  {
  }

  // ----- the pick takes the first card in due order -----

  lemma EligibleLast(runs: seq<Run>, last: map<nat, nat>, cards: seq<nat>)
    requires IsLastLive(runs, last) && cards != [] && Eligible(runs, last, cards[|cards| - 1])
    ensures EligibleCards(runs, last, cards) ==
            EligibleCards(runs, last, cards[..|cards| - 1]) + [cards[|cards| - 1]]
  {
  }

  lemma {:induction false} EligibleAll(runs: seq<Run>, last: map<nat, nat>, cards: seq<nat>)
    requires IsLastLive(runs, last) && forall c | c in cards :: Eligible(runs, last, c)
    ensures EligibleCards(runs, last, cards) == cards
    decreases |cards|
  {
    if cards != [] {
      var n := |cards| - 1;
      EligibleAll(runs, last, cards[..n]);
      EligibleLast(runs, last, cards);
      assert cards == cards[..n] + [cards[n]];
    }
  }

  lemma AllEligible(runs: seq<Run>, last: map<nat, nat>, cards: seq<nat>)
    requires IsLastLive(runs, last) && AllFinished(runs)
    ensures EligibleCards(runs, last, cards) == cards
  {
    EligibleAll(runs, last, cards);
  }

  lemma {:induction false} FirstIsLeast(last: map<nat, nat>, es: seq<nat>)
    requires Ascending(es)
    ensures var c := FirstNeverPolled(last, es);
            c.Some? ==> forall e | e in es && e !in last :: c.value <= e
    decreases |es|
  {
    if es != [] && es[0] in last {
      FirstIsLeast(last, es[1..]);
    }
  }

  lemma PolledIffListed(runs: seq<Run>, last: map<nat, nat>, c: nat)
    requires IsLastLive(runs, last)
    ensures Polled(runs, c) <==> c in last
  {
    if c in last {
      assert IsLive(runs[last[c]], c);
    }
  }

  lemma CompletedBeforeInLast(runs: seq<Run>, last: map<nat, nat>, c: nat, d: nat)
    requires IsLastLive(runs, last) && AllFinished(runs) && Stamped(runs)
    requires c in last && d in last && CompletedBefore(runs, c, d)
    ensures runs[last[c]].completedAt.Some? && runs[last[d]].completedAt.Some?
    ensures runs[last[c]].completedAt.value < runs[last[d]].completedAt.value
  {
    var j :| 0 <= j < |runs| && IsLive(runs[j], d) && runs[j].completedAt.Some?
      && forall i | 0 <= i < |runs| && IsLive(runs[i], c) ::
           runs[i].completedAt.Some? && runs[i].completedAt.value < runs[j].completedAt.value;
    assert Later(runs[last[d]], runs[j]);
    assert IsLive(runs[last[c]], c);
  }

  lemma LeastIsPicked(runs: seq<Run>, last: map<nat, nat>, cards: seq<nat>, c: nat)
    requires IsLastLive(runs, last) && EligibleCards(runs, last, cards) == cards
    requires c in cards && FirstNeverPolled(last, cards).None?
    ensures Pick(runs, last, cards) == Some(LeastRecent(runs, last, cards, DATETIME_MIN))
    ensures var p := LeastRecent(runs, last, cards, DATETIME_MIN);
            CompletedOr(runs[last[p]], DATETIME_MIN) <= CompletedOr(runs[last[c]], DATETIME_MIN)
  {
  }

  lemma LaterNotPicked(runs: seq<Run>, last: map<nat, nat>, cards: seq<nat>, q: seq<nat>, b: nat)
    requires IsLastLive(runs, last) && AllFinished(runs) && Stamped(runs)
    requires 0 < b < |q| && Due(runs, q[0], q[b]) && Ascending(cards) && q[0] in cards
    requires EligibleCards(runs, last, cards) == cards
    ensures Pick(runs, last, cards) != Some(q[b])
  {
    FirstIsLeast(last, cards);
    PolledIffListed(runs, last, q[0]);
    PolledIffListed(runs, last, q[b]);
    if q[0] in last {
      CompletedBeforeInLast(runs, last, q[0], q[b]);
      if FirstNeverPolled(last, cards).None? {
        LeastIsPicked(runs, last, cards, q[0]);
      }
    }
  }

  lemma PickIsDue(runs: seq<Run>, last: map<nat, nat>, cards: seq<nat>, q: seq<nat>)
    requires IsLastLive(runs, last) && AllFinished(runs) && Stamped(runs)
    requires Ascending(cards) && Permutes(q, cards) && q != [] && DueOrder(runs, q)
    ensures Pick(runs, last, cards) == Some(q[0])
  {
    AllEligible(runs, last, cards);
    assert q[0] in q;
    PickListed(runs, last, cards);
    var picked := Pick(runs, last, cards).value;
    assert picked in q;
    var b :| 0 <= b < |q| && q[b] == picked;
    if b > 0 {
      LaterNotPicked(runs, last, cards, q, b);
    }
  }

  lemma PickListed(runs: seq<Run>, last: map<nat, nat>, cards: seq<nat>)
    requires IsLastLive(runs, last) && EligibleCards(runs, last, cards) == cards && cards != []
    ensures Pick(runs, last, cards).Some? && Pick(runs, last, cards).value in cards
  {
  }

  // ----- the choice in any state -----

  /** The card is polled, has no unfinished backfill row, and its last live row, if the report has one,
      is done or in error. */
  ghost predicate Passes(runs: seq<Run>, last: map<nat, nat>, accounts: seq<Account>, c: nat)
    requires IsLastLive(runs, last)
  {
    && c in PollableIds(accounts)
    && (forall i | 0 <= i < |runs| && runs[i].account == c && runs[i].kind.Backfill? ::
          runs[i].status.Done? || runs[i].status.Error?)
    && (c in last ==> runs[last[c]].status.Done? || runs[last[c]].status.Error?)
  }

  lemma PassesIsEligible(runs: seq<Run>, last: map<nat, nat>, accounts: seq<Account>, c: nat)
    requires IsLastLive(runs, last)
    ensures Passes(runs, last, accounts, c) <==> c in PollableIds(accounts) && Eligible(runs, last, c)
  {
    if c in PollableIds(accounts) && Eligible(runs, last, c) {
      forall i | 0 <= i < |runs| && runs[i].account == c && runs[i].kind.Backfill?
        ensures runs[i].status.Done? || runs[i].status.Error?
      {
        assert !Open(runs[i], c, Backfill);
      }
    }
  }

  lemma {:induction false} EligibleAscending(runs: seq<Run>, last: map<nat, nat>, cards: seq<nat>)
    requires IsLastLive(runs, last) && Ascending(cards)
    ensures Ascending(EligibleCards(runs, last, cards))
    decreases |cards|
  {
    if cards != [] {
      var n := |cards| - 1;
      var front := EligibleCards(runs, last, cards[..n]);
      EligibleAscending(runs, last, cards[..n]);
      forall i | 0 <= i < |front| ensures front[i] < cards[n] {
        assert front[i] in front && front[i] in cards[..n];
      }
    }
  }

  /** In any state and for any report: nothing is chosen exactly when no card passes. Otherwise the choice
      passes; if it was never polled, it has the least id of those that pass and never were; and if it
      was, all that pass were, and none completed its last poll earlier. */
  lemma PickMeaning(runs: seq<Run>, last: map<nat, nat>, accounts: seq<Account>)
    requires IsLastLive(runs, last)
    ensures var pick := Pick(runs, last, PollableIds(accounts));
            && (pick.None? <==> forall c :: !Passes(runs, last, accounts, c))
            && (pick.Some? ==>
                  var c := pick.value;
                  && Passes(runs, last, accounts, c)
                  && (c !in last ==> forall d :: Passes(runs, last, accounts, d) && d !in last ==> c <= d)
                  && (c in last ==> forall d :: Passes(runs, last, accounts, d) ==>
                        && d in last
                        && (runs[last[c]].completedAt.Some? && runs[last[d]].completedAt.Some? ==>
                              runs[last[c]].completedAt.value <= runs[last[d]].completedAt.value)))
  {
    var cards := PollableIds(accounts);
    var es := EligibleCards(runs, last, cards);
    forall c ensures Passes(runs, last, accounts, c) <==> c in es {
      PassesIsEligible(runs, last, accounts, c);
    }
    EligibleAscending(runs, last, cards);
    FirstIsLeast(last, es);
    if es != [] {
      assert es[0] in es;
    }
  }

  // ----- rotation -----

  function Rotated(q: seq<nat>, k: nat): (r: seq<nat>)
    requires q != []
    ensures |r| == |q|
  {
    q[k % |q|..] + q[..k % |q|]
  }

  lemma RotateOnce(q: seq<nat>, k: nat)
    requires q != []
    ensures Rotated(q, k)[0] == q[k % |q|]
    ensures Rotated(q, k + 1) == Rotated(q, k)[1..] + [Rotated(q, k)[0]]
  {
    var n, m := |q|, k % |q|;
    ModStep(k, n);
    if m + 1 < n {
      assert (k + 1) % n == m + 1;
    } else {
      assert (k + 1) % n == 0;
    }
  }

  lemma ModStep(k: nat, n: nat)
    requires n > 0
    ensures (k + 1) % n == if k % n + 1 < n then k % n + 1 else 0
  {
    var d := k / n;
    assert k == d * n + k % n;
    if k % n + 1 < n {
      ModIs(k + 1, n, d, k % n + 1);
    } else {
      assert k + 1 == (d + 1) * n;
      ModIs(k + 1, n, d + 1, 0);
    }
  }

  lemma UniqueDivision(n: nat, d: int, r: int, e: int, s: int)
    requires 0 <= r < n && 0 <= s < n && d * n + r == e * n + s
    ensures d == e && r == s
  {
    if d < e {
      MulGap(d, e, n);
    } else if e < d {
      MulGap(e, d, n);
    }
  }

  lemma ModIs(a: nat, n: nat, d: nat, r: nat)
    requires n > 0 && r < n && a == d * n + r
    ensures a % n == r
  {
    var e, s := a / n, a % n;
    assert a == e * n + s;
    UniqueDivision(n, d, r, e, s);
  }

  // ----- the undisturbed scheduler -----

  /** Nothing else goes on: no request, crash, escaped exception or 401, and every completion is
      stamped later than all before it. Polls may end in an error. */
  predicate Steady(s: State, e: Event) {
    && !Request(e) && !e.Crash? && !e.Abort? && !Rejection(e)
    && (e.Store? || e.RecordError? || e.RecordMissing? ==>
          forall i | 0 <= i < |s.runs| && s.runs[i].completedAt.Some? :: s.runs[i].completedAt.value < e.now)
  }

  ghost predicate Ready(s: State, accounts: seq<Account>, q: seq<nat>) {
    && s.accounts == accounts && accounts != []
    && s.cached.mode.Running?
    && q != [] && Permutes(q, PollableIds(accounts))
    && Stamped(s.runs)
  }

  /** Nothing is open: q is the order in which the cards are due. */
  ghost predicate Resting(s: State, q: seq<nat>)
    requires q != []
  {
    && AllFinished(s.runs) && DueOrder(s.runs, q)
    && (s.pc.Idle? || s.pc.CheckingAccounts? || s.pc.Claiming? || s.pc.Picking? || s.pc == Picked(q[0]))
  }

  ghost predicate OnlyOpen(runs: seq<Run>, x: nat, c: nat) {
    && x < |runs| && Open(runs[x], c, Live)
    && forall i | 0 <= i < |runs| && i != x :: runs[i].Terminal()
  }

  /** The row of the last card of q is open: the others are due in the order of q. */
  ghost predicate Working(s: State, q: seq<nat>, x: nat)
    requires q != []
  {
    && OnlyOpen(s.runs, x, q[|q| - 1]) && DueOrder(s.runs, q[..|q| - 1])
    && if s.runs[x].status.Pending? then s.pc.Idle? || s.pc.CheckingAccounts? || s.pc.Claiming?
       else s.pc.Held() == Some(x) && !s.pc.MissingAccount? && (s.pc.Failing? ==> !s.pc.auth)
  }

  ghost predicate Turning(s: State, accounts: seq<Account>, q: seq<nat>) {
    Ready(s, accounts, q) && (Resting(s, q) || exists x :: Working(s, q, x))
  }

  lemma DueElsewhere(a: seq<Run>, b: seq<Run>, x: nat, c: nat, d: nat)
    requires |a| <= |b| && x < |b| && (|a| == |b| || (|b| == |a| + 1 && x == |a|))
    requires forall i | 0 <= i < |a| && i != x :: a[i] == b[i]
    requires b[x].account != c && b[x].account != d && (x < |a| ==> a[x].account == b[x].account)
    requires Due(a, c, d)
    ensures Due(b, c, d)
  {
    PolledElsewhere(a, b, x, c);
    PolledElsewhere(a, b, x, d);
    if Polled(a, c) {
      var j :| 0 <= j < |a| && IsLive(a[j], d) && a[j].completedAt.Some?
        && forall i | 0 <= i < |a| && IsLive(a[i], c) ::
             a[i].completedAt.Some? && a[i].completedAt.value < a[j].completedAt.value;
      assert b[j] == a[j];
    }
  }

  lemma PolledElsewhere(a: seq<Run>, b: seq<Run>, x: nat, c: nat)
    requires |a| <= |b| && x < |b| && (|a| == |b| || (|b| == |a| + 1 && x == |a|))
    requires forall i | 0 <= i < |a| && i != x :: a[i] == b[i]
    requires b[x].account != c && (x < |a| ==> a[x].account == b[x].account)
    ensures Polled(a, c) <==> Polled(b, c)
  {
    if Polled(a, c) {
      var i :| 0 <= i < |a| && IsLive(a[i], c);
      assert IsLive(b[i], c);
    }
  }

  /** The picked card goes to the back of the order when its row is enqueued. */
  lemma EnqueueTurns(s: State, e: Event, accounts: seq<Account>, q: seq<nat>)
    requires Ready(s, accounts, q) && Resting(s, q) && Enabled(s, e) && e.EnqueuePicked?
    ensures Ready(Do(s, e), accounts, q[1..] + [q[0]]) && Working(Do(s, e), q[1..] + [q[0]], |s.runs|)
  {
    var p := q[1..] + [q[0]];
    var t := Do(s, e);
    var x := |s.runs|;
    assert t.runs[x] == NewRun(q[0], Live, LiveWindow(e.appNow), e.now);
    assert forall c :: c in p <==> c in q;
    assert p[..|p| - 1] == q[1..];
    forall a, b | 0 <= a < b < |q[1..]| ensures Due(t.runs, q[1..][a], q[1..][b]) {
      assert Due(s.runs, q[a + 1], q[b + 1]) && q[0] != q[a + 1] && q[0] != q[b + 1];
      DueElsewhere(s.runs, t.runs, x, q[a + 1], q[b + 1]);
    }
  }

  lemma RestingStep(s: State, e: Event, accounts: seq<Account>, q: seq<nat>)
    requires Ready(s, accounts, q) && Resting(s, q) && Enabled(s, e) && Steady(s, e) && !e.EnqueuePicked?
    ensures Ready(Do(s, e), accounts, q) && Resting(Do(s, e), q)
  {
    if e.PickCard? {
      PickIsDue(s.runs, e.last, PollableIds(accounts), q);
    } else if e.StartTick? {
      assert Swept(s.runs, e.now) == s.runs;
    }
  }

  lemma CompletionIsLatest(a: seq<Run>, b: seq<Run>, x: nat, c: nat, now: int)
    requires |a| == |b| && x < |a| && forall i | 0 <= i < |a| && i != x :: a[i] == b[i] && a[i].Terminal()
    requires Stamped(a) && b[x].kind.Live? && b[x].completedAt == Some(now) && b[x].account != c
    requires forall i | 0 <= i < |a| && a[i].completedAt.Some? :: a[i].completedAt.value < now
    ensures Due(b, c, b[x].account)
  {
    assert IsLive(b[x], b[x].account);
    assert forall i | 0 <= i < |b| && IsLive(b[i], c) ::
        b[i].completedAt.Some? && b[i].completedAt.value < b[x].completedAt.value;
  }

  /** When the poll ends, done or in error, the polled card is last in the order. */
  lemma FinishTurns(s: State, e: Event, accounts: seq<Account>, q: seq<nat>, x: nat)
    requires Ready(s, accounts, q) && Working(s, q, x) && Enabled(s, e) && Steady(s, e)
    requires (e.Store? || e.RecordError?) && Do(s, e).pc.Idle?
    ensures Ready(Do(s, e), accounts, q) && Resting(Do(s, e), q)
  {
    var t := Do(s, e);
    var n := |q| - 1;
    assert s.pc.Held() == Some(x);
    assert t.runs[x].Terminal() && t.runs[x].completedAt == Some(e.now);
    assert t.runs[x].account == q[n] && t.runs[x].kind.Live?;
    forall a, b | 0 <= a < b < |q| ensures Due(t.runs, q[a], q[b]) {
      assert q[a] != q[n];
      if b < n {
        assert Due(s.runs, q[..n][a], q[..n][b]);
        assert q[b] != q[n];
        DueElsewhere(s.runs, t.runs, x, q[a], q[b]);
      } else {
        CompletionIsLatest(s.runs, t.runs, x, q[a], e.now);
      }
    }
  }

  lemma WorkingStep(s: State, e: Event, accounts: seq<Account>, q: seq<nat>, x: nat)
    requires Ready(s, accounts, q) && Working(s, q, x) && Enabled(s, e) && Steady(s, e)
    requires !((e.Store? || e.RecordError?) && Do(s, e).pc.Idle?)
    ensures Ready(Do(s, e), accounts, q) && Working(Do(s, e), q, x) && !e.EnqueuePicked?
  {
    if e.Claim? {
      ClaimWorking(s, e, accounts, q, x);
    } else if e.StartTick? {
      assert Swept(s.runs, e.now) == s.runs;
    } else if e.LoadAccount? {
      assert q[|q| - 1] in q;
    }
  }

  lemma ClaimWorking(s: State, e: Event, accounts: seq<Account>, q: seq<nat>, x: nat)
    requires Ready(s, accounts, q) && Working(s, q, x) && Enabled(s, e) && e.Claim?
    ensures Ready(Do(s, e), accounts, q) && Working(Do(s, e), q, x)
  {
    assert e.choice == Some(x);
    var t := Do(s, e);
    var n := |q| - 1;
    forall a, b | 0 <= a < b < n ensures Due(t.runs, q[..n][a], q[..n][b]) {
      assert Due(s.runs, q[..n][a], q[..n][b]) && q[a] != q[n] && q[b] != q[n];
      DueElsewhere(s.runs, t.runs, x, q[a], q[b]);
    }
  }

  predicate SteadyRun(s: State, es: seq<Event>)
    requires Legal(s, es)
    decreases |es|
  {
    es == [] || (SteadyRun(s, es[..|es| - 1]) && Steady(Exec(s, es[..|es| - 1]), es[|es| - 1]))
  }

  /** The cards for which the run enqueues live polls, in order. */
  function Picks(s: State, es: seq<Event>): seq<nat>
    requires Legal(s, es)
    decreases |es|
  {
    if es == [] then []
    else
      var n := |es| - 1;
      Picks(s, es[..n]) + (if es[n].EnqueuePicked? then [Exec(s, es[..n]).pc.card] else [])
  }

  lemma TurningStep(s: State, e: Event, accounts: seq<Account>, q: seq<nat>)
    requires Turning(s, accounts, q) && Enabled(s, e) && Steady(s, e)
    ensures if e.EnqueuePicked? then s.pc == Picked(q[0]) && Turning(Do(s, e), accounts, q[1..] + [q[0]])
            else Turning(Do(s, e), accounts, q)
  {
    if Resting(s, q) {
      if e.EnqueuePicked? {
        EnqueueTurns(s, e, accounts, q);
      } else {
        RestingStep(s, e, accounts, q);
      }
    } else {
      var x :| Working(s, q, x);
      if (e.Store? || e.RecordError?) && Do(s, e).pc.Idle? {
        FinishTurns(s, e, accounts, q, x);
      } else {
        WorkingStep(s, e, accounts, q, x);
      }
    }
  }

  /** Undisturbed, the k-th pick is the k-th card of the initial due order, cyclically. */
  lemma {:induction false} PicksRotate(s: State, es: seq<Event>, accounts: seq<Account>, q: seq<nat>)
    requires Ready(s, accounts, q) && Resting(s, q) && Legal(s, es) && SteadyRun(s, es)
    ensures forall k | 0 <= k < |Picks(s, es)| :: Picks(s, es)[k] == q[k % |q|]
    ensures Turning(Exec(s, es), accounts, Rotated(q, |Picks(s, es)|))
    decreases |es|
  {
    if es == [] {
      assert Rotated(q, 0) == q;
    } else {
      var n := |es| - 1;
      PicksRotate(s, es[..n], accounts, q);
      var k := |Picks(s, es[..n])|;
      RotateOnce(q, k);
      TurningStep(Exec(s, es[..n]), es[n], accounts, Rotated(q, k));
    }
  }

  /** Round robin: with n pollable cards, pick k + n is pick k, and among any n consecutive picks
      every pollable card occurs exactly once. */
  lemma RoundRobinFairness(s: State, es: seq<Event>, accounts: seq<Account>, q: seq<nat>, k: nat)
    requires Ready(s, accounts, q) && Resting(s, q) && Legal(s, es) && SteadyRun(s, es)
    requires k + |q| <= |Picks(s, es)|
    ensures k + |q| < |Picks(s, es)| ==> Picks(s, es)[k + |q|] == Picks(s, es)[k]
    ensures forall c | c in PollableIds(accounts) :: exists i | k <= i < k + |q| ::
              Picks(s, es)[i] == c && forall j | k <= j < k + |q| && j != i :: Picks(s, es)[j] != c
  {
    PicksRotate(s, es, accounts, q);
    var picks, n := Picks(s, es), |q|;
    SameResidue(k, n);
    forall c | c in PollableIds(accounts)
      ensures exists i | k <= i < k + n :: picks[i] == c && forall j | k <= j < k + n && j != i :: picks[j] != c
    {
      assert c in q;
      var m :| 0 <= m < n && q[m] == c;
      var i := PlaceOf(k, n, m);
      forall j | k <= j < k + n && j != i ensures picks[j] != c {
        DistinctResidues(k, n, i, j);
        DistinctPlaces(q, i % n, j % n);
      }
    }
  }

  lemma DistinctPlaces(q: seq<nat>, a: nat, b: nat)
    requires a < |q| && b < |q| && a != b && forall a, b | 0 <= a < b < |q| :: q[a] != q[b]
    ensures q[a] != q[b]
  {
  }

  lemma SameResidue(k: nat, n: nat)
    requires n > 0
    ensures (k + n) % n == k % n
  {
    var d := k / n;
    assert k == d * n + k % n;
    assert k + n == (d + 1) * n + k % n;
    ModIs(k + n, n, d + 1, k % n);
  }

  lemma PlaceOf(k: nat, n: nat, m: nat) returns (i: nat)
    requires m < n
    ensures k <= i < k + n && i % n == m
  {
    var d, r := k / n, k % n;
    assert k == d * n + r;
    if m >= r {
      i := d * n + m;
      ModIs(i, n, d, m);
    } else {
      i := (d + 1) * n + m;
      assert (d + 1) * n == d * n + n;
      ModIs(i, n, d + 1, m);
    }
  }

  lemma DistinctResidues(k: nat, n: nat, i: nat, j: nat)
    requires n > 0 && k <= i < k + n && k <= j < k + n && i != j
    ensures i % n != j % n
  {
    var a, b := i / n, j / n;
    assert i == a * n + i % n && j == b * n + j % n;
    if a < b {
      MulGap(a, b, n);
    } else if b < a {
      MulGap(b, a, n);
    }
  }

  // ----- a due order exists -----

  /** Different cards never completed at the same instant. */
  ghost predicate DistinctCompletions(runs: seq<Run>) {
    forall i, j | 0 <= i < |runs| && 0 <= j < |runs| && runs[i].kind.Live? && runs[j].kind.Live?
                  && runs[i].account != runs[j].account ::
      runs[i].completedAt != runs[j].completedAt
  }

  ghost predicate Latest(runs: seq<Run>, c: nat, j: nat) {
    && j < |runs| && IsLive(runs[j], c) && runs[j].completedAt.Some?
    && forall i | 0 <= i < |runs| && IsLive(runs[i], c) ::
         runs[i].completedAt.Some? && runs[i].completedAt.value <= runs[j].completedAt.value
  }

  lemma {:induction false} LatestExists(runs: seq<Run>, c: nat) returns (j: nat)
    requires AllFinished(runs) && Stamped(runs) && Polled(runs, c)
    ensures Latest(runs, c, j)
    decreases |runs|
  {
    var n := |runs| - 1;
    assert forall i | 0 <= i < n :: runs[..n][i] == runs[i];
    if Polled(runs[..n], c) {
      j := LatestExists(runs[..n], c);
      if IsLive(runs[n], c) && runs[n].completedAt.value > runs[j].completedAt.value {
        j := n;
      }
    } else {
      j := n;
    }
  }

  lemma LatestDecides(runs: seq<Run>, c: nat, i: nat, d: nat, j: nat)
    requires Latest(runs, c, i) && Latest(runs, d, j)
    requires runs[i].completedAt.value < runs[j].completedAt.value
    ensures CompletedBefore(runs, c, d)
  {
  }

  lemma DueTotal(runs: seq<Run>, c: nat, d: nat)
    requires AllFinished(runs) && Stamped(runs) && DistinctCompletions(runs) && c != d
    ensures Due(runs, c, d) || Due(runs, d, c)
  {
    if Polled(runs, c) && Polled(runs, d) {
      var i := LatestExists(runs, c);
      var j := LatestExists(runs, d);
      assert runs[i].completedAt != runs[j].completedAt;
      if runs[i].completedAt.value < runs[j].completedAt.value {
        LatestDecides(runs, c, i, d, j);
      } else {
        LatestDecides(runs, d, j, c, i);
      }
    }
  }

  lemma DueTransitive(runs: seq<Run>, c: nat, d: nat, e: nat)
    requires AllFinished(runs) && Stamped(runs) && Due(runs, c, d) && Due(runs, d, e)
    ensures Due(runs, c, e)
  {
    if Polled(runs, c) {
      var i := LatestExists(runs, c);
      var j :| 0 <= j < |runs| && IsLive(runs[j], d) && runs[j].completedAt.Some?
               && forall i | 0 <= i < |runs| && IsLive(runs[i], c) ::
                    runs[i].completedAt.Some? && runs[i].completedAt.value < runs[j].completedAt.value;
      var k :| 0 <= k < |runs| && IsLive(runs[k], e) && runs[k].completedAt.Some?
               && forall i | 0 <= i < |runs| && IsLive(runs[i], d) ::
                    runs[i].completedAt.Some? && runs[i].completedAt.value < runs[k].completedAt.value;
    }
  }

  /** A card takes its place among cards in due order. */
  lemma {:induction false} PlaceInOrder(runs: seq<Run>, q: seq<nat>, c: nat) returns (p: seq<nat>)
    requires AllFinished(runs) && Stamped(runs) && DistinctCompletions(runs)
    requires DueOrder(runs, q) && c !in q
    ensures DueOrder(runs, p) && |p| == |q| + 1 && forall d :: d in p <==> d in q || d == c
    decreases |q|
  {
    if q == [] {
      p := [c];
    } else if Due(runs, c, q[0]) {
      p := [c] + q;
      forall d | d in q ensures Due(runs, c, d) {
        DueBeforeAll(runs, c, q, d);
      }
      Prepended(runs, c, q);
    } else {
      var rest := PlaceInOrder(runs, q[1..], c);
      DueTotal(runs, c, q[0]);
      p := [q[0]] + rest;
      forall d | d in rest ensures Due(runs, q[0], d) {
        if d != c {
          FirstIsDue(runs, q, d);
        }
      }
      Prepended(runs, q[0], rest);
    }
  }

  lemma Prepended(runs: seq<Run>, c: nat, q: seq<nat>)
    requires DueOrder(runs, q) && forall d | d in q :: Due(runs, c, d)
    ensures DueOrder(runs, [c] + q) && forall d :: d in [c] + q <==> d in q || d == c
  {
    var p := [c] + q;
    forall a, b | 0 <= a < b < |p| ensures Due(runs, p[a], p[b]) {
      assert p[b] == q[b - 1];
      if a > 0 {
        assert Due(runs, q[a - 1], q[b - 1]);
      }
    }
  }

  lemma FirstIsDue(runs: seq<Run>, q: seq<nat>, d: nat)
    requires q != [] && DueOrder(runs, q) && d in q[1..]
    ensures Due(runs, q[0], d)
  {
    var a :| 0 <= a < |q[1..]| && q[1..][a] == d;
    assert Due(runs, q[0], q[a + 1]);
  }

  lemma DueBeforeAll(runs: seq<Run>, c: nat, q: seq<nat>, d: nat)
    requires AllFinished(runs) && Stamped(runs) && q != [] && DueOrder(runs, q) && Due(runs, c, q[0]) && d in q
    ensures Due(runs, c, d)
  {
    if d != q[0] {
      assert q == [q[0]] + q[1..];
      FirstIsDue(runs, q, d);
      DueTransitive(runs, c, q[0], d);
    }
  }

  /** Whenever all rows are finished and different cards completed at different times, the cards have
      a due order. */
  lemma {:induction false} DueOrderExists(runs: seq<Run>, cards: seq<nat>) returns (q: seq<nat>)
    requires AllFinished(runs) && Stamped(runs) && DistinctCompletions(runs)
    requires forall a, b | 0 <= a < b < |cards| :: cards[a] != cards[b]
    ensures DueOrder(runs, q) && |q| == |cards| && Permutes(q, cards)
    decreases |cards|
  {
    if cards == [] {
      q := [];
    } else {
      var n := |cards| - 1;
      var front := DueOrderExists(runs, cards[..n]);
      assert cards == cards[..n] + [cards[n]];
      q := PlaceInOrder(runs, front, cards[n]);
      Irreflexive(runs, q);
    }
  }

  lemma Irreflexive(runs: seq<Run>, q: seq<nat>)
    requires AllFinished(runs) && Stamped(runs) && DueOrder(runs, q)
    ensures forall a, b | 0 <= a < b < |q| :: q[a] != q[b]
  {
    forall a, b | 0 <= a < b < |q| ensures q[a] != q[b] {
      assert Due(runs, q[a], q[b]);
    }
  }

  /** At rest: nothing is open, the scheduler runs and is between two ticks. */
  ghost predicate AtRest(s: State) {
    && s.pc.Idle? && s.cached.mode.Running? && PollableIds(s.accounts) != []
    && AllFinished(s.runs) && Stamped(s.runs) && DistinctCompletions(s.runs)
  }

  /** Round robin from any state at rest, whatever the history: with n pollable cards, pick k + n is
      pick k, and any n consecutive picks hold every pollable card exactly once. */
  lemma FairFromRest(s: State, es: seq<Event>, k: nat)
    requires AtRest(s) && Legal(s, es) && SteadyRun(s, es)
    requires k + |PollableIds(s.accounts)| <= |Picks(s, es)|
    ensures var picks, n := Picks(s, es), |PollableIds(s.accounts)|;
            && (k + n < |picks| ==> picks[k + n] == picks[k])
            && forall c | c in PollableIds(s.accounts) :: exists i | k <= i < k + n ::
                 picks[i] == c && forall j | k <= j < k + n && j != i :: picks[j] != c
  {
    var q := DueOrderExists(s.runs, PollableIds(s.accounts));
    RoundRobinFairness(s, es, s.accounts, q, k);
  }
}
