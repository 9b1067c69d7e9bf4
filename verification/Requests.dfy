/** What the two enqueue requests add to the queue, row by row. */
module Requests {
  import opened Common
  import opened Windows
  import opened Accounts
  import opened ImportQueue
  import opened SchedulerMachine
  import opened ExactlyOnce
  import opened LiveDiscipline

  /** The request is for card c: for all pollable cards, or for this one, which must be pollable. */
  ghost predicate Asked(accounts: seq<Account>, account: Option<nat>, c: nat) {
    c in PollableIds(accounts) && (account.Some? ==> account.value == c)
  }

  /** The n-th row of a backfill: pending, not attempted, for the n-th thirty days back from the reading
      of the clock. */
  function BackfillRow(c: nat, n: nat, appNow: int, now: int): Run {
    Run(c, Backfill, Window(appNow - (n + 1) * 2_592_000_000_000, appNow - n * 2_592_000_000_000), Pending, 0, now,
        None, None, None, None, None)
  }

  /** A live row: pending, not attempted, for the hour before the reading of the clock. */
  function LiveRow(c: nat, appNow: int, now: int): Run {
    Run(c, Live, Window(appNow - 3_600_000_000, appNow), Pending, 0, now, None, None, None, None, None)
  }

  predicate Distinct(cards: seq<nat>) {
    forall a, b | 0 <= a < b < |cards| :: cards[a] != cards[b]
  }

  lemma EnqueuedHolds(runs: seq<Run>, c: nat, kind: Kind, ws: seq<Window>, now: int)
    ensures var r := Enqueued(runs, c, kind, ws, now);
            && (forall x | x in r[|runs|..] :: exists n | 0 <= n < |ws| :: x == NewRun(c, kind, ws[n], now))
            && (forall n | 0 <= n < |ws| :: NewRun(c, kind, ws[n], now) in r[|runs|..])
  {
    var r := Enqueued(runs, c, kind, ws, now);
    assert |r[|runs|..]| == |ws|;
    forall n | 0 <= n < |ws| ensures r[|runs|..][n] == NewRun(c, kind, ws[n], now) {
      assert r[|runs| + n] == NewRun(c, kind, ws[n], now);
    }
  }

  lemma {:induction false} BackfillAdds(runs: seq<Run>, cards: seq<nat>, ws: seq<Window>, now: int)
    requires Distinct(cards) && ws != []
    ensures var r := BackfillEach(runs, cards, ws, now);
            && r[..|runs|] == runs
            && (forall x | x in r[|runs|..] ::
                  && x.account in cards && !HasOpen(runs, x.account, Backfill)
                  && exists n | 0 <= n < |ws| :: x == NewRun(x.account, Backfill, ws[n], now))
            && (forall c, n | c in cards && !HasOpen(runs, c, Backfill) && 0 <= n < |ws| ::
                  NewRun(c, Backfill, ws[n], now) in r[|runs|..])
    decreases |cards|
  {
    if cards != [] {
      var m := |cards| - 1;
      var sofar := BackfillEach(runs, cards[..m], ws, now);
      BackfillAdds(runs, cards[..m], ws, now);
      assert cards[m] !in cards[..m];
      EachOpens(runs, cards[..m], ws, now, cards[m]);
      assert cards == cards[..m] + [cards[m]];
      if !HasOpen(sofar, cards[m], Backfill) {
        EnqueuedHolds(sofar, cards[m], Backfill, ws, now);
        Tail(runs, sofar, Enqueued(sofar, cards[m], Backfill, ws, now));
      }
    }
  }

  /** What was appended in two turns. */
  lemma Tail(runs: seq<Run>, sofar: seq<Run>, r: seq<Run>)
    requires |runs| <= |sofar| <= |r| && r[..|sofar|] == sofar && sofar[..|runs|] == runs
    ensures r[|runs|..] == sofar[|runs|..] + r[|sofar|..] && r[..|runs|] == runs
  {
    assert r == sofar + r[|sofar|..];
  }

  lemma PollableDistinct(accounts: seq<Account>)
    ensures Distinct(PollableIds(accounts))
  {
  }

  /** A backfill request for a card that is not pollable changes nothing; any other adds, for exactly
      the cards it is for that have no unfinished backfill row, exactly the rows of the asked months. */
  lemma BackfillRequestAdds(s: State, account: Option<nat>, months: int, appNow: int, now: int)
    requires Enabled(s, AskBackfill(account, months, appNow, now))
    ensures var r := Do(s, AskBackfill(account, months, appNow, now)).runs;
            && |s.runs| <= |r| && r[..|s.runs|] == s.runs
            && (forall x | x in r[|s.runs|..] ::
                  && Asked(s.accounts, account, x.account) && !HasOpen(s.runs, x.account, Backfill)
                  && exists n | 0 <= n < months :: x == BackfillRow(x.account, n, appNow, now))
            && (forall c, n | Asked(s.accounts, account, c) && !HasOpen(s.runs, c, Backfill) && 0 <= n < months ::
                  BackfillRow(c, n, appNow, now) in r[|s.runs|..])
  {
    var cards := BackfillCards(s.accounts, account);
    var ws := BackfillChunks(appNow, months);
    forall c, n | 0 <= n < |ws| ensures NewRun(c, Backfill, ws[n], now) == BackfillRow(c, n, appNow, now) {
    }
    if cards.Success? {
      PollableDistinct(s.accounts);
      BackfillAdds(s.runs, cards.value, ws, now);
    }
  }

  lemma {:induction false} LiveEachOpens(runs: seq<Run>, cards: seq<nat>, w: Window, now: int, c: nat)
    requires c !in cards
    ensures HasOpen(LiveEach(runs, cards, w, now), c, Live) <==> HasOpen(runs, c, Live)
    ensures HasOpen(LiveEach(runs, cards, w, now), c, Backfill) <==> HasOpen(runs, c, Backfill)
    decreases |cards|
  {
    if cards != [] {
      var m := |cards| - 1;
      var sofar := LiveEach(runs, cards[..m], w, now);
      LiveEachOpens(runs, cards[..m], w, now, c);
      OthersOpen(sofar, cards[m], w, now, c);
    }
  }

  lemma OthersOpen(runs: seq<Run>, account: nat, w: Window, now: int, c: nat)
    requires c != account
    ensures var r := Enqueued(runs, account, Live, [w], now);
            && (HasOpen(r, c, Live) <==> HasOpen(runs, c, Live))
            && (HasOpen(r, c, Backfill) <==> HasOpen(runs, c, Backfill))
  {
    var r := Enqueued(runs, account, Live, [w], now);
    EnqueuedRows(runs, account, Live, [w], now);
    forall kind | HasOpen(runs, c, kind) ensures HasOpen(r, c, kind) {
      var i :| 0 <= i < |runs| && Open(runs[i], c, kind);
      assert Open(r[i], c, kind);
    }
  }

  predicate Free(runs: seq<Run>, c: nat) {
    !HasOpen(runs, c, Backfill) && !HasOpen(runs, c, Live)
  }

  lemma LiveEachLast(runs: seq<Run>, cards: seq<nat>, w: Window, now: int)
    requires Distinct(cards) && cards != []
    ensures var m := |cards| - 1;
            var sofar := LiveEach(runs, cards[..m], w, now);
            && |runs| <= |sofar| && sofar[..|runs|] == runs
            && LiveEach(runs, cards, w, now)
               == if Free(runs, cards[m]) then sofar + [NewRun(cards[m], Live, w, now)] else sofar
  {
    var m := |cards| - 1;
    var sofar := LiveEach(runs, cards[..m], w, now);
    LiveEachAppends(runs, cards[..m], w, now);
    assert cards[m] !in cards[..m];
    LiveEachOpens(runs, cards[..m], w, now, cards[m]);
    assert Enqueued(sofar, cards[m], Live, [w], now) == sofar + [NewRun(cards[m], Live, w, now)];
  }

  /** The rows appended, in card order. */
  lemma {:induction false} LiveAddsRows(runs: seq<Run>, cards: seq<nat>, w: Window, now: int)
    requires Distinct(cards)
    ensures LiveEach(runs, cards, w, now) == runs + LiveRows(runs, cards, w, now)
    decreases |cards|
  {
    if cards != [] {
      LiveAddsRows(runs, cards[..|cards| - 1], w, now);
      LiveEachLast(runs, cards, w, now);
    }
  }

  function LiveRows(runs: seq<Run>, cards: seq<nat>, w: Window, now: int): seq<Run>
    decreases |cards|
  {
    if cards == [] then []
    else
      var m := |cards| - 1;
      LiveRows(runs, cards[..m], w, now) + (if Free(runs, cards[m]) then [NewRun(cards[m], Live, w, now)] else [])
  }

  lemma {:induction false} LiveRowsHold(runs: seq<Run>, cards: seq<nat>, w: Window, now: int)
    requires Distinct(cards)
    ensures var rows := LiveRows(runs, cards, w, now);
            && (forall x | x in rows ::
                  x.account in cards && Free(runs, x.account) && x == NewRun(x.account, Live, w, now))
            && (forall c | c in cards && Free(runs, c) :: NewRun(c, Live, w, now) in rows)
            && (forall i, j | 0 <= i < j < |rows| :: rows[i].account != rows[j].account)
    decreases |cards|
  {
    if cards != [] {
      var m := |cards| - 1;
      var front := LiveRows(runs, cards[..m], w, now);
      LiveRowsHold(runs, cards[..m], w, now);
      assert cards[m] !in cards[..m];
      assert cards == cards[..m] + [cards[m]];
      assert forall i | 0 <= i < |front| :: front[i] in front;
    }
  }

  /** A force-poll request adds one row for each pollable card without unfinished rows, and nothing else. */
  lemma LiveRequestAdds(s: State, appNow: int, now: int)
    requires Enabled(s, AskLive(appNow, now))
    ensures exists rows: seq<Run> ::
              && Do(s, AskLive(appNow, now)).runs == s.runs + rows
              && (forall x | x in rows ::
                    && x.account in PollableIds(s.accounts) && Free(s.runs, x.account)
                    && x == LiveRow(x.account, appNow, now))
              && (forall c | c in PollableIds(s.accounts) && Free(s.runs, c) :: LiveRow(c, appNow, now) in rows)
              && (forall i, j | 0 <= i < j < |rows| :: rows[i].account != rows[j].account)
  {
    var cards, w := PollableIds(s.accounts), LiveWindow(appNow);
    var rows := LiveRows(s.runs, cards, w, now);
    PollableDistinct(s.accounts);
    LiveAddsRows(s.runs, cards, w, now);
    LiveRowsHold(s.runs, cards, w, now);
    assert forall c :: NewRun(c, Live, w, now) == LiveRow(c, appNow, now);
    assert Do(s, AskLive(appNow, now)).runs == s.runs + rows;
  }
}
