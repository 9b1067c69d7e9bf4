/** The table import_runs: the persistent queue behind the scheduler. Rows are never removed, so
    the id of a run is its position. Instants are whole microseconds. */
module ImportQueue {
  import opened Common
  import opened Windows

  datatype Kind = Backfill | Live

  datatype Status = Pending | InFlight | Done | Error

  datatype Run = Run(
    account: nat,
    kind: Kind,
    window: Window,
    status: Status,
    attempts: nat,
    createdAt: int,
    startedAt: Option<int>,
    completedAt: Option<int>,
    statementCount: Option<nat>,
    inserted: Option<nat>,
    lastError: Option<string>)
  {
    predicate Terminal() {
      status.Done? || status.Error?
    }
  }

  const RECOVER_SECONDS := 300

  function NewRun(account: nat, kind: Kind, w: Window, now: int): Run {
    Run(account, kind, w, Pending, 0, now, None, None, None, None, None)
  }

  /** The claim may take any pending row of least creation time: nothing else is ordered. */
  predicate OldestPending(rows: seq<Run>, i: nat) {
    i < |rows| && rows[i].status.Pending?
    && forall j | 0 <= j < |rows| && rows[j].status.Pending? :: rows[i].createdAt <= rows[j].createdAt
  }

  predicate NothingPending(rows: seq<Run>) {
    forall j | 0 <= j < |rows| :: !rows[j].status.Pending?
  }

  predicate Claimable(rows: seq<Run>, choice: Option<nat>) {
    if choice.Some? then OldestPending(rows, choice.value) else NothingPending(rows)
  }

  function Claimed(rows: seq<Run>, i: nat, now: int): (r: seq<Run>)
    requires i < |rows|
    ensures |r| == |rows|
  {
    rows[i := rows[i].(status := InFlight, startedAt := Some(now), attempts := rows[i].attempts + 1)]
  }

  predicate Stale(run: Run, now: int) {
    run.status.InFlight? && run.startedAt.Some? && run.startedAt.value < now - RECOVER_SECONDS * MICROS
  }

  function SweptRow(run: Run, now: int): Run {
    if Stale(run, now) then run.(status := Pending, startedAt := None) else run
  }

  function Swept(rows: seq<Run>, now: int): (r: seq<Run>)
    ensures |r| == |rows|
    ensures forall i | 0 <= i < |rows| :: r[i] == SweptRow(rows[i], now)
  {
    seq(|rows|, i requires 0 <= i < |rows| => SweptRow(rows[i], now))
  }

  /** UPDATE ... WHERE id = id, with no guard on the status. */
  function MarkedDone(rows: seq<Run>, i: nat, now: int, count: nat, inserted: nat): (r: seq<Run>)
    ensures |r| == |rows|
  {
    if i < |rows| then
      rows[i := rows[i].(status := Done, completedAt := Some(now), statementCount := Some(count),
                         inserted := Some(inserted), lastError := None)]
    else rows
  }

  function MarkedError(rows: seq<Run>, i: nat, now: int, error: string): (r: seq<Run>)
    ensures |r| == |rows|
  {
    if i < |rows| then rows[i := rows[i].(status := Error, completedAt := Some(now), lastError := Some(error))]
    else rows
  }

  function Enqueued(rows: seq<Run>, account: nat, kind: Kind, ws: seq<Window>, now: int): (r: seq<Run>)
    ensures |r| == |rows| + |ws|
    ensures forall i | 0 <= i < |rows| :: r[i] == rows[i]
    ensures forall n | 0 <= n < |ws| :: r[|rows| + n] == NewRun(account, kind, ws[n], now)
  {
    rows + seq(|ws|, n requires 0 <= n < |ws| => NewRun(account, kind, ws[n], now))
  }

  /** The rows of an enqueue, without their windows. */
  lemma EnqueuedRows(rows: seq<Run>, account: nat, kind: Kind, ws: seq<Window>, now: int)
    ensures var r := Enqueued(rows, account, kind, ws, now);
            && (forall i | 0 <= i < |rows| :: r[i] == rows[i])
            && forall i | |rows| <= i < |r| ::
                 && r[i].account == account && r[i].kind == kind && r[i].createdAt == now
                 && r[i].status.Pending? && r[i].completedAt.None?
  {
    var r := Enqueued(rows, account, kind, ws, now);
    forall i | |rows| <= i < |r|
      ensures r[i] == NewRun(account, kind, ws[i - |rows|], now)
    {
      assert r[|rows| + (i - |rows|)] == NewRun(account, kind, ws[i - |rows|], now);
    }
  }

  predicate Open(run: Run, account: nat, kind: Kind) {
    run.account == account && run.kind == kind && !run.Terminal()
  }

  /** COUNT(*) > 0 over pending and in-flight rows. */
  predicate HasOpen(rows: seq<Run>, account: nat, kind: Kind) {
    exists i | 0 <= i < |rows| :: Open(rows[i], account, kind)
  }

  ghost function OpenIds(rows: seq<Run>, account: nat, kind: Kind): set<nat> {
    set i: nat | i < |rows| && Open(rows[i], account, kind)
  }

  predicate IsLive(run: Run, account: nat) {
    run.account == account && run.kind.Live?
  }

  /** ORDER BY completed_at DESC NULLS LAST. */
  predicate Later(a: Run, b: Run) {
    b.completedAt.None? || (a.completedAt.Some? && a.completedAt.value >= b.completedAt.value)
  }

  /** DISTINCT ON (account_id): for every account with live rows, one of those that come first. */
  predicate IsLastLive(rows: seq<Run>, last: map<nat, nat>) {
    (forall i | 0 <= i < |rows| && rows[i].kind.Live? :: rows[i].account in last)
    && forall a | a in last ::
         && last[a] < |rows| && IsLive(rows[last[a]], a)
         && forall j | 0 <= j < |rows| && IsLive(rows[j], a) :: Later(rows[last[a]], rows[j])
  }

  // ----- card selection -----

  predicate Eligible(rows: seq<Run>, last: map<nat, nat>, c: nat)
    requires IsLastLive(rows, last)
  {
    !HasOpen(rows, c, Backfill) && (c in last ==> rows[last[c]].Terminal())
  }

  /** Sort key of a polled card: NULL counts as the beginning of time. */
  function CompletedOr(run: Run, least: int): int {
    if run.completedAt.Some? then run.completedAt.value else least
  }

  function EligibleCards(rows: seq<Run>, last: map<nat, nat>, cards: seq<nat>): (es: seq<nat>)
    requires IsLastLive(rows, last)
    ensures forall c :: c in es <==> c in cards && Eligible(rows, last, c)
    decreases |cards|
  {
    if cards == [] then []
    else
      var n := |cards| - 1;
      EligibleCards(rows, last, cards[..n]) + (if Eligible(rows, last, cards[n]) then [cards[n]] else [])
  }

  function FirstNeverPolled(last: map<nat, nat>, es: seq<nat>): (c: Option<nat>)
    ensures c.None? <==> forall e | e in es :: e in last
    ensures c.Some? ==> c.value in es && c.value !in last
    decreases |es|
  {
    if es == [] then None
    else if es[0] !in last then Some(es[0])
    else FirstNeverPolled(last, es[1..])
  }

  function LeastRecent(rows: seq<Run>, last: map<nat, nat>, es: seq<nat>, least: int): (c: nat)
    requires IsLastLive(rows, last) && es != [] && forall e | e in es :: e in last
    ensures c in es
    ensures forall e | e in es :: CompletedOr(rows[last[c]], least) <= CompletedOr(rows[last[e]], least)
    decreases |es|
  {
    if |es| == 1 then es[0]
    else
      var best := LeastRecent(rows, last, es[..|es| - 1], least);
      var e := es[|es| - 1];
      if CompletedOr(rows[last[e]], least) < CompletedOr(rows[last[best]], least) then e else best
  }

  const DATETIME_MIN := -62_135_596_800 * MICROS

  function Pick(rows: seq<Run>, last: map<nat, nat>, cards: seq<nat>): (c: Option<nat>)
    requires IsLastLive(rows, last)
  {
    var es := EligibleCards(rows, last, cards);
    if es == [] then None
    else
      var unpolled := FirstNeverPolled(last, es);
      if unpolled.Some? then unpolled else Some(LeastRecent(rows, last, es, DATETIME_MIN))
  }

  lemma EnqueuedNext(rows: seq<Run>, account: nat, ws: seq<Window>, n: nat, now: int)
    requires n < |ws|
    ensures Enqueued(rows, account, Backfill, ws[..n + 1], now)
            == Enqueued(rows, account, Backfill, ws[..n], now) + [NewRun(account, Backfill, ws[n], now)]
  {
  }

  class ImportRunRepo {
    var rows: seq<Run>

    constructor (stored: seq<Run>)
      ensures rows == stored
    {
      rows := stored;
    }

    /** Some oldest pending row becomes in-flight. Which one among equals is not promised. */
    method ClaimNextPending(now: int) returns (claimed: Option<nat>)
      modifies this
      ensures Claimable(old(rows), claimed)
      ensures rows == if claimed.Some? then Claimed(old(rows), claimed.value, now) else old(rows)
    {
      claimed := None;
      for i := 0 to |rows|
        invariant rows == old(rows)
        invariant claimed.None? ==> forall j | 0 <= j < i :: !rows[j].status.Pending?
        invariant claimed.Some? ==> claimed.value < i && rows[claimed.value].status.Pending?
        invariant claimed.Some? ==> forall j | 0 <= j < i && rows[j].status.Pending? ::
                                      rows[claimed.value].createdAt <= rows[j].createdAt
      {
        if rows[i].status.Pending? && (claimed.None? || rows[i].createdAt < rows[claimed.value].createdAt) {
          claimed := Some(i);
        }
      }
      if claimed.Some? {
        var i := claimed.value;
        rows := rows[i := rows[i].(status := InFlight, startedAt := Some(now), attempts := rows[i].attempts + 1)];
      }
    }

    method EnqueueBackfill(account: nat, chunks: seq<Window>, now: int) returns (ids: seq<nat>)
      modifies this
      ensures rows == Enqueued(old(rows), account, Backfill, chunks, now)
      ensures ids == seq(|chunks|, n requires 0 <= n => |old(rows)| + n)
    {
      ghost var before := rows;
      ids := [];
      for n := 0 to |chunks|
        invariant rows == Enqueued(before, account, Backfill, chunks[..n], now)
        invariant |ids| == n && forall k | 0 <= k < n :: ids[k] == |before| + k
      {
        EnqueuedNext(before, account, chunks, n, now);
        ids := ids + [|rows|];
        rows := rows + [NewRun(account, Backfill, chunks[n], now)];
      }
      assert chunks[..|chunks|] == chunks;
    }

    method EnqueueLive(account: nat, w: Window, now: int) returns (id: nat)
      modifies this
      ensures rows == Enqueued(old(rows), account, Live, [w], now) && id == |old(rows)|
    {
      id := |rows|;
      rows := rows + [NewRun(account, Live, w, now)];
    }

    method MarkDone(id: nat, count: nat, inserted: nat, now: int)
      modifies this
      ensures rows == MarkedDone(old(rows), id, now, count, inserted)
    {
      if id < |rows| {
        rows := rows[id := rows[id].(status := Done, completedAt := Some(now), statementCount := Some(count),
                                     inserted := Some(inserted), lastError := None)];
      }
    }

    method MarkError(id: nat, error: string, now: int)
      modifies this
      ensures rows == MarkedError(old(rows), id, now, error)
    {
      if id < |rows| {
        rows := rows[id := rows[id].(status := Error, completedAt := Some(now), lastError := Some(error))];
      }
    }

    method RecoverInFlight(now: int) returns (count: nat)
      modifies this
      ensures rows == Swept(old(rows), now)
      ensures count == |set i: nat | i < |old(rows)| && Stale(old(rows)[i], now)|
    {
      ghost var before := rows;
      count := 0;
      ghost var hit: set<nat> := {};
      for i := 0 to |rows|
        invariant |rows| == |before|
        invariant forall j | 0 <= j < i :: rows[j] == SweptRow(before[j], now)
        invariant forall j | i <= j < |rows| :: rows[j] == before[j]
        invariant hit == set j: nat | j < i && j < |before| && Stale(before[j], now)
        invariant count == |hit|
      {
        if Stale(rows[i], now) {
          rows := rows[i := rows[i].(status := Pending, startedAt := None)];
          hit := hit + {i};
          count := count + 1;
        }
      }
      assert hit == set i: nat | i < |before| && Stale(before[i], now);
    }

    /** Both pending-or-in-flight counts of the source, which differ in the kind only. */
    method CountOpen(account: nat, kind: Kind) returns (n: nat)
      ensures n == |OpenIds(rows, account, kind)|
      ensures n > 0 <==> HasOpen(rows, account, kind)
    {
      n := 0;
      ghost var hit: set<nat> := {};
      for i := 0 to |rows|
        invariant hit == set j: nat | j < i && j < |rows| && Open(rows[j], account, kind)
        invariant n == |hit|
        invariant n > 0 <==> exists j | 0 <= j < i :: Open(rows[j], account, kind)
      {
        if Open(rows[i], account, kind) {
          hit := hit + {i};
          n := n + 1;
        }
      }
      assert hit == OpenIds(rows, account, kind);
    }

    method LastLivePerAccount() returns (last: map<nat, nat>)
      ensures IsLastLive(rows, last)
    {
      last := map[];
      for i := 0 to |rows|
        invariant forall j | 0 <= j < i && rows[j].kind.Live? :: rows[j].account in last
        invariant forall a | a in last ::
          && last[a] < i && IsLive(rows[last[a]], a)
          && forall j | 0 <= j < i && IsLive(rows[j], a) :: Later(rows[last[a]], rows[j])
      {
        var a := rows[i].account;
        if rows[i].kind.Live? && (a !in last || !Later(rows[last[a]], rows[i])) {
          last := last[a := i];
        }
      }
    }
  }
}
