/** The persistent Mono rate-limit gate: one stored timestamp per token, claimed
    under a row lock and forward-dated when the caller has to wait.
    Timestamps are whole microseconds since 1970-01-01T00:00:00Z. */
module RateGate {
  import opened Common

  const SECOND := 1_000_000
  const GAP := 65 * SECOND
  const SENTINEL := 0

  /** The timestamp stored by an acquirer that read `reading` before taking the lock. */
  function Claim(last: int, reading: int): int {
    if last + GAP > reading then last + GAP else reading
  }

  function Last(rows: map<string, int>, token: string): int {
    if token in rows then rows[token] else SENTINEL
  }

  /** The claims made by a sequence of acquirers, in lock order. Restarts and other
      processes need no step of their own: everything is in the stored row. */
  function Claims(last: int, readings: seq<int>): (cs: seq<int>)
    ensures |cs| == |readings|
    decreases |readings|
  {
    if readings == [] then [] else
      var c := Claim(last, readings[0]);
      [c] + Claims(c, readings[1..])
  }

  /** Claim n is the maximum of start + 65s(n+1) and of reading_i + 65s(n-i) for i <= n:
      it is an upper bound of all these terms and it is one of them. */
  lemma {:induction false} MaxPlusLaw(start: int, readings: seq<int>, n: nat)
    requires n < |readings|
    ensures Claims(start, readings)[n] >= start + GAP * (n + 1)
    ensures forall i | 0 <= i <= n :: Claims(start, readings)[n] >= readings[i] + GAP * (n - i)
    ensures Claims(start, readings)[n] == start + GAP * (n + 1)
         || exists i | 0 <= i <= n :: Claims(start, readings)[n] == readings[i] + GAP * (n - i)
    decreases n
  {
    var c := Claim(start, readings[0]);
    if n == 0 {
      assert c == start + GAP || c == readings[0] + GAP * (n - 0);
    } else {
      var rest := readings[1..];
      MaxPlusLaw(c, rest, n - 1);
      var claim := Claims(start, readings)[n];
      assert claim == Claims(c, rest)[n - 1];
      forall i | 0 <= i <= n ensures claim >= readings[i] + GAP * (n - i) {
        if i > 0 {
          assert claim >= rest[i - 1] + GAP * (n - 1 - (i - 1));
        }
      }
      if claim != start + GAP * (n + 1) {
        if claim == c + GAP * n {
          assert claim == readings[0] + GAP * (n - 0);
        } else {
          var i :| 0 <= i <= n - 1 && claim == rest[i] + GAP * (n - 1 - i);
          assert claim == readings[i + 1] + GAP * (n - (i + 1));
        }
      }
    }
  }

  /** Whatever the clocks do, claim j comes at least 65(j - i) seconds after claim i. */
  lemma {:induction false} ClaimsSpaced(start: int, readings: seq<int>, i: nat, j: nat)
    requires i <= j < |readings|
    ensures Claims(start, readings)[j] >= Claims(start, readings)[i] + GAP * (j - i)
    decreases j
  {
    var c := Claim(start, readings[0]);
    if i > 0 {
      ClaimsSpaced(c, readings[1..], i - 1, j - 1);
    } else if j > 0 {
      MaxPlusLaw(c, readings[1..], j - 1);
    }
  }

  function CeilDiv(a: nat, b: nat): nat
    requires b > 0
  {
    (a + b - 1) / b
  }

  ghost function ClaimsWithin(cs: seq<int>, from: int, width: int): set<int> {
    set i | 0 <= i < |cs| && from <= cs[i] < from + width
  }

  /** Any half-open window of the given width holds at most ceil(width / 65s) claims. */
  lemma WindowBound(start: int, readings: seq<int>, from: int, width: nat)
    ensures |ClaimsWithin(Claims(start, readings), from, width)| <= CeilDiv(width, GAP)
  {
    var cs := Claims(start, readings);
    var inside := ClaimsWithin(cs, from, width);
    if inside != {} {
      var lo := Least(inside);
      forall x | x in inside ensures lo <= x < lo + CeilDiv(width, GAP) {
        ClaimsSpaced(start, readings, lo, x);
        assert GAP * (x - lo) < width;
      }
      IntervalBound(inside, lo, CeilDiv(width, GAP));
    }
  }

  /** If every caller sends no earlier than its claim and at most 5 seconds after it,
      any two sends are at least 60 seconds apart: the limit Mono enforces. */
  lemma SendsSpaced(start: int, readings: seq<int>, sends: seq<int>, i: nat, j: nat)
    requires |sends| == |readings| && i < j < |readings|
    requires forall k | 0 <= k < |sends| ::
      Claims(start, readings)[k] <= sends[k] <= Claims(start, readings)[k] + 5 * SECOND
    ensures sends[j] - sends[i] >= 60 * SECOND
  {
    ClaimsSpaced(start, readings, i, j);
  }

  /** Nobody waits, every claim being the caller's own reading, if and only if each reading comes at
      least 65 seconds after the one before, and the first one after the stored start. */
  lemma {:induction false} NobodyWaitsExactly(start: int, readings: seq<int>)
    ensures Claims(start, readings) == readings <==>
            forall i | 0 <= i < |readings| :: readings[i] - Previous(start, readings, i) >= 65_000_000
    decreases |readings|
  {
    if readings != [] {
      var rest := readings[1..];
      NobodyWaitsExactly(readings[0], rest);
      assert forall i | 0 <= i < |rest| :: Previous(readings[0], rest, i) == Previous(start, readings, i + 1);
      assert readings == [readings[0]] + rest;
      if Claims(start, readings) == readings {
        assert Claims(start, readings)[0] == readings[0] && Claims(start, readings)[1..] == rest;
        forall i | 0 <= i < |readings| ensures readings[i] - Previous(start, readings, i) >= 65_000_000 {
          if i > 0 {
            assert rest[i - 1] - Previous(readings[0], rest, i - 1) >= 65_000_000;
          }
        }
      }
      if forall i | 0 <= i < |readings| :: readings[i] - Previous(start, readings, i) >= 65_000_000 {
        assert readings[0] - Previous(start, readings, 0) >= 65_000_000;
        forall i | 0 <= i < |rest| ensures rest[i] - Previous(readings[0], rest, i) >= 65_000_000 {
          assert readings[i + 1] - Previous(start, readings, i + 1) >= 65_000_000;
        }
      }
    }
  }

  /** What reading i follows: the one before it, or the stored start. */
  function Previous(start: int, readings: seq<int>, i: nat): int
    requires i < |readings|
  {
    if i == 0 then start else readings[i - 1]
  }

  /** One lock acquisition: which token, and the clock reading taken before the lock. */
  datatype Acquisition = Acquisition(token: string, reading: int)

  function Acquired(rows: map<string, int>, a: Acquisition): map<string, int> {
    rows[a.token := Claim(Last(rows, a.token), a.reading)]
  }

  function AfterAll(rows: map<string, int>, history: seq<Acquisition>): map<string, int>
    decreases |history|
  {
    if history == [] then rows else AfterAll(Acquired(rows, history[0]), history[1..])
  }

  function ReadingsOf(history: seq<Acquisition>, token: string): seq<int> {
    if history == [] then [] else
      (if history[0].token == token then [history[0].reading] else []) + ReadingsOf(history[1..], token)
  }

  /** Tokens do not disturb each other: in any interleaving, the stored value of a token is
      the last of the claims made by its own acquirers alone. */
  lemma {:induction false} TokensIndependent(rows: map<string, int>, history: seq<Acquisition>, token: string)
    ensures var own := ReadingsOf(history, token);
            Last(AfterAll(rows, history), token) ==
              if own == [] then Last(rows, token) else Claims(Last(rows, token), own)[|own| - 1]
    decreases |history|
  {
    if history != [] {
      TokensIndependent(Acquired(rows, history[0]), history[1..], token);
      var rest := ReadingsOf(history[1..], token);
      if history[0].token == token {
        assert ReadingsOf(history, token)[1..] == rest;
      } else {
        assert ReadingsOf(history, token) == rest;
      }
    }
  }

  /** Owner of the table mono_rate_state. */
  class RateStateRepo {
    var rows: map<string, int>

    constructor (stored: map<string, int>)
      ensures rows == stored
    {
      rows := stored;
    }

    /** INSERT ... ON CONFLICT DO NOTHING. */
    method EnsureRow(token: string, sentinel: int)
      modifies this
      ensures rows == if token in old(rows) then old(rows) else old(rows)[token := sentinel]
    {
      if token !in rows {
        rows := rows[token := sentinel];
      }
    }

    method SelectForUpdate(token: string) returns (last: Option<int>)
      ensures last == if token in rows then Some(rows[token]) else None
    {
      last := if token in rows then Some(rows[token]) else None;
    }

    method Upsert(token: string, ts: int)
      modifies this
      ensures rows == old(rows)[token := ts]
    {
      rows := rows[token := ts];
    }
  }

  class RateLimitGate {
    const repo: RateStateRepo

    constructor (repo: RateStateRepo)
      ensures this.repo == repo
    {
      this.repo := repo;
    }

    /** One acquire. `reading` is the clock before the lock, `later` the clock after the
        transaction; the caller sleeps `pause`. The row of the token moves to its claim, no
        other row moves, and a caller whose clock did not step back wakes at its claim or
        after it. A caller that comes 65 seconds after the last claim, or finds no row, claims
        its own reading and does not wait; any other claims exactly those 65 seconds. */
    method Acquire(token: string, reading: int, later: int) returns (pause: int)
      modifies repo
      ensures repo.rows == Acquired(old(repo.rows), Acquisition(token, reading))
      ensures repo.rows - {token} == old(repo.rows) - {token}
      ensures token !in old(repo.rows) && reading >= 65_000_000 ==>
                token in repo.rows && repo.rows[token] == reading && pause == 0
      ensures token in old(repo.rows) && reading - old(repo.rows)[token] >= 65_000_000 ==>
                repo.rows[token] == reading && pause == 0
      ensures token in old(repo.rows) && reading - old(repo.rows)[token] < 65_000_000 ==>
                && repo.rows[token] == old(repo.rows)[token] + 65_000_000
                && pause == Max(0, repo.rows[token] - later)
      ensures pause >= 0
      ensures later >= reading ==> later + pause >= repo.rows[token]
      ensures pause > 0 ==> later + pause == repo.rows[token]
    {
      var waitUntil: Option<int> := None;
      repo.EnsureRow(token, SENTINEL);
      var last := repo.SelectForUpdate(token);
      if last.Some? {
        var nextAllowed := last.value + GAP;
        if nextAllowed > reading {
          waitUntil := Some(nextAllowed);
        }
      }
      var claim := if waitUntil.Some? then waitUntil.value else reading;
      repo.Upsert(token, claim);
      pause := 0;
      if waitUntil.Some? {
        var remaining := waitUntil.value - later;
        if remaining > 0 {
          pause := remaining;
        }
      }
    }
  }
}
