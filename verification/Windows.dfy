/** Backfill windows: newest first, thirty days each. Instants are whole microseconds. */
module Windows {
  import opened Common

  const MICROS := 1_000_000
  const DAY := 86_400 * MICROS
  const CHUNK := 30 * DAY
  const MAX_WINDOW_SECONDS := 2_682_000

  datatype Window = Window(from: int, to: int)

  function Chunk(now: int, n: nat): Window {
    Window(now - (n + 1) * CHUNK, now - n * CHUNK)
  }

  function BackfillChunks(now: int, months: int): (ws: seq<Window>)
    ensures |ws| == Max(months, 0)
    ensures forall n | 0 <= n < |ws| :: ws[n] == Chunk(now, n)
  {
    seq(Max(months, 0), n requires 0 <= n => Chunk(now, n))
  }

  /** int(timestamp()): truncation toward zero to whole seconds, as sent to the bank. */
  function Seconds(t: int): int {
    if t >= 0 then t / MICROS else -(-t / MICROS)
  }

  ghost predicate Covers(w: Window, t: int) {
    w.from < t <= w.to
  }

  lemma ChunksDisjoint(now: int, m: nat, n: nat, t: int)
    requires Covers(Chunk(now, m), t) && Covers(Chunk(now, n), t)
    ensures m == n
  {
    if m < n {
      ChunkOrder(m, n);
    } else if n < m {
      ChunkOrder(n, m);
    }
  }

  lemma ChunkOrder(m: nat, n: nat)
    requires m < n
    ensures (m + 1) * CHUNK <= n * CHUNK
  {
  }

  /** The chunks for m months tile (now - 30m days, now]: every instant is in exactly one. */
  lemma ChunksTile(now: int, months: nat, t: int)
    ensures now - months * CHUNK < t <= now
       <==> exists n | 0 <= n < months :: Covers(Chunk(now, n), t)
    ensures forall m, n | 0 <= m < months && 0 <= n < months && Covers(Chunk(now, m), t) && Covers(Chunk(now, n), t) ::
              m == n
  {
    if now - months * CHUNK < t <= now {
      var n := (now - t) / CHUNK;
      assert n * CHUNK <= now - t < (n + 1) * CHUNK;
      if n >= months {
        ChunkOrder(months - 1, n);
        assert false;
      }
      assert Covers(Chunk(now, n), t);
    }
    forall n | 0 <= n < months && Covers(Chunk(now, n), t) ensures now - months * CHUNK < t <= now {
      if n + 1 < months {
        ChunkOrder(n, months - 1);
      }
    }
    forall m, n | 0 <= m < months && 0 <= n < months && Covers(Chunk(now, m), t) && Covers(Chunk(now, n), t)
      ensures m == n
    {
      ChunksDisjoint(now, m, n, t);
    }
  }

  /** After truncation to whole seconds neighbouring windows still meet, the first still ends at
      the truncated now, and every request stays under the bank's limit of 31 days and an hour. */
  lemma TruncatedChunks(now: int, n: nat)
    ensures Seconds(Chunk(now, n).from) == Seconds(Chunk(now, n + 1).to)
    ensures Seconds(Chunk(now, 0).to) == Seconds(now)
    ensures 2_591_999 <= Seconds(Chunk(now, n).to) - Seconds(Chunk(now, n).from) <= 2_592_000 < MAX_WINDOW_SECONDS
  {
    var w := Chunk(now, n);
    assert w.to - w.from == CHUNK == 2_592_000 * MICROS;
    ShiftedSeconds(w.from, 2_592_000);
  }

  /** In whole seconds, too, the requests for m months leave no second of the range unasked. */
  lemma {:induction false} TruncatedCover(now: int, months: nat, second: int)
    requires months > 0
    requires Seconds(now - months * CHUNK) <= second <= Seconds(now)
    ensures exists n | 0 <= n < months ::
      Seconds(Chunk(now, n).from) <= second <= Seconds(Chunk(now, n).to)
    decreases months
  {
    var last := months - 1;
    TruncatedChunks(now, last);
    if second <= Seconds(Chunk(now, last).to) {
      assert Seconds(Chunk(now, last).from) <= second;
    } else {
      assert last > 0;
      TruncatedCover(now, last, second);
    }
  }

  /** Shifting by whole seconds shifts the truncation by as much, or by one second less across zero. */
  lemma ShiftedSeconds(t: int, s: nat)
    ensures s - 1 <= Seconds(t + s * MICROS) - Seconds(t) <= s
    ensures s == 0 ==> Seconds(t + s * MICROS) == Seconds(t)
  {
  }
}
