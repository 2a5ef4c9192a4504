/** A write waits as late as it can: a chip is waited for only right before it is loaded again, or
    at the end, so that one chip is loaded while others program. */
module SpiLazy {
  import opened Bits
  import opened Machine
  import opened Microcode
  import opened Spi
  import opened SpiTrace
  import opened SpiIdle

  /** No command is sent from event k on. */
  ghost predicate NoneSent(events: seq<Event>, k: nat) {
    forall i | k <= i < |events| :: events[i].Waited?
  }

  /** The wait that is event k is followed at once by a command to the same chip. */
  predicate ThenSent(events: seq<Event>, k: nat)
    requires k < |events|
  {
    k + 1 < |events| && events[k + 1].Sent? && events[k + 1].chip == events[k].chip
  }

  /** Every wait since the start is followed at once by a command to its chip, or by none at all;
      the latter only if `last`. */
  ghost predicate Lazy(start: nat, events: seq<Event>, last: bool) {
    forall k {:trigger ThenSent(events, k)} | start <= k < |events| && events[k].Waited? ::
      ThenSent(events, k) || (last && NoneSent(events, k))
  }

  lemma {:induction false} ChunkIsLazy(fate: Fate, p: Pipe, chip: nat, phys: nat, start: nat)
    requires chip < |p.pending| && start <= |p.log.events| && Lazy(start, p.log.events, false)
    ensures var q := WriteChunkTrace(fate, p, chip, phys);
            |p.log.events| <= |q.log.events| && Lazy(start, q.log.events, !q.ok)
  {
    var q := WriteChunkTrace(fate, p, chip, phys);
    forall k | start <= k < |q.log.events| && q.log.events[k].Waited?
      ensures ThenSent(q.log.events, k) || (!q.ok && NoneSent(q.log.events, k))
    {
      if k < |p.log.events| {
        assert ThenSent(p.log.events, k);
      }
    }
  }

  lemma {:induction false} ChunksAreLazy(fate: Fate, p: Pipe, off: nat, length: nat, start: nat)
    requires |p.pending| > 0 && start <= |p.log.events| && Lazy(start, p.log.events, !p.ok)
    ensures var q := WriteChunksTrace(fate, p, off, length);
            start <= |q.log.events| && Lazy(start, q.log.events, !q.ok)
    decreases length
  {
    hide Lazy, WriteChunkTrace;
    if length > 0 && p.ok {
      var chunk, page, n := ChunkAt(off, length), off / PAGE_SIZ, |p.pending|;
      ChunkIsLazy(fate, p, ChipIndexOf(page, n), PhysPageOf(page, n), start);
      ChunksAreLazy(fate, WriteChunkTrace(fate, p, ChipIndexOf(page, n), PhysPageOf(page, n)), (off + chunk) % U32,
                    length - chunk, start);
    }
  }

  lemma {:induction false} WaitAllIsLazy(fate: Fate, p: Pipe, i: nat, start: nat)
    requires i <= |p.pending| && Lazy(start, p.log.events, true)
    ensures Lazy(start, WaitAllTrace(fate, p, i).log.events, true)
  {
    if i > 0 {
      WaitAllIsLazy(fate, p, i - 1, start);
      var q, r := WaitAllTrace(fate, p, i - 1), WaitAllTrace(fate, p, i);
      forall k | start <= k < |r.log.events| && r.log.events[k].Waited?
        ensures ThenSent(r.log.events, k) || NoneSent(r.log.events, k)
      {
        if k < |q.log.events| {
          assert ThenSent(q.log.events, k) || NoneSent(q.log.events, k);
        }
      }
    }
  }

  /** In every write, whatever fails, each wait is followed at once by a command to the chip that
      was waited for, or there are no more commands. */
  lemma {:induction false} WriteIsLazy(fate: Fate, n: nat, log: Log, off: nat, length: nat)
    requires n > 0
    ensures Lazy(|log.events|, WriteTrace(fate, n, log, off, length).log.events, true)
  {
    var p := Pipe(log, NonePending(n), true);
    ChunksAreLazy(fate, p, off, length, |log.events|);
    WaitAllIsLazy(fate, WriteChunksTrace(fate, p, off, length), n, |log.events|);
  }

  // ----- a range with at most one page on each chip

  lemma {:induction false} NotCongruent(a: nat, d: nat, n: nat)
    requires 0 < d < n
    ensures (a + d) % n != a % n
  {
    var q, r := a / n, a % n;
    assert a == q * n + r;
    if r + d < n {
      DivisionIsUnique(a + d, n, q, r + d);
    } else {
      assert (q + 1) * n == q * n + n;
      DivisionIsUnique(a + d, n, q + 1, r + d - n);
    }
  }

  /** The range ends before the chip of its first page comes round again. */
  predicate Single(n: nat, off: nat, length: nat) {
    off + length <= U32 && off % PAGE_SIZ + length <= n * PAGE_SIZ
  }

  lemma {:induction false} LaterPage(n: nat, off: nat, length: nat, chunk: nat, i: nat)
    requires n > 0 && Single(n, off, length) && chunk == ChunkAt(off, length) && i < length - chunk
    ensures off / PAGE_SIZ < PageOfByte(off + chunk, i) < off / PAGE_SIZ + n
  {
    var page, col := off / PAGE_SIZ, off % PAGE_SIZ;
    assert (off + chunk + i) % U32 == off + chunk + i;
    assert col + chunk == PAGE_SIZ;
    assert page * PAGE_SIZ + PAGE_SIZ <= off + chunk + i < page * PAGE_SIZ + n * PAGE_SIZ;
  }

  lemma {:induction false} FirstChipOnce(n: nat, off: nat, length: nat, chunk: nat)
    requires n > 0 && Single(n, off, length) && chunk == ChunkAt(off, length) < length
    ensures !LiesOn(n, off + chunk, length - chunk, ChipIndexOf(off / PAGE_SIZ, n))
    ensures Single(n, off + chunk, length - chunk)
  {
    hide Single, PageOfByte;
    var page, next := off / PAGE_SIZ, off + chunk;
    if i :| 0 <= i < length - chunk && ChipOfByte(n, next, i) == ChipIndexOf(page, n) {
      LaterPage(n, off, length, chunk, i);
      NotCongruent(page, PageOfByte(next, i) - page, n);
      assert false;
    }
    RestFits(n, off, length, chunk);
  }

  lemma {:induction false} RestFits(n: nat, off: nat, length: nat, chunk: nat)
    requires Single(n, off, length) && chunk == ChunkAt(off, length) < length
    ensures Single(n, off + chunk, length - chunk)
  {
    assert (off + chunk) % PAGE_SIZ == 0;
  }

  /** All events since the start are commands. */
  ghost predicate OnlySent(start: nat, events: seq<Event>) {
    forall k | start <= k < |events| :: events[k].Sent?
  }

  lemma {:induction false} FreshChunkSends(fate: Fate, p: Pipe, chip: nat, phys: nat, start: nat)
    requires chip < |p.pending| && p.pending[chip] < 0 && start <= |p.log.events| && OnlySent(start, p.log.events)
    ensures var q := WriteChunkTrace(fate, p, chip, phys);
            |p.log.events| <= |q.log.events| && OnlySent(start, q.log.events) &&
            forall c | 0 <= c < |p.pending| && c != chip :: q.pending[c] == p.pending[c]
  {
  }

  lemma {:induction false} FreshChunksSend(fate: Fate, p: Pipe, off: nat, length: nat, start: nat)
    requires |p.pending| > 0 && off < U32 && Single(|p.pending|, off, length)
    requires forall c | 0 <= c < |p.pending| && LiesOn(|p.pending|, off, length, c) :: p.pending[c] < 0
    requires start <= |p.log.events| && OnlySent(start, p.log.events)
    ensures var q := WriteChunksTrace(fate, p, off, length);
            start <= |q.log.events| && OnlySent(start, q.log.events)
    decreases length
  {
    hide WriteChunkTrace, LiesOn, Single, OnlySent;
    if length > 0 && p.ok {
      var chunk, page, n := ChunkAt(off, length), off / PAGE_SIZ, |p.pending|;
      var chip, next, left := ChipIndexOf(page, n), (off + chunk) % U32, length - chunk;
      var q := WriteChunkTrace(fate, p, chip, PhysPageOf(page, n));
      forall c ensures LiesOn(n, off, length, c) <==> c == chip || LiesOn(n, next, left, c) {
        LiesOnFirst(n, off, length, next, left, c);
      }
      FreshChunkSends(fate, p, chip, PhysPageOf(page, n), start);
      if left > 0 {
        RestIsSingle(n, off, length, next, left, chip);
        FreshChunksSend(fate, q, next, left, start);
      }
    }
  }

  lemma {:induction false} RestIsSingle(n: nat, off: nat, length: nat, next: nat, left: nat, chip: nat)
    requires n > 0 && Single(n, off, length) && chip == ChipIndexOf(off / PAGE_SIZ, n)
    requires next == (off + ChunkAt(off, length)) % U32 && left == length - ChunkAt(off, length) && left > 0
    ensures Single(n, next, left) && !LiesOn(n, next, left, chip)
  {
    FirstChipOnce(n, off, length, ChunkAt(off, length));
  }

  lemma {:induction false} WaitAllOnlyWaits(fate: Fate, p: Pipe, i: nat)
    requires i <= |p.pending|
    ensures var r := WaitAllTrace(fate, p, i).log.events;
            |p.log.events| <= |r| && r[..|p.log.events|] == p.log.events && NoneSent(r, |p.log.events|)
  {
    if i > 0 {
      WaitAllOnlyWaits(fate, p, i - 1);
    }
  }

  /** A write of at most one page on each chip sends all its commands before its first wait:
      every chip is loaded, and starts to program, while the earlier ones program. */
  lemma {:induction false} AllSentFirst(fate: Fate, n: nat, log: Log, off: nat, length: nat)
    requires n > 0 && off < U32 && Single(n, off, length)
    ensures var events := WriteTrace(fate, n, log, off, length).log.events;
            exists k: nat :: k <= |events| && OnlySent(|log.events|, events[..k]) && NoneSent(events, k)
  {
    var p := Pipe(log, NonePending(n), true);
    var q := WriteChunksTrace(fate, p, off, length);
    FreshChunksSend(fate, p, off, length, |log.events|);
    WaitAllOnlyWaits(fate, q, n);
    var events := WriteTrace(fate, n, log, off, length).log.events;
    assert events[..|q.log.events|] == q.log.events;
  }
}
