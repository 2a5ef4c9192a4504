/** Which commands of a call find their chip idle.

    The code stops sending at the first failure, so a chip that a call itself has left busy gets
    no command from it: whatever fails, a call meets a busy chip only if one of its pages lies
    on a chip that was busy before. */
module SpiIdle {
  import opened Bits
  import opened Machine
  import opened Microcode
  import opened Spi
  import opened SpiTrace

  /** Every command among the events that the second log has and the first has not. */
  ghost predicate NewFindIdle(log: Log, more: Log) {
    forall k | |log.events| <= k < |more.events| && more.events[k].Sent? :: more.events[k].idle
  }

  lemma {:induction false} NewInTwoParts(a: Log, b: Log, c: Log)
    requires a.events <= b.events <= c.events
    ensures NewFindIdle(a, c) <==> NewFindIdle(a, b) && NewFindIdle(b, c)
  {
    assert forall k | 0 <= k < |b.events| :: b.events[k] == c.events[k];
    if NewFindIdle(a, c) {
      forall k | |a.events| <= k < |b.events| && b.events[k].Sent? ensures b.events[k].idle {
        assert c.events[k].idle;
      }
    }
  }

  // ----- the chips that a range lies on

  function ChipOfByte(n: nat, offset: nat, i: nat): (c: nat)
    requires n > 0
    ensures c < n
  {
    ChipIndexOf(PageOfByte(offset, i), n)
  }

  /** A page of the range lies on chip c. */
  ghost predicate LiesOn(n: nat, offset: nat, length: nat, c: nat)
    requires n > 0
  {
    exists i | 0 <= i < length :: ChipOfByte(n, offset, i) == c
  }

  /** No page of the range lies on one of these chips. */
  ghost predicate Spares(n: nat, offset: nat, length: nat, late: set<nat>)
    requires n > 0
  {
    forall c {:trigger c in late} | c in late :: !LiesOn(n, offset, length, c)
  }

  lemma {:induction false} FirstPage(n: nat, off: nat, length: nat, i: nat)
    requires n > 0 && off < U32 && i < ChunkAt(off, length)
    ensures ChipOfByte(n, off, i) == ChipIndexOf(off / PAGE_SIZ, n)
  {
    PageEnds(off, U32 / PAGE_SIZ, ChunkAt(off, length));
    DivisionIsUnique(off + i, PAGE_SIZ, off / PAGE_SIZ, off % PAGE_SIZ + i);
  }

  lemma {:induction false} LaterPages(n: nat, off: nat, chunk: nat, i: nat)
    requires n > 0
    ensures ChipOfByte(n, off, chunk + i) == ChipOfByte(n, (off + chunk) % U32, i)
  {
    SumModulo(off + chunk, i);
  }

  /** The range lies on the chip of its first page and on those of the rest. */
  lemma {:induction false} LiesOnFirst(n: nat, off: nat, length: nat, next: nat, left: nat, c: nat)
    requires n > 0 && off < U32 && length > 0
    requires next == (off + ChunkAt(off, length)) % U32 && left == length - ChunkAt(off, length)
    ensures LiesOn(n, off, length, c) <==> c == ChipIndexOf(off / PAGE_SIZ, n) || LiesOn(n, next, left, c)
  {
    var chunk := ChunkAt(off, length);
    FirstPage(n, off, length, 0);
    if i :| 0 <= i < length && ChipOfByte(n, off, i) == c {
      if i < chunk {
        FirstPage(n, off, length, i);
      } else {
        LaterPages(n, off, chunk, i - chunk);
        assert ChipOfByte(n, next, i - chunk) == c;
      }
    }
    if i :| 0 <= i < left && ChipOfByte(n, next, i) == c {
      LaterPages(n, off, chunk, i);
      assert ChipOfByte(n, off, chunk + i) == c;
    }
  }

  // ----- reading

  lemma {:induction false} ReadExtends(fate: Fate, n: nat, t: Trace, off: nat, length: nat)
    requires n > 0
    ensures t.log.events <= ReadTrace(fate, n, t, off, length).log.events
  {
    if t.ok {
      ReadTells(fate, n, t.log, t, off, length);
    }
  }

  /** A read of pages on chips that are not late finds them idle, whatever fails. */
  lemma {:induction false} ReadFindsIdle(fate: Fate, n: nat, t: Trace, off: nat, length: nat)
    requires n > 0 && off < U32 && Spares(n, off, length, t.log.late)
    ensures NewFindIdle(t.log, ReadTrace(fate, n, t, off, length).log)
    decreases length
  {
    if length > 0 && t.ok {
      var chunk, chip := ChunkAt(off, length), ChipIndexOf(off / PAGE_SIZ, n);
      var next, left, u := (off + chunk) % U32, length - chunk, ReadChunkTrace(fate, t.log, chip);
      forall c ensures LiesOn(n, off, length, c) <==> c == chip || LiesOn(n, next, left, c) {
        LiesOnFirst(n, off, length, next, left, c);
      }
      assert LiesOn(n, off, length, chip);
      ReadExtends(fate, n, u, next, left);
      if u.ok {
        ReadFindsIdle(fate, n, u, next, left);
      }
      NewInTwoParts(t.log, u.log, ReadTrace(fate, n, u, next, left).log);
    }
  }

  /** A read leaves every other chip as busy as it was. */
  lemma {:induction false} ReadLeaves(fate: Fate, n: nat, t: Trace, off: nat, length: nat, c: nat)
    requires n > 0 && off < U32 && !LiesOn(n, off, length, c)
    ensures c in ReadTrace(fate, n, t, off, length).log.late <==> c in t.log.late
    decreases length
  {
    if length > 0 && t.ok {
      var chunk, chip := ChunkAt(off, length), ChipIndexOf(off / PAGE_SIZ, n);
      LiesOnFirst(n, off, length, (off + chunk) % U32, length - chunk, c);
      ReadLeaves(fate, n, ReadChunkTrace(fate, t.log, chip), (off + chunk) % U32, length - chunk, c);
    }
  }

  ghost predicate DoneFrom(fate: Fate, start: nat) {
    forall i | start <= i :: fate(i) == Done
  }

  /** A read of a page on a late chip that fails nowhere meets it. */
  lemma {:induction false} ReadMeetsLate(fate: Fate, n: nat, t: Trace, off: nat, length: nat, c: nat)
    requires n > 0 && off < U32 && t.ok && DoneFrom(fate, |t.log.events|)
    requires LiesOn(n, off, length, c) && c in t.log.late
    ensures !NewFindIdle(t.log, ReadTrace(fate, n, t, off, length).log)
    decreases length
  {
    var chunk, chip := ChunkAt(off, length), ChipIndexOf(off / PAGE_SIZ, n);
    var next, left, u := (off + chunk) % U32, length - chunk, ReadChunkTrace(fate, t.log, chip);
    LiesOnFirst(n, off, length, next, left, c);
    ReadExtends(fate, n, u, next, left);
    NewInTwoParts(t.log, u.log, ReadTrace(fate, n, u, next, left).log);
    if chip == c {
      assert u.log.events[|t.log.events|] == Sent(c, false, true);
    } else {
      ReadMeetsLate(fate, n, u, next, left, c);
    }
  }

  // ----- writing

  lemma {:induction false} WriteChunksExtend(fate: Fate, p: Pipe, off: nat, length: nat)
    requires |p.pending| > 0
    ensures p.log.events <= WriteChunksTrace(fate, p, off, length).log.events
  {
    if p.ok {
      WriteChunksTell(fate, p.log, p, off, length);
    }
  }

  /** Waiting sends nothing. */
  lemma {:induction false} WaitAllSendsNothing(fate: Fate, p: Pipe, i: nat)
    requires i <= |p.pending|
    ensures var r := WaitAllTrace(fate, p, i); p.log.events <= r.log.events && NewFindIdle(p.log, r.log)
  {
    if i > 0 {
      WaitAllSendsNothing(fate, p, i - 1);
      var q, r := WaitAllTrace(fate, p, i - 1), WaitAllTrace(fate, p, i);
      NewInTwoParts(p.log, q.log, r.log);
    }
  }

  lemma {:induction false} WriteChunkFindsIdle(fate: Fate, p: Pipe, chip: nat, phys: nat)
    requires chip < |p.pending| && chip !in p.log.late
    ensures NewFindIdle(p.log, WriteChunkTrace(fate, p, chip, phys).log)
    ensures var q := WriteChunkTrace(fate, p, chip, phys); q.ok ==> q.log.late <= p.log.late
  {
  }

  lemma {:induction false} WriteChunksFindIdle(fate: Fate, p: Pipe, off: nat, length: nat)
    requires |p.pending| > 0 && off < U32 && Spares(|p.pending|, off, length, p.log.late)
    ensures NewFindIdle(p.log, WriteChunksTrace(fate, p, off, length).log)
    decreases length
  {
    if length > 0 && p.ok {
      var chunk, page, n := ChunkAt(off, length), off / PAGE_SIZ, |p.pending|;
      var chip, next, left := ChipIndexOf(page, n), (off + chunk) % U32, length - chunk;
      var q := WriteChunkTrace(fate, p, chip, PhysPageOf(page, n));
      forall c ensures LiesOn(n, off, length, c) <==> c == chip || LiesOn(n, next, left, c) {
        LiesOnFirst(n, off, length, next, left, c);
      }
      assert LiesOn(n, off, length, chip);
      WriteChunkFindsIdle(fate, p, chip, PhysPageOf(page, n));
      WriteChunkTells(fate, p, chip, PhysPageOf(page, n));
      WriteChunksExtend(fate, q, next, left);
      if q.ok {
        WriteChunksFindIdle(fate, q, next, left);
      }
      NewInTwoParts(p.log, q.log, WriteChunksTrace(fate, q, next, left).log);
    }
  }

  /** A write of pages on chips that are not late finds them idle, whatever fails. */
  lemma {:induction false} WriteFindsIdle(fate: Fate, n: nat, log: Log, off: nat, length: nat)
    requires n > 0 && off < U32 && Spares(n, off, length, log.late)
    ensures NewFindIdle(log, WriteTrace(fate, n, log, off, length).log)
  {
    var start := Pipe(log, NonePending(n), true);
    var issued := WriteChunksTrace(fate, start, off, length);
    WriteChunksFindIdle(fate, start, off, length);
    WriteChunksExtend(fate, start, off, length);
    WaitAllSendsNothing(fate, issued, n);
    NewInTwoParts(log, issued.log, WaitAllTrace(fate, issued, n).log);
  }

  lemma {:induction false} WriteChunksLeave(fate: Fate, p: Pipe, off: nat, length: nat, c: nat)
    requires |p.pending| > 0 && off < U32 && !LiesOn(|p.pending|, off, length, c)
    requires c < |p.pending| ==> p.pending[c] < 0
    ensures var r := WriteChunksTrace(fate, p, off, length);
            (c in r.log.late <==> c in p.log.late) && (c < |r.pending| ==> r.pending[c] < 0)
    decreases length
  {
    if length > 0 && p.ok {
      var chunk, page, n := ChunkAt(off, length), off / PAGE_SIZ, |p.pending|;
      LiesOnFirst(n, off, length, (off + chunk) % U32, length - chunk, c);
      var q := WriteChunkTrace(fate, p, ChipIndexOf(page, n), PhysPageOf(page, n));
      WriteChunksLeave(fate, q, (off + chunk) % U32, length - chunk, c);
    }
  }

  lemma {:induction false} WaitAllLeaves(fate: Fate, p: Pipe, i: nat, c: nat)
    requires i <= |p.pending| && (c < i ==> p.pending[c] < 0)
    ensures c in WaitAllTrace(fate, p, i).log.late <==> c in p.log.late
    ensures forall k | i <= k < |p.pending| :: WaitAllTrace(fate, p, i).pending[k] == p.pending[k]
  {
    if i > 0 {
      WaitAllLeaves(fate, p, i - 1, c);
    }
  }

  /** A write leaves every other chip as busy as it was. */
  lemma {:induction false} WriteLeaves(fate: Fate, n: nat, log: Log, off: nat, length: nat, c: nat)
    requires n > 0 && off < U32 && !LiesOn(n, off, length, c)
    ensures c in WriteTrace(fate, n, log, off, length).log.late <==> c in log.late
  {
    var start := Pipe(log, NonePending(n), true);
    WriteChunksLeave(fate, start, off, length, c);
    WaitAllLeaves(fate, WriteChunksTrace(fate, start, off, length), n, c);
  }

  lemma {:induction false} WriteChunksMeetLate(fate: Fate, p: Pipe, off: nat, length: nat, c: nat)
    requires |p.pending| > 0 && off < U32 && p.ok && DoneFrom(fate, |p.log.events|)
    requires c < |p.pending| && p.pending[c] < 0 && LiesOn(|p.pending|, off, length, c) && c in p.log.late
    ensures !NewFindIdle(p.log, WriteChunksTrace(fate, p, off, length).log)
    decreases length
  {
    var chunk, page, n := ChunkAt(off, length), off / PAGE_SIZ, |p.pending|;
    var chip, next, left := ChipIndexOf(page, n), (off + chunk) % U32, length - chunk;
    var q := WriteChunkTrace(fate, p, chip, PhysPageOf(page, n));
    LiesOnFirst(n, off, length, next, left, c);
    WriteChunkTells(fate, p, chip, PhysPageOf(page, n));
    WriteChunksExtend(fate, q, next, left);
    NewInTwoParts(p.log, q.log, WriteChunksTrace(fate, q, next, left).log);
    if chip == c {
      assert q.log.events[|p.log.events|] == Sent(c, false, true);
    } else {
      WriteChunksMeetLate(fate, q, next, left, c);
    }
  }

  /** A write of a page on a late chip that fails nowhere meets it. */
  lemma {:induction false} WriteMeetsLate(fate: Fate, n: nat, log: Log, off: nat, length: nat, c: nat)
    requires n > 0 && off < U32 && DoneFrom(fate, |log.events|)
    requires c < n && LiesOn(n, off, length, c) && c in log.late
    ensures !NewFindIdle(log, WriteTrace(fate, n, log, off, length).log)
  {
    var start := Pipe(log, NonePending(n), true);
    var issued := WriteChunksTrace(fate, start, off, length);
    WriteChunksMeetLate(fate, start, off, length, c);
    WriteChunksExtend(fate, start, off, length);
    WaitAllSendsNothing(fate, issued, n);
    NewInTwoParts(log, issued.log, WaitAllTrace(fate, issued, n).log);
  }

  // ----- erasing

  /** The chips behind the first i are left alone; the others are not late after success. */
  lemma {:induction false} EraseGroupLeaves(fate: Fate, log: Log, i: nat, c: nat)
    ensures var t := EraseGroupTrace(fate, log, i);
            if c >= i then c in t.log.late <==> c in log.late else t.ok ==> c !in t.log.late
  {
    if i > 0 {
      EraseGroupLeaves(fate, log, i - 1, c);
    }
  }

  lemma {:induction false} EraseGroupFindsIdle(fate: Fate, log: Log, i: nat)
    requires forall c | 0 <= c < i :: c !in log.late
    ensures log.events <= EraseGroupTrace(fate, log, i).log.events
    ensures NewFindIdle(log, EraseGroupTrace(fate, log, i).log)
  {
    if i > 0 {
      EraseGroupFindsIdle(fate, log, i - 1);
      EraseGroupLeaves(fate, log, i - 1, i - 1);
      var t, u := EraseGroupTrace(fate, log, i - 1), EraseGroupTrace(fate, log, i);
      NewInTwoParts(log, t.log, u.log);
    }
  }

  lemma {:induction false} EraseGroupsExtend(fate: Fate, n: nat, t: Trace, off: nat, end: nat)
    requires GroupSize(n) > 0
    ensures t.log.events <= EraseGroupsTrace(fate, n, t, off, end).log.events
  {
    if t.ok {
      EraseGroupsTell(fate, n, t.log, t, off, end);
    }
  }

  lemma {:induction false} EraseGroupsFindIdle(fate: Fate, n: nat, t: Trace, off: nat, end: nat)
    requires GroupSize(n) > 0 && (off < end ==> forall c | 0 <= c < n :: c !in t.log.late)
    ensures NewFindIdle(t.log, EraseGroupsTrace(fate, n, t, off, end).log)
    decreases end - off
  {
    if off < end && t.ok {
      var u := EraseGroupTrace(fate, t.log, n);
      EraseGroupFindsIdle(fate, t.log, n);
      EraseGroupsExtend(fate, n, u, off + GroupSize(n), end);
      if u.ok {
        forall c | 0 <= c < n ensures c !in u.log.late {
          EraseGroupLeaves(fate, t.log, n, c);
        }
        EraseGroupsFindIdle(fate, n, u, off + GroupSize(n), end);
      }
      NewInTwoParts(t.log, u.log, EraseGroupsTrace(fate, n, u, off + GroupSize(n), end).log);
    }
  }

  /** The erase starts on some group. */
  predicate Starts(n: nat, offset: nat, length: nat)
    requires GroupSize(n) > 0
  {
    Aligned(offset, n) && Aligned(length, n) && offset < (offset + length) % U32
  }

  /** An erase finds all chips idle, whatever fails, unless it starts and one of them is late. */
  lemma {:induction false} EraseFindsIdle(fate: Fate, n: nat, log: Log, offset: nat, length: nat)
    requires GroupSize(n) > 0 && (Starts(n, offset, length) ==> forall c | 0 <= c < n :: c !in log.late)
    ensures NewFindIdle(log, EraseTrace(fate, n, log, offset, length).log)
  {
    if Aligned(offset, n) && Aligned(length, n) {
      EraseGroupsFindIdle(fate, n, Trace(log, true), offset, (offset + length) % U32);
    }
  }

  lemma {:induction false} EraseGroupsLeave(fate: Fate, n: nat, t: Trace, off: nat, end: nat, c: nat)
    requires GroupSize(n) > 0 && c >= n
    ensures c in EraseGroupsTrace(fate, n, t, off, end).log.late <==> c in t.log.late
    decreases end - off
  {
    if off < end && t.ok {
      EraseGroupLeaves(fate, t.log, n, c);
      EraseGroupsLeave(fate, n, EraseGroupTrace(fate, t.log, n), off + GroupSize(n), end, c);
    }
  }

  lemma {:induction false} EraseGroupGoesThrough(fate: Fate, log: Log, i: nat)
    requires DoneFrom(fate, |log.events|)
    ensures EraseGroupTrace(fate, log, i).ok && log.events <= EraseGroupTrace(fate, log, i).log.events
  {
    if i > 0 {
      EraseGroupGoesThrough(fate, log, i - 1);
    }
  }

  lemma {:induction false} EraseGroupMeetsLate(fate: Fate, log: Log, i: nat, c: nat)
    requires c < i && c in log.late && DoneFrom(fate, |log.events|)
    ensures !NewFindIdle(log, EraseGroupTrace(fate, log, i).log)
  {
    var t, u := EraseGroupTrace(fate, log, i - 1), EraseGroupTrace(fate, log, i);
    EraseGroupGoesThrough(fate, log, i - 1);
    NewInTwoParts(log, t.log, u.log);
    if c == i - 1 {
      EraseGroupLeaves(fate, log, i - 1, c);
      assert u.log.events[|t.log.events|] == Sent(c, false, true);
    } else {
      EraseGroupMeetsLate(fate, log, i - 1, c);
    }
  }

  /** An erase that starts with a late chip in the device, and fails nowhere, meets it. */
  lemma {:induction false} EraseMeetsLate(fate: Fate, n: nat, log: Log, offset: nat, length: nat, c: nat)
    requires GroupSize(n) > 0 && Starts(n, offset, length) && DoneFrom(fate, |log.events|)
    requires c < n && c in log.late
    ensures !NewFindIdle(log, EraseTrace(fate, n, log, offset, length).log)
  {
    var u, end := EraseGroupTrace(fate, log, n), (offset + length) % U32;
    EraseGroupMeetsLate(fate, log, n, c);
    EraseGroupGoesThrough(fate, log, n);
    EraseGroupsExtend(fate, n, u, offset + GroupSize(n), end);
    NewInTwoParts(log, u.log, EraseGroupsTrace(fate, n, u, offset + GroupSize(n), end).log);
  }

  // ----- every chip that a call uses can be left busy by it

  /** Command or wait number m times out, and all others succeed. */
  function OneTimeout(m: nat): Fate {
    i => if i == m then TimedOut else Done
  }

  function AllDone(): Fate {
    i => Done
  }

  ghost predicate DoneOn(fate: Fate, start: nat, end: nat) {
    forall i | start <= i < end :: fate(i) == Done
  }

  lemma {:induction false} ReadChunkAgrees(fate: Fate, log: Log, chip: nat, u: Trace)
    requires u == ReadChunkTrace(AllDone(), log, chip) && DoneOn(fate, |log.events|, |u.log.events|)
    ensures ReadChunkTrace(fate, log, chip) == u && u.ok && log.events <= u.log.events
  {
  }

  lemma {:induction false} ReadAgrees(fate: Fate, n: nat, t: Trace, off: nat, length: nat)
    requires n > 0 && t.ok
    requires DoneOn(fate, |t.log.events|, |ReadTrace(AllDone(), n, t, off, length).log.events|)
    ensures ReadTrace(fate, n, t, off, length) == ReadTrace(AllDone(), n, t, off, length)
    ensures ReadTrace(fate, n, t, off, length).ok
    decreases length
  {
    hide ReadChunkTrace, ChipIndexOf;
    if length > 0 {
      var chunk, chip := ChunkAt(off, length), ChipIndexOf(off / PAGE_SIZ, n);
      var u := ReadChunkTrace(AllDone(), t.log, chip);
      ReadExtends(AllDone(), n, u, (off + chunk) % U32, length - chunk);
      ReadChunkAgrees(fate, t.log, chip, u);
      ReadAgrees(fate, n, u, (off + chunk) % U32, length - chunk);
    }
  }

  lemma {:induction false} ReadTimesOut(n: nat, t: Trace, off: nat, length: nat, c: nat) returns (m: nat)
    requires n > 0 && off < U32 && t.ok && LiesOn(n, off, length, c)
    ensures var r := ReadTrace(OneTimeout(m), n, t, off, length);
            |t.log.events| <= m < |r.log.events| && c in r.log.late
    decreases length
  {
    var chunk, chip := ChunkAt(off, length), ChipIndexOf(off / PAGE_SIZ, n);
    LiesOnFirst(n, off, length, (off + chunk) % U32, length - chunk, c);
    if chip == c {
      m := |t.log.events| + 1;
      assert ReadChunkTrace(OneTimeout(m), t.log, chip) == Trace(t.log.Send(c, true).Wait(c, TimedOut), false);
    } else {
      var u := ReadChunkTrace(AllDone(), t.log, chip);
      m := ReadTimesOut(n, u, (off + chunk) % U32, length - chunk, c);
      assert ReadChunkTrace(OneTimeout(m), t.log, chip) == u;
    }
  }

  lemma {:induction false} WriteChunksAgree(fate: Fate, p: Pipe, off: nat, length: nat)
    requires |p.pending| > 0 && p.ok
    requires DoneOn(fate, |p.log.events|, |WriteChunksTrace(AllDone(), p, off, length).log.events|)
    ensures WriteChunksTrace(fate, p, off, length) == WriteChunksTrace(AllDone(), p, off, length)
    ensures WriteChunksTrace(fate, p, off, length).ok
    decreases length
  {
    hide WriteChunkTrace, ChipIndexOf, PhysPageOf;
    if length > 0 {
      var chunk, page, n := ChunkAt(off, length), off / PAGE_SIZ, |p.pending|;
      var q := WriteChunkTrace(AllDone(), p, ChipIndexOf(page, n), PhysPageOf(page, n));
      WriteChunksExtend(AllDone(), q, (off + chunk) % U32, length - chunk);
      WriteChunkTells(AllDone(), p, ChipIndexOf(page, n), PhysPageOf(page, n));
      WriteChunkAgrees(fate, p, ChipIndexOf(page, n), PhysPageOf(page, n), q);
      WriteChunksAgree(fate, q, (off + chunk) % U32, length - chunk);
    }
  }

  lemma {:induction false} WriteChunkAgrees(fate: Fate, p: Pipe, chip: nat, phys: nat, q: Pipe)
    requires chip < |p.pending| && q == WriteChunkTrace(AllDone(), p, chip, phys)
    requires DoneOn(fate, |p.log.events|, |q.log.events|)
    ensures WriteChunkTrace(fate, p, chip, phys) == q && q.ok && q.pending[chip] == phys
    ensures forall c | 0 <= c < |p.pending| && c != chip :: q.pending[c] == p.pending[c]
  {
  }

  lemma {:induction false} WaitAllAgrees(fate: Fate, p: Pipe, i: nat)
    requires i <= |p.pending| && DoneOn(fate, |p.log.events|, |WaitAllTrace(AllDone(), p, i).log.events|)
    ensures WaitAllTrace(fate, p, i) == WaitAllTrace(AllDone(), p, i)
    ensures p.ok ==> WaitAllTrace(fate, p, i).ok
  {
    if i > 0 {
      WaitAllSendsNothing(AllDone(), p, i - 1);
      WaitAllAgrees(fate, p, i - 1);
    }
  }

  /** All that was issued is pending. */
  lemma {:induction false} IssuedIsPending(p: Pipe, off: nat, length: nat, c: nat)
    requires |p.pending| > 0 && off < U32 && p.ok && c < |p.pending|
    requires p.pending[c] >= 0 || LiesOn(|p.pending|, off, length, c)
    ensures WriteChunksTrace(AllDone(), p, off, length).pending[c] >= 0
    decreases length
  {
    if length > 0 {
      var chunk, page, n := ChunkAt(off, length), off / PAGE_SIZ, |p.pending|;
      var q := WriteChunkTrace(AllDone(), p, ChipIndexOf(page, n), PhysPageOf(page, n));
      LiesOnFirst(n, off, length, (off + chunk) % U32, length - chunk, c);
      WriteChunkAgrees(AllDone(), p, ChipIndexOf(page, n), PhysPageOf(page, n), q);
      IssuedIsPending(q, (off + chunk) % U32, length - chunk, c);
    }
  }

  /** A chip whose wait has timed out is not waited for again. */
  lemma {:induction false} WaitAllKeepsLate(fate: Fate, p: Pipe, i: nat, c: nat)
    requires c < i <= |p.pending| && c in WaitAllTrace(fate, p, c + 1).log.late
    ensures c in WaitAllTrace(fate, p, i).log.late
    ensures |WaitAllTrace(fate, p, c + 1).log.events| <= |WaitAllTrace(fate, p, i).log.events|
  {
    if i > c + 1 {
      WaitAllKeepsLate(fate, p, i - 1, c);
    }
  }

  lemma {:induction false} WriteTimesOut(n: nat, log: Log, off: nat, length: nat, c: nat) returns (m: nat)
    requires n > 0 && off < U32 && c < n && LiesOn(n, off, length, c)
    ensures var r := WriteTrace(OneTimeout(m), n, log, off, length);
            |log.events| <= m < |r.log.events| && c in r.log.late
  {
    var start := Pipe(log, NonePending(n), true);
    var issued := WriteChunksTrace(AllDone(), start, off, length);
    var waited := WaitAllTrace(AllDone(), issued, c);
    m := |waited.log.events|;
    IssuedIsPending(start, off, length, c);
    WriteChunksExtend(AllDone(), start, off, length);
    WaitAllSendsNothing(AllDone(), issued, c);
    WriteChunksAgree(OneTimeout(m), start, off, length);
    WaitAllAgrees(OneTimeout(m), issued, c);
    StillPending(AllDone(), issued, c, c);
    WaitAllKeepsLate(OneTimeout(m), issued, n, c);
  }

  lemma {:induction false} StillPending(fate: Fate, p: Pipe, i: nat, k: nat)
    requires i <= k < |p.pending|
    ensures WaitAllTrace(fate, p, i).pending[k] == p.pending[k]
  {
    if i > 0 {
      StillPending(fate, p, i - 1, k);
    }
  }

  lemma {:induction false} WriteAgrees(fate: Fate, n: nat, log: Log, off: nat, length: nat)
    requires n > 0 && DoneOn(fate, |log.events|, |WriteTrace(AllDone(), n, log, off, length).log.events|)
    ensures WriteTrace(fate, n, log, off, length) == WriteTrace(AllDone(), n, log, off, length)
  {
    var start := Pipe(log, NonePending(n), true);
    var issued := WriteChunksTrace(AllDone(), start, off, length);
    WriteChunksExtend(AllDone(), start, off, length);
    WaitAllSendsNothing(AllDone(), issued, n);
    WriteChunksAgree(fate, start, off, length);
    WaitAllAgrees(fate, issued, n);
  }

  lemma {:induction false} EraseGroupAgrees(fate: Fate, log: Log, i: nat)
    requires DoneOn(fate, |log.events|, |EraseGroupTrace(AllDone(), log, i).log.events|)
    ensures EraseGroupTrace(fate, log, i) == EraseGroupTrace(AllDone(), log, i)
  {
    if i > 0 {
      EraseGroupGoesThrough(AllDone(), log, i - 1);
      EraseGroupAgrees(fate, log, i - 1);
    }
  }

  lemma {:induction false} EraseGroupsAgree(fate: Fate, n: nat, t: Trace, off: nat, end: nat)
    requires GroupSize(n) > 0 && t.ok
    requires DoneOn(fate, |t.log.events|, |EraseGroupsTrace(AllDone(), n, t, off, end).log.events|)
    ensures EraseGroupsTrace(fate, n, t, off, end) == EraseGroupsTrace(AllDone(), n, t, off, end)
    decreases end - off
  {
    if off < end {
      var u := EraseGroupTrace(AllDone(), t.log, n);
      EraseGroupGoesThrough(AllDone(), t.log, n);
      EraseGroupsExtend(AllDone(), n, u, off + GroupSize(n), end);
      EraseGroupAgrees(fate, t.log, n);
      EraseGroupsAgree(fate, n, u, off + GroupSize(n), end);
    }
  }

  lemma {:induction false} EraseGroupTimesOut(log: Log, n: nat, c: nat, m: nat, t: Trace)
    requires c < n && t == EraseGroupTrace(AllDone(), log, c) && m == |t.log.events| + 1
    ensures var u := EraseGroupTrace(OneTimeout(m), log, n);
            |log.events| <= m < |u.log.events| && c in u.log.late && !u.ok
  {
    EraseGroupGoesThrough(AllDone(), log, c);
    EraseGroupAgrees(OneTimeout(m), log, c);
    assert EraseGroupTrace(OneTimeout(m), log, c + 1) == Trace(t.log.Send(c, true).Wait(c, TimedOut), false);
    GroupStops(OneTimeout(m), log, c + 1, n);
  }

  lemma {:induction false} EraseTimesOut(n: nat, log: Log, offset: nat, length: nat, c: nat) returns (m: nat)
    requires GroupSize(n) > 0 && Starts(n, offset, length) && c < n
    ensures var r := EraseTrace(OneTimeout(m), n, log, offset, length);
            |log.events| <= m < |r.log.events| && c in r.log.late
  {
    hide EraseGroupTrace;
    var t := EraseGroupTrace(AllDone(), log, c);
    m := |t.log.events| + 1;
    EraseGroupTimesOut(log, n, c, m, t);
    var u, end := EraseGroupTrace(OneTimeout(m), log, n), (offset + length) % U32;
    assert EraseGroupsTrace(OneTimeout(m), n, u, offset + GroupSize(n), end) == u;
    assert EraseGroupsTrace(OneTimeout(m), n, Trace(log, true), offset, end) == u;
  }
}
