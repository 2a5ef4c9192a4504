/** The device object over the chips: pipelined programs, reads and group erases.

    Programs are issued without waiting, so that several chips can work at the same time; a
    chip is waited for before it gets its next page, and all are at the end. */
module SpiDevice {
  import opened Machine
  import opened Microcode
  import opened Spi
  import opened SpiTrace
  import opened SpiFlat
  import opened SpiIdle
  import opened SpiSteps

  /** Copies data to a position of a buffer. */
  method Fill(buffer: array<byte>, at: nat, data: seq<byte>)
    requires at + |data| <= buffer.Length
    modifies buffer
    ensures buffer[..at + |data|] == old(buffer[..at]) + data
  {
    forall i | 0 <= i < |data| {
      buffer[at + i] := data[i];
    }
  }

  class W25NSpiFlashDevice {
    var chips: seq<Chip>
    const fate: Fate  // how the commands and waits are going to end
    var log: Log      // those made so far

    /** Takes over chips that are open and idle. */
    constructor (cs: seq<Chip>, f: Fate)
      requires AllValid(cs) && AllIdle(cs)
      ensures chips == cs && fate == f && log == NEW && InStep(chips, log)
    {
      chips, fate, log := cs, f, NEW;
    }

    // ----- commands and waits

    /** Sends a command; `sure` marks those whose transfer the code does not check. */
    method Send(idx: nat, cmd: Command, sure: bool) returns (ok: bool)
      requires AllValid(chips) && idx < |chips| && cmd.Fits() && (chips[idx].work.Idle? <==> idx !in log.late)
      modifies this
      ensures AllValid(chips) && |chips| == |old(chips)| && Sends(old(chips), chips, idx, cmd, ok)
      ensures ok == (sure || fate(|old(log).events|) == Done) && log == old(log).Send(idx, ok)
    {
      var c := chips[idx];
      ok := sure || fate(|log.events|) == Done;
      log := log.Send(idx, ok);
      if c.work.Idle? {
        if ok {
          chips := chips[idx := Accept(c, cmd)];
        }
      } else {
        var garbage: Chip := *;
        if garbage.Valid() && garbage.work == c.work {
          chips := chips[idx := garbage];
        }
      }
    }

    method Wait(idx: nat) returns (r: Outcome)
      requires AllValid(chips) && idx < |chips|
      modifies this
      ensures AllValid(chips) && |chips| == |old(chips)| && WaitsFor(old(chips), chips, idx, r)
      ensures r == fate(|old(log).events|) && log == old(log).Wait(idx, r)
    {
      var c := chips[idx];
      r := fate(|log.events|);
      log := log.Wait(idx, r);
      match r {
        case TimedOut =>
        case Done => chips := chips[idx := WorkDone(c)];
        case Failed => chips := chips[idx := c.(work := Idle)];
      }
    }

    // ----- reading

    /** Reads a chunk of one page through its chip's buffer. */
    method ReadChunk(page: nat, col: nat, n: nat) returns (ok: bool, data: seq<byte>)
      requires AllValid(chips) && InStep(chips, log) && PhysPageOf(page, |chips|) < CHIP_PAGES
      requires 0 < n && col + n <= PAGE_SIZ && page * PAGE_SIZ + col + n <= |chips| * TOTAL
      modifies this
      ensures AllValid(chips) && |chips| == |old(chips)| && InStep(chips, log)
      ensures Trace(log, ok) == ReadChunkTrace(fate, old(log), ChipIndexOf(page, |chips|))
      ensures ok ==> |data| == n
      ensures AllIdle(old(chips)) ==> SameView(chips, old(chips))
      ensures AllIdle(old(chips)) && ok ==>
                AllIdle(chips) && data == Flat(old(chips))[page * PAGE_SIZ + col..page * PAGE_SIZ + col + n]
    {
      ghost var c0, l0 := chips, log;
      var idx, phys := ChipIndexOf(page, |chips|), PhysPageOf(page, |chips|);
      var sent := Send(idx, PageRead(phys), true);
      ghost var c1 := chips;
      var r := Wait(idx);
      ghost var c2, l2 := chips, log;
      ReadWaited(c0, c1, c2, l0, idx, phys, r);
      ok, data := r == Done, [];
      if ok {
        ok := Send(idx, ReadBuffer, false);
        ReadTaken(c2, chips, l2, idx, ok);
        data := chips[idx].buffer[col..col + n];
        if AllIdle(c0) {
          SameTwice(chips, c2, c0);
          ChunkOfFlat(c0, page, col, n);
        }
      }
    }

    /** What holds when `done` bytes have been read. */
    ghost predicate ReadSoFar(was: seq<Chip>, offset: nat, buffer: array<byte>, done: nat, ok: bool)
      requires AllValid(was) && InReach(offset, buffer.Length, |was| * TOTAL)
      reads this, buffer
    {
      AllValid(chips) && |chips| == |was| && InStep(chips, log) && done <= buffer.Length &&
      (AllIdle(was) ==> SameView(chips, was)) &&
      (AllIdle(was) && ok ==>
        AllIdle(chips) && buffer[..done] == ReadEffect(Flat(was), offset, buffer.Length)[..done])
    }

    /** Reads the next chunk into its place in the buffer, and goes on to the one after it. */
    method ReadNext(offset: nat, buffer: array<byte>, off: nat, done: nat, ghost was: seq<Chip>, ghost all: Trace)
      returns (ok: bool, next: nat, more: nat)
      requires AllValid(was) && InReach(offset, buffer.Length, |was| * TOTAL) && done < buffer.Length
      requires ReadSoFar(was, offset, buffer, done, true) && off == (offset + done) % U32
      requires ReadTrace(fate, |was|, Trace(log, true), off, buffer.Length - done) == all
      modifies this, buffer
      ensures ReadSoFar(was, offset, buffer, more, ok) && done < more && next == (offset + more) % U32
      ensures ReadTrace(fate, |was|, Trace(log, ok), next, buffer.Length - more) == all
    {
      hide ReadChunkTrace, ReadTrace, ReadEffect, Flat, SameView, InStep, PhysPageOf, ChipIndexOf;
      ghost var before, t := chips, Trace(log, true);
      var page, col := off / PAGE_SIZ, off % PAGE_SIZ;
      var chunk := PAGE_SIZ - col;
      if chunk > buffer.Length - done {
        chunk := buffer.Length - done;
      }
      ChunkInReach(offset, buffer.Length, done, |was|, off, chunk);
      var data;
      ok, data := ReadChunk(page, col, chunk);
      if AllIdle(was) {
        SameTwice(chips, before, was);
      }
      if ok {
        ghost var sofar := buffer[..done];
        Fill(buffer, done, data);
        if AllIdle(was) {
          ReadGrows(was, before, offset, buffer.Length, done, off, data, sofar);
        }
      }
      next, more := (off + chunk) % U32, done + chunk;
      SumModulo(offset + done, chunk);
      ReadChunkFirst(fate, |was|, t, off, buffer.Length - done, Trace(log, ok), next, buffer.Length - more, all);
    }

    /** Reads through the chips' buffers, page by page. */
    method Read(offset: nat, buffer: array<byte>) returns (ok: bool)
      requires AllValid(chips) && InStep(chips, log) && InReach(offset, buffer.Length, |chips| * TOTAL)
      modifies this, buffer
      ensures AllValid(chips) && |chips| == |old(chips)| && InStep(chips, log)
      ensures Trace(log, ok) == ReadTrace(fate, |chips|, Trace(old(log), true), offset, buffer.Length)
      ensures old(log).events <= log.events && (ok <==> AllSucceeded(log.events, |old(log).events|))
      ensures AllIdle(old(chips)) ==> SameView(chips, old(chips))
      ensures AllIdle(old(chips)) ==> NewFindIdle(old(log), log)
      ensures AllIdle(old(chips)) && ok ==>
                AllIdle(chips) && buffer[..] == ReadEffect(Flat(old(chips)), offset, buffer.Length)
    {
      ghost var was, l0, n := chips, log, |chips|;
      ghost var all := ReadTrace(fate, n, Trace(log, true), offset, buffer.Length);
      var off: nat, done: nat := offset, 0;
      ok := true;
      while done < buffer.Length && ok
        invariant ReadSoFar(was, offset, buffer, done, ok) && off == (offset + done) % U32
        invariant ReadTrace(fate, n, Trace(log, ok), off, buffer.Length - done) == all
        decreases buffer.Length - done, ok
      {
        ok, off, done := ReadNext(offset, buffer, off, done, was, all);
      }
      ReadTells(fate, n, l0, Trace(l0, true), offset, buffer.Length);
      if AllIdle(was) && ok {
        TakeAll(buffer[..]);
        TakeAll(ReadEffect(Flat(was), offset, buffer.Length));
      }
      if AllIdle(was) {
        IdleSpares(was, l0, offset, buffer.Length);
        ReadFindsIdle(fate, n, Trace(l0, true), offset, buffer.Length);
      }
    }

    // ----- writing

    /** Waits for a chip if it has a program pending. */
    method WaitChip(idx: nat, pendingPage: array<int>) returns (ok: bool)
      requires AllValid(chips) && idx < |chips| && Linked(chips, pendingPage[..], log)
      modifies this, pendingPage
      ensures AllValid(chips) && |chips| == |old(chips)| && Linked(chips, pendingPage[..], log) && pendingPage[idx] < 0
      ensures forall k | 0 <= k < pendingPage.Length && k != idx :: pendingPage[k] == old(pendingPage[k])
      ensures Pipe(log, pendingPage[..], ok) == WaitChipTrace(fate, Pipe(old(log), old(pendingPage[..]), true), idx)
      ensures Running(old(chips), old(pendingPage[..])) && ok ==>
                Running(chips, pendingPage[..]) && SameView(chips, old(chips))
      ensures Settles(old(chips), chips)
    {
      if pendingPage[idx] < 0 {
        return true;
      }
      ghost var was, pending := chips, pendingPage[..];
      var r := Wait(idx);
      ok := r == Done;
      WaitSettles(was, chips, idx, r);
      if ok {
        WaitKeepsView(was, chips, idx, r);
      }
      pendingPage[idx] := -1;
      assert pendingPage[..] == pending[idx := -1];
    }

    /** Loads a chip's buffer and issues the program; true if both commands went through. */
    method LoadAndIssue(idx: nat, phys: nat, col: nat, chunk: seq<byte>, pendingPage: array<int>) returns (ok: bool)
      requires AllValid(chips) && idx < |chips| && Linked(chips, pendingPage[..], log) && pendingPage[idx] < 0
      requires phys < CHIP_PAGES && col + |chunk| <= PAGE_SIZ
      modifies this, pendingPage
      ensures AllValid(chips) && Linked(chips, pendingPage[..], log) && OnlyOn(old(chips), chips, idx)
      ensures Pipe(log, pendingPage[..], ok) == IssueTrace(fate, Pipe(old(log), old(pendingPage[..]), true), idx, phys)
      ensures ok ==> pendingPage[..] == old(pendingPage[..])[idx := phys]
      ensures old(chips)[idx].work.Idle? ==>
                chips[idx].pages == old(chips)[idx].pages && (chips[idx].work in {Idle, Programming(phys)})
      ensures ok && old(chips)[idx].work.Idle? ==>
                chips[idx] == old(chips)[idx].(buffer := BufferWith(col, chunk), work := Programming(phys))
    {
      ok := Send(idx, ProgramLoad(col, chunk), false);
      if ok {
        ok := Send(idx, ProgramExecute(phys), false);
        if ok {
          ghost var pending := pendingPage[..];
          pendingPage[idx] := phys;
          assert pendingPage[..] == pending[idx := phys];
        }
      }
    }

    /** Waits for the chip of a page, then issues the program of a chunk of the page. */
    method WriteChunk(page: nat, col: nat, chunk: seq<byte>, pendingPage: array<int>, ghost was: seq<Chip>,
        ghost pages: set<nat>) returns (ok: bool)
      requires AllValid(was) && |was| == |chips|
      requires AllValid(chips) && Linked(chips, pendingPage[..], log)
      requires page < |chips| * CHIP_PAGES && PhysPageOf(page, |chips|) < CHIP_PAGES && col + |chunk| <= PAGE_SIZ
      requires page * PAGE_SIZ + col + |chunk| <= |chips| * TOTAL
      modifies this, pendingPage
      ensures AllValid(chips) && |chips| == |old(chips)| && Linked(chips, pendingPage[..], log)
      ensures Pipe(log, pendingPage[..], ok) ==
              WriteChunkTrace(fate, Pipe(old(log), old(pendingPage[..]), true), ChipIndexOf(page, |chips|),
                              PhysPageOf(page, |chips|))
      ensures Running(old(chips), old(pendingPage[..])) && ok ==>
                Running(chips, pendingPage[..]) &&
                Flat(chips) == Program(Flat(old(chips)), page * PAGE_SIZ + col, chunk)
      ensures Running(old(chips), old(pendingPage[..])) && Confined(was, old(chips), pages) ==>
                Confined(was, chips, pages + {page})
    {
      ghost var before := chips;
      var idx, phys := ChipIndexOf(page, |chips|), PhysPageOf(page, |chips|);
      ok := WaitChip(idx, pendingPage);
      if ok {
        ghost var waited, pending := chips, pendingPage[..];
        ok := LoadAndIssue(idx, phys, col, chunk, pendingPage);
        if ok && Running(waited, pending) {
          IssueFlat(waited, chips, idx, page, col, chunk);
        }
        if ok && Running(before, old(pendingPage[..])) {
          SameFlat(waited, before);
        }
        if Running(before, old(pendingPage[..])) && Confined(was, before, pages) {
          ConfinedSettles(was, before, waited, pages);
          StripingIsBijective(|was|, idx, phys, page);
          SendConfined(was, waited, chips, idx, pages, pages + {page});
        }
      } else if Confined(was, before, pages) {
        ConfinedSettles(was, before, chips, pages);
        MoreConfined(was, chips, pages, pages + {page});
      }
    }

    /** What holds when `done` bytes have been issued. */
    ghost predicate WriteSoFar(was: seq<Chip>, offset: nat, data: seq<byte>, pendingPage: array<int>, done: nat,
        ok: bool)
      requires AllValid(was) && InReach(offset, |data|, |was| * TOTAL)
      reads this, pendingPage
    {
      AllValid(chips) && |chips| == |was| && Linked(chips, pendingPage[..], log) && done <= |data| &&
      (AllIdle(was) && ok ==>
        Running(chips, pendingPage[..]) && Flat(chips) == WriteEffect(Flat(was), offset, data[..done])) &&
      (AllIdle(was) ==> Confined(was, chips, PagesOf(offset, done)))
    }

    /** Issues the next chunk, and goes on to the one after it. */
    method WriteNext(offset: nat, data: seq<byte>, pendingPage: array<int>, off: nat, done: nat, ghost was: seq<Chip>,
        ghost all: Pipe, ghost reach: nat) returns (ok: bool, next: nat, more: nat)
      requires AllValid(was) && InReach(offset, |data|, |was| * TOTAL) && done < |data|
      requires WriteSoFar(was, offset, data, pendingPage, done, true) && off == (offset + done) % U32
      requires WriteChunksTrace(fate, Pipe(log, pendingPage[..], true), off, |data| - done) == all
      requires done + WriteReach(fate, Pipe(log, pendingPage[..], true), off, |data| - done) == reach
      modifies this, pendingPage
      ensures WriteSoFar(was, offset, data, pendingPage, more, ok) && done < more && next == (offset + more) % U32
      ensures WriteChunksTrace(fate, Pipe(log, pendingPage[..], ok), next, |data| - more) == all
      ensures more + WriteReach(fate, Pipe(log, pendingPage[..], ok), next, |data| - more) == reach
    {
      hide WriteChunkTrace, WriteChunksTrace, WriteReach, WriteEffect, Flat, Program, Linked, Running, Confined;
      hide PhysPageOf, ChipIndexOf, PagesOf;
      ghost var before, p := chips, Pipe(log, pendingPage[..], true);
      var page, col := off / PAGE_SIZ, off % PAGE_SIZ;
      var chunk := PAGE_SIZ - col;
      if chunk > |data| - done {
        chunk := |data| - done;
      }
      ChunkInReach(offset, |data|, done, |was|, off, chunk);
      ghost var pages := PagesOf(offset, done);
      ok := WriteChunk(page, col, data[done..done + chunk], pendingPage, was, pages);
      if AllIdle(was) {
        MorePages(offset, done, done + chunk, off);
        MoreConfined(was, chips, pages + {page}, PagesOf(offset, done + chunk));
      }
      if ok && AllIdle(was) {
        WriteChunkEffect(Flat(was), offset, data[..done], data[done..done + chunk], off, Flat(before));
        SliceAppend(data, done, chunk);
      }
      next, more := (off + chunk) % U32, done + chunk;
      SumModulo(offset + done, chunk);
      WriteChunkFirst(fate, p, off, |data| - done, Pipe(log, pendingPage[..], ok), next, |data| - more, all);
    }

    /** Waits for every chip that has a program pending. */
    method WaitAll(pendingPage: array<int>, before: bool) returns (ok: bool)
      requires AllValid(chips) && Linked(chips, pendingPage[..], log)
      modifies this, pendingPage
      ensures AllValid(chips) && |chips| == |old(chips)| == pendingPage.Length && InStep(chips, log)
      ensures Pipe(log, pendingPage[..], ok) ==
              WaitAllTrace(fate, Pipe(old(log), old(pendingPage[..]), before), |chips|)
      ensures ok ==> before
      ensures Settles(old(chips), chips)
      ensures Running(old(chips), old(pendingPage[..])) && ok ==> AllIdle(chips) && SameView(chips, old(chips))
    {
      ghost var p := Pipe(log, pendingPage[..], before);
      ok := before;
      for i := 0 to |chips|
        invariant |chips| == |old(chips)| == pendingPage.Length && AllValid(chips)
        invariant Linked(chips, pendingPage[..], log)
        invariant forall k | 0 <= k < i :: pendingPage[k] < 0
        invariant Pipe(log, pendingPage[..], ok) == WaitAllTrace(fate, p, i)
        invariant ok ==> before
        invariant Settles(old(chips), chips)
        invariant Running(old(chips), old(pendingPage[..])) && ok ==>
                    Running(chips, pendingPage[..]) && SameView(chips, old(chips))
      {
        ghost var earlier := chips;
        var waited := WaitChip(i, pendingPage);
        ok := waited && ok;
        SettlesTwice(old(chips), earlier, chips);
        if Running(old(chips), old(pendingPage[..])) && ok {
          SameTwice(chips, earlier, old(chips));
        }
      }
    }

    /** Issues chunk after chunk, as long as all goes well. */
    method WriteChunks(offset: nat, buffer: seq<byte>, pendingPage: array<int>) returns (ok: bool)
      requires AllValid(chips) && InStep(chips, log) && InReach(offset, |buffer|, |chips| * TOTAL)
      requires pendingPage[..] == NonePending(|chips|)
      modifies this, pendingPage
      ensures AllValid(chips) && |chips| == |old(chips)| && Linked(chips, pendingPage[..], log)
      ensures Pipe(log, pendingPage[..], ok) ==
              WriteChunksTrace(fate, Pipe(old(log), NonePending(|chips|), true), offset, |buffer|)
      ensures AllIdle(old(chips)) && ok ==>
                Running(chips, pendingPage[..]) && Flat(chips) == WriteEffect(Flat(old(chips)), offset, buffer)
      ensures var reach := WriteReach(fate, Pipe(old(log), NonePending(|chips|), true), offset, |buffer|);
              AllIdle(old(chips)) ==> Confined(old(chips), chips, PagesOf(offset, reach))
    {
      hide WriteChunkTrace, Confined, PagesOf;
      ghost var was, n := chips, |chips|;
      NothingPending(chips, log);
      if AllIdle(was) {
        NothingConfined(was, PagesOf(offset, 0));
      }
      ghost var reach := WriteReach(fate, Pipe(log, NonePending(n), true), offset, |buffer|);
      ghost var all := WriteChunksTrace(fate, Pipe(log, NonePending(n), true), offset, |buffer|);
      var off: nat, done: nat := offset, 0;
      ok := true;
      while done < |buffer| && ok
        invariant WriteSoFar(was, offset, buffer, pendingPage, done, ok) && off == (offset + done) % U32
        invariant pendingPage.Length == n
        invariant WriteChunksTrace(fate, Pipe(log, pendingPage[..], ok), off, |buffer| - done) == all
        invariant done + WriteReach(fate, Pipe(log, pendingPage[..], ok), off, |buffer| - done) == reach
        decreases |buffer| - done, ok
      {
        ok, off, done := WriteNext(offset, buffer, pendingPage, off, done, was, all, reach);
      }
      if ok {
        TakeAll(buffer);
      }
    }

    /** Programs the buffer into the flat memory, several chips at a time. */
    method Write(offset: nat, buffer: seq<byte>) returns (ok: bool)
      requires AllValid(chips) && InStep(chips, log) && InReach(offset, |buffer|, |chips| * TOTAL)
      modifies this
      ensures AllValid(chips) && |chips| == |old(chips)| && InStep(chips, log)
      ensures Trace(log, ok) == WriteTrace(fate, |chips|, old(log), offset, |buffer|)
      ensures old(log).events <= log.events && (ok <==> AllSucceeded(log.events, |old(log).events|))
      ensures AllIdle(old(chips)) && ok ==>
                AllIdle(chips) && Flat(chips) == WriteEffect(Flat(old(chips)), offset, buffer)
      ensures AllIdle(old(chips)) ==> NewFindIdle(old(log), log)
      ensures var reach := WriteReach(fate, Pipe(old(log), NonePending(|chips|), true), offset, |buffer|);
              AllIdle(old(chips)) ==> KeepsBut(old(chips), chips, PagesOf(offset, reach))
    {
      hide Confined, Settles, PagesOf, Linked, LiesOn;
      ghost var was, l0, n := chips, log, |chips|;
      var pendingPage := new int[|chips|](i => -1);
      assert pendingPage[..] == NonePending(n);
      ok := WriteChunks(offset, buffer, pendingPage);
      ghost var issued := chips;
      ok := WaitAll(pendingPage, ok);
      WriteTells(fate, n, l0, offset, |buffer|);
      if ok && AllIdle(was) {
        SameFlat(chips, issued);
      }
      if AllIdle(was) {
        IdleSpares(was, l0, offset, |buffer|);
        WriteFindsIdle(fate, n, l0, offset, |buffer|);
        ghost var pages := PagesOf(offset, WriteReach(fate, Pipe(l0, NonePending(n), true), offset, |buffer|));
        ConfinedSettles(was, issued, chips, pages);
        ConfinedKeeps(was, chips, pages);
      }
    }

    // ----- erasing

    /** Erases the block of a page on every chip. */
    method EraseGroup(physBlockPage: nat) returns (ok: bool)
      requires AllValid(chips) && InStep(chips, log) && physBlockPage < CHIP_PAGES
      modifies this
      ensures AllValid(chips) && |chips| == |old(chips)| && InStep(chips, log)
      ensures Trace(log, ok) == EraseGroupTrace(fate, old(log), |chips|)
      ensures AllIdle(old(chips)) && ok ==> AllIdle(chips) && ErasedUpTo(old(chips), chips, physBlockPage, |chips|)
      ensures AllIdle(old(chips)) ==>
                Confined(old(chips), chips, GroupPages(|chips|, physBlockPage / BLOCK_PAGES))
    {
      hide BlockErased, Accept, WorkDone, Sends, WaitsFor, AllIdle, Confined, GroupPages;
      ghost var was, start := chips, log;
      ghost var pages := GroupPages(|chips|, physBlockPage / BLOCK_PAGES);
      if AllIdle(was) {
        NothingConfined(was, pages);
      }
      for i := 0 to |chips|
        invariant |chips| == |was| && AllValid(chips) && InStep(chips, log)
        invariant Trace(log, true) == EraseGroupTrace(fate, start, i)
        invariant AllIdle(was) ==> AllIdle(chips) && ErasedUpTo(was, chips, physBlockPage, i)
        invariant AllIdle(was) ==> Confined(was, chips, pages)
      {
        ghost var c0, l0 := chips, log;
        var sent := Send(i, BlockErase(physBlockPage), true);
        ghost var c1 := chips;
        var r := Wait(i);
        EraseWaited(c0, c1, chips, l0, i, physBlockPage, r);
        if AllIdle(was) {
          IsIdle(c0, i);
          EraseConfined(was, c0, c1, chips, i, physBlockPage, r, pages);
        }
        if r != Done {
          GroupStops(fate, start, i + 1, |chips|);
          return false;
        }
      }
      ok := true;
    }

    /** What holds when everything up to `off` has been erased. */
    ghost predicate EraseSoFar(was: seq<Chip>, offset: nat, off: nat)
      requires AllValid(was)
      reads this
    {
      AllValid(chips) && |chips| == |was| && InStep(chips, log) && offset <= off <= |was| * TOTAL &&
      (AllIdle(was) ==>
        AllIdle(chips) && Flat(chips) == ErasedSoFar(Flat(was), offset, off, |was|) &&
        Confined(was, chips, ErasedPages(offset, off, |was|)))
    }

    /** Erases the next group. */
    method EraseNext(offset: nat, off: nat, ghost end: nat, ghost was: seq<Chip>) returns (ok: bool)
      requires AllValid(was) && GroupSize(|was|) > 0 && EraseSoFar(was, offset, off)
      requires Aligned(off, |was|) && Aligned(end, |was|) && off < end < U32 && end <= |was| * TOTAL
      modifies this
      ensures AllValid(chips) && |chips| == |was| && InStep(chips, log)
      ensures Trace(log, ok) == EraseGroupTrace(fate, old(log), |was|)
      ensures off + GroupSize(|was|) <= end && Aligned(off + GroupSize(|was|), |was|)
      ensures ok ==> EraseSoFar(was, offset, off + GroupSize(|was|))
      ensures AllIdle(was) ==> Confined(was, chips, ErasedPages(offset, off + GroupSize(|was|), |was|))
    {
      hide EraseGroupTrace, Flat, Wiped, ErasedSoFar, InStep, ErasedUpTo, GroupOf, Confined, ErasedPages, GroupPages;
      ghost var before, size := chips, BLOCK * |was|;
      var firstPage := off / PAGE_SIZ;
      var physBlockPage := PhysPageOf(firstPage, |chips|);
      PageInRange(off, |was|);
      NextMultiple(off, end, GroupSize(|was|));
      ok := EraseGroup(physBlockPage);
      GroupOfPage(off, |was|);
      if AllIdle(was) {
        GroupsReached(was, before, chips, offset, off);
      }
      if ok && AllIdle(was) {
        GroupErased(before, chips, off, GroupOf(off, |was|), size);
        NextGroup(Flat(was), offset, off, |was|, GroupOf(off, |was|), size);
      }
    }

    /** Erases whole groups: one block on every chip.  The end is taken modulo 2^32, and so is the
        size of a group. */
    method Erase(offset: nat, length: nat) returns (ok: bool)
      requires AllValid(chips) && InStep(chips, log) && GroupSize(|chips|) > 0
      requires length < U32 && InReach(offset, length, |chips| * TOTAL)
      modifies this
      ensures AllValid(chips) && |chips| == |old(chips)| && InStep(chips, log)
      ensures Trace(log, ok) == EraseTrace(fate, |chips|, old(log), offset, length)
      ensures old(log).events <= log.events
      ensures ok <==>
              Aligned(offset, |chips|) && Aligned(length, |chips|) && AllSucceeded(log.events, |old(log).events|)
      ensures !Aligned(offset, |chips|) || !Aligned(length, |chips|) ==> chips == old(chips) && log == old(log)
      ensures AllIdle(old(chips)) && ok ==>
                AllIdle(chips) && Flat(chips) == EraseEffect(Flat(old(chips)), offset, length, |chips|)
      ensures AllIdle(old(chips)) ==> NewFindIdle(old(log), log)
      ensures var reach := EraseReach(fate, |chips|, Trace(old(log), true), offset, (offset + length) % U32);
              AllIdle(old(chips)) ==> KeepsBut(old(chips), chips, ErasedPages(offset, reach, |chips|))
    {
      hide EraseGroupTrace, Flat, Wiped, AllSucceeded, AllIdle, InStep, Confined, ErasedPages, KeepsBut, NewFindIdle;
      ghost var was, l0 := chips, log;
      var n := |chips|;
      EraseTells(fate, n, log, offset, length);
      if AllIdle(chips) {
        NoneLate(chips, log);
        EraseFindsIdle(fate, n, log, offset, length);
      }
      var groupSize := BLOCK * n % U32;
      if offset % groupSize != 0 || length % groupSize != 0 {
        ghost var reach := EraseReach(fate, n, Trace(log, true), offset, (offset + length) % U32);
        SameKeeps(chips, ErasedPages(offset, reach, n));
        return false;
      }
      if AllIdle(was) {
        NothingConfined(was, ErasedPages(offset, offset, n));
      }
      var off := offset;
      var end := (offset + length) % U32;
      EndOfErase(offset, length, n, end);
      while off < end
        invariant n == |chips| && AllValid(chips) && InStep(chips, log)
        invariant offset < U32 - length ==> Aligned(off, n) && off <= end && EraseSoFar(was, offset, off)
        invariant offset >= U32 - length ==> end < off && chips == was
        invariant EraseReach(fate, n, Trace(log, true), off, end) == EraseReach(fate, n, Trace(l0, true), offset, end)
        invariant EraseGroupsTrace(fate, n, Trace(log, true), off, end) == EraseTrace(fate, n, l0, offset, length)
      {
        ok := EraseNext(offset, off, end, was);
        if !ok {
          if AllIdle(was) {
            ConfinedKeeps(was, chips, ErasedPages(offset, off + groupSize, n));
          }
          return false;
        }
        off := off + groupSize;
      }
      if AllIdle(was) {
        if offset < U32 - length {
          ConfinedKeeps(was, chips, ErasedPages(offset, off, n));
        } else {
          SameKeeps(was, ErasedPages(offset, off, n));
        }
      }
      ok := true;
    }
  }
}
