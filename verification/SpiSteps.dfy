/** What single commands and waits, and chunks and groups of them, do to the chips. */
module SpiSteps {
  import opened Bits
  import opened Machine
  import opened Microcode
  import opened Spi
  import opened SpiTrace
  import opened SpiFlat
  import opened SpiIdle

  /** Between calls a chip is idle unless the latest wait for it has timed out. */
  ghost predicate InStep(chips: seq<Chip>, log: Log) {
    forall i {:trigger chips[i]} | 0 <= i < |chips| :: chips[i].work.Idle? <==> i !in log.late
  }

  /** Within a write, a chip with a page pending is not idle. */
  ghost predicate Linked(chips: seq<Chip>, pending: seq<int>, log: Log) {
    |pending| == |chips| &&
    forall i {:trigger chips[i]} | 0 <= i < |chips| ::
      if pending[i] >= 0 then !chips[i].work.Idle? else chips[i].work.Idle? <==> i !in log.late
  }

  lemma {:induction false} IdleSpares(chips: seq<Chip>, log: Log, offset: nat, length: nat)
    requires AllValid(chips) && AllIdle(chips) && InStep(chips, log)
    ensures Spares(|chips|, offset, length, log.late)
  {
    NoneLate(chips, log);
  }

  lemma {:induction false} NoneLate(chips: seq<Chip>, log: Log)
    requires AllIdle(chips) && InStep(chips, log)
    ensures forall c | 0 <= c < |chips| :: c !in log.late
  {
    forall c | 0 <= c < |chips| ensures c !in log.late {
      assert chips[c].work.Idle?;
    }
  }

  lemma {:induction false} IsIdle(chips: seq<Chip>, i: nat)
    requires i < |chips| && AllIdle(chips)
    ensures chips[i].work.Idle?
  {
  }

  lemma {:induction false} SameKeeps(chips: seq<Chip>, pages: set<nat>)
    requires AllValid(chips)
    ensures KeepsBut(chips, chips, pages)
  {
  }

  lemma {:induction false} NothingPending(chips: seq<Chip>, log: Log)
    ensures Linked(chips, NonePending(|chips|), log) <==> InStep(chips, log)
  {
  }

  /** A page is read and waited for. */
  lemma {:induction false} ReadWaited(c0: seq<Chip>, c1: seq<Chip>, c2: seq<Chip>, log: Log, idx: nat, phys: nat,
      r: Outcome)
    requires AllValid(c0) && AllValid(c1) && AllValid(c2) && idx < |c0| && phys < CHIP_PAGES && InStep(c0, log)
    requires Sends(c0, c1, idx, PageRead(phys), true) && WaitsFor(c1, c2, idx, r)
    ensures InStep(c2, log.Send(idx, true).Wait(idx, r))
    ensures AllIdle(c0) ==> SameView(c2, c0)
    ensures AllIdle(c0) && r == Done ==> AllIdle(c2) && c2[idx] == c0[idx].(buffer := c0[idx].pages[phys])
  {
    if AllIdle(c0) {
      SendKeepsView(c0, c1, idx, PageRead(phys), true);
      WaitKeepsView(c1, c2, idx, r);
      SameTwice(c2, c1, c0);
    }
  }

  /** The buffer is taken out of the chip. */
  lemma {:induction false} ReadTaken(was: seq<Chip>, chips: seq<Chip>, log: Log, idx: nat, ok: bool)
    requires AllValid(was) && AllValid(chips) && idx < |was| && InStep(was, log)
    requires Sends(was, chips, idx, ReadBuffer, ok)
    ensures InStep(chips, log.Send(idx, ok))
    ensures AllIdle(was) ==> AllIdle(chips) && SameView(chips, was) && (ok ==> chips[idx] == was[idx])
  {
    if AllIdle(was) {
      SendKeepsView(was, chips, idx, ReadBuffer, ok);
    }
  }

  /** A chunk of a page on its chip is a chunk of the flat memory. */
  lemma {:induction false} ChunkOfFlat(chips: seq<Chip>, page: nat, col: nat, chunk: nat)
    requires AllValid(chips) && AllIdle(chips)
    requires page * PAGE_SIZ + col + chunk <= |chips| * TOTAL && 0 < chunk && col + chunk <= PAGE_SIZ
    ensures PhysPageOf(page, |chips|) < CHIP_PAGES
    ensures var at := page * PAGE_SIZ + col;
            chips[ChipIndexOf(page, |chips|)].pages[PhysPageOf(page, |chips|)][col..col + chunk] ==
            Flat(chips)[at..at + chunk]
  {
    var at := page * PAGE_SIZ + col;
    PageInRange(at, |chips|);
    var f := chips[ChipIndexOf(page, |chips|)].pages[PhysPageOf(page, |chips|)][col..col + chunk];
    var g := Flat(chips)[at..at + chunk];
    forall i | 0 <= i < chunk ensures f[i] == g[i] {
      var a := at + i;
      assert a / PAGE_SIZ == page && a % PAGE_SIZ == col + i;
      assert View(chips, a) == Flat(chips)[a];
    }
  }

  /** The next chunk lies in the device, and in one page of one chip. */
  lemma {:induction false} ChunkInReach(offset: nat, length: nat, done: nat, n: nat, off: nat, chunk: nat)
    requires n > 0 && InReach(offset, length, n * TOTAL) && done < length
    requires off == (offset + done) % U32 && chunk == ChunkAt(off, length - done)
    ensures PhysPageOf(off / PAGE_SIZ, n) < CHIP_PAGES && off / PAGE_SIZ < n * CHIP_PAGES
    ensures off + chunk <= U32 && off + chunk <= n * TOTAL
  {
    AddressInReach(offset, length, n * TOTAL, done);
    PageInRange(off, n);
    PageEnds(off, n * CHIP_PAGES, chunk);
    PageEnds(off, U32 / PAGE_SIZ, chunk);
  }

  /** The next chunk of a read. */
  lemma {:induction false} ReadGrows(was: seq<Chip>, before: seq<Chip>, offset: nat, length: nat,
      done: nat, off: nat, data: seq<byte>, sofar: seq<byte>)
    requires AllValid(was) && AllValid(before) && |was| == |before| && SameView(before, was)
    requires InReach(offset, length, |was| * TOTAL) && done + |data| <= length && off == (offset + done) % U32
    requires off + |data| <= U32 && off + |data| <= |was| * TOTAL && data == Flat(before)[off..off + |data|]
    requires sofar == ReadEffect(Flat(was), offset, length)[..done]
    ensures sofar + data == ReadEffect(Flat(was), offset, length)[..done + |data|]
  {
    SameFlat(before, was);
    ReadChunkEffect(Flat(was), offset, length, done, |data|);
    SliceAppend(ReadEffect(Flat(was), offset, length), done, |data|);
  }

  lemma {:induction false} TakeAll<T>(xs: seq<T>)
    ensures xs[..|xs|] == xs
  {
  }

  lemma {:induction false} SliceAppend<T>(xs: seq<T>, n: nat, m: nat)
    requires n + m <= |xs|
    ensures xs[..n] + xs[n..n + m] == xs[..n + m]
  {
  }

  // ----- the pages that a call reaches

  /** The pages of the first bytes of a range. */
  ghost function PagesOf(offset: nat, reach: nat): set<nat> {
    set i | 0 <= i < reach :: PageOfByte(offset, i)
  }

  lemma {:induction false} MorePages(offset: nat, done: nat, more: nat, off: nat)
    requires done < more && off == (offset + done) % U32
    ensures PagesOf(offset, done) <= PagesOf(offset, more) && off / PAGE_SIZ in PagesOf(offset, more)
  {
    assert PageOfByte(offset, done) in PagesOf(offset, more);
  }

  /** The pages of the groups erased before the loop comes to `off`. */
  ghost function ErasedPages(offset: nat, off: nat, n: nat): set<nat> {
    set q | 0 <= q < n * CHIP_PAGES && offset < off &&
            if n < WIDE then offset <= q * PAGE_SIZ < off else q * PAGE_SIZ < BLOCK * n
  }

  /** The pages of a group. */
  ghost function GroupPages(n: nat, g: nat): set<nat>
    requires n > 0
  {
    set q | 0 <= q < n * CHIP_PAGES && PhysPageOf(q, n) / BLOCK_PAGES == g
  }

  // ----- programs in flight

  /** A chip with a page pending is programming it, and the others are idle. */
  ghost predicate Running(chips: seq<Chip>, pending: seq<int>) {
    |pending| == |chips| &&
    forall i {:trigger chips[i]} | 0 <= i < |chips| ::
      if pending[i] >= 0 then chips[i].work == Programming(pending[i]) else chips[i].work.Idle?
  }

  /** Issuing a loaded page programs its data into the flat memory. */
  lemma {:induction false} IssueFlat(was: seq<Chip>, chips: seq<Chip>, idx: nat, page: nat, col: nat, data: seq<byte>)
    requires AllValid(was) && AllValid(chips) && idx < |was| && was[idx].work.Idle? && col + |data| <= PAGE_SIZ
    requires page < |was| * CHIP_PAGES && idx == ChipIndexOf(page, |was|) && PhysPageOf(page, |was|) < CHIP_PAGES
    requires OnlyOn(was, chips, idx) && page * PAGE_SIZ + col + |data| <= |was| * TOTAL
    requires chips[idx] == was[idx].(buffer := BufferWith(col, data), work := Programming(PhysPageOf(page, |was|)))
    ensures Flat(chips) == Program(Flat(was), page * PAGE_SIZ + col, data)
  {
    var f, g := Flat(chips), Program(Flat(was), page * PAGE_SIZ + col, data);
    forall a | 0 <= a < |was| * TOTAL ensures f[a] == g[a] {
      IssueView(was, chips, idx, page, col, data, a);
      ProgramAt(Flat(was), page * PAGE_SIZ + col, data, a);
    }
  }

  // ----- erasing

  /** The block around a page has been erased on each of the first i chips. */
  ghost predicate ErasedUpTo(was: seq<Chip>, chips: seq<Chip>, page: nat, i: nat) {
    |chips| == |was| &&
    forall c | 0 <= c < |was| ::
      chips[c] == if c < i then was[c].(pages := BlockErased(was[c].pages, page)) else was[c]
  }

  /** One more chip has been told to erase, and waited for. */
  lemma {:induction false} EraseWaited(c0: seq<Chip>, c1: seq<Chip>, c2: seq<Chip>, log: Log, idx: nat, page: nat,
      r: Outcome)
    requires AllValid(c0) && AllValid(c1) && AllValid(c2) && idx < |c0| && page < CHIP_PAGES && InStep(c0, log)
    requires Sends(c0, c1, idx, BlockErase(page), true) && WaitsFor(c1, c2, idx, r)
    ensures InStep(c2, log.Send(idx, true).Wait(idx, r))
    ensures |c2| == |c0|
    ensures AllIdle(c0) && r == Done ==>
              AllIdle(c2) && OnlyOn(c0, c2, idx) && c2[idx] == c0[idx].(pages := BlockErased(c0[idx].pages, page))
  {
  }

  function GroupOf(a: nat, n: nat): nat
    requires n > 0
  {
    PhysPageOf(a / PAGE_SIZ, n) / BLOCK_PAGES
  }

  lemma {:induction false} GroupOfPage(a: nat, n: nat)
    requires n > 0
    ensures PhysPageOf(a / PAGE_SIZ, n) / BLOCK_PAGES == GroupOf(a, n)
  {
  }

  lemma {:induction false} GroupQuotient(a: nat, n: nat)
    requires n > 0
    ensures GroupOf(a, n) == a / (BLOCK * n)
  {
    NestedQuotient(a, n);
  }

  /** One more chip told to erase, and waited for, however that ends. */
  lemma {:induction false} EraseConfined(was: seq<Chip>, c0: seq<Chip>, c1: seq<Chip>, c2: seq<Chip>, idx: nat,
      page: nat, r: Outcome, pages: set<nat>)
    requires AllValid(was) && AllValid(c0) && AllValid(c1) && AllValid(c2) && idx < |c0| && page < CHIP_PAGES
    requires c0[idx].work.Idle? && Sends(c0, c1, idx, BlockErase(page), true) && WaitsFor(c1, c2, idx, r)
    requires Confined(was, c0, pages) && pages == GroupPages(|was|, page / BLOCK_PAGES)
    ensures Confined(was, c2, pages)
  {
    var n := |was|;
    forall p | 0 <= p < CHIP_PAGES && c1[idx].Touches(p) ensures p * n + idx in pages {
      StripingIsBijective(n, idx, p, p * n + idx);
    }
    SendConfined(was, c0, c1, idx, pages, pages);
    WaitSettles(c1, c2, idx, r);
    ConfinedSettles(was, c1, c2, pages);
  }

  lemma {:induction false} GroupStart(off: nat, n: nat, g: nat, size: nat)
    requires n > 0 && GroupSize(n) > 0 && off < U32 && Aligned(off, n) && size == BLOCK * n && g == off / size
    ensures (g + 1) * size == g * size + size
    ensures if n < WIDE then GroupSize(n) == size && g * size == off else g == 0
  {
    if n < WIDE {
      assert GroupSize(n) == size;
    } else {
      assert size >= U32;
    }
  }

  lemma {:induction false} GroupReached(offset: nat, off: nat, n: nat, q: nat, g: nat, size: nat)
    requires n > 0 && GroupSize(n) > 0 && offset <= off < U32 && Aligned(off, n)
    requires size == BLOCK * n && g == GroupOf(off, n) && q in GroupPages(n, g)
    ensures q in ErasedPages(offset, off + GroupSize(n), n)
  {
    hide GroupOf, PhysPageOf;
    var a := q * PAGE_SIZ;
    assert a / PAGE_SIZ == q;
    GroupIsRange(a, g, n);
    GroupQuotient(off, n);
    GroupStart(off, n, g, size);
  }

  lemma {:induction false} GroupsReached(was: seq<Chip>, before: seq<Chip>, chips: seq<Chip>, offset: nat, off: nat)
    requires AllValid(was) && AllValid(before) && AllValid(chips) && GroupSize(|was|) > 0
    requires offset <= off < U32 && Aligned(off, |was|)
    requires Confined(was, before, ErasedPages(offset, off, |was|))
    requires Confined(before, chips, GroupPages(|was|, GroupOf(off, |was|)))
    ensures Confined(was, chips, ErasedPages(offset, off + GroupSize(|was|), |was|))
  {
    var n, g, next := |was|, GroupOf(off, |was|), off + GroupSize(|was|);
    forall q | q in GroupPages(n, g) ensures q in ErasedPages(offset, next, n) {
      GroupReached(offset, off, n, q, g, BLOCK * n);
    }
    ConfinedTwice(was, before, chips, ErasedPages(offset, off, n), GroupPages(n, g));
    assert ErasedPages(offset, off, n) <= ErasedPages(offset, next, n);
    MoreConfined(was, chips, ErasedPages(offset, off, n) + GroupPages(n, g), ErasedPages(offset, next, n));
  }

  /** With its block erased on every chip, the whole group around an address is. */
  lemma {:induction false} GroupErased(was: seq<Chip>, chips: seq<Chip>, off: nat, g: nat, size: nat)
    requires AllValid(was) && AllValid(chips) && AllIdle(was) && off < |was| * TOTAL
    requires ErasedUpTo(was, chips, PhysPageOf(off / PAGE_SIZ, |was|), |was|)
    requires size == BLOCK * |was| && g == GroupOf(off, |was|)
    ensures g * size + size <= |was| * TOTAL && Flat(chips) == Wiped(Flat(was), g * size, size)
  {
    GroupInside(off, |was|, g);
    GroupWiped(was, chips, PhysPageOf(off / PAGE_SIZ, |was|), g, g * size, size);
  }

  lemma {:induction false} GroupWiped(was: seq<Chip>, chips: seq<Chip>, page: nat, g: nat, lo: nat, size: nat)
    requires AllValid(was) && AllValid(chips) && AllIdle(was) && page / BLOCK_PAGES == g
    requires ErasedUpTo(was, chips, page, |was|)
    requires size == BLOCK * |was| && lo == g * size && lo + size <= |was| * TOTAL
    ensures Flat(chips) == Wiped(Flat(was), lo, size)
  {
    var f, w := Flat(chips), Wiped(Flat(was), lo, size);
    forall a | 0 <= a < |was| * TOTAL ensures f[a] == w[a] {
      GroupIsRange(a, g, |was|);
      assert (g + 1) * size == lo + size;
      ErasedView(was, chips, page, g, a);
    }
  }

  lemma {:induction false} ErasedView(was: seq<Chip>, chips: seq<Chip>, page: nat, g: nat, a: nat)
    requires AllValid(was) && AllValid(chips) && AllIdle(was) && page / BLOCK_PAGES == g && a < |was| * TOTAL
    requires ErasedUpTo(was, chips, page, |was|)
    ensures View(chips, a) == if InGroup(a, g, |was|) then ERASED else View(was, a)
  {
    PageInRange(a, |was|);
  }

  lemma {:induction false} GroupInside(off: nat, n: nat, g: nat)
    requires n > 0 && off < n * TOTAL && g == GroupOf(off, n)
    ensures (g + 1) * (BLOCK * n) <= n * TOTAL
  {
    NestedQuotient(off, n);
    QuotientRange(off, BLOCK * n, g);
    assert n * TOTAL == NUM_BLOCKS * (BLOCK * n);
    if g >= NUM_BLOCKS {
      TimesMonotone(NUM_BLOCKS, g, BLOCK * n);
    } else {
      TimesMonotone(g + 1, NUM_BLOCKS, BLOCK * n);
    }
  }

  /** What has been erased when the loop has come to `off`. */
  ghost function ErasedSoFar(mem: seq<byte>, offset: nat, off: nat, n: nat): (r: seq<byte>)
    requires n > 0 && |mem| == n * TOTAL && offset <= off <= |mem|
  {
    if off == offset then mem else if n < WIDE then Wiped(mem, offset, off - offset) else Wiped(mem, 0, BLOCK * n)
  }

  lemma {:induction false} WipedAgain(mem: seq<byte>, offset: nat, n: nat)
    requires offset + n <= |mem|
    ensures Wiped(Wiped(mem, offset, n), offset, n) == Wiped(mem, offset, n)
  {
  }

  /** The next group: behind the one before it, or once more the first. */
  lemma {:induction false} NextGroup(mem: seq<byte>, offset: nat, off: nat, n: nat, g: nat, size: nat)
    requires n > 0 && GroupSize(n) > 0 && |mem| == n * TOTAL && offset <= off < U32 && off < |mem| && Aligned(off, n)
    requires size == BLOCK * n && g == GroupOf(off, n) && g * size + size <= |mem| && off + GroupSize(n) <= |mem|
    ensures Wiped(ErasedSoFar(mem, offset, off, n), g * size, size) == ErasedSoFar(mem, offset, off + GroupSize(n), n)
  {
    hide GroupOf, Wiped;
    GroupQuotient(off, n);
    if n < WIDE {
      assert GroupSize(n) == size;
      NextNarrow(mem, offset, off, g, size);
    } else {
      assert size >= U32 && g == 0;
      WipedAgain(mem, 0, size);
    }
  }

  lemma {:induction false} NextNarrow(mem: seq<byte>, offset: nat, off: nat, g: nat, size: nat)
    requires offset <= off && size > 0 && off % size == 0 && g == off / size && off + size <= |mem|
    ensures g * size == off
    ensures Wiped(if off == offset then mem else Wiped(mem, offset, off - offset), off, size) ==
            Wiped(mem, offset, off + size - offset)
  {
    WipedTwice(mem, offset, off - offset, size);
    WipedNothing(mem, offset);
  }

  lemma {:induction false} NextMultiple(x: nat, end: nat, size: nat)
    requires size > 0 && x % size == 0 && end % size == 0 && x < end
    ensures x + size <= end && (x + size) % size == 0
  {
    var p, q := x / size, end / size;
    assert x == p * size && end == q * size;
    if q <= p {
      TimesMonotone(q, p, size);
    } else {
      TimesMonotone(p + 1, q, size);
      assert (p + 1) * size == p * size + size;
    }
    DivisionIsUnique(x + size, size, p + 1, 0);
  }

  lemma {:induction false} SumAligned(x: nat, y: nat, n: nat)
    requires GroupSize(n) > 0 && Aligned(x, n) && Aligned(y, n)
    ensures Aligned(x + y, n)
  {
    var size := GroupSize(n);
    assert x + y == (x / size + y / size) * size;
    DivisionIsUnique(x + y, size, x / size + y / size, 0);
  }

  /** The end of an erase is aligned; it is behind the start, or not reached. */
  lemma {:induction false} EndOfErase(offset: nat, length: nat, n: nat, end: nat)
    requires n > 0 && GroupSize(n) > 0 && length < U32 && InReach(offset, length, n * TOTAL)
    requires Aligned(offset, n) && Aligned(length, n) && end == (offset + length) % U32
    ensures if offset + length < U32 then end == offset + length <= n * TOTAL && Aligned(end, n) else end < offset
  {
    SumAligned(offset, length, n);
  }
}
