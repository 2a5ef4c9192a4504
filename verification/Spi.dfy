/** Several flash chips behind one flat address space: logical page p lies on chip p mod N. */
module Spi {
  import opened Bits
  import opened Machine
  import opened Microcode

  const NUM_BLOCKS := 2048
  const CHIP_PAGES := BLOCK_PAGES * NUM_BLOCKS
  const TOTAL := BLOCK * NUM_BLOCKS

  // ----- one chip

  /** What a chip has been told to do and no wait has seen it finish. */
  datatype Work = Idle | Programming(page: nat) | Reading(page: nat) | Erasing(page: nat)

  /** How a command or a wait ends. */
  datatype Outcome = Done | Failed | TimedOut

  datatype Command =
    | ProgramLoad(col: nat, data: seq<byte>)
    | ProgramExecute(page: nat)
    | PageRead(page: nat)
    | ReadBuffer
    | BlockErase(page: nat)
  {
    predicate Fits() {
      match this
      case ProgramLoad(col, data) => col + |data| <= PAGE_SIZ
      case ReadBuffer => true
      case _ => page < CHIP_PAGES
    }
  }

  datatype Chip = Chip(pages: seq<seq<byte>>, buffer: seq<byte>, work: Work) {
    predicate Valid() {
      |pages| == CHIP_PAGES && |buffer| == PAGE_SIZ && (forall p | 0 <= p < CHIP_PAGES :: |pages[p]| == PAGE_SIZ) &&
      (!work.Idle? ==> work.page < CHIP_PAGES)
    }

    /** What the cell holds once the work in progress, if any, has completed. */
    ghost function Cell(p: nat, col: nat): byte
      requires Valid() && p < CHIP_PAGES && col < PAGE_SIZ
    {
      if work == Programming(p) then And(pages[p][col], buffer[col])
      else if work.Erasing? && p / BLOCK_PAGES == work.page / BLOCK_PAGES then ERASED
      else pages[p][col]
    }

    /** The page may be changed by the work in progress. */
    predicate Touches(p: nat) {
      work == Programming(p) || (work.Erasing? && p / BLOCK_PAGES == work.page / BLOCK_PAGES)
    }
  }

  /** Data Load resets the whole buffer before it takes the data. */
  function BufferWith(col: nat, data: seq<byte>): (r: seq<byte>)
    requires col + |data| <= PAGE_SIZ
    ensures |r| == PAGE_SIZ
    ensures forall i | 0 <= i < PAGE_SIZ :: r[i] == if col <= i < col + |data| then data[i - col] else ERASED
  {
    Blank(col) + data + Blank(PAGE_SIZ - col - |data|)
  }

  function BlockErased(pages: seq<seq<byte>>, page: nat): (r: seq<seq<byte>>)
    ensures |r| == |pages|
    ensures forall p | 0 <= p < |pages| ::
              r[p] == if p / BLOCK_PAGES == page / BLOCK_PAGES then Blank(PAGE_SIZ) else pages[p]
  {
    seq(|pages|, p requires 0 <= p < |pages| =>
      if p / BLOCK_PAGES == page / BLOCK_PAGES then Blank(PAGE_SIZ) else pages[p])
  }

  /** An idle chip takes a command. */
  function Accept(c: Chip, cmd: Command): (r: Chip)
    requires c.Valid() && cmd.Fits()
    ensures r.Valid()
  {
    match cmd
    case ProgramLoad(col, data) => c.(buffer := BufferWith(col, data))
    case ProgramExecute(page) => c.(work := Programming(page))
    case PageRead(page) => c.(work := Reading(page))
    case ReadBuffer => c
    case BlockErase(page) => c.(work := Erasing(page))
  }

  /** The work in progress is done. */
  function WorkDone(c: Chip): (r: Chip)
    requires c.Valid()
    ensures r.Valid() && r.work.Idle?
  {
    match c.work
    case Idle => c
    case Programming(p) => c.(pages := c.pages[p := Programmed(c.pages[p], c.buffer)], work := Idle)
    case Reading(p) => c.(buffer := c.pages[p], work := Idle)
    case Erasing(p) => c.(pages := BlockErased(c.pages, p), work := Idle)
  }

  // ----- many chips

  /** At least one, and so few that their number is a 32-bit one. */
  ghost predicate AllValid(chips: seq<Chip>) {
    1 <= |chips| < U32 && forall i | 0 <= i < |chips| :: chips[i].Valid()
  }

  ghost predicate AllIdle(chips: seq<Chip>) {
    forall i | 0 <= i < |chips| :: chips[i].work.Idle?
  }

  /** Only chip idx may have changed. */
  ghost predicate OnlyOn(was: seq<Chip>, chips: seq<Chip>, idx: nat) {
    |chips| == |was| && forall i | 0 <= i < |was| && i != idx :: chips[i] == was[i]
  }

  /** A command is sent to chip idx.  An idle chip takes it, unless the transfer fails; what it
      does to the contents of a chip that is not idle is not specified. */
  ghost predicate Sends(was: seq<Chip>, chips: seq<Chip>, idx: nat, cmd: Command, ok: bool)
    requires AllValid(was) && idx < |was| && cmd.Fits()
  {
    OnlyOn(was, chips, idx) && chips[idx].Valid() &&
    if !was[idx].work.Idle? then chips[idx].work == was[idx].work
    else if ok then chips[idx] == Accept(was[idx], cmd)
    else chips[idx] == was[idx].(buffer := chips[idx].buffer)
  }

  /** The work of chip idx is waited for.  Failed work leaves anything where it works. */
  ghost predicate WaitsFor(was: seq<Chip>, chips: seq<Chip>, idx: nat, r: Outcome)
    requires AllValid(was) && idx < |was|
  {
    OnlyOn(was, chips, idx) && chips[idx].Valid() &&
    match r
    case Done => chips[idx] == WorkDone(was[idx])
    case Failed =>
      chips[idx].work.Idle? &&
      forall p | 0 <= p < CHIP_PAGES && !was[idx].Touches(p) :: chips[idx].pages[p] == was[idx].pages[p]
    case TimedOut => chips[idx] == was[idx]
  }

  // ----- the striping

  function ChipIndexOf(page: nat, n: nat): (c: nat)
    requires n > 0
    ensures c < n
  {
    page % n
  }

  function PhysPageOf(page: nat, n: nat): nat
    requires n > 0
  {
    page / n
  }

  /** The page of byte i of a range, in 32-bit addresses. */
  function PageOfByte(offset: nat, i: nat): nat {
    (offset + i) % U32 / PAGE_SIZ
  }

  /** The bytes of the page at `offset` that belong to a range of this length. */
  function ChunkAt(offset: nat, length: nat): (n: nat)
    ensures n <= length && offset % PAGE_SIZ + n <= PAGE_SIZ && (length > 0 ==> n > 0)
  {
    var room := PAGE_SIZ - offset % PAGE_SIZ;
    if room > length then length else room
  }

  /** Logical pages and (chip, physical page) pairs correspond one to one. */
  lemma {:induction false} StripingIsBijective(n: nat, c: nat, phys: nat, page: nat)
    requires n > 0 && c < n
    ensures ChipIndexOf(page, n) == c && PhysPageOf(page, n) == phys <==> page == phys * n + c
    ensures page < n * CHIP_PAGES <==> PhysPageOf(page, n) < CHIP_PAGES
  {
    if page == phys * n + c {
      DivisionIsUnique(page, n, phys, c);
    }
    var q := page / n;
    assert page == q * n + page % n;
    if q < CHIP_PAGES {
      assert (q + 1) * n <= CHIP_PAGES * n;
    } else {
      assert q * n >= CHIP_PAGES * n;
    }
  }

  lemma {:induction false} PageInRange(a: nat, n: nat)
    requires n > 0 && a < n * TOTAL
    ensures PhysPageOf(a / PAGE_SIZ, n) < CHIP_PAGES
  {
  }

  lemma {:induction false} PageEnds(off: nat, pages: nat, chunk: nat)
    requires off < pages * PAGE_SIZ && off % PAGE_SIZ + chunk <= PAGE_SIZ
    ensures off / PAGE_SIZ < pages && off + chunk <= pages * PAGE_SIZ
  {
    var q := off / PAGE_SIZ;
    assert off == q * PAGE_SIZ + off % PAGE_SIZ;
  }

  lemma {:induction false} SumModulo(x: nat, y: nat)
    ensures (x % U32 + y) % U32 == (x + y) % U32
  {
    var q := x / U32;
    assert x + y == q * U32 + (x % U32 + y);
  }

  // ----- the flat memory

  /** The byte at a logical address, once everything issued has completed. */
  ghost function View(chips: seq<Chip>, a: nat): byte
    requires AllValid(chips) && a < |chips| * TOTAL
  {
    PageInRange(a, |chips|);
    var page := a / PAGE_SIZ;
    chips[ChipIndexOf(page, |chips|)].Cell(PhysPageOf(page, |chips|), a % PAGE_SIZ)
  }

  /** The flat memory the device stands for. */
  ghost function Flat(chips: seq<Chip>): (mem: seq<byte>)
    requires AllValid(chips)
    ensures |mem| == |chips| * TOTAL && forall a | 0 <= a < |mem| :: mem[a] == View(chips, a)
  {
    seq(|chips| * TOTAL, a requires 0 <= a < |chips| * TOTAL => View(chips, a))
  }

  ghost predicate SameView(chips: seq<Chip>, was: seq<Chip>)
    requires AllValid(chips) && AllValid(was) && |chips| == |was|
  {
    forall a | 0 <= a < |was| * TOTAL :: View(chips, a) == View(was, a)
  }

  lemma {:induction false} SameFlat(chips: seq<Chip>, was: seq<Chip>)
    requires AllValid(chips) && AllValid(was) && |chips| == |was| && SameView(chips, was)
    ensures Flat(chips) == Flat(was)
  {
  }

  lemma {:induction false} SameTwice(c: seq<Chip>, b: seq<Chip>, a: seq<Chip>)
    requires AllValid(a) && AllValid(b) && AllValid(c) && |a| == |b| == |c| && SameView(c, b) && SameView(b, a)
    ensures SameView(c, a)
  {
  }

  /** Completed work changes nothing in the flat memory. */
  lemma {:induction false} WaitKeepsView(was: seq<Chip>, chips: seq<Chip>, idx: nat, r: Outcome)
    requires AllValid(was) && AllValid(chips) && idx < |was| && WaitsFor(was, chips, idx, r)
    requires r == Failed ==> was[idx].work.Idle? || was[idx].work.Reading?
    ensures SameView(chips, was)
  {
    forall a | 0 <= a < |was| * TOTAL ensures View(chips, a) == View(was, a) {
      PageInRange(a, |was|);
    }
  }

  /** Neither does a command that starts neither a program nor an erase, sent to an idle chip. */
  lemma {:induction false} SendKeepsView(was: seq<Chip>, chips: seq<Chip>, idx: nat, cmd: Command, ok: bool)
    requires AllValid(was) && AllValid(chips) && idx < |was| && cmd.Fits() && Sends(was, chips, idx, cmd, ok)
    requires was[idx].work.Idle? && (ok ==> !cmd.ProgramExecute? && !cmd.BlockErase?)
    ensures SameView(chips, was)
  {
    forall a | 0 <= a < |was| * TOTAL ensures View(chips, a) == View(was, a) {
      PageInRange(a, |was|);
    }
  }

  /** Starting the program of a loaded page changes exactly the addressed bytes of the flat memory. */
  lemma {:induction false} IssueView(was: seq<Chip>, chips: seq<Chip>, idx: nat, page: nat, col: nat, data: seq<byte>,
      a: nat)
    requires AllValid(was) && AllValid(chips) && idx < |was| && was[idx].work.Idle? && col + |data| <= PAGE_SIZ
    requires page < |was| * CHIP_PAGES && idx == ChipIndexOf(page, |was|) && PhysPageOf(page, |was|) < CHIP_PAGES
    requires OnlyOn(was, chips, idx) && a < |was| * TOTAL
    requires chips[idx] == was[idx].(buffer := BufferWith(col, data), work := Programming(PhysPageOf(page, |was|)))
    ensures var at := page * PAGE_SIZ + col;
            View(chips, a) == if at <= a < at + |data| then And(View(was, a), data[a - at]) else View(was, a)
  {
    PageInRange(a, |was|);
    StripingIsBijective(|was|, idx, PhysPageOf(page, |was|), a / PAGE_SIZ);
    StripingIsBijective(|was|, idx, PhysPageOf(page, |was|), page);
    if a / PAGE_SIZ == page {
      AndErased(was[idx].pages[PhysPageOf(page, |was|)][a % PAGE_SIZ]);
    }
  }

  lemma {:induction false} AndErased(x: byte)
    ensures And(x, ERASED) == x
  {
    Pow2Byte(0);
    AndCommutes(x, ERASED);
    AndWithOnes(x, 8);
  }

  // ----- what a call does not reach

  /** Only these logical pages have changed, or are going to. */
  ghost predicate Confined(was: seq<Chip>, chips: seq<Chip>, pages: set<nat>)
    requires AllValid(was) && AllValid(chips)
  {
    |chips| == |was| &&
    forall i, p {:trigger chips[i].pages[p]} {:trigger chips[i].Touches(p)} |
      0 <= i < |was| && 0 <= p < CHIP_PAGES && p * |was| + i !in pages ::
      !chips[i].Touches(p) && chips[i].pages[p] == was[i].pages[p]
  }

  /** No chip has changed, or is going to change, a page that it was not at work on. */
  ghost predicate Settles(was: seq<Chip>, chips: seq<Chip>)
    requires AllValid(was) && AllValid(chips)
  {
    |chips| == |was| &&
    forall i, p {:trigger chips[i].pages[p]} {:trigger chips[i].Touches(p)} |
      0 <= i < |was| && 0 <= p < CHIP_PAGES && !was[i].Touches(p) ::
      !chips[i].Touches(p) && chips[i].pages[p] == was[i].pages[p]
  }

  /** The flat memory has kept its bytes outside these pages. */
  ghost predicate KeepsBut(was: seq<Chip>, chips: seq<Chip>, pages: set<nat>)
    requires AllValid(was) && AllValid(chips) && |chips| == |was|
  {
    forall a | 0 <= a < |was| * TOTAL && a / PAGE_SIZ !in pages :: View(chips, a) == View(was, a)
  }

  lemma {:induction false} ConfinedKeeps(was: seq<Chip>, chips: seq<Chip>, pages: set<nat>)
    requires AllValid(was) && AllValid(chips) && AllIdle(was) && Confined(was, chips, pages)
    ensures KeepsBut(was, chips, pages)
  {
    var n := |was|;
    forall a | 0 <= a < n * TOTAL && a / PAGE_SIZ !in pages ensures View(chips, a) == View(was, a) {
      var page := a / PAGE_SIZ;
      PageInRange(a, n);
      var i, p := ChipIndexOf(page, n), PhysPageOf(page, n);
      StripingIsBijective(n, i, p, page);
      assert !chips[i].Touches(p) && chips[i].pages[p] == was[i].pages[p];
    }
  }

  lemma {:induction false} NothingConfined(chips: seq<Chip>, pages: set<nat>)
    requires AllValid(chips) && AllIdle(chips)
    ensures Confined(chips, chips, pages)
  {
  }

  lemma {:induction false} MoreConfined(was: seq<Chip>, chips: seq<Chip>, pages: set<nat>, more: set<nat>)
    requires AllValid(was) && AllValid(chips) && Confined(was, chips, pages) && pages <= more
    ensures Confined(was, chips, more)
  {
    forall i, p | 0 <= i < |was| && 0 <= p < CHIP_PAGES && p * |was| + i !in more
      ensures !chips[i].Touches(p) && chips[i].pages[p] == was[i].pages[p]
    {
      assert p * |was| + i !in pages;
    }
  }

  lemma {:induction false} ConfinedSettles(was: seq<Chip>, mid: seq<Chip>, chips: seq<Chip>, pages: set<nat>)
    requires AllValid(was) && AllValid(mid) && AllValid(chips)
    requires Confined(was, mid, pages) && Settles(mid, chips)
    ensures Confined(was, chips, pages)
  {
    forall i, p | 0 <= i < |was| && 0 <= p < CHIP_PAGES && p * |was| + i !in pages
      ensures !chips[i].Touches(p) && chips[i].pages[p] == was[i].pages[p]
    {
      assert !mid[i].Touches(p);
    }
  }

  lemma {:induction false} ConfinedTwice(a: seq<Chip>, b: seq<Chip>, c: seq<Chip>, pages: set<nat>, more: set<nat>)
    requires AllValid(a) && AllValid(b) && AllValid(c) && Confined(a, b, pages) && Confined(b, c, more)
    ensures Confined(a, c, pages + more)
  {
    forall i, p | 0 <= i < |a| && 0 <= p < CHIP_PAGES && p * |a| + i !in pages + more
      ensures !c[i].Touches(p) && c[i].pages[p] == a[i].pages[p]
    {
      assert !c[i].Touches(p) && c[i].pages[p] == b[i].pages[p] == a[i].pages[p];
    }
  }

  lemma {:induction false} SettlesTwice(a: seq<Chip>, b: seq<Chip>, c: seq<Chip>)
    requires AllValid(a) && AllValid(b) && AllValid(c) && Settles(a, b) && Settles(b, c)
    ensures Settles(a, c)
  {
    forall i, p | 0 <= i < |a| && 0 <= p < CHIP_PAGES && !a[i].Touches(p)
      ensures !c[i].Touches(p) && c[i].pages[p] == a[i].pages[p]
    {
      assert !b[i].Touches(p);
    }
  }

  /** However a wait ends. */
  lemma {:induction false} WaitSettles(was: seq<Chip>, chips: seq<Chip>, idx: nat, r: Outcome)
    requires AllValid(was) && AllValid(chips) && idx < |was| && WaitsFor(was, chips, idx, r)
    ensures Settles(was, chips)
  {
  }

  /** A command that finds its chip idle, up to the pages that it starts to work on. */
  lemma {:induction false} SendConfined(was: seq<Chip>, mid: seq<Chip>, chips: seq<Chip>, idx: nat, pages: set<nat>,
      more: set<nat>)
    requires AllValid(was) && AllValid(mid) && AllValid(chips) && idx < |mid| && mid[idx].work.Idle?
    requires Confined(was, mid, pages) && pages <= more && OnlyOn(mid, chips, idx) && chips[idx].pages == mid[idx].pages
    requires forall p | 0 <= p < CHIP_PAGES && chips[idx].Touches(p) :: p * |was| + idx in more
    ensures Confined(was, chips, more)
  {
    forall i, p | 0 <= i < |was| && 0 <= p < CHIP_PAGES && p * |was| + i !in more
      ensures !chips[i].Touches(p) && chips[i].pages[p] == was[i].pages[p]
    {
      assert p * |was| + i !in pages;
      assert !mid[i].Touches(p) && mid[i].pages[p] == was[i].pages[p];
    }
  }
}
