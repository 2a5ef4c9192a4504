/** Any sequence of calls of the striped device against a flat memory. */
module FlatMemory {
  import opened Bits
  import opened Machine
  import opened Microcode
  import opened Spi
  import opened SpiTrace
  import opened SpiFlat
  import opened SpiSteps
  import opened SpiDevice
  import opened Nand

  datatype Access =
    | ReadAt(offset: nat, length: nat)
    | WriteAt(offset: nat, data: seq<byte>)
    | EraseAt(offset: nat, length: nat)
  {
    function Length(): nat {
      match this
      case WriteAt(_, data) => |data|
      case _ => length
    }

    predicate Fits(size: nat) {
      offset + Length() <= size
    }

    /** What a caller may ask of a device of this size. */
    predicate InRange(size: nat) {
      InReach(offset, Length(), size) && (EraseAt? ==> length < U32)
    }

    /** No 32-bit number wraps around on a device of n chips. */
    predicate Below32(n: nat) {
      if EraseAt? then length == 0 || (offset + length < U32 && n < WIDE) else offset + Length() <= U32
    }

    predicate Accepted(n: nat)
      requires GroupSize(n) > 0
    {
      EraseAt? ==> Aligned(offset, n) && Aligned(length, n)
    }
  }

  ghost predicate AllFit(xs: seq<Access>, size: nat) {
    forall i {:trigger xs[i]} | 0 <= i < |xs| :: xs[i].Fits(size)
  }

  ghost predicate AllInRange(xs: seq<Access>, size: nat) {
    forall i {:trigger xs[i]} | 0 <= i < |xs| :: xs[i].InRange(size)
  }

  // ----- the flat memory

  /** One access to a flat memory: the new contents, and what was read. */
  function FlatStep(mem: seq<byte>, x: Access): (r: (seq<byte>, seq<byte>))
    requires x.Fits(|mem|)
    ensures |r.0| == |mem|
  {
    match x
    case ReadAt(offset, length) => (mem, mem[offset..offset + length])
    case WriteAt(offset, data) => (Program(mem, offset, data), [])
    case EraseAt(offset, length) => (Wiped(mem, offset, length), [])
  }

  /** The first k accesses: the contents, and everything read. */
  ghost function FlatRun(mem: seq<byte>, xs: seq<Access>, k: nat): (r: (seq<byte>, seq<seq<byte>>))
    requires k <= |xs| && AllFit(xs, |mem|)
    ensures |r.0| == |mem| && |r.1| == k
  {
    if k == 0 then (mem, [])
    else
      var before := FlatRun(mem, xs, k - 1);
      var step := FlatStep(before.0, xs[k - 1]);
      (step.0, before.1 + [step.1])
  }

  // ----- the device, with its 32-bit numbers

  /** One successful call on n chips. */
  function DeviceStep(mem: seq<byte>, x: Access, n: nat): (r: (seq<byte>, seq<byte>))
    requires n > 0 && |mem| == n * TOTAL && x.InRange(|mem|)
    ensures |r.0| == |mem|
  {
    match x
    case ReadAt(offset, length) => (mem, ReadEffect(mem, offset, length))
    case WriteAt(offset, data) => (WriteEffect(mem, offset, data), [])
    case EraseAt(offset, length) => (EraseEffect(mem, offset, length, n), [])
  }

  ghost function DeviceRun(mem: seq<byte>, xs: seq<Access>, n: nat, k: nat): (r: (seq<byte>, seq<seq<byte>>))
    requires n > 0 && |mem| == n * TOTAL && k <= |xs| && AllInRange(xs, |mem|)
    ensures |r.0| == |mem| && |r.1| == k
  {
    if k == 0 then (mem, [])
    else
      var before := DeviceRun(mem, xs, n, k - 1);
      var step := DeviceStep(before.0, xs[k - 1], n);
      (step.0, before.1 + [step.1])
  }

  lemma {:induction false} StepIsFlat(mem: seq<byte>, x: Access, n: nat)
    requires n > 0 && |mem| == n * TOTAL && x.InRange(|mem|) && x.Fits(|mem|) && x.Below32(n)
    ensures DeviceStep(mem, x, n) == FlatStep(mem, x)
  {
    match x {
      case ReadAt(offset, length) =>
        ReadChunkEffect(mem, offset, length, 0, length);
        TakeAll(ReadEffect(mem, offset, length));
      case WriteAt(offset, data) =>
        WriteWithoutWrap(mem, offset, data);
      case EraseAt(offset, length) =>
        if length == 0 {
          WipedNothing(mem, offset);
        }
    }
  }

  /** Without a wrap-around the device is a flat memory. */
  lemma {:induction false} RunIsFlat(mem: seq<byte>, xs: seq<Access>, n: nat, k: nat)
    requires n > 0 && |mem| == n * TOTAL && k <= |xs| && AllInRange(xs, |mem|) && AllFit(xs, |mem|)
    requires forall i {:trigger xs[i]} | 0 <= i < |xs| :: xs[i].Below32(n)
    ensures DeviceRun(mem, xs, n, k) == FlatRun(mem, xs, k)
  {
    if k > 0 {
      RunIsFlat(mem, xs, n, k - 1);
      StepIsFlat(FlatRun(mem, xs, k - 1).0, xs[k - 1], n);
    }
  }

  // ----- commands and waits of a sequence of calls

  function CallTrace(fate: Fate, n: nat, log: Log, x: Access): Trace
    requires n > 0 && GroupSize(n) > 0
  {
    match x
    case ReadAt(offset, length) => ReadTrace(fate, n, Trace(log, true), offset, length)
    case WriteAt(offset, data) => WriteTrace(fate, n, log, offset, |data|)
    case EraseAt(offset, length) => EraseTrace(fate, n, log, offset, length)
  }

  /** The log after the first k calls, whatever became of each, and what they returned. */
  function CallsTrace(fate: Fate, n: nat, log: Log, xs: seq<Access>, k: nat): (r: (Log, seq<bool>))
    requires n > 0 && GroupSize(n) > 0 && k <= |xs|
    ensures |r.1| == k
  {
    if k == 0 then (log, [])
    else
      var before := CallsTrace(fate, n, log, xs, k - 1);
      var t := CallTrace(fate, n, before.0, xs[k - 1]);
      (t.log, before.1 + [t.ok])
  }

  ghost predicate AllOk(oks: seq<bool>) {
    forall k | 0 <= k < |oks| :: oks[k]
  }

  lemma {:induction false} CallTells(fate: Fate, n: nat, log: Log, x: Access)
    requires n > 0 && GroupSize(n) > 0
    ensures var t := CallTrace(fate, n, log, x);
            log.events <= t.log.events &&
            (t.ok <==> x.Accepted(n) && AllSucceeded(t.log.events, |log.events|))
  {
    match x {
      case ReadAt(offset, length) => ReadTells(fate, n, log, Trace(log, true), offset, length);
      case WriteAt(offset, data) => WriteTells(fate, n, log, offset, |data|);
      case EraseAt(offset, length) => EraseTells(fate, n, log, offset, length);
    }
  }

  ghost predicate AllAccepted(xs: seq<Access>, n: nat, k: nat)
    requires GroupSize(n) > 0 && k <= |xs|
  {
    forall i | 0 <= i < k :: xs[i].Accepted(n)
  }

  /** All calls return true exactly if their erases are aligned and all commands and waits succeed. */
  lemma {:induction false} CallsTell(fate: Fate, n: nat, log: Log, xs: seq<Access>, k: nat)
    requires n > 0 && GroupSize(n) > 0 && k <= |xs|
    ensures var r := CallsTrace(fate, n, log, xs, k);
            log.events <= r.0.events &&
            (AllOk(r.1) <==> AllAccepted(xs, n, k) && AllSucceeded(r.0.events, |log.events|))
  {
    if k > 0 {
      CallsTell(fate, n, log, xs, k - 1);
      var p := CallsTrace(fate, n, log, xs, k - 1);
      var t := CallTrace(fate, n, p.0, xs[k - 1]);
      CallTells(fate, n, p.0, xs[k - 1]);
      SucceededBoth(p.0.events, t.log.events, |log.events|);
      OneMoreTrue(p.1, t.ok);
      assert AllAccepted(xs, n, k) <==> AllAccepted(xs, n, k - 1) && xs[k - 1].Accepted(n);
    }
  }

  lemma {:induction false} SucceededBoth(events: seq<Event>, more: seq<Event>, start: nat)
    requires events <= more && start <= |events|
    ensures AllSucceeded(more, start) <==> AllSucceeded(events, start) && AllSucceeded(more, |events|)
  {
    if AllSucceeded(more, start) {
      forall k | start <= k < |events| ensures events[k].Succeeded() {
        assert more[k] == events[k];
      }
    }
  }

  lemma {:induction false} OneMoreTrue(oks: seq<bool>, ok: bool)
    ensures AllOk(oks + [ok]) <==> AllOk(oks) && ok
  {
    assert (oks + [ok])[|oks|] == ok;
    forall k | 0 <= k < |oks| ensures (oks + [ok])[k] == oks[k] {
    }
  }

  lemma {:induction false} CallsAreRegular(fate: Fate, n: nat, log: Log, xs: seq<Access>, k: nat)
    requires n > 0 && GroupSize(n) > 0 && k <= |xs| && Regular(log)
    ensures Regular(CallsTrace(fate, n, log, xs, k).0)
  {
    if k > 0 {
      CallsAreRegular(fate, n, log, xs, k - 1);
      var before := CallsTrace(fate, n, log, xs, k - 1).0;
      match xs[k - 1] {
        case ReadAt(offset, length) => ReadIsRegular(fate, n, Trace(before, true), offset, length);
        case WriteAt(offset, data) => WriteIsRegular(fate, n, before, offset, |data|);
        case EraseAt(offset, length) => EraseIsRegular(fate, n, before, offset, length);
      }
    }
  }

  // ----- the device object

  /** One access to the device. */
  method Apply(dev: W25NSpiFlashDevice, x: Access) returns (ok: bool, got: seq<byte>)
    requires AllValid(dev.chips) && InStep(dev.chips, dev.log) && GroupSize(|dev.chips|) > 0
    requires x.InRange(|dev.chips| * TOTAL)
    modifies dev
    ensures AllValid(dev.chips) && |dev.chips| == |old(dev.chips)| && InStep(dev.chips, dev.log)
    ensures Trace(dev.log, ok) == CallTrace(dev.fate, |dev.chips|, old(dev.log), x)
    ensures AllIdle(old(dev.chips)) && ok ==>
              AllIdle(dev.chips) && (Flat(dev.chips), got) == DeviceStep(Flat(old(dev.chips)), x, |dev.chips|)
  {
    got := [];
    match x {
      case ReadAt(offset, length) =>
        var buffer := new byte[length];
        ok := dev.Read(offset, buffer);
        got := buffer[..];
        if AllIdle(old(dev.chips)) {
          SameFlat(dev.chips, old(dev.chips));
        }
      case WriteAt(offset, data) =>
        ok := dev.Write(offset, data);
      case EraseAt(offset, length) =>
        ok := dev.Erase(offset, length);
    }
  }

  /** A sequence of accesses, each made whatever became of those before it.  If all return true,
      they read what the device run says, and the device holds what it says. */
  method ApplyAll(dev: W25NSpiFlashDevice, xs: seq<Access>) returns (oks: seq<bool>, got: seq<seq<byte>>)
    requires AllValid(dev.chips) && InStep(dev.chips, dev.log) && GroupSize(|dev.chips|) > 0
    requires AllInRange(xs, |dev.chips| * TOTAL)
    modifies dev
    ensures AllValid(dev.chips) && |dev.chips| == |old(dev.chips)| && InStep(dev.chips, dev.log)
    ensures (dev.log, oks) == CallsTrace(dev.fate, |dev.chips|, old(dev.log), xs, |xs|)
    ensures old(dev.log).events <= dev.log.events
    ensures AllOk(oks) <==>
            AllAccepted(xs, |dev.chips|, |xs|) && AllSucceeded(dev.log.events, |old(dev.log).events|)
    ensures AllIdle(old(dev.chips)) && AllOk(oks) ==>
              AllIdle(dev.chips) && (Flat(dev.chips), got) == DeviceRun(Flat(old(dev.chips)), xs, |dev.chips|, |xs|)
  {
    ghost var was, l0 := dev.chips, dev.log;
    got, oks := [], [];
    for i := 0 to |xs|
      invariant AllValid(dev.chips) && |dev.chips| == |was| && InStep(dev.chips, dev.log)
      invariant (dev.log, oks) == CallsTrace(dev.fate, |was|, l0, xs, i)
      invariant AllIdle(was) && AllOk(oks) ==>
                  AllIdle(dev.chips) && (Flat(dev.chips), got) == DeviceRun(Flat(was), xs, |was|, i)
    {
      var ok, data := Apply(dev, xs[i]);
      OneMoreTrue(oks, ok);
      oks, got := oks + [ok], got + [data];
    }
    CallsTell(dev.fate, |was|, l0, xs, |xs|);
  }

  // ----- one chip in the place of the in-memory flash

  /** The same accesses to the in-memory flash. */
  method ApplyToNand(nand: NandInterface, xs: seq<Access>) returns (got: seq<seq<byte>>)
    requires AllFit(xs, |nand.mem|)
    modifies nand
    ensures (nand.mem, got) == FlatRun(old(nand.mem), xs, |xs|)
  {
    got := [];
    for i := 0 to |xs|
      invariant (nand.mem, got) == FlatRun(old(nand.mem), xs, i)
    {
      var data := [];
      match xs[i] {
        case ReadAt(offset, length) =>
          var buffer := new byte[length];
          var ok := nand.Read(offset, buffer);
          data := buffer[..];
        case WriteAt(offset, bytes) =>
          var buffer := new byte[|bytes|](k requires 0 <= k < |bytes| => bytes[k]);
          assert buffer[..] == bytes;
          var ok := nand.Write(offset, buffer);
        case EraseAt(offset, length) =>
          var ok := nand.Erase(offset, length);
      }
      got := got + [data];
    }
  }

  lemma {:induction false} ProgramOnPrefix(mem: seq<byte>, size: nat, offset: nat, data: seq<byte>)
    requires size <= |mem| && offset + |data| <= size
    ensures var r := Program(mem, offset, data);
            r[..size] == Program(mem[..size], offset, data) && r[size..] == mem[size..]
  {
    assert mem[..size][offset..offset + |data|] == mem[offset..offset + |data|];
  }

  lemma {:induction false} StepOnPrefix(mem: seq<byte>, size: nat, x: Access)
    requires size <= |mem| && x.Fits(size)
    ensures var r, p := FlatStep(mem, x), FlatStep(mem[..size], x);
            r.0[..size] == p.0 && r.0[size..] == mem[size..] && r.1 == p.1
  {
    match x {
      case ReadAt(offset, length) =>
        assert mem[..size][offset..offset + length] == mem[offset..offset + length];
      case WriteAt(offset, data) =>
        ProgramOnPrefix(mem, size, offset, data);
      case EraseAt(offset, length) =>
    }
  }

  lemma {:induction false} RunOnPrefix(mem: seq<byte>, size: nat, xs: seq<Access>, k: nat)
    requires size <= |mem| && k <= |xs| && AllFit(xs, size)
    ensures AllFit(xs, |mem|)
    ensures var r, p := FlatRun(mem, xs, k), FlatRun(mem[..size], xs, k);
            r.0[..size] == p.0 && r.0[size..] == mem[size..] && r.1 == p.1
  {
    if k > 0 {
      RunOnPrefix(mem, size, xs, k - 1);
      StepOnPrefix(FlatRun(mem, xs, k - 1).0, size, xs[k - 1]);
    }
  }

  /** Accesses that one chip takes as the in-memory flash does: in its range, and no part of a
      block erased. */
  ghost predicate ForOneChip(xs: seq<Access>, size: nat) {
    forall i {:trigger xs[i]} | 0 <= i < |xs| ::
      xs[i].Fits(size) && (xs[i].EraseAt? ==> xs[i].offset % BLOCK == 0 && xs[i].length % BLOCK == 0)
  }

  lemma {:induction false} OneChipTakes(xs: seq<Access>, size: nat)
    requires ForOneChip(xs, size) && size <= TOTAL
    ensures AllFit(xs, size) && AllFit(xs, TOTAL) && AllInRange(xs, TOTAL)
    ensures GroupSize(1) > 0 && AllAccepted(xs, 1, |xs|)
    ensures forall i {:trigger xs[i]} | 0 <= i < |xs| :: xs[i].Below32(1)
  {
  }

  /** As long as its commands and waits succeed, one chip gives to such accesses what the
      in-memory flash of the same contents gives, and stays equal to it. */
  method OneChipIsNand(dev: W25NSpiFlashDevice, nand: NandInterface, xs: seq<Access>)
    returns (oks: seq<bool>, got: seq<seq<byte>>, wanted: seq<seq<byte>>)
    requires AllValid(dev.chips) && InStep(dev.chips, dev.log) && |dev.chips| == 1 && AllIdle(dev.chips)
    requires |nand.mem| <= TOTAL && Flat(dev.chips)[..|nand.mem|] == nand.mem && ForOneChip(xs, |nand.mem|)
    modifies dev, nand
    ensures AllValid(dev.chips) && |dev.chips| == 1 && |nand.mem| == |old(nand.mem)|
    ensures (dev.log, oks) == CallsTrace(dev.fate, 1, old(dev.log), xs, |xs|)
    ensures old(dev.log).events <= dev.log.events
    ensures AllOk(oks) <==> AllSucceeded(dev.log.events, |old(dev.log).events|)
    ensures AllFit(xs, |old(nand.mem)|) && (nand.mem, wanted) == FlatRun(old(nand.mem), xs, |xs|)
    ensures AllOk(oks) ==>
              AllIdle(dev.chips) && got == wanted && Flat(dev.chips)[..|nand.mem|] == nand.mem &&
              Flat(dev.chips)[|nand.mem|..] == Flat(old(dev.chips))[|nand.mem|..]
  {
    hide Flat, FlatRun, DeviceRun, AllAccepted, AllSucceeded, AllOk, InStep, AllIdle, ForOneChip, AllFit, AllInRange;
    ghost var mem, size := Flat(dev.chips), |nand.mem|;
    OneChipTakes(xs, size);
    oks, got := ApplyAll(dev, xs);
    wanted := ApplyToNand(nand, xs);
    RunIsFlat(mem, xs, 1, |xs|);
    RunOnPrefix(mem, size, xs, |xs|);
  }

  // ----- the erases of the processor

  /** A number of blocks is whole groups of n chips, as far as 32 bits tell, exactly if it is a
      multiple of n modulo 32768. */
  lemma {:induction false} BlocksInGroups(blocks: nat, n: nat)
    requires n % WIDE > 0
    ensures GroupSize(n) > 0 && (Aligned(blocks * BLOCK, n) <==> blocks % (n % WIDE) == 0)
  {
    var m := n % WIDE;
    GroupOf32(n);
    var q, r := blocks / m, blocks % m;
    assert blocks == q * m + r;
    assert (q * m) * BLOCK == q * (BLOCK * m);
    DivisionIsUnique(blocks * BLOCK, BLOCK * m, q, r * BLOCK);
  }

  lemma {:induction false} GroupOf32(n: nat)
    ensures GroupSize(n) == BLOCK * (n % WIDE)
  {
    assert BLOCK * n == n / WIDE * U32 + BLOCK * (n % WIDE);
    DivisionIsUnique(BLOCK * n, U32, n / WIDE, BLOCK * (n % WIDE));
  }

  /** The size that n chips report. */
  function ReportedSize(n: nat): nat {
    n * TOTAL % U32
  }

  lemma {:induction false} SizeOf32(n: nat)
    ensures ReportedSize(n) == n % 16 * TOTAL
  {
    assert n * TOTAL == n / 16 * U32 + n % 16 * TOTAL;
    DivisionIsUnique(n * TOTAL, U32, n / 16, n % 16 * TOTAL);
  }

  /** What lies behind the first five blocks, as a number of blocks. */
  function BlocksBehind(n: nat): nat {
    if n % 16 == 0 then WIDE - 5 else n % 16 * NUM_BLOCKS - 5
  }

  lemma {:induction false} RestInBlocks(n: nat)
    ensures (ReportedSize(n) - RAM) % U32 == BlocksBehind(n) * BLOCK
  {
    SizeOf32(n);
    assert RAM == 5 * BLOCK && U32 == WIDE * BLOCK;
  }

  lemma {:induction false} DivisorsOfFive(m: nat)
    requires m > 0
    ensures 5 % m == 0 <==> m == 1 || m == 5
  {
    if m > 5 {
      DivisionIsUnique(5, m, 0, 5);
    }
  }

  /** The erases of the processor, of the ROM region and of everything behind it, are both
      accepted exactly if there are 1 or 5 chips, counted modulo 32768. */
  lemma {:induction false} ProcessorErases(n: nat)
    requires n % WIDE > 0
    ensures GroupSize(n) > 0
    ensures EraseAt(0, ROM_SIZE).Accepted(n) && EraseAt(RAM, (ReportedSize(n) - RAM) % U32).Accepted(n) <==>
            n % WIDE == 1 || n % WIDE == 5
  {
    var m := n % WIDE;
    BlocksInGroups(0, n);
    BlocksInGroups(5, n);
    BlocksInGroups(BlocksBehind(n), n);
    RestInBlocks(n);
    DivisorsOfFive(m);
    if m == 5 {
      DivisionIsUnique(n, 16, n / WIDE * (WIDE / 16), 5);
    }
  }
}
