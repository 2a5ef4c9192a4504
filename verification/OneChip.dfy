/** The processor on one striped chip: its accesses, and that the chip serves them as the
    in-memory flash does. */
module OneChip {
  import opened Microcode
  import opened Machine
  import opened Runs
  import opened Control
  import opened Wear
  import opened Levelling
  import opened Nand
  import opened Spi
  import opened FlatMemory

  // ----- the accesses of an instruction

  /** The ROM page at a page boundary; a program of a page and its read-back; an erase of the
      calculation area. */
  function StepAccesses(s: State): seq<Access>
    requires s.Valid()
  {
    FetchAccesses(s) + ExecuteAccesses(s, Fetched(CachePage(s)).Body())
  }

  function FetchAccesses(s: State): seq<Access> {
    if s.pc % PAGE_SIZ == 0 then [ReadAt(s.pc, PAGE_SIZ)] else []
  }

  predicate ErasesArea(s: State, m: Micro) {
    m.op == Erase ||
    (m.op == Raise && m.dest % LANES == LANES - 1 && EraseDue((s.pageOffset + PAGE_SIZ) % U32, s.nandSize))
  }

  function ExecuteAccesses(s: State, m: Micro): seq<Access>
    requires s.Valid()
  {
    var page := PageBase(Phys(m.dest, s.pageOffset));
    if m.op == PrgNand then [WriteAt(page, s.page), ReadAt(page, PAGE_SIZ)]
    else if ErasesArea(s, m) then [EraseAt(RAM, s.nandSize - RAM)]
    else []
  }

  /** What the accesses of an instruction from s to n give, in terms of n: the cached ROM page and
      the page read back. */
  function ReadsOf(s: State, n: State, m: Micro): seq<seq<byte>> {
    (if s.pc % PAGE_SIZ == 0 then [n.rom] else []) +
    if m.op == PrgNand then [[], n.page] else if ErasesArea(s, m) then [[]] else []
  }

  lemma {:induction false} FlatRunOne(mem: seq<byte>, x: Access)
    requires x.Fits(|mem|)
    ensures AllFit([x], |mem|) && FlatRun(mem, [x], 1) == (FlatStep(mem, x).0, [FlatStep(mem, x).1])
  {
    assert FlatRun(mem, [x], 0) == (mem, []);
    assert [] + [FlatStep(mem, x).1] == [FlatStep(mem, x).1];
  }

  lemma {:induction false} FlatRunPrefix(mem: seq<byte>, xs: seq<Access>, ys: seq<Access>, k: nat)
    requires AllFit(xs, |mem|) && AllFit(ys, |mem|) && k <= |xs|
    ensures AllFit(xs + ys, |mem|) && FlatRun(mem, xs + ys, k) == FlatRun(mem, xs, k)
  {
    if k > 0 {
      FlatRunPrefix(mem, xs, ys, k - 1);
    }
  }

  /** Accesses one after the other. */
  lemma {:induction false} FlatRunAppend(mem: seq<byte>, xs: seq<Access>, ys: seq<Access>, k: nat)
    requires AllFit(xs, |mem|) && AllFit(ys, |mem|) && k <= |ys|
    ensures AllFit(xs + ys, |mem|)
    ensures var a := FlatRun(mem, xs, |xs|);
            var b := FlatRun(a.0, ys, k);
            FlatRun(mem, xs + ys, |xs| + k) == (b.0, a.1 + b.1)
  {
    var a := FlatRun(mem, xs, |xs|);
    if k == 0 {
      FlatRunPrefix(mem, xs, ys, |xs|);
      assert a.1 + [] == a.1;
    } else {
      FlatRunAppend(mem, xs, ys, k - 1);
      var b := FlatRun(a.0, ys, k - 1);
      var step := FlatStep(b.0, ys[k - 1]);
      assert (xs + ys)[|xs| + k - 1] == ys[k - 1];
      assert a.1 + b.1 + [step.1] == a.1 + (b.1 + [step.1]);
    }
  }

  lemma {:induction false} FetchReads(s: State, ops: seq<Micro>, i: nat)
    requires Loadable(ops) && AtInstr(s, ops, i)
    ensures var xs := FetchAccesses(s);
            AllFit(xs, s.nandSize) && AllFit(xs, |s.flash|) &&
            FlatRun(s.flash, xs, |xs|) == (s.flash, if s.pc % PAGE_SIZ == 0 then [CachePage(s).rom] else [])
  {
    CacheIsPage(s, ops, i);
    if s.pc % PAGE_SIZ == 0 {
      FlatRunOne(s.flash, ReadAt(s.pc, PAGE_SIZ));
    }
  }

  lemma {:induction false} ProgramsCurrent(s: State)
    requires OnPage(s)
    ensures PageBase(Phys(RAM, s.pageOffset)) == Current(s)
  {
    assert Phys(RAM, s.pageOffset) == Current(s);
    assert Current(s) % PAGE_SIZ == 0;
  }

  lemma {:induction false} ExecuteAccessesFit(s: State, m: Micro)
    requires OnPage(s) && m.op != Erase && (m.op == PrgNand ==> m.dest == RAM)
    ensures AllFit(ExecuteAccesses(s, m), s.nandSize)
    ensures WholeBlocks(s.nandSize) ==> ForOneChip(ExecuteAccesses(s, m), s.nandSize)
  {
    hide PageBase, Phys;
    if m.op == PrgNand {
      ProgramsCurrent(s);
    }
    assert RAM % BLOCK == 0;
  }

  /** What an instruction does to the flash. */
  lemma {:induction false} PerformFlash(s: State, m: Micro)
    requires OnPage(s) && (m.op == PrgNand ==> m.dest == RAM)
    ensures var n := Perform(s, m);
            n.rom == s.rom &&
            if m.op == PrgNand then
              n.flash == Program(s.flash, Current(s), s.page) && n.page == n.flash[Current(s)..Current(s) + PAGE_SIZ]
            else n.flash == if ErasesArea(s, m) then Wiped(s.flash, RAM, s.nandSize - RAM) else s.flash
  {
    if m.op == PrgNand {
      ProgramsCurrent(s);
    }
  }

  lemma {:induction false} ProgramReads(s: State, n: State)
    requires OnPage(s) && n.Valid() && n.flash == Program(s.flash, Current(s), s.page)
    requires n.page == n.flash[Current(s)..Current(s) + PAGE_SIZ]
    ensures var xs := [WriteAt(Current(s), s.page), ReadAt(Current(s), PAGE_SIZ)];
            AllFit(xs, |s.flash|) && FlatRun(s.flash, xs, 2) == (n.flash, [[], n.page])
  {
    var w, r := WriteAt(Current(s), s.page), ReadAt(Current(s), PAGE_SIZ);
    FlatRunOne(s.flash, w);
    FlatRunOne(n.flash, r);
    FlatRunAppend(s.flash, [w], [r], 1);
    assert [w] + [r] == [w, r] && [[]] + [n.page] == [[], n.page];
  }

  lemma {:induction false} ExecuteReads(s: State, m: Micro, n: State)
    requires OnPage(s) && n.Valid() && m.op != Erase && (m.op == PrgNand ==> m.dest == RAM) && n == Perform(s, m)
    ensures var xs := ExecuteAccesses(s, m);
            AllFit(xs, |s.flash|) &&
            FlatRun(s.flash, xs, |xs|) ==
            (n.flash, if m.op == PrgNand then [[], n.page] else if ErasesArea(s, m) then [[]] else [])
  {
    hide Perform, Program, Wiped, PageBase, Phys;
    PerformFlash(s, m);
    if m.op == PrgNand {
      ProgramsCurrent(s);
      ProgramReads(s, n);
    } else if ErasesArea(s, m) {
      FlatRunOne(s.flash, EraseAt(RAM, s.nandSize - RAM));
    }
  }

  /** The flash after an instruction of the program, and what the instruction has read, are those
      of its accesses. */
  lemma {:induction false} StepIsAccesses(s: State, ops: seq<Micro>, i: nat)
    requires Loadable(ops) && AtInstr(s, ops, i)
    ensures var xs := StepAccesses(s);
            AllFit(xs, |s.flash|) && FlatRun(s.flash, xs, |xs|) == (Step(s).flash, ReadsOf(s, Step(s), ops[i]))
    ensures WholeBlocks(s.nandSize) ==> ForOneChip(StepAccesses(s), s.nandSize)
  {
    hide Perform, ExecuteAccesses, ErasesArea, FlatRun;
    StepPerforms(s, ops, i);
    FetchDecodes(s, ops, i);
    FetchReads(s, ops, i);
    var c := CachePage(s).(signal := false);
    var n := Perform(c, ops[i]);
    ExecuteReads(c, ops[i], n);
    ExecuteAccessesFit(c, ops[i]);
    SameAccesses(s, c, ops[i]);
    PerformFlash(c, ops[i]);
    var xs, ys := FetchAccesses(s), ExecuteAccesses(s, ops[i]);
    FlatRunAppend(s.flash, xs, ys, |ys|);
  }

  lemma {:induction false} SameAccesses(s: State, c: State, m: Micro)
    requires s.Valid() && c == s.(rom := c.rom, signal := false) && c.Valid()
    ensures ExecuteAccesses(c, m) == ExecuteAccesses(s, m) && ErasesArea(c, m) == ErasesArea(s, m)
  {
  }

  // ----- the accesses of a round

  ghost predicate InstrAt(tr: seq<State>, ops: seq<Micro>, i: nat)
    requires Loadable(ops)
  {
    i + 1 < |tr| && AtInstr(tr[i], ops, i) && tr[i + 1] == Step(tr[i])
  }

  /** A run through the program without faults. */
  ghost predicate StepsOn(tr: seq<State>, ops: seq<Micro>)
    requires Loadable(ops)
  {
    |tr| == |ops| + 1 && forall i {:trigger InstrAt(tr, ops, i)} | 0 <= i < |ops| :: InstrAt(tr, ops, i)
  }

  /** What the machine makes of a state at the first instruction, k instructions later. */
  function StateAfter(s: State, k: nat): (r: State)
    requires s.Valid()
    ensures r.Valid()
  {
    if k == 0 then s else Step(StateAfter(s, k - 1))
  }

  lemma {:induction false} AfterIsAt(s: State, ops: seq<Micro>, k: nat)
    requires Loadable(ops) && IsRound(ops) && AtInstr(s, ops, 0) && k < |ops|
    ensures AtInstr(StateAfter(s, k), ops, k)
  {
    hide RomReady, Cached, Step;
    if k > 0 {
      AfterIsAt(s, ops, k - 1);
      assert Quiet(ops[k - 1]);
      AdvanceExactly(StateAfter(s, k - 1), ops, k - 1);
    }
  }

  /** The states of a round. */
  ghost function RoundOf(s: State, ops: seq<Micro>): (tr: seq<State>)
    requires s.Valid()
    ensures |tr| == |ops| + 1 && forall k | 0 <= k <= |ops| :: tr[k] == StateAfter(s, k)
  {
    seq(|ops| + 1, k requires 0 <= k => StateAfter(s, k))
  }

  lemma {:induction false} RoundStepsOn(s: State, ops: seq<Micro>)
    requires Loadable(ops) && IsRound(ops) && AtInstr(s, ops, 0)
    ensures StepsOn(RoundOf(s, ops), ops)
  {
    hide RomReady, Cached, Step;
    var tr := RoundOf(s, ops);
    forall i | 0 <= i < |ops| ensures InstrAt(tr, ops, i) {
      AfterIsAt(s, ops, i);
      assert tr[i + 1] == StateAfter(s, i + 1);
    }
  }

  ghost function RunAccesses(tr: seq<State>, ops: seq<Micro>, k: nat): seq<Access>
    requires Loadable(ops) && StepsOn(tr, ops) && k <= |ops|
  {
    if k == 0 then []
    else
      assert InstrAt(tr, ops, k - 1);
      RunAccesses(tr, ops, k - 1) + StepAccesses(tr[k - 1])
  }

  /** What the processor has taken over from its reads. */
  ghost function RunReads(tr: seq<State>, ops: seq<Micro>, k: nat): seq<seq<byte>>
    requires Loadable(ops) && StepsOn(tr, ops) && k <= |ops|
  {
    if k == 0 then [] else RunReads(tr, ops, k - 1) + ReadsOf(tr[k - 1], tr[k], ops[k - 1])
  }

  lemma {:induction false} KeepsSize(s: State)
    requires s.Valid()
    ensures Step(s).nandSize == s.nandSize && |Step(s).flash| == |s.flash|
  {
  }

  /** The flash after k instructions, and all that has been read, are those of the accesses. */
  lemma {:induction false} RunIsAccesses(tr: seq<State>, ops: seq<Micro>, k: nat)
    requires Loadable(ops) && StepsOn(tr, ops) && k <= |ops|
    ensures tr[k].nandSize == tr[0].nandSize && |tr[k].flash| == |tr[0].flash|
    ensures var xs := RunAccesses(tr, ops, k);
            AllFit(xs, |tr[0].flash|) && FlatRun(tr[0].flash, xs, |xs|) == (tr[k].flash, RunReads(tr, ops, k)) &&
            (WholeBlocks(tr[0].nandSize) ==> ForOneChip(xs, tr[0].nandSize))
  {
    hide Step, StepAccesses, ReadsOf, FlatRun, RomReady, Cached, ForOneChip;
    if k > 0 {
      var s := tr[k - 1];
      RunIsAccesses(tr, ops, k - 1);
      assert InstrAt(tr, ops, k - 1);
      KeepsSize(s);
      StepIsAccesses(s, ops, k - 1);
      var xs, ys := RunAccesses(tr, ops, k - 1), StepAccesses(s);
      FlatRunAppend(tr[0].flash, xs, ys, |ys|);
      BothForOneChip(xs, ys, tr[0].nandSize);
    } else {
      NoAccesses(tr[0].flash);
    }
  }

  lemma {:induction false} NoAccesses(mem: seq<byte>)
    ensures AllFit([], |mem|) && FlatRun(mem, [], 0) == (mem, [])
    ensures forall size :: ForOneChip([], size)
  {
  }

  lemma {:induction false} BothForOneChip(xs: seq<Access>, ys: seq<Access>, size: nat)
    ensures ForOneChip(xs, size) && ForOneChip(ys, size) ==> ForOneChip(xs + ys, size)
  {
    forall i | 0 <= i < |xs + ys| ensures (xs + ys)[i] == if i < |xs| then xs[i] else ys[i - |xs|] {
    }
  }

  // ----- the accesses of the constructor

  /** Looks at the ROM region, erases it if it holds old data, writes the image, reads it back,
      and erases the calculation area. */
  function InstallAccesses(flash: seq<byte>, image: seq<byte>): seq<Access>
    requires |image| == ROM_SIZE <= |flash|
  {
    var stale := flash[..ROM_SIZE] != image && flash[..ROM_SIZE] != Blank(ROM_SIZE);
    (if stale then [ReadAt(0, ROM_SIZE), EraseAt(0, ROM_SIZE)] else [ReadAt(0, ROM_SIZE)]) +
    ([WriteAt(0, image), ReadAt(0, ROM_SIZE), EraseAt(RAM, |flash| - RAM)])
  }

  lemma {:induction false} InstallTail(flash: seq<byte>, image: seq<byte>, size: nat)
    requires |image| == ROM_SIZE <= |flash| == size
    requires flash[..ROM_SIZE] == image || flash[..ROM_SIZE] == Blank(ROM_SIZE)
    ensures var xs := [WriteAt(0, image), ReadAt(0, ROM_SIZE), EraseAt(RAM, size - RAM)];
            var installed := image + flash[ROM_SIZE..];
            AllFit(xs, size) && FlatRun(flash, xs, 3) == (Wiped(installed, RAM, size - RAM), [[], image, []])
  {
    var w, r, e := WriteAt(0, image), ReadAt(0, ROM_SIZE), EraseAt(RAM, size - RAM);
    var installed := image + flash[ROM_SIZE..];
    assert flash[0..0 + ROM_SIZE] == flash[..ROM_SIZE];
    ProgramErased(flash, 0, image);
    assert Program(flash, 0, image) == installed;
    assert installed[0..ROM_SIZE] == image;
    FlatRunOne(flash, w);
    FlatRunOne(installed, r);
    FlatRunOne(installed, e);
    FlatRunAppend(flash, [w], [r], 1);
    FlatRunAppend(flash, [w] + [r], [e], 1);
    assert [w] + [r] + [e] == [w, r, e] && [[]] + [image] + [[]] == [[], image, []];
  }

  lemma {:induction false} InstallHead(flash: seq<byte>, stale: bool)
    requires ROM_SIZE <= |flash|
    ensures var read, erase := ReadAt(0, ROM_SIZE), EraseAt(0, ROM_SIZE);
            var xs := if stale then [read, erase] else [read];
            var mem := if stale then Blank(ROM_SIZE) + flash[ROM_SIZE..] else flash;
            var was := flash[..ROM_SIZE];
            AllFit(xs, |flash|) && FlatRun(flash, xs, |xs|) == (mem, if stale then [was, []] else [was])
  {
    var read, erase := ReadAt(0, ROM_SIZE), EraseAt(0, ROM_SIZE);
    FlatRunOne(flash, read);
    assert flash[0..0 + ROM_SIZE] == flash[..ROM_SIZE];
    if stale {
      assert Wiped(flash, 0, ROM_SIZE) == Blank(ROM_SIZE) + flash[ROM_SIZE..];
      FlatRunOne(flash, erase);
      FlatRunAppend(flash, [read], [erase], 1);
      assert [read] + [erase] == [read, erase] && [flash[..ROM_SIZE]] + [[]] == [flash[..ROM_SIZE], []];
    }
  }

  lemma {:induction false} InstallFits(flash: seq<byte>, image: seq<byte>)
    requires |image| == ROM_SIZE <= |flash| < U32
    ensures WholeBlocks(|flash|) ==> ForOneChip(InstallAccesses(flash, image), |flash|)
  {
    assert RAM % BLOCK == 0;
  }

  /** From any prior contents the accesses leave the image and an erased calculation area, and the
      read before the last erase gives the image. */
  lemma {:induction false} InstallIsAccesses(flash: seq<byte>, image: seq<byte>)
    requires |image| == ROM_SIZE <= |flash| < U32
    ensures var xs, size := InstallAccesses(flash, image), |flash|;
            AllFit(xs, size) && (WholeBlocks(size) ==> ForOneChip(xs, size)) &&
            var r := FlatRun(flash, xs, |xs|);
            r.0 == Wiped(image + flash[ROM_SIZE..], RAM, size - RAM) &&
            r.1[0] == flash[..ROM_SIZE] && r.1[|xs| - 2] == image
  {
    hide FlatRun, Wiped, ForOneChip;
    var size := |flash|;
    var stale := flash[..ROM_SIZE] != image && flash[..ROM_SIZE] != Blank(ROM_SIZE);
    var head := if stale then [ReadAt(0, ROM_SIZE), EraseAt(0, ROM_SIZE)] else [ReadAt(0, ROM_SIZE)];
    var tail := [WriteAt(0, image), ReadAt(0, ROM_SIZE), EraseAt(RAM, size - RAM)];
    var mem := if stale then Blank(ROM_SIZE) + flash[ROM_SIZE..] else flash;
    InstallFits(flash, image);
    InstallHead(flash, stale);
    if stale {
      assert mem[..ROM_SIZE] == Blank(ROM_SIZE) && mem[ROM_SIZE..] == flash[ROM_SIZE..];
    }
    InstallTail(mem, image, size);
    FlatRunAppend(flash, head, tail, 3);
  }

  // ----- on the chip

  /** On one chip that holds the flash at its start, without failures, accesses that fit give and
      leave there what they give and leave on the flash alone. */
  lemma {:induction false} OnOneChip(mem: seq<byte>, flash: seq<byte>, xs: seq<Access>)
    requires |mem| == TOTAL && |flash| <= TOTAL && mem[..|flash|] == flash && ForOneChip(xs, |flash|)
    ensures AllFit(xs, |flash|) && AllInRange(xs, TOTAL)
    ensures var r, p := DeviceRun(mem, xs, 1, |xs|), FlatRun(flash, xs, |xs|);
            r.0[..|flash|] == p.0 && r.0[|flash|..] == mem[|flash|..] && r.1 == p.1
  {
    OneChipTakes(xs, |flash|);
    RunIsFlat(mem, xs, 1, |xs|);
    RunOnPrefix(mem, |flash|, xs, |xs|);
  }

  /** A round of the processor on one chip: the accesses of its instructions, without failures,
      read what the processor has taken over, and leave the flash of its last state. */
  lemma {:induction false} RoundOnOneChip(mem: seq<byte>, s: State, ops: seq<Micro>)
    requires Loadable(ops) && IsRound(ops) && AtInstr(s, ops, 0)
    requires |mem| == TOTAL && |s.flash| == s.nandSize <= TOTAL && mem[..|s.flash|] == s.flash
    requires WholeBlocks(s.nandSize)
    ensures StepsOn(RoundOf(s, ops), ops)
    ensures var tr := RoundOf(s, ops);
            var xs := RunAccesses(tr, ops, |ops|);
            ForOneChip(xs, s.nandSize) && AllInRange(xs, TOTAL) &&
            var r := DeviceRun(mem, xs, 1, |xs|);
            r.0[..|s.flash|] == tr[|ops|].flash && r.0[|s.flash|..] == mem[|s.flash|..] &&
            r.1 == RunReads(tr, ops, |ops|)
  {
    hide RomReady, Cached, IsRound, RunAccesses, RunReads, DeviceRun, FlatRun, ForOneChip;
    RoundStepsOn(s, ops);
    var tr := RoundOf(s, ops);
    RunIsAccesses(tr, ops, |ops|);
    assert tr[0] == s;
    OnOneChip(mem, s.flash, RunAccesses(tr, ops, |ops|));
  }
}
