/** Wear levelling over whole runs: every round takes the next physical page, and the
    calculation area is erased only when all of its pages have been used. */
module Wear {
  import opened Bits
  import opened Circuit
  import opened Cells
  import opened Microcode
  import opened Machine
  import opened Runs
  import opened Control
  import opened RoundPlan
  import opened Round

  // ----- between rounds

  ghost predicate IsErased(x: byte, good: set<nat>) {
    SameIn(ERASED, x, good)
  }

  /** Everything from the page in use to the end of the flash is erased. */
  ghost predicate ErasedFrom(s: State, start: nat, good: set<nat>) {
    forall a | start <= a < s.nandSize && a < |s.flash| :: IsErased(s.flash[a], good)
  }

  ghost predicate BufferErased(s: State, good: set<nat>) {
    forall i | 0 <= i < |s.page| :: IsErased(s.page[i], good)
  }

  /** The invariant between rounds.  The buffer is erased, or the first edit will erase it. */
  ghost predicate Between(s: State, ops: seq<Micro>, good: set<nat>)
    requires Loadable(ops)
  {
    AtInstr(s, ops, 0) && ErasedFrom(s, Current(s), good) && (s.preOffset == Current(s) ==> BufferErased(s, good))
  }

  lemma {:induction false} BetweenIsErased(s: State, ops: seq<Micro>, good: set<nat>)
    requires Loadable(ops) && Between(s, ops, good) && forall k | k in good :: k < 8
    ensures Erased(s, good)
  {
    forall k | k in good
      ensures BitsOf(CurrentPage(s), k) == AllTrue(PAGE_SIZ) && EditableBits(s, k) == AllTrue(PAGE_SIZ)
    {
      BitOfErased(k);
      forall i | 0 <= i < PAGE_SIZ ensures BitAt(CurrentPage(s)[i], k) {
        assert IsErased(s.flash[Current(s) + i], good);
      }
      if s.preOffset == Current(s) {
        forall i | 0 <= i < PAGE_SIZ ensures BitAt(s.page[i], k) {
          assert IsErased(s.page[i], good);
        }
      }
    }
  }

  // ----- within a round

  /** Outside the page of the round, the good columns of the calculation area keep their bits. */
  ghost predicate KeptOutside(f: seq<byte>, g: seq<byte>, page: nat, good: set<nat>) {
    |f| == |g| &&
    forall a | RAM <= a < |f| && !(page <= a < page + PAGE_SIZ) :: SameIn(f[a], g[a], good)
  }

  lemma {:induction false} QuietKeepsFlash(s: State, m: Micro)
    requires OnPage(s) && Quiet(m) && m.op != Erase && (m.op == PrgNand ==> m.dest == RAM)
    ensures KeptOutside(s.flash, Perform(s, m).flash, Current(s), {0, 1, 2, 3, 4, 5, 6, 7})
    ensures forall a | 0 <= a < |s.flash| && !(Current(s) <= a < Current(s) + PAGE_SIZ) ::
              Perform(s, m).flash[a] == s.flash[a]
  {
    if m.op == PrgNand {
      PhysOnPage(s, RAM);
    }
  }

  /** One step of the round, as far as the flash is concerned. */
  lemma {:induction false} StepKeepsFlash(s: State, t: State, ops: seq<Micro>, i: nat, good: set<nat>)
    requires Loadable(ops) && AtInstr(s, ops, i) && Quiet(ops[i]) && Agree(Step(s), t, good)
    ensures KeptOutside(s.flash, t.flash, Current(s), good)
  {
    StepPerforms(s, ops, i);
    QuietKeepsFlash(CachePage(s).(signal := false), ops[i]);
  }

  lemma {:induction false} KeptTwice(f: seq<byte>, g: seq<byte>, h: seq<byte>, page: nat, good: set<nat>)
    requires KeptOutside(f, g, page, good) && KeptOutside(g, h, page, good)
    ensures KeptOutside(f, h, page, good)
  {
  }

  lemma {:induction false} RoundKeepsFlash(tr: seq<State>, ops: seq<Micro>, good: set<nat>, i: nat)
    requires Loadable(ops) && Controlled(tr, ops, good) && i < |ops|
    requires forall j | 0 <= j < |ops| - 1 :: Quiet(ops[j])
    requires forall j | 0 < j < |ops| :: SameRound(tr[0], tr[j])
    ensures KeptOutside(tr[0].flash, tr[i].flash, Current(tr[0]), good)
  {
    if i > 0 {
      RoundKeepsFlash(tr, ops, good, i - 1);
      assert StepAt(tr, ops, i - 1, good);
      StepKeepsFlash(tr[i - 1], tr[i], ops, i - 1, good);
      KeptTwice(tr[0].flash, tr[i - 1].flash, tr[i].flash, Current(tr[0]), good);
    }
  }

  /** Whichever instruction edits the buffer, it edits the page in use. */
  lemma {:induction false} EditsThisPage(s: State, m: Micro)
    requires OnPage(s) && Instruction(m, false)
    ensures Perform(s, m).preOffset ==
            if m.op == Mov || m.op == InvMov || m.op == GetIn then Current(s) else s.preOffset
  {
    if m.op == Mov || m.op == InvMov || m.op == GetIn {
      PhysOnPage(s, m.dest);
      PhysOnPage(s, m.from);
    }
  }

  lemma {:induction false} StepEdits(s: State, t: State, ops: seq<Micro>, i: nat, good: set<nat>)
    requires Loadable(ops) && AtInstr(s, ops, i) && Instruction(ops[i], false) && Agree(Step(s), t, good)
    ensures t.pageOffset == s.pageOffset
    ensures t.preOffset == Current(s) || (ops[i].op != GetIn && t.preOffset == s.preOffset)
  {
    StepPerforms(s, ops, i);
    var s0 := CachePage(s).(signal := false);
    EditsThisPage(s0, ops[i]);
    QuietPerform(s0, ops[i]);
  }

  /** A round: it starts loading, works on its page, and ends with the last lane's flag. */
  ghost predicate IsRound(ops: seq<Micro>) {
    |ops| > 3 && ops[LOADS_AT].op == GetIn && Instruction(ops[|ops| - 1], true) &&
    forall j | 0 <= j < |ops| - 1 :: Instruction(ops[j], false)
  }

  /** From the first load on, the buffer belongs to the page in use. */
  lemma {:induction false} BufferOfRound(tr: seq<State>, ops: seq<Micro>, good: set<nat>, i: nat)
    requires Loadable(ops) && Controlled(tr, ops, good) && 1 <= i < |ops| - 1
    requires IsRound(ops)
    ensures tr[i + 1].preOffset == Current(tr[i + 1])
  {
    if i > 1 {
      BufferOfRound(tr, ops, good, i - 1);
      assert i - 1 + 1 == i;
    }
    assert StepAt(tr, ops, i, good);
    BufferStays(tr, ops, good, i);
  }

  lemma {:induction false} BufferStays(tr: seq<State>, ops: seq<Micro>, good: set<nat>, i: nat)
    requires Loadable(ops) && StepAt(tr, ops, i, good) && Instruction(ops[i], false)
    requires ops[i].op == GetIn || tr[i].preOffset == Current(tr[i])
    ensures tr[i + 1].preOffset == Current(tr[i + 1])
  {
    StepEdits(tr[i], tr[i + 1], ops, i, good);
  }

  // ----- the end of a round

  /** The test made at the end of a round, on 32-bit numbers. */
  predicate EraseDue(pageOffset: nat, nandSize: nat) {
    (RAM + pageOffset + PAGE_SIZ) % U32 > nandSize
  }

  /** The number of pages of the calculation area. */
  function Pages(nandSize: nat): nat
    requires RAM <= nandSize
  {
    (nandSize - RAM) / PAGE_SIZ
  }

  /** The test recognises the last page, and no other, exactly when the first address past
      the page after it is still a 32-bit number. */
  lemma {:induction false} EraseDueIsExact(nandSize: nat)
    requires RAM + PAGE_SIZ <= nandSize < U32
    ensures (forall k {:trigger EraseDue(k * PAGE_SIZ, nandSize)} | 1 <= k <= Pages(nandSize) ::
               EraseDue(k * PAGE_SIZ, nandSize) <==> k == Pages(nandSize)) <==>
            RAM + (Pages(nandSize) + 1) * PAGE_SIZ < U32
  {
    var last := Pages(nandSize);
    assert RAM + last * PAGE_SIZ <= nandSize < RAM + (last + 1) * PAGE_SIZ;
    forall k {:trigger EraseDue(k * PAGE_SIZ, nandSize)} | 1 <= k < last ensures !EraseDue(k * PAGE_SIZ, nandSize) {
      assert RAM + k * PAGE_SIZ + PAGE_SIZ <= RAM + last * PAGE_SIZ;
    }
    assert EraseDue(last * PAGE_SIZ, nandSize) <==> RAM + (last + 1) * PAGE_SIZ < U32;
  }

  /** n follows s by the instruction that ends the round. */
  ghost predicate RoundOver(s: State, n: State)
    requires s.Valid()
  {
    n.signal && n.nandSize == s.nandSize && n.preOffset == s.preOffset &&
    if EraseDue(s.pageOffset + PAGE_SIZ, s.nandSize)
    then n.pageOffset == 0 && n.erases == s.erases + 1 &&
         n.flash == Wiped(s.flash, RAM, s.nandSize - RAM) && n.page == Blank(PAGE_SIZ)
    else n.pageOffset == s.pageOffset + PAGE_SIZ && n.erases == s.erases && n.flash == s.flash && n.page == s.page
  }

  lemma {:induction false} LastRaise(s: State, m: Micro)
    requires OnPage(s) && Instruction(m, true)
    ensures RoundOver(s, Perform(s, m))
  {
    var s1 := s.(isJmp := s.isJmp[LANES - 1 := MajorityVote(ReadBuf(s, m.from))]);
    var s2 := s1.(signal := true, pageOffset := (s1.pageOffset + PAGE_SIZ) % U32);
    assert s2.pageOffset == s.pageOffset + PAGE_SIZ;
    assert Perform(s, m) == if EraseDue(s2.pageOffset, s2.nandSize) then EraseArea(s2) else s2;
  }

  lemma {:induction false} RoundOverFrame(s: State, s0: State, n0: State)
    requires s.Valid() && s0.Valid() && s0 == s.(rom := s0.rom, signal := false) && RoundOver(s0, n0)
    ensures RoundOver(s, n0.(pc := 0))
  {
  }

  /** The state in which the last instruction of a round leaves the machine. */
  lemma {:induction false} LastStep(s: State, ops: seq<Micro>)
    requires Loadable(ops) && AtInstr(s, ops, |ops| - 1) && Instruction(ops[|ops| - 1], true)
    ensures RoundOver(s, Step(s)) && Step(s).pc == 0
  {
    StepPerforms(s, ops, |ops| - 1);
    var s0 := CachePage(s).(signal := false);
    LastRaise(s0, ops[|ops| - 1]);
    RoundOverFrame(s, s0, Perform(s0, ops[|ops| - 1]));
  }

  /** What the end of a round does to a state that has kept its page to itself. */
  ghost predicate Renewed(s: State, t: State) {
    t.nandSize == s.nandSize && |t.flash| == |s.flash| && t.pc == 0 && t.signal &&
    if EraseDue(s.pageOffset + PAGE_SIZ, s.nandSize)
    then t.pageOffset == 0 && t.erases == s.erases + 1
    else t.pageOffset == s.pageOffset + PAGE_SIZ && t.erases == s.erases
  }

  lemma {:induction false} RomKept(s: State, t: State, ops: seq<Micro>)
    requires Loadable(ops) && RomReady(s, ops) && |t.flash| == |s.flash| >= RAM
    requires forall a | 0 <= a < RAM :: t.flash[a] == s.flash[a]
    ensures RomReady(t, ops)
  {
  }

  /** The end of a round, with faults: t is where the run goes from s by the last instruction. */
  lemma {:induction false} RoundEnds(s: State, t: State, ops: seq<Micro>, good: set<nat>)
    requires Loadable(ops) && AtInstr(s, ops, |ops| - 1) && Instruction(ops[|ops| - 1], true)
    requires Agree(Step(s), t, good) && t.Valid()
    ensures Renewed(s, t) && t.preOffset == s.preOffset && RomReady(t, ops)
    ensures EraseDue(s.pageOffset + PAGE_SIZ, s.nandSize) ==> ErasedFrom(t, RAM, good) && BufferErased(t, good)
    ensures !EraseDue(s.pageOffset + PAGE_SIZ, s.nandSize) ==>
              forall a | RAM <= a < |s.flash| :: SameIn(s.flash[a], t.flash[a], good)
  {
    LastStep(s, ops);
    var n := Step(s);
    RomKept(s, t, ops);
  }

  /** What is left erased when the round moves to the next page. */
  lemma {:induction false} RestErased(s: State, u: State, t: State, good: set<nat>)
    requires OnPage(s) && ErasedFrom(s, Current(s), good) && KeptOutside(s.flash, u.flash, Current(s), good)
    requires t.nandSize == s.nandSize && |t.flash| == |u.flash|
    requires forall a | RAM <= a < |u.flash| :: SameIn(u.flash[a], t.flash[a], good)
    ensures ErasedFrom(t, Current(s) + PAGE_SIZ, good)
  {
  }

  /** One round renews the invariant: the next round again starts on an erased page with a
      buffer that is, or will be, erased.  The one exception is the last page of a device
      whose size is too close to 2^32 for the test. */
  lemma {:induction false} RoundRenews(tr: seq<State>, good: set<nat>, cells: seq<Cell>, qs: seq<Ports>, steps: int)
    requires Plan(cells, qs, steps) && Loadable(RoundCode(cells, qs, steps))
    requires FaultyRun(tr, good) && |tr| == |RoundCode(cells, qs, steps)| + 1
    requires Between(tr[0], RoundCode(cells, qs, steps), good)
    ensures var s, t := tr[0], tr[|tr| - 1];
            Renewed(s, t) && RomReady(t, RoundCode(cells, qs, steps)) &&
            (Between(t, RoundCode(cells, qs, steps), good) <==>
             (Current(s) + 2 * PAGE_SIZ <= s.nandSize || EraseDue(s.pageOffset + PAGE_SIZ, s.nandSize)))
  {
    var ops := RoundCode(cells, qs, steps);
    var last := |ops| - 1;
    PlanLoadable(cells, qs, steps);
    PlanInstructions(cells, qs, steps);
    ProgramRuns(tr, ops, good);
    RoundKeepsFlash(tr, ops, good, last);
    BufferOfRound(tr, ops, good, last - 1);
    assert last - 1 + 1 == last;
    assert StepAt(tr, ops, last, good);
    NextBetween(tr[0], tr[last], tr[last + 1], ops, good);
  }

  lemma {:induction false} FirstInstr(t: State, ops: seq<Micro>)
    requires Loadable(ops) && OnPage(t) && RomReady(t, ops) && t.pc == 0
    ensures AtInstr(t, ops, 0)
  {
  }

  lemma {:induction false} NextOnPage(s: State, t: State)
    requires OnPage(s) && t.Valid() && t.pageOffset == s.pageOffset + PAGE_SIZ && t.nandSize == s.nandSize
    requires Current(s) + 2 * PAGE_SIZ <= s.nandSize
    ensures OnPage(t)
  {
  }

  lemma {:induction false} NextBetween(s: State, u: State, t: State, ops: seq<Micro>, good: set<nat>)
    requires Loadable(ops) && Between(s, ops, good) && SameRound(s, u)
    requires KeptOutside(s.flash, u.flash, Current(s), good)
    requires AtInstr(u, ops, |ops| - 1) && u.preOffset == Current(u) && Instruction(ops[|ops| - 1], true)
    requires Agree(Step(u), t, good) && t.Valid()
    ensures Renewed(s, t) && RomReady(t, ops)
    ensures Between(t, ops, good) <==>
            (Current(s) + 2 * PAGE_SIZ <= s.nandSize || EraseDue(s.pageOffset + PAGE_SIZ, s.nandSize))
  {
    RoundEnds(u, t, ops, good);
    if EraseDue(s.pageOffset + PAGE_SIZ, s.nandSize) {
      FirstInstr(t, ops);
    } else {
      RestErased(s, u, t, good);
      if Current(s) + 2 * PAGE_SIZ <= s.nandSize {
        NextOnPage(s, t);
        FirstInstr(t, ops);
      }
    }
  }

  lemma {:induction false} PlanInstruction(cells: seq<Cell>, qs: seq<Ports>, steps: int, j: nat)
    requires Plan(cells, qs, steps) && j < |RoundCode(cells, qs, steps)|
    ensures Instruction(RoundCode(cells, qs, steps)[j], j == |RoundCode(cells, qs, steps)| - 1)
  {
    PlanSections(cells, qs, steps);
    InstructionShape(RoundCode(cells, qs, steps), qs, EmitSteps(cells, RAM, steps), j);
  }

  /** All instructions of a round, but the last, and the last. */
  lemma {:induction false} PlanInstructions(cells: seq<Cell>, qs: seq<Ports>, steps: int)
    requires Plan(cells, qs, steps)
    ensures IsRound(RoundCode(cells, qs, steps))
  {
    var ops := RoundCode(cells, qs, steps);
    Sections(cells, qs, steps);
    LoadAt(cells, qs, steps, 0);
    forall j | 0 <= j < |ops| ensures Instruction(ops[j], j == |ops| - 1) {
      PlanInstruction(cells, qs, steps, j);
    }
  }
}
