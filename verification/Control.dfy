/** Control flow through a round: the program counter, the ROM cache and the ROM itself. */
module Control {
  import opened Microcode
  import opened Machine
  import opened Runs

  /** The instruction does not end the round. */
  predicate Quiet(m: Micro) {
    m.op == Raise ==> m.dest % LANES != LANES - 1
  }

  /** What an instruction never touches before the end of the round. */
  ghost predicate SameRound(s: State, t: State) {
    t.pageOffset == s.pageOffset && t.nandSize == s.nandSize && t.erases == s.erases && |t.flash| == |s.flash|
  }

  function NextPc(ops: seq<Micro>, i: nat): nat {
    if i == |ops| - 1 then 0 else 8 * (i + 1)
  }

  lemma {:induction false} StepPerforms(s: State, ops: seq<Micro>, i: nat)
    requires Loadable(ops) && AtInstr(s, ops, i)
    ensures Step(s) == Perform(CachePage(s).(signal := false), ops[i]).(pc := NextPc(ops, i))
    ensures CachePage(s) == s.(rom := CachePage(s).rom)
  {
    FetchDecodes(s, ops, i);
  }

  lemma {:induction false} ProgramKeepsBelow(flash: seq<byte>, offset: nat, data: seq<byte>)
    requires RAM <= offset && offset + |data| <= |flash|
    ensures Program(flash, offset, data)[..RAM] == flash[..RAM]
  {
  }

  /** A quiet instruction of the program leaves the ROM alone and the round where it is. */
  lemma {:induction false} QuietPerform(s: State, m: Micro)
    requires OnPage(s) && Quiet(m) && m.op != Erase && (m.op == PrgNand ==> m.dest == RAM)
    ensures var n := Perform(s, m);
            SameRound(s, n) && n.flash[..RAM] == s.flash[..RAM] &&
            n.rom == s.rom && n.pc == s.pc && n.signal == s.signal
  {
    if m.op == PrgNand {
      assert Phys(RAM, s.pageOffset) == Current(s);
      assert PageBase(Current(s)) == Current(s);
      ProgramKeepsBelow(s.flash, Current(s), s.page);
    }
  }

  /** Unless the next instruction starts a page, it lies in the page just cached. */
  lemma {:induction false} CacheServesNext(rom: seq<byte>, f: seq<byte>, g: seq<byte>, i: nat)
    requires |f| == |g| >= ROM_SIZE && f[..ROM_SIZE] == g[..ROM_SIZE] && 8 * i + 8 < ROM_SIZE
    requires PageBase(8 * i) + PAGE_SIZ <= |f| && rom == f[PageBase(8 * i)..PageBase(8 * i) + PAGE_SIZ]
    ensures Cached(rom, g, 8 * i + 8)
  {
  }

  /** n is where control belongs after instruction i in s. */
  lemma {:induction false} ReachesNext(s: State, n: State, ops: seq<Micro>, i: nat)
    requires Loadable(ops) && AtInstr(s, ops, i) && i + 1 < |ops| && n.Valid()
    requires SameRound(s, n) && n.flash[..RAM] == s.flash[..RAM] && n.pc == 8 * (i + 1)
    requires PageBase(s.pc) + PAGE_SIZ <= |s.flash| && n.rom == s.flash[PageBase(s.pc)..PageBase(s.pc) + PAGE_SIZ]
    ensures AtInstr(n, ops, i + 1)
  {
    CacheServesNext(n.rom, s.flash, n.flash, i);
  }

  /** Control reaches the next instruction. */
  lemma {:induction false} AdvanceExactly(s: State, ops: seq<Micro>, i: nat)
    requires Loadable(ops) && AtInstr(s, ops, i) && i + 1 < |ops| && Quiet(ops[i])
    ensures AtInstr(Step(s), ops, i + 1) && SameRound(s, Step(s)) && !Step(s).signal
  {
    StepPerforms(s, ops, i);
    CacheIsPage(s, ops, i);
    QuietPerform(CachePage(s).(signal := false), ops[i]);
    ReachesNext(s, Step(s), ops, i);
  }

  /** Faulty cells do not disturb control. */
  lemma {:induction false} ControlAgrees(n: State, t: State, ops: seq<Micro>, i: nat, good: set<nat>)
    requires Loadable(ops) && AtInstr(n, ops, i) && Agree(n, t, good) && t.Valid()
    ensures AtInstr(t, ops, i) && SameRound(n, t) && t.signal == n.signal
  {
  }

  /** Control reaches the next instruction, whatever the bad columns do. */
  lemma {:induction false} Advance(s: State, t: State, ops: seq<Micro>, i: nat, good: set<nat>)
    requires Loadable(ops) && AtInstr(s, ops, i) && i + 1 < |ops| && Quiet(ops[i])
    requires Agree(Step(s), t, good) && t.Valid()
    ensures AtInstr(t, ops, i + 1) && SameRound(s, t) && !t.signal
  {
    AdvanceExactly(s, ops, i);
    ControlAgrees(Step(s), t, ops, i + 1, good);
  }

  /** Step i of a run of the program. */
  ghost predicate StepAt(tr: seq<State>, ops: seq<Micro>, i: nat, good: set<nat>)
    requires Loadable(ops)
  {
    i + 1 < |tr| && AtInstr(tr[i], ops, i) && tr[i + 1].Valid() && Agree(Step(tr[i]), tr[i + 1], good)
  }

  /** A run that executes the program once, instruction after instruction. */
  ghost predicate Controlled(tr: seq<State>, ops: seq<Micro>, good: set<nat>)
    requires Loadable(ops)
  {
    |tr| == |ops| + 1 &&
    forall i {:trigger StepAt(tr, ops, i, good)} | 0 <= i < |ops| :: StepAt(tr, ops, i, good)
  }

  lemma {:induction false} ControlRuns(tr: seq<State>, ops: seq<Micro>, good: set<nat>, i: nat)
    requires Loadable(ops) && FaultyRun(tr, good) && |tr| == |ops| + 1 && AtInstr(tr[0], ops, 0) && i < |ops|
    requires forall j | 0 <= j < |ops| - 1 :: Quiet(ops[j])
    ensures StepAt(tr, ops, i, good) && SameRound(tr[0], tr[i]) && (i > 0 ==> !tr[i].signal)
  {
    if i > 0 {
      ControlRuns(tr, ops, good, i - 1);
      Advance(tr[i - 1], tr[i], ops, i - 1, good);
    }
    assert Agree(Step(tr[i]), tr[i + 1], good);
  }

  /** Started at instruction 0, the machine executes the whole program in order: exactly one
      step per instruction, no signal before the last, and all in the same round. */
  lemma {:induction false} ProgramRuns(tr: seq<State>, ops: seq<Micro>, good: set<nat>)
    requires Loadable(ops) && FaultyRun(tr, good) && |tr| == |ops| + 1 && AtInstr(tr[0], ops, 0)
    requires forall j | 0 <= j < |ops| - 1 :: Quiet(ops[j])
    ensures Controlled(tr, ops, good)
    ensures forall i | 0 < i < |ops| :: SameRound(tr[0], tr[i]) && !tr[i].signal
  {
    forall i | 0 <= i < |ops| ensures StepAt(tr, ops, i, good) && SameRound(tr[0], tr[i]) && (i > 0 ==> !tr[i].signal) {
      ControlRuns(tr, ops, good, i);
    }
  }
}
