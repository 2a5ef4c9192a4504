/** The generation of the ROM: build the lanes, schedule the netlist, emit the round. */
module Rom {
  import opened Graph
  import opened Circuit
  import opened Lane
  import opened Cells
  import opened Schedule
  import opened Cycles
  import opened Worklist
  import opened Netlist
  import opened Builder
  import opened Microcode
  import opened Compile
  import opened CodeSize
  import opened Machine
  import opened RoundPlan

  const NSUP := DIGIT / 16
  const LANE_CELLS := LaneCells(NSUP)
  const ROUND_CELLS := LANES * LANE_CELLS

  // ----- scheduling does not change the logic

  lemma {:induction false} SourcesPermuted(v: seq<bool>, xs: seq<Sig>, ys: seq<Sig>)
    requires multiset(xs) == multiset(ys)
    ensures AllRead(v, xs) == AllRead(v, ys)
  {
    if AllRead(v, xs) {
      forall j | 0 <= j < |ys| ensures Read(v, ys[j]) {
        assert ys[j] in multiset(xs);
        var k :| 0 <= k < |xs| && xs[k] == ys[j];
      }
    }
    if AllRead(v, ys) {
      forall j | 0 <= j < |xs| ensures Read(v, xs[j]) {
        assert xs[j] in multiset(ys);
        var k :| 0 <= k < |ys| && ys[k] == xs[j];
      }
    }
  }

  /** The scheduled netlist has the same states as the one that was built. */
  lemma {:induction false} ScheduleKeepsLogic(built: seq<Cell>, cells: seq<Cell>, v: seq<bool>)
    requires Wellformed(built) && SameNetlist(built, cells) && Greedy(cells) && Consistent(v, GraphOf(cells))
    ensures Consistent(v, GraphOf(built))
  {
    var g, g' := GraphOf(built), GraphOf(cells);
    forall c | 0 <= c < |g| && g[c].Gate? ensures v[c] == AllRead(v, g[c].ins) {
      EmptySources(built[c].ins, cells[c].ins);
      assert built[c].ins != [];
      assert cells[c].ins != [] && g'[c] == Gate(Sources(cells[c].ins));
      SourcesPermuted(v, Sources(cells[c].ins), Sources(built[c].ins));
    }
  }

  /** Compilation preserves meaning.  Take any netlist that can be scheduled at all, its greedy
      schedule, and a page whose input cells are loaded and whose other cells are erased: the
      emitted code leaves the inputs as they are and every gate equal to the AND of its sources
      in the netlist as it was built. */
  lemma {:induction false} ScheduledCodeComputes(built: seq<Cell>, cells: seq<Cell>, base: nat, st: Column, steps: int)
    requires Wellformed(built) && SameNetlist(built, cells) && Greedy(cells) && Deepest(cells, Below(|cells|), steps)
    requires OnOnePage(cells, base) && st.Valid() && st.buf == st.flash
    requires forall c | 0 <= c < |cells| && cells[c].ins != [] :: st.flash[c]
    ensures var r := RunColumn(EmitSteps(cells, base, steps), st);
            r.buf == r.flash && Consistent(r.flash, GraphOf(built)) &&
            forall c | 0 <= c < |built| && built[c].ins == [] :: r.flash[c] == st.flash[c]
  {
    GreedyIsFeasible(cells);
    forall c | 0 <= c < |cells| ensures cells[c].complete <= steps {
      assert c in Below(|cells|);
    }
    EmittedCodeComputes(cells, base, st, steps);
    var r := RunColumn(EmitSteps(cells, base, steps), st);
    ScheduleKeepsLogic(built, cells, r.flash);
    forall c | 0 <= c < |built| && built[c].ins == [] ensures r.flash[c] == st.flash[c] {
      EmptySources(built[c].ins, cells[c].ins);
    }
  }

  lemma {:induction false} BackwardKept(built: seq<Cell>, cells: seq<Cell>)
    requires Backward(built) && SameNetlist(built, cells)
    ensures Backward(cells)
  {
    forall c, j | 0 <= c < |cells| && 0 <= j < |cells[c].ins| ensures cells[c].ins[j].src.cell < c {
      assert Sources(cells[c].ins)[j] in multiset(Sources(built[c].ins));
      var k :| 0 <= k < |built[c].ins| && Sources(built[c].ins)[k] == Sources(cells[c].ins)[j];
      assert built[c].ins[k].src.cell < c;
    }
  }

  lemma {:induction false} FanInKept(built: seq<Cell>, cells: seq<Cell>)
    requires FanIn(built) && SameNetlist(built, cells)
    ensures FanIn(cells)
  {
    forall c | 0 <= c < |cells| ensures |cells[c].ins| <= FAN_IN {
      assert |multiset(Sources(cells[c].ins))| == |multiset(Sources(built[c].ins))|;
      assert |built[c].ins| <= FAN_IN;
    }
  }

  lemma {:induction false} WalkGoesBack(cells: seq<Cell>, p: seq<nat>, i: nat)
    requires Backward(cells) && IsWalk(cells, p) && 0 < i < |p|
    ensures p[i] < p[0]
  {
    assert Reads(cells, p[i - 1], p[i]);
    if i > 1 {
      WalkGoesBack(cells, p, i - 1);
    }
  }

  /** What the builder makes has no combinational loop. */
  lemma {:induction false} BackwardHasNoCycle(cells: seq<Cell>)
    requires Backward(cells)
    ensures !HasCycle(cells)
  {
    if p :| IsCycle(cells, p) {
      WalkGoesBack(cells, p, |p| - 1);
      assert false;
    }
  }

  /** The builder's netlist passes the assertions of `schedule`. */
  lemma {:induction false} BuiltIsSchedulable(cells: seq<Cell>, base: nat)
    requires BuiltCells(cells, base)
    ensures Wellformed(cells) && Backward(cells) && !HasCycle(cells)
  {
    forall c | 0 <= c < |cells|
      ensures if cells[c].ins == [] then cells[c].complete == 1 else cells[c].complete < 0
      ensures forall j | 0 <= j < |cells[c].ins| :: cells[c].ins[j].src.cell < c
    {
      assert BuiltCell(cells[c], c, base);
    }
    BackwardHasNoCycle(cells);
  }

  // ----- the ports of all lanes

  /** Lane l takes its cells from l * LANE_CELLS on. */
  ghost predicate LanePorts(g: Graph, q: Ports, start: nat) {
    InputCells(g, start, q.ain, q.bin) && |q.ain| == |q.bin| == |q.sum| == DIGIT && start + LANE_CELLS <= |g| &&
    Within(q.sum, |g|) && q.isJmp.cell < |g| && !q.isJmp.inv && forall i | 0 <= i < |q.sum| :: !q.sum[i].inv
  }

  ghost predicate AllPorts(g: Graph, qs: seq<Ports>) {
    |qs| == LANES && forall l | 0 <= l < LANES :: LanePorts(g, qs[l], l * LANE_CELLS)
  }

  lemma {:induction false} LaneSize()
    ensures LANE_CELLS == 874 && ROUND_CELLS == 1748
  {
  }

  lemma {:induction false} LoadCellAt(g: Graph, qs: seq<Ports>, u: nat)
    requires AllPorts(g, qs) && u < 2 * INPUTS
    ensures Shaped(qs) && LoadCell(qs, u) == u / (2 * DIGIT) * LANE_CELLS + u % (2 * DIGIT)
    ensures LoadCell(qs, u) < |g| && g[LoadCell(qs, u)] == Input
  {
    var l, i := u / 2 / DIGIT, u / 2 % DIGIT;
    assert l == u / (2 * DIGIT) && u % (2 * DIGIT) == 2 * i + u % 2;
    assert LanePorts(g, qs[l], l * LANE_CELLS);
    LaneSize();
  }

  /** The input cells, in increasing order. */
  lemma {:induction false} InputsOfLanes(built: seq<Cell>, qs: seq<Ports>)
    requires AllPorts(GraphOf(built), qs)
    ensures Shaped(qs)
    ensures forall u | 0 <= u < 2 * INPUTS :: LoadCell(qs, u) < |built| && built[LoadCell(qs, u)].ins == []
    ensures forall u, u' | 0 <= u < u' < 2 * INPUTS :: LoadCell(qs, u) < LoadCell(qs, u')
  {
    var g := GraphOf(built);
    LoadCellAt(g, qs, 0);
    forall u | 0 <= u < 2 * INPUTS ensures LoadCell(qs, u) < |built| && built[LoadCell(qs, u)].ins == [] {
      LoadCellAt(g, qs, u);
      assert NodeOf(built[LoadCell(qs, u)]) == Input;
    }
    forall u, u' | 0 <= u < u' < 2 * INPUTS ensures LoadCell(qs, u) < LoadCell(qs, u') {
      LoadCellAt(g, qs, u);
      LoadCellAt(g, qs, u');
      LaneSize();
      LanesInOrder(u, u');
    }
  }

  lemma {:induction false} LanesInOrder(u: nat, u': nat)
    requires u < u'
    ensures u / (2 * DIGIT) * LANE_CELLS + u % (2 * DIGIT) < u' / (2 * DIGIT) * LANE_CELLS + u' % (2 * DIGIT)
  {
    LaneSize();
  }

  /** The output cells. */
  lemma {:induction false} OutputsOfLanes(g: Graph, qs: seq<Ports>)
    requires AllPorts(g, qs) && Shaped(qs)
    ensures forall t | 0 <= t < INPUTS :: SumCell(qs, t).cell < |g| && !SumCell(qs, t).inv
    ensures forall l | 0 <= l < LANES :: qs[l].isJmp.cell < |g| && !qs[l].isJmp.inv
  {
  }

  lemma {:induction false} PortsOfLanes(built: seq<Cell>, cells: seq<Cell>, qs: seq<Ports>)
    requires AllPorts(GraphOf(built), qs) && SameNetlist(built, cells)
    ensures PortsExist(cells, qs) && InputsInOrder(cells, qs)
  {
    InputsOfLanes(built, qs);
    OutputsOfLanes(GraphOf(built), qs);
    forall u | 0 <= u < 2 * INPUTS ensures cells[LoadCell(qs, u)].ins == [] {
      EmptySources(built[LoadCell(qs, u)].ins, cells[LoadCell(qs, u)].ins);
    }
  }

  // ----- the plan of a round

  lemma {:induction false} PageOfLanes(built: seq<Cell>, cells: seq<Cell>)
    requires BuiltCells(built, RAM) && SameNetlist(built, cells) && Feasible(cells) && |built| <= PAGE_SIZ
    ensures OnOnePage(cells, RAM)
  {
    forall c | 0 <= c < |cells| ensures cells[c].addr == RAM + c {
      assert BuiltCell(built[c], c, RAM);
    }
    forall c, j | 0 <= c < |cells| && 0 <= j < |cells[c].ins| ensures cells[c].ins[j].src.cell < |cells| {
      assert FeasibleCell(cells, c);
      assert SettledBefore(cells, cells[c].ins[j].src.cell, cells[c].ins[j].step);
    }
  }

  /** Every state of the scheduled netlist subtracts. */
  lemma {:induction false} StateSubtracts(built: seq<Cell>, cells: seq<Cell>, q: Ports, w: SumWires, j: JumpWires,
      v: seq<bool>)
    requires BuiltCells(built, RAM) && LaneShape(GraphOf(built), q, w, j, NSUP)
    requires SameNetlist(built, cells) && Greedy(cells) && Consistent(v, GraphOf(cells))
    ensures Subtracts(v, q)
  {
    BuiltIsSchedulable(built, RAM);
    ScheduleKeepsLogic(built, cells, v);
    BuiltIsOrdered(built, RAM);
    LaneSubtracts(GraphOf(built), v, q, w, j, NSUP);
  }

  /** What building and scheduling establish is all that the machine relies on. */
  lemma {:induction false} ScheduledPlan(built: seq<Cell>, cells: seq<Cell>, qs: seq<Ports>, ws: seq<SumWires>,
      js: seq<JumpWires>, steps: int)
    requires BuiltCells(built, RAM) && |built| == ROUND_CELLS && FanIn(built)
    requires AllPorts(GraphOf(built), qs) && |ws| == |js| == LANES
    requires forall l | 0 <= l < LANES :: LaneShape(GraphOf(built), qs[l], ws[l], js[l], NSUP)
    requires SameNetlist(built, cells) && Greedy(cells) && Deepest(cells, Below(|cells|), steps)
    ensures Plan(cells, qs, steps)
  {
    LaneSize();
    PortsOfLanes(built, cells, qs);
    ScheduleOnTime(built, cells, steps);
    AllLanesSubtract(built, cells, qs, ws, js);
    BuiltIsSchedulable(built, RAM);
    CodeFits(built, cells, qs, steps);
  }

  lemma {:induction false} ScheduleOnTime(built: seq<Cell>, cells: seq<Cell>, steps: int)
    requires BuiltCells(built, RAM) && |built| <= PAGE_SIZ
    requires SameNetlist(built, cells) && Greedy(cells) && Deepest(cells, Below(|cells|), steps)
    ensures OnTime(cells, steps)
  {
    GreedyIsFeasible(cells);
    PageOfLanes(built, cells);
    forall c | 0 <= c < |cells| ensures cells[c].complete <= steps {
      assert c in Below(|cells|);
    }
  }

  lemma {:induction false} AllLanesSubtract(built: seq<Cell>, cells: seq<Cell>, qs: seq<Ports>, ws: seq<SumWires>,
      js: seq<JumpWires>)
    requires BuiltCells(built, RAM) && |qs| == |ws| == |js|
    requires forall l | 0 <= l < |qs| :: LaneShape(GraphOf(built), qs[l], ws[l], js[l], NSUP)
    requires SameNetlist(built, cells) && Greedy(cells)
    ensures AllSubtract(cells, qs)
  {
    forall v, q | Consistent(v, GraphOf(cells)) && q in qs ensures Subtracts(v, q) {
      var l :| 0 <= l < |qs| && qs[l] == q;
      StateSubtracts(built, cells, q, ws[l], js[l], v);
    }
  }

  /** The program of a round fits into the ROM. */
  lemma {:induction false} CodeFits(built: seq<Cell>, cells: seq<Cell>, qs: seq<Ports>, steps: int)
    requires Backward(built) && FanIn(built) && SameNetlist(built, cells) && |built| == ROUND_CELLS
    requires Greedy(cells) && Deepest(cells, Below(|cells|), steps) && PortsExist(cells, qs) && SourcesExist(cells)
    ensures 8 * |RoundCode(cells, qs, steps)| <= ROM_SIZE
  {
    LaneSize();
    BackwardKept(built, cells);
    FanInKept(built, cells);
    forall c | c in Below(|cells|) ensures cells[c].complete <= 1 + 8 * ROUND_CELLS {
      DepthIsBounded(cells, c);
    }
    assert steps <= 1 + 8 * ROUND_CELLS;
    StepsSize(cells, RAM, steps);
    DueIsBounded(cells, |cells|, steps);
    assert |EmitSteps(cells, RAM, steps)| <= 2 * 8 * ROUND_CELLS;
  }

  // ----- generation

  /** The links of a program under construction: every instruction to the next. */
  function OpenLink(ops: seq<Micro>): (rom: seq<Instr>)
    ensures |rom| == |ops|
  {
    seq(|ops|, i requires 0 <= i < |ops| => Instr(ops[i].op, ops[i].dest, ops[i].from, 8 * (i + 1)))
  }

  /** Appends one instruction, linked to the address after it. */
  method PushOp(rom: seq<Instr>, counters: Counters, op: Op, dest: nat, from: nat, ghost ops: seq<Micro>)
    returns (rom': seq<Instr>)
    requires rom == OpenLink(ops) && counters.romAddr == 8 * |ops|
    modifies counters`romAddr
    ensures rom' == OpenLink(ops + [Micro(op, dest, from)]) && counters.romAddr == 8 * (|ops| + 1)
  {
    var next := counters.IncAddr();
    rom' := rom + [Instr(op, dest, from, next)];
  }

  lemma {:induction false} PortsOf(qs: seq<Ports>, l: nat, i: nat)
    requires Shaped(qs) && l < LANES && i < DIGIT
    ensures LoadCell(qs, 2 * (l * DIGIT + i)) == qs[l].ain[i] && LoadCell(qs, 2 * (l * DIGIT + i) + 1) == qs[l].bin[i]
    ensures SumCell(qs, l * DIGIT + i) == qs[l].sum[i]
  {
  }

  /** Input instruction t, as it is emitted for bit i of lane l. */
  lemma {:induction false} NextLoad(cells: seq<Cell>, qs: seq<Ports>, l: nat, i: nat)
    requires PortsExist(cells, qs) && l < LANES && i < DIGIT
    ensures qs[l].ain[i] < |cells| && qs[l].bin[i] < |cells|
    ensures Loads(cells, qs, l * DIGIT + i + 1) ==
            Loads(cells, qs, l * DIGIT + i) + [Micro(GetIn, cells[qs[l].bin[i]].addr, cells[qs[l].ain[i]].addr)]
  {
    PortsOf(qs, l, i);
  }

  lemma {:induction false} NextPush(cells: seq<Cell>, qs: seq<Ports>, l: nat, i: nat)
    requires PortsExist(cells, qs) && l < LANES && i < DIGIT
    ensures qs[l].sum[i].cell < |cells|
    ensures Pushes(cells, qs, l * DIGIT + i + 1) ==
            Pushes(cells, qs, l * DIGIT + i) + [Micro(PushOut, l, cells[qs[l].sum[i].cell].addr)]
  {
    PortsOf(qs, l, i);
  }

  /** The input section of one lane. */
  method EmitLaneLoads(rom: seq<Instr>, counters: Counters, cells: seq<Cell>, qs: seq<Ports>, l: nat,
      ghost ops: seq<Micro>)
    returns (rom': seq<Instr>)
    requires PortsExist(cells, qs) && l < LANES
    requires rom == OpenLink(ops + Loads(cells, qs, l * DIGIT)) && counters.romAddr == 8 * (|ops| + l * DIGIT)
    modifies counters`romAddr
    ensures rom' == OpenLink(ops + Loads(cells, qs, l * DIGIT + DIGIT))
    ensures counters.romAddr == 8 * (|ops| + l * DIGIT + DIGIT)
  {
    hide OpenLink, Loads;
    rom' := rom;
    for i := 0 to DIGIT
      invariant rom' == OpenLink(ops + Loads(cells, qs, l * DIGIT + i))
      invariant counters.romAddr == 8 * (|ops| + l * DIGIT + i)
    {
      ghost var done := Loads(cells, qs, l * DIGIT + i);
      NextLoad(cells, qs, l, i);
      rom' := PushOp(rom', counters, GetIn, cells[qs[l].bin[i]].addr, cells[qs[l].ain[i]].addr, ops + done);
      assert ops + Loads(cells, qs, l * DIGIT + i + 1) ==
             ops + done + [Micro(GetIn, cells[qs[l].bin[i]].addr, cells[qs[l].ain[i]].addr)];
    }
  }

  /** The input section. */
  method EmitLoads(rom: seq<Instr>, counters: Counters, cells: seq<Cell>, qs: seq<Ports>, ghost ops: seq<Micro>)
    returns (rom': seq<Instr>)
    requires PortsExist(cells, qs) && rom == OpenLink(ops) && counters.romAddr == 8 * |ops|
    modifies counters`romAddr
    ensures rom' == OpenLink(ops + Loads(cells, qs, INPUTS)) && counters.romAddr == 8 * (|ops| + INPUTS)
  {
    rom' := rom;
    assert ops + Loads(cells, qs, 0) == ops;
    for l := 0 to LANES
      invariant rom' == OpenLink(ops + Loads(cells, qs, l * DIGIT)) && counters.romAddr == 8 * (|ops| + l * DIGIT)
    {
      rom' := EmitLaneLoads(rom', counters, cells, qs, l, ops);
    }
  }

  /** One step: the writes due in it, cell by cell, then the program operation. */
  method EmitStep(rom: seq<Instr>, counters: Counters, cells: seq<Cell>, base: nat, s: int, ghost ops: seq<Micro>)
    returns (rom': seq<Instr>)
    requires SourcesExist(cells) && rom == OpenLink(ops) && counters.romAddr == 8 * |ops|
    modifies counters`romAddr
    ensures rom' == OpenLink(ops + EmitCells(cells, |cells|, s) + [Micro(PrgNand, base, 0)])
    ensures counters.romAddr == 8 * (|ops| + |EmitCells(cells, |cells|, s)| + 1)
  {
    rom' := rom;
    assert ops + EmitCells(cells, 0, s) == ops;
    for c := 0 to |cells|
      invariant rom' == OpenLink(ops + EmitCells(cells, c, s))
      invariant counters.romAddr == 8 * (|ops| + |EmitCells(cells, c, s)|)
    {
      ghost var before := ops + EmitCells(cells, c, s);
      assert before + EmitCell(cells, c, 0, s) == before;
      for j := 0 to |cells[c].ins|
        invariant rom' == OpenLink(before + EmitCell(cells, c, j, s))
        invariant counters.romAddr == 8 * (|before| + |EmitCell(cells, c, j, s)|)
      {
        ghost var done := before + EmitCell(cells, c, j, s);
        var w := cells[c].ins[j];
        if w.step == s {
          var op := if w.src.inv then InvMov else Mov;
          rom' := PushOp(rom', counters, op, cells[c].addr, cells[w.src.cell].addr, done);
          assert done + [Copy(cells, c, w)] == before + EmitCell(cells, c, j + 1, s);
        }
      }
      assert before + EmitCell(cells, c, |cells[c].ins|, s) == ops + EmitCells(cells, c + 1, s);
    }
    rom' := PushOp(rom', counters, PrgNand, base, 0, ops + EmitCells(cells, |cells|, s));
  }

  /** The output section of one lane. */
  method EmitLanePushes(rom: seq<Instr>, counters: Counters, cells: seq<Cell>, qs: seq<Ports>, l: nat,
      ghost ops: seq<Micro>)
    returns (rom': seq<Instr>)
    requires PortsExist(cells, qs) && l < LANES
    requires rom == OpenLink(ops + Pushes(cells, qs, l * DIGIT)) && counters.romAddr == 8 * (|ops| + l * DIGIT)
    modifies counters`romAddr
    ensures rom' == OpenLink(ops + Pushes(cells, qs, l * DIGIT + DIGIT))
    ensures counters.romAddr == 8 * (|ops| + l * DIGIT + DIGIT)
  {
    rom' := rom;
    for i := 0 to DIGIT
      invariant rom' == OpenLink(ops + Pushes(cells, qs, l * DIGIT + i))
      invariant counters.romAddr == 8 * (|ops| + l * DIGIT + i)
    {
      ghost var done := Pushes(cells, qs, l * DIGIT + i);
      NextPush(cells, qs, l, i);
      rom' := PushOp(rom', counters, PushOut, l, cells[qs[l].sum[i].cell].addr, ops + done);
      assert ops + Pushes(cells, qs, l * DIGIT + i + 1) ==
             ops + done + [Micro(PushOut, l, cells[qs[l].sum[i].cell].addr)];
    }
  }

  /** The output section. */
  method EmitPushes(rom: seq<Instr>, counters: Counters, cells: seq<Cell>, qs: seq<Ports>, ghost ops: seq<Micro>)
    returns (rom': seq<Instr>)
    requires PortsExist(cells, qs) && rom == OpenLink(ops) && counters.romAddr == 8 * |ops|
    modifies counters`romAddr
    ensures rom' == OpenLink(ops + Pushes(cells, qs, INPUTS)) && counters.romAddr == 8 * (|ops| + INPUTS)
  {
    rom' := rom;
    assert ops + Pushes(cells, qs, 0) == ops;
    for l := 0 to LANES
      invariant rom' == OpenLink(ops + Pushes(cells, qs, l * DIGIT)) && counters.romAddr == 8 * (|ops| + l * DIGIT)
    {
      rom' := EmitLanePushes(rom', counters, cells, qs, l, ops);
    }
  }

  method EmitRaises(rom: seq<Instr>, counters: Counters, cells: seq<Cell>, qs: seq<Ports>, ghost ops: seq<Micro>)
    returns (rom': seq<Instr>)
    requires PortsExist(cells, qs) && rom == OpenLink(ops) && counters.romAddr == 8 * |ops|
    modifies counters`romAddr
    ensures rom' == OpenLink(ops + Raises(cells, qs, LANES))
  {
    rom' := rom;
    assert ops + Raises(cells, qs, 0) == ops;
    for l := 0 to LANES
      invariant rom' == OpenLink(ops + Raises(cells, qs, l)) && counters.romAddr == 8 * (|ops| + l)
    {
      rom' := PushOp(rom', counters, Raise, l, cells[qs[l].isJmp.cell].addr, ops + Raises(cells, qs, l));
      assert ops + Raises(cells, qs, l + 1) ==
             ops + Raises(cells, qs, l) + [Micro(Raise, l, cells[qs[l].isJmp.cell].addr)];
    }
  }

  /** The steps of a round, from the second on. */
  method EmitAllSteps(rom: seq<Instr>, counters: Counters, cells: seq<Cell>, steps: int, base: nat,
      ghost ops: seq<Micro>)
    returns (rom': seq<Instr>)
    requires SourcesExist(cells) && base == RAM && steps >= 1 && rom == OpenLink(ops) && counters.romAddr == 8 * |ops|
    modifies counters`romAddr
    ensures rom' == OpenLink(ops + EmitSteps(cells, RAM, steps))
    ensures counters.romAddr == 8 * (|ops| + |EmitSteps(cells, RAM, steps)|)
  {
    rom' := rom;
    assert ops + EmitSteps(cells, RAM, 1) == ops;
    for s := 2 to steps + 1
      invariant rom' == OpenLink(ops + EmitSteps(cells, RAM, s - 1))
      invariant counters.romAddr == 8 * (|ops| + |EmitSteps(cells, RAM, s - 1)|)
    {
      ghost var done, code := ops + EmitSteps(cells, RAM, s - 1), EmitCells(cells, |cells|, s);
      rom' := EmitStep(rom', counters, cells, base, s, done);
      assert done + code + [Micro(PrgNand, base, 0)] == ops + EmitSteps(cells, RAM, s);
    }
  }

  /** Emits the code of a scheduled round. */
  method EmitRound(counters: Counters, cells: seq<Cell>, qs: seq<Ports>, steps: int,
      base: nat) returns (rom: seq<Instr>)
    requires PortsExist(cells, qs) && SourcesExist(cells) && base == RAM && steps >= 1 && counters.romAddr == 0
    modifies counters`romAddr
    ensures rom == OpenLink(RoundCode(cells, qs, steps))
  {
    ghost var loads, code, pushes := Loads(cells, qs, INPUTS), EmitSteps(cells, RAM, steps), Pushes(cells, qs, INPUTS);
    ghost var ops := [Micro(CapIn, 0, 0)];
    rom := PushOp([], counters, CapIn, 0, 0, []);
    assert [] + ops == ops;
    rom := EmitLoads(rom, counters, cells, qs, ops);
    rom := PushOp(rom, counters, PrgNand, base, 0, ops + loads);
    rom := EmitAllSteps(rom, counters, cells, steps, base, ops + loads + [PROGRAM_PAGE]);
    rom := EmitPushes(rom, counters, cells, qs, ops + loads + [PROGRAM_PAGE] + code);
    rom := EmitRaises(rom, counters, cells, qs, ops + loads + [PROGRAM_PAGE] + code + pushes);
  }

  /** The first lanes of a round, one after the other. */
  ghost predicate LanesBuilt(g: Graph, qs: seq<Ports>, ws: seq<SumWires>, js: seq<JumpWires>) {
    |qs| == |ws| == |js| && |g| == |qs| * LANE_CELLS &&
    forall l | 0 <= l < |qs| :: LanePorts(g, qs[l], l * LANE_CELLS) && LaneShape(g, qs[l], ws[l], js[l], NSUP)
  }

  /** All lanes of a round on one page. */
  method BuildLanes(net: Netlist) returns (qs: seq<Ports>, ghost ws: seq<SumWires>, ghost js: seq<JumpWires>)
    requires net.Built() && net.cells == []
    modifies net`cells, net.counters`calcAddr
    ensures net.Built() && FanIn(net.cells) && |qs| == LANES && LanesBuilt(net.Logic(), qs, ws, js)
  {
    qs, ws, js := [], [], [];
    for l := 0 to LANES
      invariant net.Built() && FanIn(net.cells) && |qs| == l && LanesBuilt(net.Logic(), qs, ws, js)
    {
      ghost var was := net.cells;
      var q;
      ghost var w, j;
      q, w, j := BuildLane(net, NSUP);
      AnotherLane(was, net.cells, qs, ws, js, q, w, j);
      qs, ws, js := qs + [q], ws + [w], js + [j];
    }
  }

  lemma {:induction false} AnotherLane(was: seq<Cell>, cells: seq<Cell>, qs: seq<Ports>, ws: seq<SumWires>,
      js: seq<JumpWires>, q: Ports, w: SumWires, j: JumpWires)
    requires LanesBuilt(GraphOf(was), qs, ws, js) && FanIn(was)
    requires LaneAppended(GraphOf(was), GraphOf(cells), q, NSUP) && LaneShape(GraphOf(cells), q, w, j, NSUP)
    ensures LanesBuilt(GraphOf(cells), qs + [q], ws + [w], js + [j]) && FanIn(cells)
  {
    hide LaneShape, LanePorts, FanIn, InputCells, NewGates, Within;
    var g, g' := GraphOf(was), GraphOf(cells);
    LaneSize();
    LaneJoins(was, cells, q, w, j);
    LaneFanIn(was, cells, q);
    forall l | 0 <= l <= |qs|
      ensures LanePorts(g', (qs + [q])[l], l * LANE_CELLS)
      ensures LaneShape(g', (qs + [q])[l], (ws + [w])[l], (js + [j])[l], NSUP)
    {
      if l < |qs| {
        LaneStays(g, g', qs[l], ws[l], js[l], l * LANE_CELLS);
      }
    }
  }

  lemma {:induction false} LaneStays(g: Graph, g': Graph, q: Ports, w: SumWires, j: JumpWires, start: nat)
    requires g <= g' && LanePorts(g, q, start) && LaneShape(g, q, w, j, NSUP)
    ensures LanePorts(g', q, start) && LaneShape(g', q, w, j, NSUP)
  {
    LaneGrows(g, g', q, w, j, NSUP);
    InputCellsGrow(g, g', start, q.ain, q.bin);
  }

  lemma {:induction false} InputCellsGrow(g: Graph, g': Graph, n0: nat, ain: seq<nat>, bin: seq<nat>)
    requires g <= g' && InputCells(g, n0, ain, bin)
    ensures InputCells(g', n0, ain, bin)
  {
  }

  /** A lane just appended has its ports in place and keeps the fan-in small. */
  lemma {:induction false} LaneJoins(was: seq<Cell>, cells: seq<Cell>, q: Ports, w: SumWires, j: JumpWires)
    requires LaneAppended(GraphOf(was), GraphOf(cells), q, NSUP)
    ensures LanePorts(GraphOf(cells), q, |was|)
  {
  }

  lemma {:induction false} LaneFanIn(was: seq<Cell>, cells: seq<Cell>, q: Ports)
    requires FanIn(was) && LaneAppended(GraphOf(was), GraphOf(cells), q, NSUP)
    ensures FanIn(cells)
  {
  }

  /** The lanes built are schedulable, and any greedy schedule of them is a plan. */
  lemma {:induction false} LanesPlanned(built: seq<Cell>, cells: seq<Cell>, qs: seq<Ports>, ws: seq<SumWires>,
      js: seq<JumpWires>, steps: int)
    requires BuiltCells(built, RAM) && FanIn(built) && |qs| == LANES && LanesBuilt(GraphOf(built), qs, ws, js)
    requires SameNetlist(built, cells) && Greedy(cells) && Deepest(cells, Below(|cells|), steps)
    ensures Plan(cells, qs, steps) && PortsExist(cells, qs) && SourcesExist(cells) && steps >= 1
  {
    LaneSize();
    ScheduledPlan(built, cells, qs, ws, js, steps);
  }

  /** Builds the lanes and schedules them.  Neither assertion of the code can fail: there is
      no loop, and the cells fit on one page. */
  method PlanRound(counters: Counters) returns (cells: seq<Cell>, qs: seq<Ports>, steps: int)
    requires counters.calcAddr == RAM
    modifies counters`calcAddr
    ensures Plan(cells, qs, steps) && PortsExist(cells, qs) && SourcesExist(cells) && steps >= 1
    ensures Greedy(cells) && Deepest(cells, Below(|cells|), steps) && counters.calcAddr - RAM <= PAGE_SIZ
  {
    var net := new Netlist(counters);
    ghost var ws, js;
    qs, ws, js := BuildLanes(net);
    ghost var built := net.cells;
    BuiltIsSchedulable(built, RAM);
    var ok;
    ok, steps := net.Schedule();
    assert ok;
    cells := net.cells;
    LanesPlanned(built, cells, qs, ws, js, steps);
    LaneSize();
  }

  /** Builds, schedules and emits one round. */
  method BuildRound(counters: Counters)
    returns (rom: seq<Instr>, ghost cells: seq<Cell>, ghost qs: seq<Ports>, ghost steps: int)
    requires counters.calcAddr == RAM && counters.romAddr == 0
    modifies counters
    ensures PortsExist(cells, qs) && SourcesExist(cells) && Plan(cells, qs, steps)
    ensures rom == OpenLink(RoundCode(cells, qs, steps))
    ensures Greedy(cells) && Deepest(cells, Below(|cells|), steps)
  {
    hide Plan, RoundCode, OpenLink, PortsExist, SourcesExist, Greedy, Deepest;
    counters.calcAddr := (counters.calcAddr + PAGE_SIZ - 1) / PAGE_SIZ * PAGE_SIZ;
    var pageBase := counters.calcAddr;
    var netCells, lanes, maxStep := PlanRound(counters);
    cells, qs, steps := netCells, lanes, maxStep;
    assert counters.calcAddr - pageBase <= PAGE_SIZ;
    rom := EmitRound(counters, netCells, lanes, maxStep, pageBase);
  }

  /** The ROM of the machine: one round, its last instruction linked back to the first. */
  method RomInit(counters: Counters)
    returns (rom: seq<Instr>, ghost cells: seq<Cell>, ghost qs: seq<Ports>, ghost steps: int)
    modifies counters
    ensures PortsExist(cells, qs) && SourcesExist(cells) && Plan(cells, qs, steps)
    ensures rom == Link(RoundCode(cells, qs, steps))
    ensures Greedy(cells) && Deepest(cells, Below(|cells|), steps)
  {
    counters.romAddr, counters.calcAddr := 0, RAM;
    rom, cells, qs, steps := BuildRound(counters);
    Sections(cells, qs, steps);
    assert 8 * |rom| <= ROM_SIZE;
    rom := rom[|rom| - 1 := rom[|rom| - 1].(next := 0)];
    assert rom == Link(RoundCode(cells, qs, steps));
  }
}
