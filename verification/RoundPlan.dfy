/** The program of a round: load the inputs of all lanes, program the page step by step,
    push out the sums and raise the jump flags. */
module RoundPlan {
  import opened Graph
  import opened Circuit
  import opened Lane
  import opened Cells
  import opened Schedule
  import opened Microcode
  import opened Compile
  import opened Machine
  import opened Runs
  import opened Control

  const INPUTS := LANES * DIGIT

  predicate Shaped(qs: seq<Ports>) {
    |qs| == LANES && forall l | 0 <= l < LANES :: |qs[l].ain| == |qs[l].bin| == |qs[l].sum| == DIGIT
  }

  /** The cells that take an input, in the order in which the code loads them. */
  function LoadCell(qs: seq<Ports>, u: nat): nat
    requires Shaped(qs) && u < 2 * INPUTS
  {
    var l, i := u / 2 / DIGIT, u / 2 % DIGIT;
    if u % 2 == 0 then qs[l].ain[i] else qs[l].bin[i]
  }

  function SumCell(qs: seq<Ports>, t: nat): Sig
    requires Shaped(qs) && t < INPUTS
  {
    qs[t / DIGIT].sum[t % DIGIT]
  }

  /** Every port is a cell; no two inputs share one; outputs are read straight. */
  ghost predicate PortsExist(cells: seq<Cell>, qs: seq<Ports>) {
    Shaped(qs) &&
    (forall u | 0 <= u < 2 * INPUTS :: LoadCell(qs, u) < |cells|) &&
    (forall t | 0 <= t < INPUTS :: SumCell(qs, t).cell < |cells| && !SumCell(qs, t).inv) &&
    forall l | 0 <= l < LANES :: qs[l].isJmp.cell < |cells| && !qs[l].isJmp.inv
  }

  /** The first t input instructions; each loads bit i of b and of a. */
  function Loads(cells: seq<Cell>, qs: seq<Ports>, t: nat): (ops: seq<Micro>)
    requires PortsExist(cells, qs) && t <= INPUTS
    ensures |ops| == t
    ensures forall i | 0 <= i < t ::
              ops[i] == Micro(GetIn, cells[LoadCell(qs, 2 * i + 1)].addr, cells[LoadCell(qs, 2 * i)].addr)
  {
    if t == 0 then []
    else Loads(cells, qs, t - 1) +
         [Micro(GetIn, cells[LoadCell(qs, 2 * (t - 1) + 1)].addr, cells[LoadCell(qs, 2 * (t - 1))].addr)]
  }

  /** The first t output instructions. */
  function Pushes(cells: seq<Cell>, qs: seq<Ports>, t: nat): (ops: seq<Micro>)
    requires PortsExist(cells, qs) && t <= INPUTS
    ensures |ops| == t
    ensures forall i | 0 <= i < t :: ops[i] == Micro(PushOut, i / DIGIT, cells[SumCell(qs, i).cell].addr)
  {
    if t == 0 then []
    else Pushes(cells, qs, t - 1) + [Micro(PushOut, (t - 1) / DIGIT, cells[SumCell(qs, t - 1).cell].addr)]
  }

  function Raises(cells: seq<Cell>, qs: seq<Ports>, n: nat): (ops: seq<Micro>)
    requires PortsExist(cells, qs) && n <= LANES
    ensures |ops| == n
    ensures forall l | 0 <= l < n :: ops[l] == Micro(Raise, l, cells[qs[l].isJmp.cell].addr)
  {
    if n == 0 then []
    else Raises(cells, qs, n - 1) + [Micro(Raise, n - 1, cells[qs[n - 1].isJmp.cell].addr)]
  }

  const PROGRAM_PAGE := Micro(PrgNand, RAM, 0)

  function RoundCode(cells: seq<Cell>, qs: seq<Ports>, steps: int): seq<Micro>
    requires PortsExist(cells, qs) && SourcesExist(cells)
  {
    [Micro(CapIn, 0, 0)] + Loads(cells, qs, INPUTS) + [PROGRAM_PAGE] + EmitSteps(cells, RAM, steps) +
    Pushes(cells, qs, INPUTS) + Raises(cells, qs, LANES)
  }

  /** A feasible schedule, complete after so many steps, of cells on the first page. */
  ghost predicate OnTime(cells: seq<Cell>, steps: int) {
    Feasible(cells) && OnOnePage(cells, RAM) && steps >= 1 &&
    forall c | 0 <= c < |cells| :: cells[c].complete <= steps
  }

  /** The loaded cells are inputs of the netlist, in increasing order. */
  ghost predicate InputsInOrder(cells: seq<Cell>, qs: seq<Ports>)
    requires PortsExist(cells, qs)
  {
    (forall u | 0 <= u < 2 * INPUTS :: cells[LoadCell(qs, u)].ins == []) &&
    forall u, u' | 0 <= u < u' < 2 * INPUTS :: LoadCell(qs, u) < LoadCell(qs, u')
  }

  /** Every state of the netlist subtracts in every lane. */
  ghost predicate AllSubtract(cells: seq<Cell>, qs: seq<Ports>) {
    forall v | Consistent(v, GraphOf(cells)) :: forall q | q in qs :: Subtracts(v, q)
  }

  /** Everything the machine relies on: a feasible schedule on one page, whose every state
      subtracts in every lane, and a program that fits into the ROM. */
  ghost predicate Plan(cells: seq<Cell>, qs: seq<Ports>, steps: int) {
    PortsExist(cells, qs) && OnTime(cells, steps) && InputsInOrder(cells, qs) && AllSubtract(cells, qs) &&
    8 * |RoundCode(cells, qs, steps)| <= ROM_SIZE
  }

  // ----- where the sections of the program lie

  const LOADS_AT := 1
  const FIRST_PROGRAM_AT := 1 + INPUTS
  const STEPS_AT := 2 + INPUTS

  function PushesAt(cells: seq<Cell>, steps: int): nat
    requires SourcesExist(cells)
  {
    STEPS_AT + |EmitSteps(cells, RAM, steps)|
  }

  function RaisesAt(cells: seq<Cell>, steps: int): nat
    requires SourcesExist(cells)
  {
    PushesAt(cells, steps) + INPUTS
  }

  /** Where six consecutive parts lie in their concatenation. */
  lemma {:induction false} SixParts<T>(a: seq<T>, b: seq<T>, c: seq<T>, d: seq<T>, e: seq<T>, f: seq<T>)
    ensures var ops, n := a + b + c + d + e + f, |a| + |b| + |c|;
            ops[..|a|] == a && ops[|a|..|a| + |b|] == b && ops[|a| + |b|..n] == c &&
            ops[n..n + |d|] == d && ops[n + |d|..n + |d| + |e|] == e && ops[n + |d| + |e|..] == f
  {
  }

  lemma {:induction false} Sections(cells: seq<Cell>, qs: seq<Ports>, steps: int)
    requires PortsExist(cells, qs) && SourcesExist(cells)
    ensures var ops := RoundCode(cells, qs, steps);
            |ops| == RaisesAt(cells, steps) + LANES &&
            ops[0] == Micro(CapIn, 0, 0) && ops[FIRST_PROGRAM_AT] == PROGRAM_PAGE &&
            ops[LOADS_AT..FIRST_PROGRAM_AT] == Loads(cells, qs, INPUTS) &&
            ops[STEPS_AT..PushesAt(cells, steps)] == EmitSteps(cells, RAM, steps) &&
            ops[PushesAt(cells, steps)..RaisesAt(cells, steps)] == Pushes(cells, qs, INPUTS) &&
            ops[RaisesAt(cells, steps)..] == Raises(cells, qs, LANES)
  {
    var ops := RoundCode(cells, qs, steps);
    SixParts([Micro(CapIn, 0, 0)], Loads(cells, qs, INPUTS), [PROGRAM_PAGE],
             EmitSteps(cells, RAM, steps), Pushes(cells, qs, INPUTS), Raises(cells, qs, LANES));
    assert ops[..LOADS_AT][0] == ops[0];
    assert ops[FIRST_PROGRAM_AT..STEPS_AT][0] == ops[FIRST_PROGRAM_AT];
  }

  /** The instructions between load and output work inside the page. */
  predicate Computes(m: Micro) {
    ((m.op == Mov || m.op == InvMov) && RAM <= m.dest < RAM + PAGE_SIZ && RAM <= m.from < RAM + PAGE_SIZ) ||
    m == PROGRAM_PAGE
  }

  lemma {:induction false} CellComputes(cells: seq<Cell>, c: nat, j: nat, s: int)
    requires OnOnePage(cells, RAM) && c < |cells| && j <= |cells[c].ins|
    ensures forall i | 0 <= i < |EmitCell(cells, c, j, s)| :: Computes(EmitCell(cells, c, j, s)[i])
  {
    if j > 0 {
      CellComputes(cells, c, j - 1, s);
    }
  }

  lemma {:induction false} CellsCompute(cells: seq<Cell>, n: nat, s: int)
    requires OnOnePage(cells, RAM) && n <= |cells|
    ensures forall i | 0 <= i < |EmitCells(cells, n, s)| :: Computes(EmitCells(cells, n, s)[i])
  {
    if n > 0 {
      CellsCompute(cells, n - 1, s);
      CellComputes(cells, n - 1, |cells[n - 1].ins|, s);
    }
  }

  lemma {:induction false} StepsCompute(cells: seq<Cell>, s: int)
    requires OnOnePage(cells, RAM)
    ensures forall i | 0 <= i < |EmitSteps(cells, RAM, s)| :: Computes(EmitSteps(cells, RAM, s)[i])
    decreases s
  {
    if s >= 2 {
      StepsCompute(cells, s - 1);
      CellsCompute(cells, |cells|, s);
    }
  }

  // ----- the instructions one by one

  lemma {:induction false} LoadAt(cells: seq<Cell>, qs: seq<Ports>, steps: int, j: nat)
    requires PortsExist(cells, qs) && OnOnePage(cells, RAM) && j < INPUTS
    ensures LOADS_AT + j < |RoundCode(cells, qs, steps)|
    ensures RoundCode(cells, qs, steps)[LOADS_AT + j] ==
            Micro(GetIn, RAM + LoadCell(qs, 2 * j + 1), RAM + LoadCell(qs, 2 * j))
  {
    Sections(cells, qs, steps);
    assert RoundCode(cells, qs, steps)[LOADS_AT..FIRST_PROGRAM_AT][j] == Loads(cells, qs, INPUTS)[j];
  }

  lemma {:induction false} ComputeAt(cells: seq<Cell>, qs: seq<Ports>, steps: int, j: nat)
    requires PortsExist(cells, qs) && OnOnePage(cells, RAM) && j < |EmitSteps(cells, RAM, steps)|
    ensures STEPS_AT + j < |RoundCode(cells, qs, steps)|
    ensures RoundCode(cells, qs, steps)[STEPS_AT + j] == EmitSteps(cells, RAM, steps)[j]
    ensures Computes(RoundCode(cells, qs, steps)[STEPS_AT + j])
  {
    Sections(cells, qs, steps);
    assert RoundCode(cells, qs, steps)[STEPS_AT..PushesAt(cells, steps)][j] == EmitSteps(cells, RAM, steps)[j];
    StepsCompute(cells, steps);
  }

  lemma {:induction false} PushAt(cells: seq<Cell>, qs: seq<Ports>, steps: int, j: nat)
    requires PortsExist(cells, qs) && OnOnePage(cells, RAM) && j < INPUTS
    ensures PushesAt(cells, steps) + j < |RoundCode(cells, qs, steps)|
    ensures RoundCode(cells, qs, steps)[PushesAt(cells, steps) + j] ==
            Micro(PushOut, j / DIGIT, RAM + SumCell(qs, j).cell)
  {
  }

  lemma {:induction false} RaiseAt(cells: seq<Cell>, qs: seq<Ports>, steps: int, l: nat)
    requires PortsExist(cells, qs) && OnOnePage(cells, RAM) && l < LANES
    ensures RaisesAt(cells, steps) + l < |RoundCode(cells, qs, steps)| == RaisesAt(cells, steps) + LANES
    ensures RoundCode(cells, qs, steps)[RaisesAt(cells, steps) + l] == Micro(Raise, l, RAM + qs[l].isJmp.cell)
  {
  }

  /** One of the kinds of instruction the sections consist of; `last` marks the end of the round. */
  predicate Instruction(m: Micro, last: bool) {
    (last ==> m.op == Raise && m.dest == LANES - 1) &&
    (m == Micro(CapIn, 0, 0) || Computes(m) ||
     (RAM <= m.from < RAM + PAGE_SIZ &&
      ((m.op == GetIn && RAM <= m.dest < RAM + PAGE_SIZ) ||
       (m.op == PushOut && m.dest < LANES) ||
       (m.op == Raise && m.dest < LANES && (m.dest == LANES - 1 ==> last)))))
  }

  /** The sections of a program, by position. */
  ghost predicate LoadsIn(ops: seq<Micro>, qs: seq<Ports>) {
    Shaped(qs) && FIRST_PROGRAM_AT < |ops| && ops[0] == Micro(CapIn, 0, 0) && ops[FIRST_PROGRAM_AT] == PROGRAM_PAGE &&
    (forall u | 0 <= u < 2 * INPUTS :: LoadCell(qs, u) < PAGE_SIZ) &&
    forall j | 0 <= j < INPUTS ::
      ops[LOADS_AT + j] == Micro(GetIn, RAM + LoadCell(qs, 2 * j + 1), RAM + LoadCell(qs, 2 * j))
  }

  ghost predicate CodeIn(ops: seq<Micro>, code: seq<Micro>) {
    STEPS_AT + |code| < |ops| &&
    forall j | 0 <= j < |code| :: ops[STEPS_AT + j] == code[j] && Computes(code[j])
  }

  ghost predicate PushesIn(ops: seq<Micro>, p: nat, qs: seq<Ports>) {
    Shaped(qs) && p + INPUTS < |ops| &&
    forall j | 0 <= j < INPUTS ::
      SumCell(qs, j).cell < PAGE_SIZ && !SumCell(qs, j).inv &&
      ops[p + j] == Micro(PushOut, j / DIGIT, RAM + SumCell(qs, j).cell)
  }

  ghost predicate RaisesIn(ops: seq<Micro>, qs: seq<Ports>) {
    Shaped(qs) && |ops| >= LANES &&
    forall l | 0 <= l < LANES ::
      qs[l].isJmp.cell < PAGE_SIZ && !qs[l].isJmp.inv &&
      ops[|ops| - LANES + l] == Micro(Raise, l, RAM + qs[l].isJmp.cell)
  }

  lemma {:induction false} PlanSections(cells: seq<Cell>, qs: seq<Ports>, steps: int)
    requires PortsExist(cells, qs) && OnOnePage(cells, RAM)
    ensures var ops := RoundCode(cells, qs, steps);
            LoadsIn(ops, qs) && CodeIn(ops, EmitSteps(cells, RAM, steps)) &&
            PushesIn(ops, PushesAt(cells, steps), qs) && RaisesIn(ops, qs) &&
            PushesAt(cells, steps) + INPUTS == |ops| - LANES
  {
    Sections(cells, qs, steps);
    forall j | 0 <= j < INPUTS
      ensures RoundCode(cells, qs, steps)[LOADS_AT + j] ==
              Micro(GetIn, RAM + LoadCell(qs, 2 * j + 1), RAM + LoadCell(qs, 2 * j))
      ensures RoundCode(cells, qs, steps)[PushesAt(cells, steps) + j] ==
              Micro(PushOut, j / DIGIT, RAM + SumCell(qs, j).cell)
    {
      LoadAt(cells, qs, steps, j);
      PushAt(cells, qs, steps, j);
    }
    forall j | 0 <= j < |EmitSteps(cells, RAM, steps)|
      ensures RoundCode(cells, qs, steps)[STEPS_AT + j] == EmitSteps(cells, RAM, steps)[j]
      ensures Computes(EmitSteps(cells, RAM, steps)[j])
    {
      ComputeAt(cells, qs, steps, j);
    }
    forall l | 0 <= l < LANES
      ensures RoundCode(cells, qs, steps)[RaisesAt(cells, steps) + l] == Micro(Raise, l, RAM + qs[l].isJmp.cell)
    {
      RaiseAt(cells, qs, steps, l);
    }
  }

  lemma {:induction false} InstructionShape(ops: seq<Micro>, qs: seq<Ports>, code: seq<Micro>, i: nat)
    requires LoadsIn(ops, qs) && CodeIn(ops, code) && PushesIn(ops, STEPS_AT + |code|, qs) && RaisesIn(ops, qs)
    requires STEPS_AT + |code| + INPUTS == |ops| - LANES && i < |ops|
    ensures Instruction(ops[i], i == |ops| - 1)
  {
    var p := STEPS_AT + |code|;
    if i == 0 || i == FIRST_PROGRAM_AT {
    } else if i < FIRST_PROGRAM_AT {
      var j := i - LOADS_AT;
      assert ops[LOADS_AT + j] == Micro(GetIn, RAM + LoadCell(qs, 2 * j + 1), RAM + LoadCell(qs, 2 * j));
    } else if i < p {
      var j := i - STEPS_AT;
      assert ops[STEPS_AT + j] == code[j] && Computes(code[j]);
    } else if i < p + INPUTS {
      var j := i - p;
      assert SumCell(qs, j).cell < PAGE_SIZ && ops[p + j] == Micro(PushOut, j / DIGIT, RAM + SumCell(qs, j).cell);
    } else {
      var l := i - (|ops| - LANES);
      assert qs[l].isJmp.cell < PAGE_SIZ && ops[|ops| - LANES + l] == Micro(Raise, l, RAM + qs[l].isJmp.cell);
    }
  }

  /** The program runs from ROM, and only its last instruction ends the round. */
  lemma {:induction false} PlanLoadable(cells: seq<Cell>, qs: seq<Ports>, steps: int)
    requires Plan(cells, qs, steps)
    ensures Loadable(RoundCode(cells, qs, steps))
    ensures forall i | 0 <= i < |RoundCode(cells, qs, steps)| - 1 :: Quiet(RoundCode(cells, qs, steps)[i])
  {
    var ops := RoundCode(cells, qs, steps);
    PlanSections(cells, qs, steps);
    forall i | 0 <= i < |ops|
      ensures ops[i].dest < FIELD && ops[i].from < FIELD && ops[i].op != Erase
      ensures (ops[i].op == PrgNand ==> ops[i].dest == RAM)
      ensures i < |ops| - 1 ==> Quiet(ops[i])
    {
      InstructionShape(ops, qs, EmitSteps(cells, RAM, steps), i);
    }
  }
}
