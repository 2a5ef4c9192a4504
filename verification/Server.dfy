/** The server: requests share a round of the processor, one per lane. */
module Server {
  import opened Circuit
  import opened Cells
  import opened Microcode
  import opened Machine
  import opened Runs
  import opened Control
  import opened RoundPlan
  import opened Round
  import opened Wear
  import opened Levelling
  import opened Nand
  import opened Cpu

  type int64 = x: int | -0x8000_0000_0000_0000 <= x < 0x8000_0000_0000_0000

  datatype Request = Request(a: int64, b: int64)
  datatype Response = Response(c: int64, isNonPositive: bool)

  /** The cast of a signed word to an unsigned one. */
  function Unsigned(x: int64): u64 {
    if x >= 0 then x else x + U64
  }

  /** The answer computed directly: the wrapped difference and its sign. */
  function Direct(r: Request): Response {
    var c := Int64((Unsigned(r.b) - Unsigned(r.a)) % U64);
    Response(c, c <= 0)
  }

  /** The 64-bit difference is the true one unless that leaves the signed range. */
  lemma {:induction false} DirectIsDifference(r: Request)
    ensures var d := r.b - r.a;
            Direct(r).c ==
            if d >= 0x8000_0000_0000_0000 then d - U64 else if d < -0x8000_0000_0000_0000 then d + U64 else d
  {
  }

  lemma {:induction false} LaneAnswers(r: Request, out: u64, isJmp: bool)
    requires LaneResult(Unsigned(r.a), Unsigned(r.b), out, isJmp)
    ensures Response(Int64(out), isJmp) == Direct(r)
  {
  }

  // ----- a round of the processor as a run without faults

  /** A run so far: each state follows from the one before. */
  ghost predicate Follows(tr: seq<State>) {
    tr != [] && (forall i | 0 <= i < |tr| :: tr[i].Valid()) && forall i | 0 <= i < |tr| - 1 :: tr[i + 1] == Step(tr[i])
  }

  lemma {:induction false} FaultlessRun(tr: seq<State>)
    requires Follows(tr)
    ensures FaultyRun(tr, ALL_COLUMNS)
  {
    forall i | 0 <= i < |tr| - 1 ensures Agree(Step(tr[i]), tr[i + 1], ALL_COLUMNS) {
    }
  }

  lemma {:induction false} FollowsOn(tr: seq<State>, t: State)
    requires Follows(tr) && t == Step(tr[|tr| - 1])
    ensures Follows(tr + [t])
  {
  }

  /** The signal comes with the last instruction of the program and not before. */
  lemma {:induction false} NextInRun(s: State, ops: seq<Micro>, k: nat)
    requires Loadable(ops) && AtInstr(s, ops, k) && IsRound(ops)
    ensures Step(s).signal <==> k == |ops| - 1
    ensures k < |ops| - 1 ==> AtInstr(Step(s), ops, k + 1)
  {
    if k < |ops| - 1 {
      AdvanceExactly(s, ops, k);
    } else {
      LastStep(s, ops);
    }
  }

  ghost predicate RunOf(tr: seq<State>, s: State, t: State, n: nat) {
    Follows(tr) && |tr| == n + 1 && tr[0] == s && tr[n] == t
  }

  /** Fetches and executes instruction k; tr is the run so far. */
  method OneInstruction(cpu: CPU, ghost ops: seq<Micro>, ghost k: nat, ghost tr: seq<State>, ghost first: State)
    returns (ghost tr': seq<State>)
    requires cpu.Laid() && Loadable(ops) && AtInstr(cpu.Model(), ops, k) && IsRound(ops)
    requires RunOf(tr, first, cpu.Model(), k)
    modifies cpu.Repr()
    ensures cpu.Laid() && cpu.romSize == old(cpu.romSize)
    ensures RunOf(tr', first, cpu.Model(), k + 1)
    ensures cpu.signal <==> k == |ops| - 1
    ensures k < |ops| - 1 ==> AtInstr(cpu.Model(), ops, k + 1)
  {
    assert cpu.pc == 8 * k;
    ghost var s := cpu.Model();
    var i := cpu.Fetch();
    cpu.Execute(i);
    NextInRun(s, ops, k);
    FollowsOn(tr, Step(s));
    tr' := tr + [cpu.Model()];
  }

  /** Runs the processor until it signals, for at most as many instructions as the ROM holds. */
  method RunRound(cpu: CPU, ghost ops: seq<Micro>) returns (ghost tr: seq<State>)
    requires cpu.Laid() && Loadable(ops) && AtInstr(cpu.Model(), ops, 0) && cpu.romSize == |ops|
    requires IsRound(ops)
    modifies cpu.Repr()
    ensures cpu.Laid() && cpu.romSize == |ops|
    ensures RunOf(tr, old(cpu.Model()), cpu.Model(), |ops|)
  {
    ghost var first := cpu.Model();
    tr := [first];
    var n := cpu.GetRomSize();
    var k := 0;
    while k < n
      invariant 0 <= k <= n == |ops| && cpu.Laid() && cpu.romSize == n
      invariant RunOf(tr, first, cpu.Model(), k)
      invariant k < n ==> AtInstr(cpu.Model(), ops, k)
    {
      tr := OneInstruction(cpu, ops, k, tr, first);
      k := k + 1;
      if cpu.signal {
        break;
      }
    }
  }

  /** On a device of safe size the invariant is renewed by every round. */
  lemma {:induction false} SafeRenews(s: State)
    requires OnPage(s) && SafeSize(s.nandSize)
    ensures Current(s) + 2 * PAGE_SIZ <= s.nandSize || EraseDue(s.pageOffset + PAGE_SIZ, s.nandSize)
  {
  }

  /** What a round of the processor does between two states. */
  lemma {:induction false} RoundAnswers(tr: seq<State>, s: State, t: State, cells: seq<Cell>, qs: seq<Ports>,
      steps: int)
    requires Plan(cells, qs, steps) && Loadable(RoundCode(cells, qs, steps))
    requires RunOf(tr, s, t, |RoundCode(cells, qs, steps)|)
    requires Between(s, RoundCode(cells, qs, steps), ALL_COLUMNS) && SafeSize(s.nandSize)
    ensures Between(t, RoundCode(cells, qs, steps), ALL_COLUMNS) && t.nandSize == s.nandSize
    ensures forall l | 0 <= l < LANES :: LaneResult(s.inA[l], s.inB[l], t.out[l], t.isJmp[l])
  {
    FaultlessRun(tr);
    BetweenIsErased(s, RoundCode(cells, qs, steps), ALL_COLUMNS);
    RoundComputes(tr, ALL_COLUMNS, cells, qs, steps);
    RoundRenews(tr, ALL_COLUMNS, cells, qs, steps);
    SafeRenews(s);
  }

  /** Boost mode: every request is computed directly. */
  method AnswerDirectly(reqs: seq<Request>) returns (resp: seq<Response>)
    ensures |resp| == |reqs| && forall i | 0 <= i < |reqs| :: resp[i] == Direct(reqs[i])
  {
    resp := [];
    for i := 0 to |reqs|
      invariant |resp| == i && forall k | 0 <= k < i :: resp[k] == Direct(reqs[k])
    {
      var c: int64 := Int64((Unsigned(reqs[i].b) - Unsigned(reqs[i].a)) % U64);
      resp := resp + [Response(c, c <= 0)];
    }
  }

  /** The input of lane l; lanes without a request get zeros. */
  function InputA(reqs: seq<Request>, l: nat): u64 {
    if l < |reqs| then Unsigned(reqs[l].a) else 0
  }

  function InputB(reqs: seq<Request>, l: nat): u64 {
    if l < |reqs| then Unsigned(reqs[l].b) else 0
  }

  method SetInputs(cpu: CPU, reqs: seq<Request>)
    requires cpu.Ready()
    modifies cpu.inA, cpu.inB
    ensures cpu.Ready() && cpu.Model() == old(cpu.Model()).(inA := cpu.inA[..], inB := cpu.inB[..])
    ensures forall l | 0 <= l < LANES :: cpu.inA[l] == InputA(reqs, l) && cpu.inB[l] == InputB(reqs, l)
  {
    for i := 0 to LANES
      invariant cpu.Laid() && cpu.Model() == old(cpu.Model()).(inA := cpu.inA[..], inB := cpu.inB[..])
      invariant forall l | 0 <= l < i :: cpu.inA[l] == InputA(reqs, l) && cpu.inB[l] == InputB(reqs, l)
    {
      cpu.inA[i] := InputA(reqs, i);
      cpu.inB[i] := InputB(reqs, i);
    }
    InputsKeepBetween(old(cpu.Model()), cpu.Model(), RoundCode(cpu.cells, cpu.qs, cpu.steps), ALL_COLUMNS);
  }

  /** One round with the requests in the lanes. */
  method RunBatch(cpu: CPU, reqs: seq<Request>)
    requires cpu.Ready() && SafeSize(cpu.nandSize) && |reqs| <= LANES
    modifies cpu.Repr()
    ensures cpu.Ready() && cpu.nandSize == old(cpu.nandSize)
    ensures forall l | 0 <= l < LANES :: LaneResult(InputA(reqs, l), InputB(reqs, l), cpu.out[l], cpu.isJmp[l])
  {
    SetInputs(cpu, reqs);
    ghost var s := cpu.Model();
    PlanInstructions(cpu.cells, cpu.qs, cpu.steps);
    ghost var tr := RunRound(cpu, RoundCode(cpu.cells, cpu.qs, cpu.steps));
    RoundAnswers(tr, s, cpu.Model(), cpu.cells, cpu.qs, cpu.steps);
  }

  /** Processor mode: the requests share one round. */
  method AnswerByRound(cpu: CPU, reqs: seq<Request>) returns (resp: seq<Response>)
    requires cpu.Ready() && SafeSize(cpu.nandSize) && |reqs| <= LANES
    modifies cpu.Repr()
    ensures |resp| == |reqs| && forall i | 0 <= i < |reqs| :: resp[i] == Direct(reqs[i])
    ensures cpu.Ready() && cpu.nandSize == old(cpu.nandSize)
  {
    RunBatch(cpu, reqs);
    resp := [];
    for i := 0 to |reqs|
      modifies {}
      invariant |resp| == i && forall k | 0 <= k < i :: resp[k] == Direct(reqs[k])
    {
      LaneAnswers(reqs[i], cpu.out[i], cpu.isJmp[i]);
      resp := resp + [Response(Int64(cpu.out[i]), cpu.isJmp[i])];
    }
  }

  /** Either way every request of a batch gets its own answer, and the processor stays ready. */
  method ProcessRequests(cpu: CPU, reqs: seq<Request>, boost: bool) returns (resp: seq<Response>)
    requires cpu.Ready() && SafeSize(cpu.nandSize) && 1 <= |reqs| <= LANES
    modifies cpu.Repr()
    ensures |resp| == |reqs| && forall i | 0 <= i < |reqs| :: resp[i] == Direct(reqs[i])
    ensures cpu.Ready() && cpu.nandSize == old(cpu.nandSize)
    ensures boost ==> cpu.Model() == old(cpu.Model())
  {
    if boost {
      resp := AnswerDirectly(reqs);
    } else {
      resp := AnswerByRound(cpu, reqs);
    }
  }

  ghost predicate Answered(reqs: seq<Request>, resp: seq<Response>) {
    |resp| == |reqs| && forall i | 0 <= i < |reqs| :: resp[i] == Direct(reqs[i])
  }

  /** A worker, on any device of whole blocks: every request of every batch gets its own
      answer, whatever the flash held before and however the mode changes. */
  method Serve(dev: NandInterface, batches: seq<seq<Request>>, boosts: seq<bool>) returns (resps: seq<seq<Response>>)
    requires RAM + PAGE_SIZ <= |dev.mem| < U32 && WholeBlocks(|dev.mem|)
    requires |boosts| == |batches| && forall k | 0 <= k < |batches| :: 1 <= |batches[k]| <= LANES
    modifies dev
    ensures |resps| == |batches| && forall k | 0 <= k < |batches| :: Answered(batches[k], resps[k])
  {
    BlocksAreSafe(|dev.mem|);
    var cpu := new CPU(dev);
    resps := [];
    for i := 0 to |batches|
      invariant cpu.Ready() && SafeSize(cpu.nandSize)
      invariant |resps| == i && forall k | 0 <= k < i :: Answered(batches[k], resps[k])
    {
      var resp := ProcessRequests(cpu, batches[i], boosts[i]);
      resps := resps + [resp];
    }
  }
}
