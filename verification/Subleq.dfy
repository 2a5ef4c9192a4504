/** The SUBLEQ interpreter: every subtraction goes to the server, and a whole run is the run of
    a machine that subtracts natively. */
module Subleq {
  import opened Machine
  import opened Microcode
  import opened Round
  import opened Levelling
  import opened Nand
  import opened Cpu
  import opened Server

  const MEMORY := 0x100_0000  // words
  const PROTECTED := 0x60_0000  // words from here on are not written by subtractions

  datatype Status = Running | Halted | OutOfBounds

  /** The machine: the memory, the registers, what was written and the keys still to be read. */
  datatype Vm = Vm(code: seq<int64>, pc: int, ctrlc: bool, ctrlcCount: nat, output: seq<byte>, input: seq<int>,
      status: Status) {
    ghost predicate Valid() {
      |code| == MEMORY
    }
  }

  // ----- the native machine

  /** The wrapping difference. */
  function WrappedDifference(x: int64, y: int64): int64 {
    Int64((Unsigned(y) - Unsigned(x)) % U64)
  }

  /** The operands of the next instruction, and the cells they name, lie in memory. */
  ghost predicate WellAddressed(vm: Vm)
    requires vm.Valid()
  {
    vm.status == Running && 0 <= vm.pc < MEMORY ==>
      vm.pc + 2 < MEMORY &&
      var a, b := vm.code[vm.pc], vm.code[vm.pc + 1];
      (b == -1 ==> a >= 0) && (a == -1 || a == -2 ==> b >= 0)
  }

  function Stop(vm: Vm, s: Status): Vm {
    vm.(status := s)
  }

  function Key(vm: Vm): int {
    if vm.input == [] then -1 else vm.input[0]
  }

  /** Reading a key: Ctrl-C is noted, and the third in a row ends the run. */
  function ReadKey(vm: Vm, b: nat): (r: Vm)
    requires vm.Valid() && b < MEMORY && -1 <= Key(vm) < 256
    ensures r.Valid()
  {
    var ch := Key(vm);
    var count := if ch == 3 then vm.ctrlcCount + 1 else if ch == -1 then vm.ctrlcCount else 0;
    vm.(code := vm.code[b := ch], pc := vm.pc + 3, ctrlc := ch == 3, ctrlcCount := count,
        input := if vm.input == [] then [] else vm.input[1..],
        status := if ch == 3 && count > 2 then Halted else Running)
  }

  /** Subtract and branch if the difference is at most zero. */
  function SubtractBranch(vm: Vm, a: nat, b: nat, c: int64, result: int64, jump: bool): (r: Vm)
    requires vm.Valid() && a < MEMORY && b < MEMORY
    ensures r.Valid()
  {
    var w := if b < PROTECTED then vm.(code := vm.code[b := result]) else vm;
    if !jump then w.(pc := vm.pc + 3) else if c == -1 then Stop(w, Halted) else w.(pc := c)
  }

  /** The keys are bytes, or -1 for the end. */
  ghost predicate KeysOk(input: seq<int>) {
    forall k | 0 <= k < |input| :: -1 <= input[k] < 256
  }

  /** One instruction with native subtraction. */
  function Next(vm: Vm): (r: Vm)
    requires vm.Valid() && WellAddressed(vm) && KeysOk(vm.input)
    ensures r.Valid() && KeysOk(r.input)
  {
    if vm.status != Running then vm
    else if vm.pc >= MEMORY || vm.pc < 0 then Stop(vm, OutOfBounds)
    else
      var a, b, c := vm.code[vm.pc], vm.code[vm.pc + 1], vm.code[vm.pc + 2];
      if a >= MEMORY || b >= MEMORY then Stop(vm, OutOfBounds)
      else if b == -1 then vm.(output := vm.output + [Unsigned(vm.code[a]) % 256], pc := vm.pc + 3)
      else if a == -1 then ReadKey(vm, b)
      else if a == -2 then vm.(code := vm.code[b := if vm.ctrlc then 1 else 0], ctrlc := false, pc := vm.pc + 3)
      else if a < 0 || b < 0 then Stop(vm, OutOfBounds)
      else
        var d := WrappedDifference(vm.code[a], vm.code[b]);
        SubtractBranch(vm, a, b, c, d, d <= 0)
  }

  ghost predicate Sound(vm: Vm) {
    vm.Valid() && KeysOk(vm.input) && WellAddressed(vm)
  }

  /** The run stays well-addressed for n instructions. */
  ghost predicate SoundFor(vm: Vm, n: nat)
    decreases n
  {
    n == 0 || (Sound(vm) && SoundFor(Next(vm), n - 1))
  }

  function RunNative(vm: Vm, n: nat): (r: Vm)
    requires vm.Valid() && SoundFor(vm, n)
    ensures r.Valid()
    decreases n
  {
    if n == 0 then vm else RunNative(Next(vm), n - 1)
  }

  // ----- the protected words

  /** The word that the next instruction may write without regard to protection. */
  ghost predicate WritesInput(vm: Vm, k: nat)
    requires Sound(vm) && k < MEMORY
  {
    vm.status == Running && 0 <= vm.pc < MEMORY && vm.code[vm.pc] in {-1, -2} && vm.code[vm.pc + 1] == k
  }

  lemma {:induction false} ProtectedStep(vm: Vm, k: nat)
    requires Sound(vm) && PROTECTED <= k < MEMORY && !WritesInput(vm, k)
    ensures Next(vm).code[k] == vm.code[k]
  {
  }

  /** No instruction of the run reads a key or the Ctrl-C flag into word k. */
  ghost predicate NoInputTo(vm: Vm, n: nat, k: nat)
    requires vm.Valid() && SoundFor(vm, n) && k < MEMORY
    decreases n
  {
    n == 0 || (!WritesInput(vm, k) && NoInputTo(Next(vm), n - 1, k))
  }

  /** Protected words change only through input and the Ctrl-C check. */
  lemma {:induction false} ProtectedRun(vm: Vm, n: nat, k: nat)
    requires vm.Valid() && SoundFor(vm, n) && PROTECTED <= k < MEMORY && NoInputTo(vm, n, k)
    ensures RunNative(vm, n).code[k] == vm.code[k]
    decreases n
  {
    if n > 0 {
      ProtectedStep(vm, k);
      ProtectedRun(Next(vm), n - 1, k);
    }
  }

  // ----- the branch on the stored word

  /** The disabled test looks at the stored word, which a protected cell does not take. */
  predicate StoredTest(x: int64, y: int64, b: nat) {
    (if b < PROTECTED then WrappedDifference(x, y) else y) <= 0
  }

  /** It decides as the server does for all words exactly when the cell is not protected. */
  lemma {:induction false} TestsAgree(b: nat)
    ensures (forall x: int64, y: int64 {:trigger StoredTest(x, y, b)} ::
               StoredTest(x, y, b) == (WrappedDifference(x, y) <= 0)) <==>
            b < PROTECTED
  {
    if b >= PROTECTED {
      assert StoredTest(7, 5, b) != (WrappedDifference(7, 5) <= 0);
    }
  }

  // ----- the interpreter as an object

  /** Who shares the round of a subtraction, and in which mode the server is. */
  datatype Traffic = Traffic(before: seq<Request>, after: seq<Request>, boost: bool) {
    predicate Fits() {
      |before| + 1 + |after| <= LANES
    }
  }

  /** The memory with a program in it and the numbers 0 to 255 among the protected words. */
  function Memory(program: seq<int64>): (code: seq<int64>)
    requires |program| <= MEMORY
    ensures |code| == MEMORY
  {
    seq(MEMORY, k requires 0 <= k =>
      if PROTECTED <= k < PROTECTED + 256 then k - PROTECTED else if k < |program| then program[k] else 0)
  }

  function Boot(program: seq<int64>, keys: seq<int>): (vm: Vm)
    requires |program| <= MEMORY
    ensures vm.Valid()
  {
    Vm(Memory(program), 0, false, 0, [], keys, Running)
  }

  class Interpreter {
    const code: array<int64>
    var pc: int
    var ctrlc: bool
    var ctrlcCount: nat
    var output: seq<byte>
    var input: seq<int>
    var status: Status

    ghost function State(): Vm
      reads this, code
    {
      Vm(code[..], pc, ctrlc, ctrlcCount, output, input, status)
    }

    /** A program in memory, with the protected table of the numbers 0 to 255. */
    constructor (program: seq<int64>, keys: seq<int>)
      requires |program| <= MEMORY && KeysOk(keys)
      ensures State() == Boot(program, keys) && fresh(code)
    {
      code := new int64[MEMORY](i => 0);
      pc, ctrlc, ctrlcCount, output, input, status := 0, false, 0, [], keys, Running;
      new;
      for i := 0 to |program|
        modifies code
        invariant forall k | 0 <= k < MEMORY :: code[k] == if k < i then program[k] else 0
      {
        code[i] := program[i];
      }
      for i := 0 to 256
        modifies code
        invariant forall k | 0 <= k < MEMORY ::
                    code[k] ==
                    if PROTECTED <= k < PROTECTED + i then k - PROTECTED else if k < |program| then program[k] else 0
      {
        code[PROTECTED + i] := i;
      }
      assert code[..] == Memory(program);
    }

    /** The request goes to the server with whatever else shares its round. */
    method Subtract(cpu: CPU, x: int64, y: int64, t: Traffic) returns (resp: Response)
      requires cpu.Ready() && SafeSize(cpu.nandSize) && t.Fits()
      modifies cpu.Repr()
      ensures cpu.Ready() && cpu.nandSize == old(cpu.nandSize)
      ensures resp == Direct(Request(x, y))
    {
      var answers := ProcessRequests(cpu, t.before + [Request(x, y)] + t.after, t.boost);
      resp := answers[|t.before|];
    }

    /** Reads a key into a word. */
    method Read(b: nat)
      requires State().Valid() && b < MEMORY && KeysOk(input)
      modifies this, code
      ensures State() == ReadKey(old(State()), b)
    {
      ctrlc := false;
      var ch := -1;
      if input != [] {
        ch := input[0];
        input := input[1..];
      }
      status := Running;
      if ch != -1 {
        if ch == 3 {
          ctrlc := true;
          ctrlcCount := ctrlcCount + 1;
          if ctrlcCount > 2 {
            status := Halted;
          }
        } else {
          ctrlcCount := 0;
        }
      }
      code[b] := ch;
      pc := pc + 3;
    }

    /** Subtracts through the server, stores unless the word is protected, and branches. */
    method SubtractAndBranch(cpu: CPU, a: nat, b: nat, c: int64, t: Traffic)
      requires cpu.Ready() && SafeSize(cpu.nandSize) && t.Fits() && {this, code} !! cpu.Repr()
      requires State().Valid() && a < MEMORY && b < MEMORY
      modifies this, code, cpu.Repr()
      ensures cpu.Ready() && cpu.nandSize == old(cpu.nandSize)
      ensures var s := old(State()); var d := WrappedDifference(s.code[a], s.code[b]);
              State() == SubtractBranch(s, a, b, c, d, d <= 0)
    {
      var resp := Subtract(cpu, code[a], code[b], t);
      if b < PROTECTED {
        code[b] := resp.c;
      }
      if resp.isNonPositive {
        if c == -1 {
          status := Halted;
        } else {
          pc := c;
        }
      } else {
        pc := pc + 3;
      }
    }

    /** One turn of the interpreter's loop: exactly one native instruction. */
    method Step(cpu: CPU, t: Traffic)
      requires cpu.Ready() && SafeSize(cpu.nandSize) && t.Fits() && {this, code} !! cpu.Repr()
      requires Sound(State()) && status == Running
      modifies this, code, cpu.Repr()
      ensures cpu.Ready() && cpu.nandSize == old(cpu.nandSize)
      ensures State() == Next(old(State()))
    {
      if pc >= MEMORY || pc < 0 {
        status := OutOfBounds;
        return;
      }
      var a, b, c := code[pc], code[pc + 1], code[pc + 2];
      if a >= MEMORY || b >= MEMORY {
        status := OutOfBounds;
      } else if b == -1 {
        output := output + [Unsigned(code[a]) % 256];
        pc := pc + 3;
      } else if a == -1 {
        Read(b);
      } else if a == -2 {
        code[b] := if ctrlc then 1 else 0;
        ctrlc := false;
        pc := pc + 3;
      } else if a < 0 || b < 0 {
        status := OutOfBounds;
      } else {
        SubtractAndBranch(cpu, a, b, c, t);
      }
    }

    /** The interpreter's loop, for at most |ts| turns: the run of the native machine. */
    method Run(cpu: CPU, ts: seq<Traffic>)
      requires cpu.Ready() && SafeSize(cpu.nandSize) && {this, code} !! cpu.Repr()
      requires forall i | 0 <= i < |ts| :: ts[i].Fits()
      requires State().Valid() && SoundFor(State(), |ts|)
      modifies this, code, cpu.Repr()
      ensures cpu.Ready() && State() == RunNative(old(State()), |ts|)
    {
      var i := 0;
      while i < |ts| && status == Running
        invariant i <= |ts| && cpu.Ready() && cpu.nandSize == old(cpu.nandSize) && {this, code} !! cpu.Repr()
        invariant State().Valid() && SoundFor(State(), |ts| - i)
        invariant RunNative(State(), |ts| - i) == RunNative(old(State()), |ts|)
      {
        Step(cpu, ts[i]);
        i := i + 1;
      }
      if status != Running {
        StoppedStays(State(), |ts| - i);
      }
    }
  }

  lemma {:induction false} StoppedStays(vm: Vm, n: nat)
    requires vm.Valid() && SoundFor(vm, n) && vm.status != Running
    ensures RunNative(vm, n) == vm
    decreases n
  {
    if n > 0 {
      StoppedStays(vm, n - 1);
    }
  }

  /** A program on any device of whole blocks: what it leaves and prints is what the native
      machine does. */
  method Launch(dev: NandInterface, program: seq<int64>, keys: seq<int>, ts: seq<Traffic>)
    returns (code: seq<int64>, output: seq<byte>, status: Status)
    requires RAM + PAGE_SIZ <= |dev.mem| < U32 && WholeBlocks(|dev.mem|)
    requires |program| <= MEMORY && KeysOk(keys) && SoundFor(Boot(program, keys), |ts|)
    requires forall i | 0 <= i < |ts| :: ts[i].Fits()
    modifies dev
    ensures var vm := RunNative(Boot(program, keys), |ts|);
            code == vm.code && output == vm.output && status == vm.status
  {
    hide SoundFor, RunNative, Boot;
    BlocksAreSafe(|dev.mem|);
    var cpu := new CPU(dev);
    var interpreter := new Interpreter(program, keys);
    interpreter.Run(cpu, ts);
    code, output, status := interpreter.code[..], interpreter.output, interpreter.status;
  }
}
