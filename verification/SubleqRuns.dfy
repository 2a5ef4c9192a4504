/** Runs of well-known SUBLEQ programs, and what the other kinds of instruction do to a run. */
module SubleqRuns {
  import opened Machine
  import opened Server
  import opened Subleq

  /** The machine is about to execute these words. */
  ghost predicate At(vm: Vm, words: seq<int64>) {
    vm.Valid() && KeysOk(vm.input) && vm.status == Running &&
    0 <= vm.pc && vm.pc + |words| <= MEMORY && vm.code[vm.pc..vm.pc + |words|] == words
  }

  /** A cell outside the next n words. */
  ghost predicate Data(vm: Vm, x: int, n: nat) {
    0 <= x < MEMORY && !(vm.pc <= x < vm.pc + n)
  }

  /** A data cell that subtractions write to. */
  ghost predicate Variable(vm: Vm, x: int, n: nat) {
    Data(vm, x, n) && x < PROTECTED
  }

  /** r is y - x in 64 bits; there is only one such r. */
  ghost predicate Minus(y: int, x: int, r: int64) {
    (y - x - r) % U64 == 0
  }

  lemma {:induction false} MinusIsUnique(y: int, x: int, r: int64, s: int64)
    requires Minus(y, x, r) && Minus(y, x, s)
    ensures r == s
  {
    var m, n := (y - x - r) / U64, (y - x - s) / U64;
    assert y - x - r == m * U64 && y - x - s == n * U64;
    assert s - r == (m - n) * U64;
  }

  lemma {:induction false} DifferenceIsMinus(x: int64, y: int64)
    ensures Minus(y, x, WrappedDifference(x, y))
  {
    var d := y - x;
    var u := (Unsigned(y) - Unsigned(x)) % U64;
    var e := Unsigned(y) - Unsigned(x);
    assert e == d || e == d + U64 || e == d - U64;
  }

  /** One subtraction between cells of memory. */
  lemma {:induction false} SubtractStep(vm: Vm, a: int64, b: int64, c: int64, v: int64)
    requires At(vm, [a, b, c]) && 0 <= a < MEMORY && 0 <= b < MEMORY && Minus(vm.code[b], vm.code[a], v)
    ensures Sound(vm)
    ensures var code := if b < PROTECTED then vm.code[b := v] else vm.code;
            Next(vm) ==
            if v > 0 then vm.(code := code, pc := vm.pc + 3)
            else if c == -1 then vm.(code := code, status := Halted)
            else vm.(code := code, pc := c)
  {
    var words := vm.code[vm.pc..vm.pc + 3];
    assert words[0] == vm.code[vm.pc] && words[1] == vm.code[vm.pc + 1] && words[2] == vm.code[vm.pc + 2];
    DifferenceIsMinus(vm.code[a], vm.code[b]);
    MinusIsUnique(vm.code[b], vm.code[a], v, WrappedDifference(vm.code[a], vm.code[b]));
  }

  lemma {:induction false} Continues(vm: Vm, w: Vm, words: seq<int64>, k: nat)
    requires At(vm, words) && k <= |words| && w.Valid() && KeysOk(w.input) && w.status == Running
    requires w.pc == vm.pc + k && forall i | vm.pc + k <= i < vm.pc + |words| :: w.code[i] == vm.code[i]
    ensures At(w, words[k..])
  {
    forall i | 0 <= i < |words| - k ensures w.code[w.pc + i] == words[k..][i] {
      assert vm.code[vm.pc..vm.pc + |words|][k + i] == vm.code[vm.pc + k + i];
    }
  }

  lemma {:induction false} Prefix(vm: Vm, words: seq<int64>, k: nat)
    requires At(vm, words) && k <= |words|
    ensures At(vm, words[..k])
  {
    assert vm.code[vm.pc..vm.pc + k] == vm.code[vm.pc..vm.pc + |words|][..k];
  }

  lemma {:induction false} RunOne(vm: Vm)
    requires Sound(vm)
    ensures SoundFor(vm, 1) && RunNative(vm, 1) == Next(vm)
  {
    assert SoundFor(Next(vm), 0);
    assert RunNative(Next(vm), 0) == Next(vm);
  }

  lemma {:induction false} RunMore(vm: Vm, m: nat, n: nat)
    requires vm.Valid() && SoundFor(vm, m) && SoundFor(RunNative(vm, m), n)
    ensures SoundFor(vm, m + n) && RunNative(vm, m + n) == RunNative(RunNative(vm, m), n)
    decreases m
  {
    if m > 0 {
      RunMore(Next(vm), m - 1, n);
    }
  }

  // ----- subtractions

  /** Subtracting a cell from itself goes to the third word, or halts; below the protected words
      it leaves 0, and it changes nothing else. */
  lemma {:induction false} SelfSubtractionJumps(vm: Vm, z: int64, c: int64)
    requires At(vm, [z, z, c]) && 0 <= z < MEMORY
    ensures SoundFor(vm, 1)
    ensures var w := if z < 0x60_0000 then vm.(code := vm.code[z := 0]) else vm;
            RunNative(vm, 1) == if c == -1 then w.(status := Halted) else w.(pc := c)
  {
    SubtractStep(vm, z, z, c, 0);
    RunOne(vm);
  }

  /** A subtraction that goes on with the next instruction either way. */
  lemma {:induction false} SubtractOn(vm: Vm, words: seq<int64>, a: int64, b: int64, v: int64)
    requires At(vm, words) && |words| >= 3 && words[0] == a && words[1] == b && words[2] == vm.pc + 3
    requires 0 <= a < MEMORY && Variable(vm, b, |words|) && Minus(vm.code[b], vm.code[a], v)
    ensures SoundFor(vm, 1)
    ensures var w := vm.(code := vm.code[b := v], pc := vm.pc + 3); RunNative(vm, 1) == w && At(w, words[3..])
  {
    Prefix(vm, words, 3);
    assert words[..3] == [a, b, words[2]];
    SubtractStep(vm, a, b, words[2], v);
    RunOne(vm);
    Continues(vm, vm.(code := vm.code[b := v], pc := vm.pc + 3), words, 3);
  }

  lemma {:induction false} MinusExists(y: int64, x: int64) returns (v: int64)
    ensures Minus(y, x, v)
  {
    v := WrappedDifference(x, y);
    DifferenceIsMinus(x, y);
  }

  /** The three-instruction addition with an auxiliary cell z. */
  function AddProgram(p: nat, a: int64, b: int64, z: int64): (words: seq<int64>)
    requires p + 9 <= MEMORY
  {
    [a, z, p + 3, z, b, p + 6, z, z, p + 9]
  }

  /** It leaves the sum in 64 bits, also of a cell and itself, and the auxiliary cell at 0. */
  lemma {:induction false} AddProgramAdds(vm: Vm, a: int64, b: int64, z: int64) returns (v: int64)
    requires 0 <= vm.pc && vm.pc + 9 <= MEMORY && At(vm, AddProgram(vm.pc, a, b, z))
    requires Data(vm, a, 9) && Variable(vm, b, 9) && Variable(vm, z, 9) && z != a && z != b && vm.code[z] == 0
    ensures (vm.code[a] + vm.code[b] - v) % U64 == 0
    ensures SoundFor(vm, 3) && RunNative(vm, 3) == vm.(code := vm.code[b := v], pc := vm.pc + 9)
  {
    hide RunNative, SoundFor, Minus, At, Variable, Data;
    var p, words := vm.pc, AddProgram(vm.pc, a, b, z);
    AddCells(vm, a, b, z);
    var m := MinusExists(0, vm.code[a]);
    v := MinusExists(vm.code[b], m);
    var vm1 := vm.(code := vm.code[z := m], pc := p + 3);
    var vm2 := vm1.(code := vm1.code[b := v], pc := p + 6);
    SubtractOn(vm, words, a, z, m);
    StillVariable(vm, vm1, b, words);
    SubtractOn(vm1, words[3..], z, b, v);
    assert words[3..][3..] == [z, z, p + 9];
    SelfSubtractionJumps(vm2, z, p + 9);
    RunMore(vm, 1, 1);
    RunMore(vm, 2, 1);
    SumOfMinus(vm.code[a], vm.code[b], m, v);
    assert vm2.code[z := 0] == vm.code[b := v];
  }

  lemma {:induction false} AddCells(vm: Vm, a: int64, b: int64, z: int64)
    requires 0 <= vm.pc && vm.pc + 9 <= MEMORY && At(vm, AddProgram(vm.pc, a, b, z))
    requires Data(vm, a, 9) && Variable(vm, b, 9) && Variable(vm, z, 9)
    ensures |vm.code| == MEMORY && 0 <= a < MEMORY && 0 <= b < 0x60_0000 && 0 <= z < 0x60_0000
  {
  }

  lemma {:induction false} StillVariable(vm: Vm, w: Vm, x: int, words: seq<int64>)
    requires Variable(vm, x, |words|) && w.pc == vm.pc + 3 && |words| >= 3
    ensures Variable(w, x, |words[3..]|)
  {
  }

  lemma {:induction false} SumOfMinus(x: int, y: int, m: int64, v: int64)
    requires Minus(0, x, m) && Minus(y, m, v)
    ensures (x + y - v) % U64 == 0
  {
    var j, k := (0 - x - m) / U64, (y - m - v) / U64;
    assert 0 - x - m == j * U64 && y - m - v == k * U64;
    assert x + y - v == (k - j) * U64;
  }

  // ----- loops

  /** Counts cell k up by one (cell m holds -1), counts cell n down by one (cell o holds 1), halts
      when that is done, and begins again. */
  function CountdownProgram(p: nat, k: int64, m: int64, n: int64, o: int64, z: int64): (words: seq<int64>)
    requires p + 9 <= MEMORY
  {
    [m, k, p + 3, o, n, -1, z, z, p]
  }

  ghost predicate Countdown(vm: Vm, k: int64, m: int64, n: int64, o: int64, z: int64) {
    0 <= vm.pc && vm.pc + 9 <= MEMORY && At(vm, CountdownProgram(vm.pc, k, m, n, o, z)) &&
    Variable(vm, k, 9) && Variable(vm, n, 9) && Variable(vm, z, 9) && Data(vm, m, 9) && Data(vm, o, 9) &&
    k != n && k != z && n != z && k != m && n != m && z != m && k != o && n != o && z != o &&
    vm.code[m] == -1 && vm.code[o] == 1 && vm.code[z] == 0 && vm.code[n] > 0
  }

  lemma {:induction false} CountdownCells(vm: Vm, k: int64, m: int64, n: int64, o: int64, z: int64)
    requires Countdown(vm, k, m, n, o, z)
    ensures vm.Valid() && 0 <= vm.pc && vm.pc + 9 <= MEMORY && At(vm, CountdownProgram(vm.pc, k, m, n, o, z))
    ensures 0 <= m < MEMORY && 0 <= o < MEMORY && 0 <= k < PROTECTED && 0 <= n < PROTECTED && 0 <= z < PROTECTED
    ensures Variable(vm, k, 9) && Variable(vm, n, 9)
    ensures k != n && k != z && n != z && n != m && o != k && vm.code[m] == -1 && vm.code[o] == 1
    ensures vm.code[z] == 0 && vm.code[n] > 0
  {
  }

  /** The body and the countdown. */
  lemma {:induction false} CountdownHalf(vm: Vm, k: int64, m: int64, n: int64, o: int64, z: int64, v: int64,
      left: int64)
    requires Countdown(vm, k, m, n, o, z) && Minus(vm.code[k], -1, v) && left == vm.code[n] - 1
    ensures SoundFor(vm, 2)
    ensures var w := vm.(code := vm.code[k := v][n := left]);
            RunNative(vm, 2) == if left == 0 then w.(pc := vm.pc + 3, status := Halted) else w.(pc := vm.pc + 6)
  {
    hide RunNative, SoundFor, Minus, At, Variable, Countdown;
    CountdownCells(vm, k, m, n, o, z);
    var words := CountdownProgram(vm.pc, k, m, n, o, z);
    var vm1 := vm.(code := vm.code[k := v], pc := vm.pc + 3);
    SubtractOn(vm, words, m, k, v);
    Prefix(vm1, words[3..], 3);
    assert words[3..][..3] == [o, n, -1];
    OneLess(vm.code[n], left);
    SubtractStep(vm1, o, n, -1, left);
    RunOne(vm1);
    RunMore(vm, 1, 1);
  }

  lemma {:induction false} OneLess(n: int64, left: int64)
    requires left == n - 1
    ensures Minus(n, 1, left)
  {
  }

  /** The state in which the next turn begins. */
  lemma {:induction false} NextTurn(vm: Vm, w: Vm, k: int64, m: int64, n: int64, o: int64, z: int64, v: int64,
      left: int64)
    requires Countdown(vm, k, m, n, o, z) && left > 0 && w == vm.(code := vm.code[k := v][n := left])
    ensures Countdown(w, k, m, n, o, z)
    ensures At(w.(pc := vm.pc + 6), [z, z, vm.pc])
  {
    var words := CountdownProgram(vm.pc, k, m, n, o, z);
    Continues(vm, w, words, 0);
    assert words[0..] == words;
    Continues(vm, w.(pc := vm.pc + 6), words, 6);
    assert words[6..] == [z, z, vm.pc];
  }

  /** A whole turn, with the jump back. */
  lemma {:induction false} CountdownTurn(vm: Vm, k: int64, m: int64, n: int64, o: int64, z: int64, v: int64,
      left: int64)
    requires Countdown(vm, k, m, n, o, z) && Minus(vm.code[k], -1, v) && left == vm.code[n] - 1 > 0
    ensures SoundFor(vm, 3)
    ensures var w := vm.(code := vm.code[k := v][n := left]); RunNative(vm, 3) == w && Countdown(w, k, m, n, o, z)
  {
    hide RunNative, SoundFor, Minus, At, Variable, Countdown;
    CountdownCells(vm, k, m, n, o, z);
    var w := vm.(code := vm.code[k := v][n := left]);
    CountdownHalf(vm, k, m, n, o, z, v, left);
    NextTurn(vm, w, k, m, n, o, z, v, left);
    CountdownCells(w, k, m, n, o, z);
    SelfSubtractionJumps(w.(pc := vm.pc + 6), z, vm.pc);
    RunMore(vm, 2, 1);
    assert w.code[z := 0] == w.code;
  }

  /** From n > 0 the body runs exactly n times, and then the machine halts. */
  lemma {:induction false} CountdownCounts(vm: Vm, k: int64, m: int64, n: int64, o: int64, z: int64, turns: nat)
    returns (v: int64)
    requires Countdown(vm, k, m, n, o, z) && turns == vm.code[n]
    ensures turns > 0 && (vm.code[k] + turns - v) % U64 == 0 && SoundFor(vm, 3 * turns - 1)
    ensures RunNative(vm, 3 * turns - 1) == vm.(code := vm.code[k := v][n := 0], pc := vm.pc + 3, status := Halted)
    decreases turns
  {
    hide RunNative, SoundFor, Countdown, Minus;
    CountdownCells(vm, k, m, n, o, z);
    var up := MinusExists(vm.code[k], -1);
    if turns == 1 {
      CountdownHalf(vm, k, m, n, o, z, up, 0);
      v := up;
      CountUp(vm.code[k], 1, up, v);
    } else {
      var left: int64 := turns - 1;
      var w := vm.(code := vm.code[k := up][n := left]);
      CountdownTurn(vm, k, m, n, o, z, up, left);
      v := CountdownCounts(w, k, m, n, o, z, turns - 1);
      RunMore(vm, 3, 3 * (turns - 1) - 1);
      CountUp(vm.code[k], turns, up, v);
      assert w.code[k := v][n := 0] == vm.code[k := v][n := 0];
    }
  }

  lemma {:induction false} CountUp(x: int, n: int, up: int64, v: int64)
    requires Minus(x, -1, up) && (up + (n - 1) - v) % U64 == 0
    ensures (x + n - v) % U64 == 0
  {
    var i, j := (x + 1 - up) / U64, (up + (n - 1) - v) / U64;
    assert x + 1 - up == i * U64 && up + (n - 1) - v == j * U64;
    assert x + n - v == (i + j) * U64;
  }

  // ----- output

  /** The cell is written as one byte, its value modulo 256, and nothing else changes. */
  lemma {:induction false} OutputsByte(vm: Vm, a: int64, c: int64) returns (y: byte)
    requires At(vm, [a, -1, c]) && 0 <= a < MEMORY
    ensures (vm.code[a] - y) % 256 == 0
    ensures SoundFor(vm, 1) && RunNative(vm, 1) == vm.(output := vm.output + [y], pc := vm.pc + 3)
  {
    var words := vm.code[vm.pc..vm.pc + 3];
    assert words[0] == vm.code[vm.pc] && words[1] == vm.code[vm.pc + 1];
    y := Unsigned(vm.code[a]) % 256;
    LowByte(vm.code[a]);
    RunOne(vm);
  }

  lemma {:induction false} LowByte(x: int64)
    ensures (x - Unsigned(x) % 256) % 256 == 0
  {
    var u := Unsigned(x);
    var q, r := u / 256, u % 256;
    MultipleOf256(q, u - r);
    MultipleOf256(q - U64 / 256, u - r - U64);
    assert x == u || x == u - U64;
  }

  lemma {:induction false} MultipleOf256(q: int, x: int)
    requires x == 256 * q
    ensures x % 256 == 0
  {
  }

  /** The first instruction of a program can print any byte from the table, whose addresses begin
      at 0x600000 whatever the program is. */
  lemma {:induction false} PrintsFromTable(program: seq<int64>, keys: seq<int>, i: byte, c: int64)
    requires 3 <= |program| <= MEMORY && program[..3] == [0x60_0000 + i, -1, c] && KeysOk(keys)
    ensures SoundFor(Boot(program, keys), 1) && RunNative(Boot(program, keys), 1).output == [i]
  {
    var vm := Boot(program, keys);
    assert program[0] == program[..3][0] && program[1] == program[..3][1] && program[2] == program[..3][2];
    assert vm.code[vm.pc..vm.pc + 3] == [0x60_0000 + i, -1, c];
    var y := OutputsByte(vm, 0x60_0000 + i, c);
    SmallDifference(i, y);
  }

  lemma {:induction false} SmallDifference(x: byte, y: byte)
    requires (x - y) % 256 == 0
    ensures x == y
  {
  }

  // ----- input

  /** Key j of the input; behind its end every key reads as -1. */
  function KeyAt(input: seq<int>, j: nat): int {
    if j < |input| then input[j] else -1
  }

  function Rest(input: seq<int>, j: nat): seq<int> {
    if j <= |input| then input[j..] else []
  }

  /** Key j is a Ctrl-C, and there are two others before it with no other key since the first. */
  ghost predicate ThirdInARow(input: seq<int>, j: nat) {
    KeyAt(input, j) == 3 &&
    exists i, k {:trigger KeyAt(input, i), KeyAt(input, k)} |
      0 <= i < k < j :: KeyAt(input, i) == 3 && KeyAt(input, k) == 3 && OnlyCtrlC(input, i, j)
  }

  /** Between these keys there are only Ctrl-Cs and ends of input. */
  ghost predicate OnlyCtrlC(input: seq<int>, i: nat, j: nat) {
    forall k | i < k < j :: KeyAt(input, k) == 3 || KeyAt(input, k) == -1
  }

  /** The Ctrl-Cs among the first j keys with no other key since. */
  function Streak(input: seq<int>, j: nat): nat {
    if j == 0 then 0
    else if KeyAt(input, j - 1) == 3 then Streak(input, j - 1) + 1
    else if KeyAt(input, j - 1) == -1 then Streak(input, j - 1)
    else 0
  }

  ghost predicate OneInARow(input: seq<int>, j: nat) {
    exists i {:trigger KeyAt(input, i)} | 0 <= i < j :: KeyAt(input, i) == 3 && OnlyCtrlC(input, i, j)
  }

  ghost predicate TwoInARow(input: seq<int>, j: nat) {
    exists i, k {:trigger KeyAt(input, i), KeyAt(input, k)} |
      0 <= i < k < j :: KeyAt(input, i) == 3 && KeyAt(input, k) == 3 && OnlyCtrlC(input, i, j)
  }

  lemma {:induction false} OnlyCtrlCMore(input: seq<int>, i: nat, j: nat)
    requires i < j
    ensures OnlyCtrlC(input, i, j + 1) <==> OnlyCtrlC(input, i, j) && (KeyAt(input, j) == 3 || KeyAt(input, j) == -1)
  {
  }

  lemma {:induction false} StreakOfOne(input: seq<int>, j: nat)
    ensures Streak(input, j) >= 1 <==> OneInARow(input, j)
  {
    if j > 0 {
      StreakOfOne(input, j - 1);
      if i :| 0 <= i < j && KeyAt(input, i) == 3 && OnlyCtrlC(input, i, j) {
        if i < j - 1 {
          OnlyCtrlCMore(input, i, j - 1);
        }
      }
      if KeyAt(input, j - 1) == 3 {
        assert OnlyCtrlC(input, j - 1, j);
      } else if KeyAt(input, j - 1) == -1 {
        if i :| 0 <= i < j - 1 && KeyAt(input, i) == 3 && OnlyCtrlC(input, i, j - 1) {
          OnlyCtrlCMore(input, i, j - 1);
        }
      }
    }
  }

  lemma {:induction false} StreakOfTwo(input: seq<int>, j: nat)
    ensures Streak(input, j) >= 2 <==> TwoInARow(input, j)
  {
    if j > 0 {
      StreakOfOne(input, j - 1);
      StreakOfTwo(input, j - 1);
      TwoMore(input, j - 1);
    }
  }

  lemma {:induction false} TwoMore(input: seq<int>, j: nat)
    ensures TwoInARow(input, j + 1) <==>
            if KeyAt(input, j) == 3 then OneInARow(input, j)
            else KeyAt(input, j) == -1 && TwoInARow(input, j)
  {
    if i, k :| 0 <= i < k < j + 1 && KeyAt(input, i) == 3 && KeyAt(input, k) == 3 && OnlyCtrlC(input, i, j + 1) {
      OnlyCtrlCMore(input, i, j);
      assert OneInARow(input, j);
    }
    if KeyAt(input, j) == 3 && OneInARow(input, j) {
      var i :| 0 <= i < j && KeyAt(input, i) == 3 && OnlyCtrlC(input, i, j);
      OnlyCtrlCMore(input, i, j);
      assert KeyAt(input, j) == 3;
    }
    if KeyAt(input, j) == -1 && TwoInARow(input, j) {
      var i, k :| 0 <= i < k < j && KeyAt(input, i) == 3 && KeyAt(input, k) == 3 && OnlyCtrlC(input, i, j);
      OnlyCtrlCMore(input, i, j);
    }
  }

  lemma {:induction false} ThirdOfStreak(input: seq<int>, j: nat)
    ensures ThirdInARow(input, j) <==> KeyAt(input, j) == 3 && Streak(input, j) >= 2
  {
    StreakOfTwo(input, j);
  }

  /** The next m instructions read a key into cell b. */
  ghost predicate ReadsNext(vm: Vm, b: int64, m: nat) {
    vm.Valid() && KeysOk(vm.input) && vm.status == Running && 0 <= vm.pc && vm.pc + 3 * m <= MEMORY &&
    Data(vm, b, 3 * m) &&
    forall i {:trigger vm.code[vm.pc + 3 * i]} | 0 <= i < m ::
      vm.code[vm.pc + 3 * i] == -1 && vm.code[vm.pc + 3 * i + 1] == b
  }

  /** After j of them without a halt: the key is in the cell, and the machine knows whether it is
      a Ctrl-C. */
  function AfterReads(vm: Vm, b: int64, j: nat): (r: Vm)
    requires vm.Valid() && 0 <= b < MEMORY && KeysOk(vm.input)
    ensures r.Valid() && KeysOk(r.input)
  {
    if j == 0 then vm
    else
      vm.(code := vm.code[b := KeyAt(vm.input, j - 1)], pc := vm.pc + 3 * j, input := Rest(vm.input, j),
          ctrlc := KeyAt(vm.input, j - 1) == 3, ctrlcCount := Streak(vm.input, j))
  }

  lemma {:induction false} ReadStep(vm: Vm, b: int64, m: nat, j: nat)
    requires ReadsNext(vm, b, m) && j < m && vm.ctrlcCount == 0
    ensures var w := AfterReads(vm, b, j);
            Sound(w) && Next(w) == if ThirdInARow(vm.input, j) then AfterReads(vm, b, j + 1).(status := Halted)
                                   else AfterReads(vm, b, j + 1)
  {
    ThirdOfStreak(vm.input, j);
    var w := AfterReads(vm, b, j);
    assert vm.code[vm.pc + 3 * j] == -1;
    assert w.code[w.pc] == -1 && w.code[w.pc + 1] == b;
    assert Key(w) == KeyAt(vm.input, j);
    assert (if w.input == [] then [] else w.input[1..]) == Rest(vm.input, j + 1);
    if j > 0 {
      assert vm.code[b := KeyAt(vm.input, j - 1)][b := KeyAt(vm.input, j)] == vm.code[b := KeyAt(vm.input, j)];
    }
  }

  /** Keys go to their cell one after the other, and the machine halts exactly at the third Ctrl-C
      in a row. */
  lemma {:induction false} ReadsKeys(vm: Vm, b: int64, m: nat)
    requires ReadsNext(vm, b, m) && vm.ctrlcCount == 0
    ensures SoundFor(vm, m)
    ensures RunNative(vm, m).status == Halted <==> exists j | 0 <= j < m :: ThirdInARow(vm.input, j)
    ensures RunNative(vm, m).status != Halted ==> RunNative(vm, m) == AfterReads(vm, b, m)
  {
    ReadsSome(vm, b, m, m);
  }

  lemma {:induction false} ReadsSome(vm: Vm, b: int64, m: nat, j: nat)
    requires ReadsNext(vm, b, m) && vm.ctrlcCount == 0 && j <= m
    ensures SoundFor(vm, j)
    ensures if exists i | 0 <= i < j :: ThirdInARow(vm.input, i) then
              RunNative(vm, j).status == Halted && Sound(RunNative(vm, j))
            else RunNative(vm, j) == AfterReads(vm, b, j)
  {
    hide ThirdInARow, Next;
    if j > 0 {
      ReadsSome(vm, b, m, j - 1);
      ReadStep(vm, b, m, j - 1);
      var w := RunNative(vm, j - 1);
      RunOne(w);
      RunMore(vm, j - 1, 1);
      if exists i | 0 <= i < j - 1 :: ThirdInARow(vm.input, i) {
        HaltedStays(w);
      }
    }
  }

  lemma {:induction false} HaltedStays(vm: Vm)
    requires Sound(vm) && vm.status == Halted
    ensures Next(vm) == vm
  {
  }

  // ----- the Ctrl-C check

  /** The check stores whether the latest key was a Ctrl-C, and forgets it. */
  lemma {:induction false} ChecksCtrlC(vm: Vm, b: int64, c: int64)
    requires At(vm, [-2, b, c]) && 0 <= b < MEMORY
    ensures SoundFor(vm, 1)
    ensures RunNative(vm, 1) == vm.(code := vm.code[b := if vm.ctrlc then 1 else 0], ctrlc := false, pc := vm.pc + 3)
  {
    var words := vm.code[vm.pc..vm.pc + 3];
    assert words[0] == vm.code[vm.pc] && words[1] == vm.code[vm.pc + 1];
    RunOne(vm);
  }

  // ----- what is refused

  /** The instruction, or a cell that it names, lies behind the memory; or a cell is named by a
      negative number without a meaning. */
  ghost predicate Refused(vm: Vm) {
    vm.Valid() &&
    (vm.pc < 0 || vm.pc >= 0x100_0000 ||
     (vm.pc + 2 < 0x100_0000 &&
      var a, b := vm.code[vm.pc], vm.code[vm.pc + 1];
      a >= 0x100_0000 || b >= 0x100_0000 || (b != -1 && (a < -2 || (a >= 0 && b < 0)))))
  }

  lemma {:induction false} RefusedStops(vm: Vm)
    requires Refused(vm) && KeysOk(vm.input) && vm.status == Running && WellAddressed(vm)
    ensures SoundFor(vm, 1) && RunNative(vm, 1) == vm.(status := OutOfBounds)
  {
    RunOne(vm);
  }
}
