/** The netlist under construction: cells are appended and wired, never removed; then
    every write gets its step. */
module Netlist {
  import opened Graph
  import opened Cells
  import opened Schedule
  import opened Cycles
  import opened Worklist

  /** The address counters that the code keeps in two global variables. */
  class Counters {
    var romAddr: nat
    var calcAddr: nat

    constructor (romStart: nat, calcStart: nat)
      ensures romAddr == romStart && calcAddr == calcStart
    {
      romAddr, calcAddr := romStart, calcStart;
    }

    /** Advances the ROM address and returns the new value. */
    method IncAddr() returns (addr: nat)
      modifies this`romAddr
      ensures romAddr == old(romAddr) + 8 && addr == romAddr
    {
      romAddr := romAddr + 8;
      addr := romAddr;
    }

    /** Returns the calculation address and advances it. */
    method GetCalcAddr() returns (addr: nat)
      modifies this`calcAddr
      ensures calcAddr == old(calcAddr) + 1 && addr == old(calcAddr)
    {
      addr := calcAddr;
      calcAddr := calcAddr + 1;
    }
  }

  class Netlist {
    var cells: seq<Cell>
    const counters: Counters
    ghost const base: nat  // the calculation address when the netlist was created

    constructor (c: Counters)
      ensures counters == c && base == c.calcAddr && cells == [] && Built()
    {
      counters, base, cells := c, c.calcAddr, [];
    }

    ghost predicate Allocated()
      reads this, counters
    {
      counters.calcAddr == base + |cells|
    }

    ghost predicate Built()
      reads this, counters
    {
      Allocated() && BuiltCells(cells, base)
    }

    function Logic(): Graph
      reads this
    {
      GraphOf(cells)
    }

    method NewInput() returns (c: nat)
      requires Built()
      modifies this`cells, counters`calcAddr
      ensures Built() && c == |old(cells)|
      ensures Logic() == old(Logic()) + [Input]
    {
      var addr := counters.GetCalcAddr();
      GraphSnoc(cells, Cell(addr, [], 1));
      cells := cells + [Cell(addr, [], 1)];
      c := |cells| - 1;
    }

    method NewCell() returns (c: nat)
      requires Allocated()
      modifies this`cells, counters`calcAddr
      ensures Allocated() && c == |old(cells)|
      ensures cells == old(cells) + [Cell(base + c, [], -1)]
    {
      var addr := counters.GetCalcAddr();
      cells := cells + [Cell(addr, [], -1)];
      c := |cells| - 1;
    }

    method Wire(dst: nat, src: Sig, inv: bool := false)
      requires dst < |cells|
      modifies this`cells
      ensures cells == old(cells)[dst := old(cells)[dst].(
                ins := old(cells)[dst].ins + [Write(Sig(src.cell, src.inv != inv), -1)])]
    {
      var cell := cells[dst];
      cells := cells[dst := cell.(ins := cell.ins + [Write(Sig(src.cell, src.inv != inv), -1)])];
    }

    /** AND: one cell that takes all sources; a single source needs no cell. */
    method AndOf(xs: seq<Sig>) returns (s: Sig)
      requires Built() && |xs| >= 1
      requires forall j | 0 <= j < |xs| :: xs[j].cell < |cells|
      modifies this`cells, counters`calcAddr
      ensures Built() && s.cell < |cells| && IsAnd(Logic(), s, xs)
      ensures Logic() == old(Logic()) + (if |xs| == 1 then [] else [Gate(xs)])
      ensures |xs| >= 2 ==> s == Sig(|old(cells)|, false)
    {
      if |xs| == 1 {
        return xs[0];
      }
      var t := NewCell();
      for i := 0 to |xs|
        invariant Allocated()
        invariant cells == old(cells) + [Cell(base + t, Unscheduled(xs[..i]), -1)]
      {
        Wire(t, xs[i]);
        assert xs[..i + 1] == xs[..i] + [xs[i]];
        assert Unscheduled(xs[..i + 1]) == Unscheduled(xs[..i]) + [Write(xs[i], -1)];
      }
      assert xs[..|xs|] == xs;
      GraphSnoc(old(cells), cells[t]);
      s := Sig(t, false);
    }

    /** OR by De Morgan: the cell holds the NOR, so it is read inverted. */
    method OrOf(xs: seq<Sig>) returns (s: Sig)
      requires Built() && |xs| >= 2
      requires forall j | 0 <= j < |xs| :: xs[j].cell < |cells|
      modifies this`cells, counters`calcAddr
      ensures Built() && s == Sig(|old(cells)|, true) && IsOr(Logic(), s, xs)
      ensures Logic() == old(Logic()) + [Gate(Inverted(xs))]
    {
      var t := NewCell();
      for i := 0 to |xs|
        invariant Allocated()
        invariant cells == old(cells) + [Cell(base + t, Unscheduled(Inverted(xs[..i])), -1)]
      {
        Wire(t, Not(xs[i]));
        assert xs[..i + 1] == xs[..i] + [xs[i]];
        assert Unscheduled(Inverted(xs[..i + 1])) == Unscheduled(Inverted(xs[..i])) + [Write(Not(xs[i]), -1)];
      }
      assert xs[..|xs|] == xs;
      GraphSnoc(old(cells), cells[t]);
      s := Sig(t, true);
    }

    /** XOR: neither both nor none. */
    method XorOf(a: Sig, b: Sig) returns (s: Sig)
      requires Built() && a.cell < |cells| && b.cell < |cells|
      modifies this`cells, counters`calcAddr
      ensures Built() && |cells| == |old(cells)| + 3 && old(Logic()) <= Logic()
      ensures NewGates(Logic(), |old(cells)|, 2)
      ensures s == Sig(|old(cells)| + 2, false) && IsXor(Logic(), s, a, b)
    {
      var hi := AndOf([a, b]);
      var lo := AndOf([Not(a), Not(b)]);
      var or := OrOf([hi, lo]);
      assert Inverted([hi, lo]) == [Not(hi), Not(lo)];
      s := Not(or);
    }

    /** Makes an inverted signal a cell of its own, so that it can be read straight. */
    method Buf(x: Sig) returns (s: Sig)
      requires Built() && x.cell < |cells|
      modifies this`cells, counters`calcAddr
      ensures Built() && !s.inv && s.cell < |cells|
      ensures !x.inv ==> s == x && cells == old(cells)
      ensures x.inv ==> s.cell == |old(cells)| && Logic() == old(Logic()) + [Gate([x])]
    {
      if !x.inv {
        return x;
      }
      var t := NewCell();
      Wire(t, x);
      assert Unscheduled([x]) == [] + [Write(x, -1)];
      assert cells == old(cells) + [Cell(base + t, Unscheduled([x]), -1)];
      GraphSnoc(old(cells), cells[t]);
      s := Sig(t, false);
    }

    /** Gives every write a step, by a worklist.  ok is false where the code's final assert
        fails: exactly when there is a combinational loop. */
    method Schedule() returns (ok: bool, maxStep: int)
      requires Wellformed(cells)
      modifies this`cells
      ensures ok <==> !HasCycle(old(cells))
      ensures ok ==> Greedy(cells) && SameNetlist(old(cells), cells)
      ensures ok ==> Deepest(cells, Below(|cells|), maxStep)
    {
      var n := |cells|;
      var readers, pend, q := CollectReaders(cells);
      var done := 0;
      maxStep := 1;
      ghost var d: set<nat> := {};
      Start(cells, q, pend);
      while q != []
        invariant |cells| == n && Progress(old(cells), cells, d, q, pend) && Deepest(cells, d, maxStep)
        invariant done == |d|
        decreases Below(n) - d
      {
        var c := q[0];
        ghost var was := cells;
        done := done + 1;
        cells, maxStep := Visit(cells, c, maxStep, old(cells), d, q, pend);
        pend, q := TellReaders(readers, pend, q, old(cells), was, cells, d);
        d := d + {c};
      }
      Exhausted(old(cells), cells, d, pend);
      ok := done == n;
    }
  }
}
