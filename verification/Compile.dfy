/** Compilation preserves meaning: running the emitted code on a page leaves every cell equal
    to the AND of its sources.

    All data operations act on the eight bit columns of a byte independently, so the theorem
    is stated for one column of one page: the page buffer, edited in place, and the flash
    page, which can only accumulate ANDs. */
module Compile {
  import opened Graph
  import opened Cells
  import opened Schedule
  import opened Microcode

  /** One bit column of the buffer and of the flash page. */
  datatype Column = Column(buf: seq<bool>, flash: seq<bool>) {
    predicate Valid() {
      |buf| == |flash| == PAGE_SIZ
    }
  }

  function AndAll(xs: seq<bool>, ys: seq<bool>): (r: seq<bool>)
    requires |xs| == |ys|
    ensures |r| == |xs| && forall i | 0 <= i < |r| :: r[i] == (xs[i] && ys[i])
  {
    seq(|xs|, i requires 0 <= i < |xs| && |xs| == |ys| => xs[i] && ys[i])
  }

  /** The data operations on a column.  A program operation ANDs the buffer into the flash
      page and reads it back; the instructions without effect on the page are ignored. */
  function StepColumn(m: Micro, st: Column): (r: Column)
    requires st.Valid()
    ensures r.Valid()
  {
    match m.op
    case Mov => st.(buf := st.buf[m.dest % PAGE_SIZ := st.buf[m.from % PAGE_SIZ]])
    case InvMov => st.(buf := st.buf[m.dest % PAGE_SIZ := !st.buf[m.from % PAGE_SIZ]])
    case PrgNand => var f := AndAll(st.flash, st.buf); Column(f, f)
    case _ => st
  }

  function RunColumn(ops: seq<Micro>, st: Column): (r: Column)
    requires st.Valid()
    ensures r.Valid()
  {
    if ops == [] then st else StepColumn(ops[|ops| - 1], RunColumn(ops[..|ops| - 1], st))
  }

  lemma {:induction false} RunAppend(a: seq<Micro>, b: seq<Micro>, st: Column)
    requires st.Valid()
    ensures RunColumn(a + b, st) == RunColumn(b, RunColumn(a, st))
  {
    if b == [] {
      assert a + b == a;
    } else {
      assert (a + b)[..|a + b| - 1] == a + b[..|b| - 1];
      RunAppend(a, b[..|b| - 1], st);
    }
  }

  /** The cells of the netlist lie side by side from the start of a page. */
  ghost predicate OnOnePage(cells: seq<Cell>, base: nat) {
    base % PAGE_SIZ == 0 && |cells| <= PAGE_SIZ && SourcesExist(cells) &&
    forall c | 0 <= c < |cells| :: cells[c].addr == base + c
  }

  lemma {:induction false} Offset(cells: seq<Cell>, base: nat, c: nat)
    requires OnOnePage(cells, base) && c < |cells|
    ensures cells[c].addr % PAGE_SIZ == c
  {
  }

  // ----- within one step

  /** What the buffer holds for cell c after the writes of step s among its first j, when the
      cells held v before the step. */
  predicate Edited(cells: seq<Cell>, v: seq<bool>, c: nat, j: nat, s: int)
    requires c < |cells| && c < |v| && j <= |cells[c].ins|
  {
    if j == 0 then v[c]
    else if cells[c].ins[j - 1].step == s then Read(v, cells[c].ins[j - 1].src)
    else Edited(cells, v, c, j - 1, s)
  }

  /** The buffer in the middle of step s: cells below c are edited, cell c by its first j writes. */
  ghost predicate MidStep(cells: seq<Cell>, v: seq<bool>, buf: seq<bool>, c: nat, j: nat, s: int) {
    |buf| == |v| >= |cells| && c <= |cells| && (c < |cells| ==> j <= |cells[c].ins|) &&
    forall i | 0 <= i < |v| ::
      buf[i] == if i < c then Edited(cells, v, i, |cells[i].ins|, s)
                else if i == c < |cells| then Edited(cells, v, i, j, s)
                else v[i]
  }

  /** A cell without a write in step s is not edited by it. */
  lemma {:induction false} NotEdited(cells: seq<Cell>, v: seq<bool>, c: nat, j: nat, s: int)
    requires c < |cells| <= |v| && j <= |cells[c].ins|
    requires forall k | 0 <= k < j :: cells[c].ins[k].step != s
    ensures Edited(cells, v, c, j, s) == v[c]
  {
    if j > 0 {
      NotEdited(cells, v, c, j - 1, s);
    }
  }

  /** A source that is read in step s is settled before, so the buffer still holds it as it was. */
  lemma {:induction false} SourceIntact(cells: seq<Cell>, v: seq<bool>, buf: seq<bool>, c: nat, j: nat, s: int)
    requires Feasible(cells) && SourcesExist(cells)
    requires c < |cells| && j < |cells[c].ins| && cells[c].ins[j].step == s
    requires MidStep(cells, v, buf, c, j, s)
    ensures buf[cells[c].ins[j].src.cell] == v[cells[c].ins[j].src.cell]
  {
    var d := cells[c].ins[j].src.cell;
    assert FeasibleCell(cells, c);
    assert SettledBefore(cells, d, s);
    assert FeasibleCell(cells, d);
    NotEdited(cells, v, d, |cells[d].ins|, s);
    if d == c {
      NotEdited(cells, v, d, j, s);
    }
  }

  lemma {:induction false} CellRuns(cells: seq<Cell>, base: nat, st: Column, v: seq<bool>, c: nat, j: nat, s: int)
    requires Feasible(cells) && OnOnePage(cells, base) && st.Valid()
    requires c < |cells| && j <= |cells[c].ins| && MidStep(cells, v, st.buf, c, 0, s)
    ensures var r := RunColumn(EmitCell(cells, c, j, s), st);
            r.flash == st.flash && MidStep(cells, v, r.buf, c, j, s)
  {
    if j > 0 {
      CellRuns(cells, base, st, v, c, j - 1, s);
      var w := cells[c].ins[j - 1];
      var before := EmitCell(cells, c, j - 1, s);
      if w.step == s {
        var mid := RunColumn(before, st);
        assert (before + [Copy(cells, c, w)])[..|before|] == before;
        Offset(cells, base, c);
        Offset(cells, base, w.src.cell);
        SourceIntact(cells, v, mid.buf, c, j - 1, s);
      } else {
        assert EmitCell(cells, c, j, s) == before;
      }
    }
  }

  lemma {:induction false} CellsRun(cells: seq<Cell>, base: nat, st: Column, n: nat, s: int)
    requires Feasible(cells) && OnOnePage(cells, base) && st.Valid() && n <= |cells|
    ensures var r := RunColumn(EmitCells(cells, n, s), st);
            r.flash == st.flash && MidStep(cells, st.buf, r.buf, n, 0, s)
  {
    if n > 0 {
      CellsRun(cells, base, st, n - 1, s);
      var before, last := EmitCells(cells, n - 1, s), EmitCell(cells, n - 1, |cells[n - 1].ins|, s);
      RunAppend(before, last, st);
      CellRuns(cells, base, RunColumn(before, st), st.buf, n - 1, |cells[n - 1].ins|, s);
    }
  }

  // ----- from step to step

  /** The sources written by step s all read 1. */
  predicate AllReadBy(v: seq<bool>, ins: seq<Write>, s: int) {
    forall j | 0 <= j < |ins| && ins[j].step <= s :: Read(v, ins[j].src)
  }

  /** The page after step s: buffer and flash agree, and every gate is the AND of what has
      been written to it so far. */
  ghost predicate AfterStep(cells: seq<Cell>, st: Column, s: int) {
    st.Valid() && st.buf == st.flash && |cells| <= PAGE_SIZ &&
    forall c | 0 <= c < |cells| && cells[c].ins != [] :: st.flash[c] == AllReadBy(st.flash, cells[c].ins, s)
  }

  /** Edited by at most one write, the cell ends up with that write's source ANDed in. */
  lemma {:induction false} EditIsOneWrite(cells: seq<Cell>, v: seq<bool>, c: nat, j: nat, s: int)
    requires c < |cells| <= |v| && FeasibleCell(cells, c) && j <= |cells[c].ins|
    ensures (v[c] && Edited(cells, v, c, j, s)) ==
            (v[c] && forall k | 0 <= k < j && cells[c].ins[k].step == s :: Read(v, cells[c].ins[k].src))
  {
    if j > 0 {
      EditIsOneWrite(cells, v, c, j - 1, s);
    }
  }

  /** What is settled before step s is not touched by it. */
  lemma {:induction false} SettledStays(cells: seq<Cell>, v: seq<bool>, v': seq<bool>, d: nat, s: int)
    requires Feasible(cells) && d < |cells| <= |v| == |v'| && cells[d].complete < s
    requires forall i | 0 <= i < |cells| :: v'[i] == (v[i] && Edited(cells, v, i, |cells[i].ins|, s))
    ensures v'[d] == v[d]
  {
    assert FeasibleCell(cells, d);
    NotEdited(cells, v, d, |cells[d].ins|, s);
  }

  lemma {:induction false} GateAfterStep(cells: seq<Cell>, v: seq<bool>, v': seq<bool>, c: nat, s: int)
    requires Feasible(cells) && c < |cells| <= |v| == |v'|
    requires forall i | 0 <= i < |cells| :: v'[i] == (v[i] && Edited(cells, v, i, |cells[i].ins|, s))
    requires v[c] == AllReadBy(v, cells[c].ins, s - 1)
    ensures v'[c] == AllReadBy(v', cells[c].ins, s)
  {
    var ins := cells[c].ins;
    assert FeasibleCell(cells, c);
    EditIsOneWrite(cells, v, c, |ins|, s);
    forall j | 0 <= j < |ins| && ins[j].step <= s ensures Read(v', ins[j].src) == Read(v, ins[j].src) {
      assert SettledBefore(cells, ins[j].src.cell, ins[j].step);
      SettledStays(cells, v, v', ins[j].src.cell, s);
    }
    if v'[c] {
      forall j | 0 <= j < |ins| && ins[j].step <= s ensures Read(v', ins[j].src) {
        assert ins[j].step == s || ins[j].step <= s - 1;
      }
    }
  }

  /** One step of the emitted code. */
  lemma {:induction false} StepRuns(cells: seq<Cell>, base: nat, st: Column, s: int)
    requires Feasible(cells) && OnOnePage(cells, base) && AfterStep(cells, st, s - 1)
    ensures var r := RunColumn(EmitCells(cells, |cells|, s) + [Micro(PrgNand, base, 0)], st);
            AfterStep(cells, r, s) &&
            forall c | 0 <= c < PAGE_SIZ && (c < |cells| ==> cells[c].ins == []) :: r.flash[c] == st.flash[c]
  {
    var edits, prg := EmitCells(cells, |cells|, s), Micro(PrgNand, base, 0);
    CellsRun(cells, base, st, |cells|, s);
    var mid := RunColumn(edits, st);
    assert (edits + [prg])[..|edits|] == edits;
    var v, v' := st.flash, AndAll(mid.flash, mid.buf);
    assert RunColumn(edits + [prg], st) == Column(v', v');
    forall c | 0 <= c < |cells| && cells[c].ins != [] ensures v'[c] == AllReadBy(v', cells[c].ins, s) {
      GateAfterStep(cells, v, v', c, s);
    }
    forall c | 0 <= c < PAGE_SIZ && (c < |cells| ==> cells[c].ins == []) ensures v'[c] == v[c] {
      if c < |cells| {
        NotEdited(cells, v, c, 0, s);
      }
    }
  }

  lemma {:induction false} StepsRun(cells: seq<Cell>, base: nat, st: Column, s: int)
    requires Feasible(cells) && OnOnePage(cells, base) && AfterStep(cells, st, 1) && s >= 1
    ensures var r := RunColumn(EmitSteps(cells, base, s), st);
            AfterStep(cells, r, s) &&
            forall c | 0 <= c < PAGE_SIZ && (c < |cells| ==> cells[c].ins == []) :: r.flash[c] == st.flash[c]
    decreases s
  {
    if s >= 2 {
      StepsRun(cells, base, st, s - 1);
      var before := EmitSteps(cells, base, s - 1);
      var last := EmitCells(cells, |cells|, s) + [Micro(PrgNand, base, 0)];
      assert EmitSteps(cells, base, s) == before + last;
      RunAppend(before, last, st);
      StepRuns(cells, base, RunColumn(before, st), s);
    }
  }

  /** After the last step every gate holds the AND of all its sources. */
  lemma {:induction false} Complete(cells: seq<Cell>, st: Column, steps: int)
    requires Feasible(cells) && AfterStep(cells, st, steps)
    requires forall c | 0 <= c < |cells| :: cells[c].complete <= steps
    ensures Consistent(st.flash, GraphOf(cells))
  {
    var g, v := GraphOf(cells), st.flash;
    forall c | 0 <= c < |g| && g[c].Gate? ensures v[c] == AllRead(v, g[c].ins) {
      assert FeasibleCell(cells, c);
      var ins := cells[c].ins;
      assert g[c].ins == Sources(ins);
      if AllRead(v, g[c].ins) {
        forall j | 0 <= j < |ins| ensures Read(v, ins[j].src) {
          assert Read(v, g[c].ins[j]);
        }
      }
    }
  }

  /** The compile theorem.  Take any feasible schedule of any netlist on one page, and a page
      whose input cells are loaded and whose other cells are erased.  The emitted code leaves
      the inputs as they are and every gate equal to the AND of its sources. */
  lemma {:induction false} EmittedCodeComputes(cells: seq<Cell>, base: nat, st: Column, steps: int)
    requires Feasible(cells) && OnOnePage(cells, base) && steps >= 1
    requires forall c | 0 <= c < |cells| :: cells[c].complete <= steps
    requires st.Valid() && st.buf == st.flash
    requires forall c | 0 <= c < |cells| && cells[c].ins != [] :: st.flash[c]
    ensures var r := RunColumn(EmitSteps(cells, base, steps), st);
            r.buf == r.flash && Consistent(r.flash, GraphOf(cells)) &&
            forall c | 0 <= c < |cells| && cells[c].ins == [] :: r.flash[c] == st.flash[c]
  {
    forall c | 0 <= c < |cells| && cells[c].ins != [] ensures st.flash[c] == AllReadBy(st.flash, cells[c].ins, 1) {
      assert FeasibleCell(cells, c);
      forall j | 0 <= j < |cells[c].ins| ensures cells[c].ins[j].step > 1 {
        assert SettledBefore(cells, cells[c].ins[j].src.cell, cells[c].ins[j].step);
      }
    }
    StepsRun(cells, base, st, steps);
    Complete(cells, RunColumn(EmitSteps(cells, base, steps), st), steps);
  }
}
