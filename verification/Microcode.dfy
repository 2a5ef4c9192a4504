/** The instructions of the machine, and the code emitted for a scheduled netlist. */
module Microcode {
  import opened Cells

  const ROM_SIZE := 0xa0000
  const RAM := ROM_SIZE
  const PAGE_SIZ := 2048
  const BLOCK_PAGES := 64
  const BLOCK := BLOCK_PAGES * PAGE_SIZ  // what the flash erases at once
  const DIGIT := 64
  const LANES := 2

  datatype Op = Mov | InvMov | CapIn | GetIn | PrgNand | PushOut | Raise | Erase

  /** An instruction without its link to the next one. */
  datatype Micro = Micro(op: Op, dest: nat, from: nat)

  /** A ROM word. */
  datatype Instr = Instr(op: Op, dest: nat, from: nat, next: nat) {
    function Body(): Micro {
      Micro(op, dest, from)
    }
  }

  /** The write of a source into a cell. */
  function Copy(cells: seq<Cell>, c: nat, w: Write): Micro
    requires c < |cells| && w.src.cell < |cells|
  {
    Micro(if w.src.inv then InvMov else Mov, cells[c].addr, cells[w.src.cell].addr)
  }

  ghost predicate SourcesExist(cells: seq<Cell>) {
    forall c, j | 0 <= c < |cells| && 0 <= j < |cells[c].ins| :: cells[c].ins[j].src.cell < |cells|
  }

  /** The writes of step s into cell c, among its first j. */
  function EmitCell(cells: seq<Cell>, c: nat, j: nat, s: int): seq<Micro>
    requires SourcesExist(cells) && c < |cells| && j <= |cells[c].ins|
  {
    if j == 0 then []
    else
      EmitCell(cells, c, j - 1, s) +
      if cells[c].ins[j - 1].step == s then [Copy(cells, c, cells[c].ins[j - 1])] else []
  }

  /** The writes of step s into the first n cells. */
  function EmitCells(cells: seq<Cell>, n: nat, s: int): seq<Micro>
    requires SourcesExist(cells) && n <= |cells|
  {
    if n == 0 then [] else EmitCells(cells, n - 1, s) + EmitCell(cells, n - 1, |cells[n - 1].ins|, s)
  }

  /** Steps 2 to s, each ending in one program operation on the page. */
  function EmitSteps(cells: seq<Cell>, base: nat, s: int): seq<Micro>
    requires SourcesExist(cells)
    decreases s
  {
    if s < 2 then []
    else EmitSteps(cells, base, s - 1) + EmitCells(cells, |cells|, s) + [Micro(PrgNand, base, 0)]
  }
}
