/** The bookkeeping of the worklist scheduler: who reads whom, and how many sources of a
    cell are still to be dequeued. */
module Worklist {
  import opened Cells
  import opened Schedule
  import opened Cycles

  /** How many writes of a cell read cell c. */
  function CountFrom(ins: seq<Write>, c: nat): nat {
    if ins == [] then 0 else CountFrom(ins[..|ins| - 1], c) + (if ins[|ins| - 1].src.cell == c then 1 else 0)
  }

  /** How many writes of a cell read a cell outside d. */
  function CountOutside(ins: seq<Write>, d: set<nat>): nat {
    if ins == [] then 0 else CountOutside(ins[..|ins| - 1], d) + (if ins[|ins| - 1].src.cell in d then 0 else 1)
  }

  lemma {:induction false} OutsideNothing(ins: seq<Write>)
    ensures CountOutside(ins, {}) == |ins|
  {
    if ins != [] {
      OutsideNothing(ins[..|ins| - 1]);
    }
  }

  lemma {:induction false} OutsideOneMore(ins: seq<Write>, d: set<nat>, c: nat)
    requires c !in d
    ensures CountOutside(ins, d) == CountOutside(ins, d + {c}) + CountFrom(ins, c)
  {
    if ins != [] {
      OutsideOneMore(ins[..|ins| - 1], d, c);
    }
  }

  lemma {:induction false} NoneOutside(ins: seq<Write>, d: set<nat>)
    ensures CountOutside(ins, d) == 0 <==> forall j | 0 <= j < |ins| :: ins[j].src.cell in d
  {
    if ins != [] {
      NoneOutside(ins[..|ins| - 1], d);
      assert forall j | 0 <= j < |ins| - 1 :: ins[..|ins| - 1][j] == ins[j];
    }
  }

  /** readers[c] lists cell i once for every write of i that reads c. */
  ghost predicate AreReaders(cells: seq<Cell>, readers: seq<seq<nat>>) {
    |readers| == |cells| &&
    (forall c | 0 <= c < |cells| :: forall k | 0 <= k < |readers[c]| :: readers[c][k] < |cells|) &&
    forall c, i | 0 <= c < |cells| && 0 <= i < |cells| :: multiset(readers[c])[i] == CountFrom(cells[i].ins, c)
  }

  /** The writes of cell k from cell c among the first i cells and the first j writes of cell i. */
  function CountSoFar(cells: seq<Cell>, c: nat, k: nat, i: nat, j: nat): nat
    requires k < |cells| && (i < |cells| ==> j <= |cells[i].ins|)
  {
    if k < i then CountFrom(cells[k].ins, c) else if k == i then CountFrom(cells[k].ins[..j], c) else 0
  }

  ghost predicate ReadersSoFar(cells: seq<Cell>, readers: seq<seq<nat>>, i: nat, j: nat)
    requires i < |cells| ==> j <= |cells[i].ins|
  {
    |readers| == |cells| &&
    (forall c | 0 <= c < |cells| :: forall k | 0 <= k < |readers[c]| :: readers[c][k] < |cells|) &&
    forall c, k | 0 <= c < |cells| && 0 <= k < |cells| ::
      multiset(readers[c])[k] == CountSoFar(cells, c, k, i, j)
  }

  lemma {:induction false} ReadersPush(cells: seq<Cell>, readers: seq<seq<nat>>, i: nat, j: nat)
    requires Wellformed(cells) && i < |cells| && j < |cells[i].ins| && ReadersSoFar(cells, readers, i, j)
    ensures var d := cells[i].ins[j].src.cell;
            d < |readers| && ReadersSoFar(cells, readers[d := readers[d] + [i]], i, j + 1)
  {
    var ins := cells[i].ins;
    assert ins[..j + 1][..j] == ins[..j];
  }

  lemma {:induction false} ReadersNextCell(cells: seq<Cell>, readers: seq<seq<nat>>, i: nat)
    requires i < |cells| && ReadersSoFar(cells, readers, i, |cells[i].ins|)
    ensures ReadersSoFar(cells, readers, i + 1, 0)
  {
    forall c, k | 0 <= c < |cells| && 0 <= k < |cells|
      ensures CountSoFar(cells, c, k, i, |cells[i].ins|) == CountSoFar(cells, c, k, i + 1, 0)
    {
      assert cells[i].ins[..|cells[i].ins|] == cells[i].ins;
    }
  }

  /** The first loop of the scheduler. */
  method CollectReaders(cells: seq<Cell>) returns (readers: seq<seq<nat>>, pend: seq<nat>, q: seq<nat>)
    requires Wellformed(cells)
    ensures AreReaders(cells, readers)
    ensures |pend| == |cells| && forall i | 0 <= i < |cells| :: pend[i] == |cells[i].ins|
    ensures forall i | 0 <= i < |cells| :: i in q <==> pend[i] == 0
    ensures forall k | 0 <= k < |q| :: q[k] < |cells|
    ensures forall a, b | 0 <= a < b < |q| :: q[a] < q[b]
  {
    readers, pend, q := seq(|cells|, c => []), [], [];
    for i := 0 to |cells|
      invariant ReadersSoFar(cells, readers, i, 0)
      invariant |pend| == i && forall k | 0 <= k < i :: pend[k] == |cells[k].ins|
      invariant forall k | 0 <= k < i :: k in q <==> pend[k] == 0
      invariant forall k | 0 <= k < |q| :: q[k] < i
      invariant forall a, b | 0 <= a < b < |q| :: q[a] < q[b]
    {
      pend := pend + [|cells[i].ins|];
      for j := 0 to |cells[i].ins|
        invariant ReadersSoFar(cells, readers, i, j)
      {
        var d := cells[i].ins[j].src.cell;
        ReadersPush(cells, readers, i, j);
        readers := readers[d := readers[d] + [i]];
      }
      ReadersNextCell(cells, readers, i);
      if cells[i].complete == 1 {
        q := q + [i];
      }
    }
  }

  /** Decrements the count of every listed reader; whoever reaches 0 joins the queue. */
  method ReleaseReaders(rs: seq<nat>, pend: seq<nat>, q: seq<nat>) returns (pend': seq<nat>, q': seq<nat>)
    requires forall k | 0 <= k < |rs| :: rs[k] < |pend|
    requires forall i | 0 <= i < |pend| :: multiset(rs)[i] <= pend[i]
    requires forall a, b | 0 <= a < b < |q| :: q[a] != q[b]
    requires forall k | 0 <= k < |q| :: q[k] < |pend| && pend[q[k]] == 0
    ensures |pend'| == |pend| && forall i | 0 <= i < |pend| :: pend'[i] + multiset(rs)[i] == pend[i]
    ensures q <= q' && forall a, b | 0 <= a < b < |q'| :: q'[a] != q'[b]
    ensures forall k | 0 <= k < |q'| :: q'[k] < |pend|
    ensures forall i | 0 <= i < |pend| :: i in q' <==> i in q || (pend[i] > 0 && pend'[i] == 0)
  {
    pend', q' := pend, q;
    for k := 0 to |rs|
      invariant |pend'| == |pend|
      invariant forall i | 0 <= i < |pend| :: pend'[i] + multiset(rs[..k])[i] == pend[i]
      invariant q <= q' && forall a, b | 0 <= a < b < |q'| :: q'[a] != q'[b]
      invariant forall k | 0 <= k < |q'| :: q'[k] < |pend|
      invariant forall i | 0 <= i < |pend| :: i in q' <==> i in q || (pend[i] > 0 && pend'[i] == 0)
    {
      var r := rs[k];
      assert rs[..k + 1] == rs[..k] + [r];
      assert rs == rs[..k + 1] + rs[k + 1..];
      assert multiset(rs)[r] == multiset(rs[..k + 1])[r] + multiset(rs[k + 1..])[r];
      pend' := pend'[r := pend'[r] - 1];
      if pend'[r] == 0 {
        q' := q' + [r];
      }
    }
    assert rs[..|rs|] == rs;
  }

  /** One write per step: each source one step after it settles, or after the write before it. */
  method AssignSteps(sorted: seq<Write>, complete: seq<int>) returns (ins: seq<Write>, t: int)
    requires sorted != [] && forall j | 0 <= j < |sorted| :: sorted[j].src.cell < |complete|
    ensures Sources(ins) == Sources(sorted) && t == ins[|ins| - 1].step > 1
    ensures forall k | 0 <= k < |ins| :: WrittenAtOnce(ins, complete, k)
  {
    t, ins := 1, [];
    for j := 0 to |sorted|
      invariant |ins| == j && Sources(ins) == Sources(sorted)[..j]
      invariant if j == 0 then t == 1 else t == ins[j - 1].step > 1
      invariant forall k | 0 <= k < j :: WrittenAtOnce(ins, complete, k)
    {
      t := 1 + Max(complete[sorted[j].src.cell], t);
      ghost var was := ins;
      ins := ins + [Write(sorted[j].src, t)];
      forall k | 0 <= k <= j ensures WrittenAtOnce(ins, complete, k) {
        assert k < j ==> WrittenAtOnce(was, complete, k);
      }
      SourcesAppend(was, [Write(sorted[j].src, t)]);
    }
  }

  /** Sorted writes with their steps make a greedy cell. */
  lemma {:induction false} GreedyAssembled(cells: seq<Cell>, cells': seq<Cell>, c: nat, sorted: seq<Write>,
      ins: seq<Write>)
    requires c < |cells| == |cells'| && cells' == cells[c := cells'[c]] && ins != []
    requires SortedByCompletion(sorted, Completions(cells)) && Sources(ins) == Sources(sorted)
    requires forall j | 0 <= j < |sorted| :: SourceReady(cells, c, sorted[j].src.cell)
    requires forall k | 0 <= k < |ins| :: WrittenAtOnce(ins, Completions(cells), k)
    requires cells'[c].ins == ins && cells'[c].complete == ins[|ins| - 1].step
    ensures GreedyCell(cells', c)
  {
    forall j | 0 <= j < |ins| ensures ins[j].src == sorted[j].src {
      assert Sources(ins)[j] == Sources(sorted)[j];
    }
    forall j | 0 <= j < |ins| ensures WrittenAtOnce(ins, Completions(cells'), j) {
      assert SourceReady(cells, c, sorted[j].src.cell) && WrittenAtOnce(ins, Completions(cells), j);
    }
  }

  /** Sorts the writes of cell c and gives each its step. */
  method ScheduleCell(cells: seq<Cell>, c: nat) returns (cells': seq<Cell>)
    requires c < |cells| && cells[c].ins != []
    requires forall j | 0 <= j < |cells[c].ins| :: SourceReady(cells, c, cells[c].ins[j].src.cell)
    ensures |cells'| == |cells| && cells' == cells[c := cells'[c]]
    ensures GreedyCell(cells', c) && cells'[c].addr == cells[c].addr && cells'[c].complete > 1
    ensures multiset(Sources(cells'[c].ins)) == multiset(Sources(cells[c].ins))
  {
    var complete := Completions(cells);
    var sorted := StableSort(cells[c].ins, complete);
    SortIsSorted(cells[c].ins, complete);
    SortedSources(cells[c].ins, sorted);
    forall j | 0 <= j < |sorted| ensures SourceReady(cells, c, sorted[j].src.cell) {
      assert sorted[j] in multiset(cells[c].ins);
    }
    var ins, t := AssignSteps(sorted, complete);
    cells' := cells[c := Cell(cells[c].addr, ins, t)];
    GreedyAssembled(cells, cells', c, sorted, ins);
  }

  /** d is settled and can be a source of c. */
  predicate SourceReady(cells: seq<Cell>, c: nat, d: nat) {
    d < |cells| && d != c && 1 <= cells[d].complete
  }

  lemma {:induction false} SourcesAppend(a: seq<Write>, b: seq<Write>)
    ensures Sources(a + b) == Sources(a) + Sources(b)
  {
  }

  lemma {:induction false} SortedSources(ws: seq<Write>, ws': seq<Write>)
    requires multiset(ws) == multiset(ws')
    ensures multiset(Sources(ws)) == multiset(Sources(ws')) && |ws| == |ws'|
    decreases |ws|
  {
    hide Sources;
    assert |multiset(ws)| == |multiset(ws')|;
    if ws != [] {
      var w := ws[0];
      assert w in multiset(ws');
      var k :| 0 <= k < |ws'| && ws'[k] == w;
      RemoveOne(ws', k);
      RemoveOne(ws, 0);
      assert ws[..0] + ws[1..] == ws[1..];
      SortedSources(ws[1..], ws'[..k] + ws'[k + 1..]);
    }
  }

  lemma {:induction false} RemoveOne(ws: seq<Write>, k: nat)
    requires k < |ws|
    ensures multiset(ws[..k] + ws[k + 1..]) == multiset(ws) - multiset{ws[k]}
    ensures multiset(Sources(ws)) == multiset(Sources(ws[..k] + ws[k + 1..])) + multiset{ws[k].src}
  {
    SourcesAppend(ws[..k], ws[k + 1..]);
    assert Sources(ws) == Sources(ws[..k]) + ([ws[k].src] + Sources(ws[k + 1..]));
    MiddleOut(ws[..k], ws[k], ws[k + 1..]);
    MiddleOut(Sources(ws[..k]), ws[k].src, Sources(ws[k + 1..]));
    assert ws == ws[..k] + ([ws[k]] + ws[k + 1..]);
  }

  lemma {:induction false} MiddleOut<T>(a: seq<T>, x: T, b: seq<T>)
    ensures multiset(a + ([x] + b)) == multiset(a + b) + multiset{x}
  {
  }

  // ----- the invariant of the main loop

  /** Cell i has been dequeued: an input as it was, or a gate scheduled by the greedy rule. */
  ghost predicate Dequeued(cells0: seq<Cell>, cells: seq<Cell>, i: nat)
    requires i < |cells0| == |cells|
  {
    cells[i].addr == cells0[i].addr &&
    multiset(Sources(cells[i].ins)) == multiset(Sources(cells0[i].ins)) &&
    if cells0[i].ins == [] then cells[i] == cells0[i] else GreedyCell(cells, i) && cells[i].complete > 1
  }

  /** d has been dequeued, q is waiting with nothing left to wait for, the rest is untouched. */
  ghost predicate Progress(cells0: seq<Cell>, cells: seq<Cell>, d: set<nat>, q: seq<nat>, pend: seq<nat>) {
    |cells| == |cells0| == |pend| &&
    (forall i | i in d :: i < |cells0|) &&
    (forall k | 0 <= k < |q| :: q[k] < |cells0| && q[k] !in d) &&
    (forall a, b | 0 <= a < b < |q| :: q[a] != q[b]) &&
    (forall i | 0 <= i < |cells0| :: pend[i] == CountOutside(cells0[i].ins, d)) &&
    (forall i | 0 <= i < |cells0| :: pend[i] == 0 <==> (i in d || i in q)) &&
    (forall i | 0 <= i < |cells0| && i !in d :: cells[i] == cells0[i]) &&
    (forall i | 0 <= i < |cells0| && i in d :: Dequeued(cells0, cells, i))
  }

  ghost predicate Deepest(cells: seq<Cell>, d: set<nat>, maxStep: int) {
    1 <= maxStep &&
    (forall i | i in d :: i < |cells| && cells[i].complete <= maxStep) &&
    (maxStep == 1 || exists i | i in d :: i < |cells| && cells[i].complete == maxStep)
  }

  lemma {:induction false} Start(cells: seq<Cell>, q: seq<nat>, pend: seq<nat>)
    requires Wellformed(cells) && |pend| == |cells|
    requires forall i | 0 <= i < |cells| :: pend[i] == |cells[i].ins| && (i in q <==> pend[i] == 0)
    requires forall k | 0 <= k < |q| :: q[k] < |cells|
    requires forall a, b | 0 <= a < b < |q| :: q[a] < q[b]
    ensures Progress(cells, cells, {}, q, pend)
  {
    forall i | 0 <= i < |cells| ensures pend[i] == CountOutside(cells[i].ins, {}) {
      OutsideNothing(cells[i].ins);
    }
  }

  /** All sources of a cell without pending sources have been dequeued and are settled. */
  lemma {:induction false} SourcesReady(cells0: seq<Cell>, cells: seq<Cell>, d: set<nat>, q: seq<nat>,
      pend: seq<nat>, c: nat)
    requires Wellformed(cells0) && Progress(cells0, cells, d, q, pend) && c < |cells| && pend[c] == 0
    ensures forall j | 0 <= j < |cells[c].ins| ::
              cells[c].ins[j].src.cell in d && cells[c].ins[j].src.cell < |cells| &&
              cells[cells[c].ins[j].src.cell].complete >= 1
  {
    NoneOutside(cells0[c].ins, d);
    var xs, ys := Sources(cells[c].ins), Sources(cells0[c].ins);
    assert multiset(xs) == multiset(ys);
    forall j | 0 <= j < |cells[c].ins|
      ensures cells[c].ins[j].src.cell in d && cells[c].ins[j].src.cell < |cells| &&
              cells[cells[c].ins[j].src.cell].complete >= 1
    {
      assert xs[j] in multiset(ys);
      var k :| 0 <= k < |ys| && ys[k] == xs[j];
      assert cells0[c].ins[k].src.cell in d;
      assert Dequeued(cells0, cells, cells[c].ins[j].src.cell);
    }
  }

  /** The cell at the front of the queue is scheduled, unless it is an input. */
  method Visit(cells: seq<Cell>, c: nat, maxStep: int,
      ghost cells0: seq<Cell>, ghost d: set<nat>, ghost q: seq<nat>, ghost pend: seq<nat>)
    returns (cells': seq<Cell>, maxStep': int)
    requires Wellformed(cells0) && Progress(cells0, cells, d, q, pend) && q != [] && c == q[0]
    requires Deepest(cells, d, maxStep)
    ensures |cells'| == |cells| && cells' == cells[c := cells'[c]] && Dequeued(cells0, cells', c)
    ensures Deepest(cells', d + {c}, maxStep') && |d + {c}| == |d| + 1
  {
    cells', maxStep' := cells, maxStep;
    assert cells[c] == cells0[c];
    if cells[c].complete < 0 {
      assert forall j | 0 <= j < |cells[c].ins| :: SourceReady(cells, c, cells[c].ins[j].src.cell) by {
        SourcesReady(cells0, cells, d, q, pend, c);
      }
      cells' := ScheduleCell(cells, c);
      maxStep' := Max(maxStep, cells'[c].complete);
    } else {
      assert Dequeued(cells0, cells, c);
    }
    DeepestStep(cells, cells', d, c, maxStep);
  }

  lemma {:induction false} DeepestStep(cells: seq<Cell>, cells': seq<Cell>, d: set<nat>, c: nat, maxStep: int)
    requires Deepest(cells, d, maxStep) && c < |cells| == |cells'| && c !in d
    requires cells' == cells[c := cells'[c]] && cells'[c].complete >= 1
    ensures Deepest(cells', d + {c}, Max(maxStep, cells'[c].complete))
  {
  }

  /** Scheduling one cell leaves the others as they are, whatever the greedy rule says of them. */
  lemma {:induction false} GreedyCellFrame(cells: seq<Cell>, cells': seq<Cell>, c: nat, i: nat)
    requires |cells'| == |cells| && c < |cells| && cells' == cells[c := cells'[c]]
    requires i < |cells| && i != c && GreedyCell(cells, i)
    requires forall j | 0 <= j < |cells[i].ins| :: cells[i].ins[j].src.cell != c
    ensures GreedyCell(cells', i)
  {
    var ins := cells[i].ins;
    forall j | 0 <= j < |ins| ensures WrittenAtOnce(ins, Completions(cells'), j) {
      assert WrittenAtOnce(ins, Completions(cells), j);
    }
  }

  /** Every pending count covers the readers about to be told. */
  lemma {:induction false} ReadersPending(cells0: seq<Cell>, cells: seq<Cell>, d: set<nat>, q: seq<nat>,
      pend: seq<nat>, readers: seq<seq<nat>>)
    requires Progress(cells0, cells, d, q, pend) && q != [] && AreReaders(cells0, readers)
    ensures forall k | 0 <= k < |readers[q[0]]| :: readers[q[0]][k] < |pend|
    ensures forall i | 0 <= i < |pend| :: multiset(readers[q[0]])[i] <= pend[i]
  {
    forall i | 0 <= i < |pend| ensures multiset(readers[q[0]])[i] <= pend[i] {
      OutsideOneMore(cells0[i].ins, d, q[0]);
      assert multiset(readers[q[0]])[i] == CountFrom(cells0[i].ins, q[0]);
    }
  }

  /** The counts after cell c has been dequeued. */
  lemma {:induction false} PendingAfter(cells0: seq<Cell>, d: set<nat>, c: nat, readers: seq<seq<nat>>,
      pend: seq<nat>, pend': seq<nat>)
    requires AreReaders(cells0, readers) && c < |cells0| == |pend| == |pend'| && c !in d
    requires forall i | 0 <= i < |pend| :: pend[i] == CountOutside(cells0[i].ins, d)
    requires forall i | 0 <= i < |pend| :: pend'[i] + multiset(readers[c])[i] == pend[i]
    ensures forall i | 0 <= i < |pend| :: pend'[i] == CountOutside(cells0[i].ins, d + {c})
  {
    forall i | 0 <= i < |cells0| ensures pend'[i] == CountOutside(cells0[i].ins, d + {c}) {
      OutsideOneMore(cells0[i].ins, d, c);
      assert multiset(readers[c])[i] == CountFrom(cells0[i].ins, c);
    }
  }

  /** What had been dequeued stays scheduled when cell c joins. */
  lemma {:induction false} DequeuedAfter(cells0: seq<Cell>, cells: seq<Cell>, cells': seq<Cell>, d: set<nat>,
      q: seq<nat>, pend: seq<nat>, c: nat)
    requires Wellformed(cells0) && Progress(cells0, cells, d, q, pend) && c < |cells| && c !in d
    requires |cells'| == |cells| && cells' == cells[c := cells'[c]] && Dequeued(cells0, cells', c)
    ensures forall i | 0 <= i < |cells0| && i in d + {c} :: Dequeued(cells0, cells', i)
  {
    forall i | 0 <= i < |cells0| && i in d + {c} ensures Dequeued(cells0, cells', i) {
      if i != c {
        assert Dequeued(cells0, cells, i);
        if cells0[i].ins != [] {
          SourcesReady(cells0, cells, d, q, pend, i);
          GreedyCellFrame(cells, cells', c, i);
        }
      }
    }
  }

  /** The queue after its front c has been taken off. */
  lemma {:induction false} QueueAfter(d: set<nat>, q: seq<nat>, q': seq<nat>, pend: seq<nat>, pend': seq<nat>)
    requires q != [] && |pend'| == |pend| && forall k | 0 <= k < |q| :: q[k] < |pend| && q[k] !in d
    requires forall a, b | 0 <= a < b < |q| :: q[a] != q[b]
    requires forall i | 0 <= i < |pend| :: pend[i] == 0 <==> (i in d || i in q)
    requires forall i | 0 <= i < |pend| :: pend'[i] <= pend[i]
    requires forall k | 0 <= k < |q'| :: q'[k] < |pend|
    requires forall i | 0 <= i < |pend| :: i in q' <==> i in q[1..] || (pend[i] > 0 && pend'[i] == 0)
    ensures forall k | 0 <= k < |q'| :: q'[k] !in d + {q[0]}
    ensures forall i | 0 <= i < |pend| :: pend'[i] == 0 <==> (i in d + {q[0]} || i in q')
  {
  }

  /** One round of the main loop: the front of the queue leaves it and its readers are told. */
  lemma {:induction false} Dequeue(cells0: seq<Cell>, cells: seq<Cell>, cells': seq<Cell>, d: set<nat>, q: seq<nat>,
      q': seq<nat>,
      readers: seq<seq<nat>>, pend: seq<nat>, pend': seq<nat>)
    requires Wellformed(cells0) && Progress(cells0, cells, d, q, pend) && q != [] && AreReaders(cells0, readers)
    requires |cells'| == |cells| && cells' == cells[q[0] := cells'[q[0]]] && Dequeued(cells0, cells', q[0])
    requires |pend'| == |pend|
    requires forall i | 0 <= i < |pend| :: pend'[i] + multiset(readers[q[0]])[i] == pend[i]
    requires forall a, b | 0 <= a < b < |q'| :: q'[a] != q'[b]
    requires forall k | 0 <= k < |q'| :: q'[k] < |pend|
    requires forall i | 0 <= i < |pend| :: i in q' <==> i in q[1..] || (pend[i] > 0 && pend'[i] == 0)
    ensures Progress(cells0, cells', d + {q[0]}, q', pend')
  {
    PendingAfter(cells0, d, q[0], readers, pend, pend');
    DequeuedAfter(cells0, cells, cells', d, q, pend, q[0]);
    QueueAfter(d, q, q', pend, pend');
    forall i | 0 <= i < |cells0| && i !in d + {q[0]} ensures cells'[i] == cells0[i] {
      assert cells[i] == cells0[i];
    }
  }

  /** Tells the readers of the cell just dequeued. */
  method TellReaders(readers: seq<seq<nat>>, pend: seq<nat>, q: seq<nat>, ghost cells0: seq<Cell>,
      ghost cells: seq<Cell>,
      ghost cells': seq<Cell>, ghost d: set<nat>)
    returns (pend': seq<nat>, q': seq<nat>)
    requires Wellformed(cells0) && Progress(cells0, cells, d, q, pend) && q != [] && AreReaders(cells0, readers)
    requires |cells'| == |cells| && cells' == cells[q[0] := cells'[q[0]]] && Dequeued(cells0, cells', q[0])
    ensures Progress(cells0, cells', d + {q[0]}, q', pend')
  {
    ReadersPending(cells0, cells, d, q, pend, readers);
    pend', q' := ReleaseReaders(readers[q[0]], pend, q[1..]);
    Dequeue(cells0, cells, cells', d, q, q', readers, pend, pend');
  }

  /** Everything dequeued: the greedy schedule is complete. */
  lemma {:induction false} AllDequeued(cells0: seq<Cell>, cells: seq<Cell>)
    requires |cells| == |cells0| && forall c | 0 <= c < |cells0| :: Dequeued(cells0, cells, c)
    requires Wellformed(cells0)
    ensures SameNetlist(cells0, cells) && Greedy(cells) && !HasCycle(cells0)
  {
    forall c | 0 <= c < |cells0|
      ensures cells0[c].addr == cells[c].addr
      ensures multiset(Sources(cells0[c].ins)) == multiset(Sources(cells[c].ins))
      ensures if cells[c].ins == [] then cells[c].complete == 1 else GreedyCell(cells, c)
    {
      assert Dequeued(cells0, cells, c);
      EmptySources(cells[c].ins, cells0[c].ins);
    }
    assert SameNetlist(cells, cells0);
    ScheduledHasNoCycle(cells, cells0);
  }

  lemma {:induction false} ReadsOutside(cells: seq<Cell>, d: set<nat>, c: nat) returns (s: nat)
    requires Wellformed(cells) && c < |cells| && CountOutside(cells[c].ins, d) > 0
    ensures s < |cells| && s !in d && Reads(cells, c, s)
  {
    NoneOutside(cells[c].ins, d);
    var j :| 0 <= j < |cells[c].ins| && cells[c].ins[j].src.cell !in d;
    s := cells[c].ins[j].src.cell;
  }

  /** Something left when the queue is empty: the rest waits for itself. */
  lemma {:induction false} RestIsStuck(cells: seq<Cell>, d: set<nat>, rest: set<nat>)
    requires Wellformed(cells) && rest == Below(|cells|) - d && rest != {}
    requires forall c | c in rest :: CountOutside(cells[c].ins, d) > 0
    ensures Stuck(cells, rest)
  {
    forall c | c in rest ensures ReadsFrom(cells, c, rest) {
      var s := ReadsOutside(cells, d, c);
      assert s in rest;
    }
  }

  /** With the queue empty, the dequeued cells are all cells exactly when there is no loop. */
  lemma {:induction false} Exhausted(cells0: seq<Cell>, cells: seq<Cell>, d: set<nat>, pend: seq<nat>)
    requires Wellformed(cells0) && Progress(cells0, cells, d, [], pend)
    ensures if |d| == |cells0| then
              d == Below(|cells0|) && Greedy(cells) && SameNetlist(cells0, cells) && !HasCycle(cells0)
            else HasCycle(cells0)
  {
    Subset(d, Below(|cells0|));
    if |d| == |cells0| {
      AllDequeued(cells0, cells);
    } else {
      var rest := Below(|cells0|) - d;
      forall c | c in rest ensures CountOutside(cells0[c].ins, d) > 0 {
        assert pend[c] == CountOutside(cells0[c].ins, d);
      }
      RestIsStuck(cells0, d, rest);
      StuckIsCyclic(cells0, rest);
    }
  }

  /** All cells below n. */
  ghost function Below(n: nat): (s: set<nat>)
    ensures |s| == n && forall i: nat :: i in s <==> i < n
  {
    if n == 0 then {} else Below(n - 1) + {n - 1}
  }

  lemma {:induction false} Subset(a: set<nat>, b: set<nat>)
    requires a <= b
    ensures |a| <= |b| && (|a| == |b| ==> a == b) && (|a| < |b| ==> b - a != {})
  {
    assert b == a + (b - a);
    assert |b| == |a| + |b - a|;
  }

  /** No schedule of the same netlist is complete after fewer steps than the greedy one. */
  lemma {:induction false} FewestSteps(greedy: seq<Cell>, other: seq<Cell>, maxStep: int, steps: int)
    requires Greedy(greedy) && Deepest(greedy, Below(|greedy|), maxStep)
    requires Feasible(other) && SameNetlist(greedy, other)
    requires steps >= 1 && forall c | 0 <= c < |other| :: other[c].complete <= steps
    ensures maxStep <= steps
  {
    if maxStep != 1 {
      var c :| c in Below(|greedy|) && c < |greedy| && greedy[c].complete == maxStep;
      GreedyIsEarliest(greedy, other, c);
    }
  }
}
