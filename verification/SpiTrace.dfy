/** The commands and waits that the calls of the striped device make, as a function of how each
    of them ends.

    The k-th command or wait of a device, counted from its opening, ends as `fate(k)` says. */
module SpiTrace {
  import opened Machine
  import opened Microcode
  import opened Spi

  type Fate = nat -> Outcome

  /** A command sent to a chip, whether it found the chip idle, and whether the transfer
      succeeded; or the end of a wait. */
  datatype Event = Sent(chip: nat, idle: bool, ok: bool) | Waited(chip: nat, outcome: Outcome) {
    predicate Succeeded() {
      match this
      case Sent(_, _, ok) => ok
      case Waited(_, outcome) => outcome == Done
    }
  }

  /** All so far, and the chips for which the latest wait has timed out. */
  datatype Log = Log(events: seq<Event>, late: set<nat>) {
    predicate LastOk() {
      events != [] && events[|events| - 1].Succeeded()
    }

    /** A command finds its chip idle unless the latest wait for it has timed out. */
    function Send(chip: nat, ok: bool): Log {
      Log(events + [Sent(chip, chip !in late, ok)], late)
    }

    function Wait(chip: nat, outcome: Outcome): Log {
      Log(events + [Waited(chip, outcome)], if outcome == TimedOut then late + {chip} else late - {chip})
    }
  }

  ghost predicate AllSucceeded(events: seq<Event>, start: nat) {
    forall k | start <= k < |events| :: events[k].Succeeded()
  }

  // ----- commands and waits

  function TrySend(fate: Fate, log: Log, chip: nat): Log {
    log.Send(chip, fate(|log.events|) == Done)
  }

  function WaitOn(fate: Fate, log: Log, chip: nat): Log {
    log.Wait(chip, fate(|log.events|))
  }

  /** The log so far and whether all went well. */
  datatype Trace = Trace(log: Log, ok: bool)

  // ----- reading

  /** One page: read it, wait, take it out of the buffer. */
  function ReadChunkTrace(fate: Fate, log: Log, chip: nat): Trace {
    var waited := WaitOn(fate, log.Send(chip, true), chip);
    if !waited.LastOk() then Trace(waited, false)
    else
      var taken := TrySend(fate, waited, chip);
      Trace(taken, taken.LastOk())
  }

  function ReadTrace(fate: Fate, n: nat, t: Trace, off: nat, length: nat): Trace
    requires n > 0
    decreases length
  {
    if length == 0 || !t.ok then t
    else
      var chunk := ChunkAt(off, length);
      ReadTrace(fate, n, ReadChunkTrace(fate, t.log, ChipIndexOf(off / PAGE_SIZ, n)), (off + chunk) % U32,
                length - chunk)
  }

  lemma {:induction false} ReadChunkFirst(fate: Fate, n: nat, t: Trace, off: nat, length: nat, u: Trace, next: nat,
      left: nat, all: Trace)
    requires n > 0 && length > 0 && t.ok && u == ReadChunkTrace(fate, t.log, ChipIndexOf(off / PAGE_SIZ, n))
    requires next == (off + ChunkAt(off, length)) % U32 && left == length - ChunkAt(off, length)
    requires all == ReadTrace(fate, n, t, off, length)
    ensures ReadTrace(fate, n, u, next, left) == all
  {
  }

  // ----- writing

  /** The log, the page pending on each chip or -1, and whether all went well. */
  datatype Pipe = Pipe(log: Log, pending: seq<int>, ok: bool)

  /** Waits for a chip if it has a page pending. */
  function WaitChipTrace(fate: Fate, p: Pipe, chip: nat): (r: Pipe)
    requires chip < |p.pending|
    ensures |r.pending| == |p.pending|
  {
    if p.pending[chip] < 0 then Pipe(p.log, p.pending, true)
    else
      var waited := WaitOn(fate, p.log, chip);
      Pipe(waited, p.pending[chip := -1], waited.LastOk())
  }

  /** Loads the chip and issues the program. */
  function IssueTrace(fate: Fate, p: Pipe, chip: nat, phys: nat): (r: Pipe)
    requires chip < |p.pending|
    ensures |r.pending| == |p.pending|
  {
    var loaded := TrySend(fate, p.log, chip);
    if !loaded.LastOk() then Pipe(loaded, p.pending, false)
    else
      var issued := TrySend(fate, loaded, chip);
      if !issued.LastOk() then Pipe(issued, p.pending, false) else Pipe(issued, p.pending[chip := phys], true)
  }

  function WriteChunkTrace(fate: Fate, p: Pipe, chip: nat, phys: nat): (r: Pipe)
    requires chip < |p.pending|
    ensures |r.pending| == |p.pending|
  {
    var w := WaitChipTrace(fate, p, chip);
    if !w.ok then w else IssueTrace(fate, w, chip, phys)
  }

  function WriteChunksTrace(fate: Fate, p: Pipe, off: nat, length: nat): (r: Pipe)
    requires |p.pending| > 0
    ensures |r.pending| == |p.pending|
    decreases length
  {
    if length == 0 || !p.ok then p
    else
      var chunk, page, n := ChunkAt(off, length), off / PAGE_SIZ, |p.pending|;
      WriteChunksTrace(fate, WriteChunkTrace(fate, p, ChipIndexOf(page, n), PhysPageOf(page, n)),
                       (off + chunk) % U32, length - chunk)
  }

  /** How far a write comes: to the end of its range, or of the chunk that fails. */
  function WriteReach(fate: Fate, p: Pipe, off: nat, length: nat): (reach: nat)
    requires |p.pending| > 0
    ensures reach <= length && (length > 0 && p.ok ==> reach > 0)
    decreases length
  {
    if length == 0 || !p.ok then 0
    else
      var chunk, page, n := ChunkAt(off, length), off / PAGE_SIZ, |p.pending|;
      var q := WriteChunkTrace(fate, p, ChipIndexOf(page, n), PhysPageOf(page, n));
      chunk + WriteReach(fate, q, (off + chunk) % U32, length - chunk)
  }

  lemma {:induction false} WriteChunkFirst(fate: Fate, p: Pipe, off: nat, length: nat, q: Pipe, next: nat, left: nat,
      all: Pipe)
    requires |p.pending| > 0 && length > 0 && p.ok
    requires next == (off + ChunkAt(off, length)) % U32 && left == length - ChunkAt(off, length)
    requires q == WriteChunkTrace(fate, p, ChipIndexOf(off / PAGE_SIZ, |p.pending|),
                                  PhysPageOf(off / PAGE_SIZ, |p.pending|))
    requires all == WriteChunksTrace(fate, p, off, length)
    ensures WriteChunksTrace(fate, q, next, left) == all
    ensures WriteReach(fate, p, off, length) == length - left + WriteReach(fate, q, next, left)
  {
  }

  /** Waits for the first i chips. */
  function WaitAllTrace(fate: Fate, p: Pipe, i: nat): (r: Pipe)
    requires i <= |p.pending|
    ensures |r.pending| == |p.pending|
  {
    if i == 0 then p
    else
      var q := WaitAllTrace(fate, p, i - 1);
      var w := WaitChipTrace(fate, q, i - 1);
      w.(ok := w.ok && q.ok)
  }

  function NonePending(n: nat): (pending: seq<int>)
    ensures |pending| == n && forall i | 0 <= i < n :: pending[i] == -1
  {
    seq(n, i => -1)
  }

  function WriteTrace(fate: Fate, n: nat, log: Log, off: nat, length: nat): Trace
    requires n > 0
  {
    var p := WaitAllTrace(fate, WriteChunksTrace(fate, Pipe(log, NonePending(n), true), off, length), n);
    Trace(p.log, p.ok)
  }

  // ----- erasing

  /** The number of bytes erased at once, as a 32-bit number. */
  function GroupSize(n: nat): nat {
    BLOCK * n % U32
  }

  predicate Aligned(x: nat, n: nat)
    requires GroupSize(n) > 0
  {
    x % GroupSize(n) == 0
  }

  /** Erases one block on each of the first i chips. */
  function EraseGroupTrace(fate: Fate, log: Log, i: nat): Trace {
    if i == 0 then Trace(log, true)
    else
      var t := EraseGroupTrace(fate, log, i - 1);
      if !t.ok then t
      else
        var waited := WaitOn(fate, t.log.Send(i - 1, true), i - 1);
        Trace(waited, waited.LastOk())
  }

  /** After a failure nothing more is erased. */
  lemma {:induction false} GroupStops(fate: Fate, log: Log, i: nat, n: nat)
    requires i <= n && !EraseGroupTrace(fate, log, i).ok
    ensures EraseGroupTrace(fate, log, n) == EraseGroupTrace(fate, log, i)
  {
    if i < n {
      GroupStops(fate, log, i, n - 1);
    }
  }

  function EraseGroupsTrace(fate: Fate, n: nat, t: Trace, off: nat, end: nat): Trace
    requires GroupSize(n) > 0
    decreases end - off
  {
    if off >= end || !t.ok then t
    else EraseGroupsTrace(fate, n, EraseGroupTrace(fate, t.log, n), off + GroupSize(n), end)
  }

  /** How far an erase comes: to its end, or behind the group that fails. */
  function EraseReach(fate: Fate, n: nat, t: Trace, off: nat, end: nat): nat
    requires GroupSize(n) > 0
    decreases end - off
  {
    if off >= end || !t.ok then off
    else EraseReach(fate, n, EraseGroupTrace(fate, t.log, n), off + GroupSize(n), end)
  }

  function EraseTrace(fate: Fate, n: nat, log: Log, offset: nat, length: nat): Trace
    requires GroupSize(n) > 0
  {
    if !Aligned(offset, n) || !Aligned(length, n) then Trace(log, false)
    else EraseGroupsTrace(fate, n, Trace(log, true), offset, (offset + length) % U32)
  }

  // ----- a call succeeds exactly if all its commands and waits do

  /** Extends a log, and is ok exactly if the extension succeeded. */
  ghost predicate Tells(log: Log, t: Trace) {
    log.events <= t.log.events && (t.ok <==> AllSucceeded(t.log.events, |log.events|))
  }

  lemma {:induction false} TellsMore(log: Log, t: Trace, u: Trace)
    requires Tells(log, t) && (if t.ok then Tells(t.log, u) else u == t)
    ensures Tells(log, u)
  {
    if t.ok {
      forall k | |log.events| <= k < |t.log.events| ensures u.log.events[k] == t.log.events[k] {
      }
    }
  }

  lemma {:induction false} ReadChunkTells(fate: Fate, log: Log, chip: nat)
    ensures Tells(log, ReadChunkTrace(fate, log, chip))
  {
  }

  lemma {:induction false} ReadTells(fate: Fate, n: nat, log: Log, t: Trace, off: nat, length: nat)
    requires n > 0 && Tells(log, t)
    ensures Tells(log, ReadTrace(fate, n, t, off, length))
    decreases length
  {
    if length > 0 && t.ok {
      var chunk, chip := ChunkAt(off, length), ChipIndexOf(off / PAGE_SIZ, n);
      ReadChunkTells(fate, t.log, chip);
      TellsMore(log, t, ReadChunkTrace(fate, t.log, chip));
      ReadTells(fate, n, log, ReadChunkTrace(fate, t.log, chip), (off + chunk) % U32, length - chunk);
    }
  }

  lemma {:induction false} WriteChunkTells(fate: Fate, p: Pipe, chip: nat, phys: nat)
    requires chip < |p.pending|
    ensures var r := WriteChunkTrace(fate, p, chip, phys); Tells(p.log, Trace(r.log, r.ok))
  {
  }

  lemma {:induction false} TellsWithChunk(fate: Fate, log: Log, p: Pipe, chip: nat, phys: nat)
    requires chip < |p.pending| && p.ok && Tells(log, Trace(p.log, true))
    ensures var q := WriteChunkTrace(fate, p, chip, phys); Tells(log, Trace(q.log, q.ok))
  {
    var q := WriteChunkTrace(fate, p, chip, phys);
    WriteChunkTells(fate, p, chip, phys);
    TellsMore(log, Trace(p.log, true), Trace(q.log, q.ok));
  }

  lemma {:induction false} WriteChunksTell(fate: Fate, log: Log, p: Pipe, off: nat, length: nat)
    requires |p.pending| > 0 && Tells(log, Trace(p.log, p.ok))
    ensures var r := WriteChunksTrace(fate, p, off, length); Tells(log, Trace(r.log, r.ok))
    decreases length
  {
    if length > 0 && p.ok {
      var chunk, page, n := ChunkAt(off, length), off / PAGE_SIZ, |p.pending|;
      TellsWithChunk(fate, log, p, ChipIndexOf(page, n), PhysPageOf(page, n));
      WriteChunksTell(fate, log, WriteChunkTrace(fate, p, ChipIndexOf(page, n), PhysPageOf(page, n)),
                      (off + chunk) % U32, length - chunk);
    }
  }

  lemma {:induction false} WaitAllTells(fate: Fate, log: Log, p: Pipe, i: nat)
    requires i <= |p.pending| && Tells(log, Trace(p.log, p.ok))
    ensures var r := WaitAllTrace(fate, p, i); Tells(log, Trace(r.log, r.ok))
  {
    if i > 0 {
      WaitAllTells(fate, log, p, i - 1);
      var q := WaitAllTrace(fate, p, i - 1);
      var r := WaitAllTrace(fate, p, i);
      if q.pending[i - 1] >= 0 {
        assert r.log.events[|q.log.events|] == Waited(i - 1, fate(|q.log.events|));
        assert forall k | 0 <= k < |q.log.events| :: r.log.events[k] == q.log.events[k];
      }
    }
  }

  /** A write succeeds exactly if all its loads, issues and waits do. */
  lemma {:induction false} WriteTells(fate: Fate, n: nat, log: Log, off: nat, length: nat)
    requires n > 0
    ensures Tells(log, WriteTrace(fate, n, log, off, length))
  {
    var start := Pipe(log, NonePending(n), true);
    WriteChunksTell(fate, log, start, off, length);
    WaitAllTells(fate, log, WriteChunksTrace(fate, start, off, length), n);
  }

  lemma {:induction false} EraseGroupTells(fate: Fate, log: Log, i: nat)
    ensures Tells(log, EraseGroupTrace(fate, log, i))
  {
    if i > 0 {
      EraseGroupTells(fate, log, i - 1);
      var t, u := EraseGroupTrace(fate, log, i - 1), EraseGroupTrace(fate, log, i);
      if t.ok {
        assert Tells(t.log, u);
        TellsMore(log, t, u);
      }
    }
  }

  lemma {:induction false} EraseGroupsTell(fate: Fate, n: nat, log: Log, t: Trace, off: nat, end: nat)
    requires GroupSize(n) > 0 && Tells(log, t)
    ensures Tells(log, EraseGroupsTrace(fate, n, t, off, end))
    decreases end - off
  {
    if off < end && t.ok {
      var u := EraseGroupTrace(fate, t.log, n);
      EraseGroupTells(fate, t.log, n);
      TellsMore(log, t, u);
      EraseGroupsTell(fate, n, log, u, off + GroupSize(n), end);
    }
  }

  /** An erase succeeds exactly if it is aligned and all its commands and waits succeed. */
  lemma {:induction false} EraseTells(fate: Fate, n: nat, log: Log, offset: nat, length: nat)
    requires GroupSize(n) > 0
    ensures var t := EraseTrace(fate, n, log, offset, length);
            log.events <= t.log.events &&
            (t.ok <==> Aligned(offset, n) && Aligned(length, n) && AllSucceeded(t.log.events, |log.events|))
  {
    if Aligned(offset, n) && Aligned(length, n) {
      EraseGroupsTell(fate, n, log, Trace(log, true), offset, (offset + length) % U32);
    }
  }

  // ----- who finds which chip idle, over sequences of calls

  /** The latest wait for the chip has timed out. */
  predicate LastTimedOut(events: seq<Event>, chip: nat) {
    events != [] &&
    var last := events[|events| - 1];
    if last.Waited? && last.chip == chip then last.outcome == TimedOut else LastTimedOut(events[..|events| - 1], chip)
  }

  /** The latest event of the chip is a command. */
  predicate Armed(events: seq<Event>, chip: nat) {
    events != [] &&
    var last := events[|events| - 1];
    if last.chip == chip then last.Sent? else Armed(events[..|events| - 1], chip)
  }

  /** What the logs of all sequences of calls have in common: a command finds its chip idle
      unless the latest wait for it timed out, and only chips that got a command are waited for. */
  ghost predicate Regular(log: Log) {
    (forall k {:trigger RegularAt(log.events, k)} | 0 <= k < |log.events| :: RegularAt(log.events, k)) &&
    forall c: nat {:trigger LastTimedOut(log.events, c)} :: c in log.late <==> LastTimedOut(log.events, c)
  }

  ghost predicate RegularAt(events: seq<Event>, k: nat)
    requires k < |events|
  {
    RegularNext(events[..k], events[k])
  }

  ghost predicate RegularNext(events: seq<Event>, e: Event) {
    match e
    case Sent(chip, idle, _) => idle <==> !LastTimedOut(events, chip)
    case Waited(chip, _) => Armed(events, chip)
  }

  lemma {:induction false} RegularSnoc(events: seq<Event>, e: Event)
    requires forall k {:trigger RegularAt(events, k)} | 0 <= k < |events| :: RegularAt(events, k)
    requires RegularNext(events, e)
    ensures var more := events + [e]; forall k {:trigger RegularAt(more, k)} | 0 <= k < |more| :: RegularAt(more, k)
  {
    var more := events + [e];
    forall k {:trigger RegularAt(more, k)} | 0 <= k < |more| ensures RegularAt(more, k) {
      assert more[..k] == if k < |events| then events[..k] else events;
      assert k < |events| ==> RegularAt(events, k);
    }
  }

  lemma {:induction false} OneMore(events: seq<Event>, e: Event, chip: nat)
    ensures Armed(events + [e], chip) == if e.chip == chip then e.Sent? else Armed(events, chip)
    ensures LastTimedOut(events + [e], chip) ==
            if e.Waited? && e.chip == chip then e.outcome == TimedOut else LastTimedOut(events, chip)
  {
    assert (events + [e])[..|events|] == events;
  }

  lemma {:induction false} SendIsRegular(log: Log, chip: nat, ok: bool)
    requires Regular(log)
    ensures Regular(log.Send(chip, ok)) && Armed(log.Send(chip, ok).events, chip)
    ensures forall c | Armed(log.events, c) :: Armed(log.Send(chip, ok).events, c)
  {
    var e := Sent(chip, chip !in log.late, ok);
    assert chip in log.late <==> LastTimedOut(log.events, chip);
    RegularSnoc(log.events, e);
    forall c: nat
      ensures Armed(log.events + [e], c) == (e.chip == c || Armed(log.events, c))
      ensures LastTimedOut(log.events + [e], c) == LastTimedOut(log.events, c)
    {
      OneMore(log.events, e, c);
    }
  }

  lemma {:induction false} WaitIsRegular(fate: Fate, log: Log, chip: nat)
    requires Regular(log) && Armed(log.events, chip)
    ensures Regular(WaitOn(fate, log, chip))
    ensures forall c | Armed(log.events, c) && c != chip :: Armed(WaitOn(fate, log, chip).events, c)
  {
    var e := Waited(chip, fate(|log.events|));
    RegularSnoc(log.events, e);
    forall c: nat
      ensures Armed(log.events + [e], c) == (e.chip != c && Armed(log.events, c))
      ensures LastTimedOut(log.events + [e], c) ==
              if e.chip == c then e.outcome == TimedOut else LastTimedOut(log.events, c)
    {
      OneMore(log.events, e, c);
    }
  }

  lemma {:induction false} ReadIsRegular(fate: Fate, n: nat, t: Trace, off: nat, length: nat)
    requires n > 0 && Regular(t.log)
    ensures Regular(ReadTrace(fate, n, t, off, length).log)
    decreases length
  {
    if length > 0 && t.ok {
      var chunk, chip := ChunkAt(off, length), ChipIndexOf(off / PAGE_SIZ, n);
      var sent := t.log.Send(chip, true);
      SendIsRegular(t.log, chip, true);
      WaitIsRegular(fate, sent, chip);
      SendIsRegular(WaitOn(fate, sent, chip), chip, fate(|WaitOn(fate, sent, chip).events|) == Done);
      ReadIsRegular(fate, n, ReadChunkTrace(fate, t.log, chip), (off + chunk) % U32, length - chunk);
    }
  }

  /** The pages pending are on chips whose latest event is a command. */
  ghost predicate RegularPipe(p: Pipe) {
    Regular(p.log) && forall c | 0 <= c < |p.pending| && p.pending[c] >= 0 :: Armed(p.log.events, c)
  }

  lemma {:induction false} WaitChipIsRegular(fate: Fate, p: Pipe, chip: nat)
    requires chip < |p.pending| && RegularPipe(p)
    ensures RegularPipe(WaitChipTrace(fate, p, chip))
  {
    if p.pending[chip] >= 0 {
      WaitIsRegular(fate, p.log, chip);
    }
  }

  lemma {:induction false} IssueIsRegular(fate: Fate, p: Pipe, chip: nat, phys: nat)
    requires chip < |p.pending| && RegularPipe(p)
    ensures RegularPipe(IssueTrace(fate, p, chip, phys))
  {
    var loaded := TrySend(fate, p.log, chip);
    SendIsRegular(p.log, chip, fate(|p.log.events|) == Done);
    SendIsRegular(loaded, chip, fate(|loaded.events|) == Done);
  }

  lemma {:induction false} WriteChunksAreRegular(fate: Fate, p: Pipe, off: nat, length: nat)
    requires |p.pending| > 0 && RegularPipe(p)
    ensures RegularPipe(WriteChunksTrace(fate, p, off, length))
    decreases length
  {
    if length > 0 && p.ok {
      var chunk, page, n := ChunkAt(off, length), off / PAGE_SIZ, |p.pending|;
      var chip, phys := ChipIndexOf(page, n), PhysPageOf(page, n);
      WaitChipIsRegular(fate, p, chip);
      IssueIsRegular(fate, WaitChipTrace(fate, p, chip), chip, phys);
      WriteChunksAreRegular(fate, WriteChunkTrace(fate, p, chip, phys), (off + chunk) % U32, length - chunk);
    }
  }

  lemma {:induction false} WaitAllIsRegular(fate: Fate, p: Pipe, i: nat)
    requires i <= |p.pending| && RegularPipe(p)
    ensures RegularPipe(WaitAllTrace(fate, p, i))
  {
    if i > 0 {
      WaitAllIsRegular(fate, p, i - 1);
      WaitChipIsRegular(fate, WaitAllTrace(fate, p, i - 1), i - 1);
    }
  }

  lemma {:induction false} WriteIsRegular(fate: Fate, n: nat, log: Log, off: nat, length: nat)
    requires n > 0 && Regular(log)
    ensures Regular(WriteTrace(fate, n, log, off, length).log)
  {
    var start := Pipe(log, NonePending(n), true);
    WriteChunksAreRegular(fate, start, off, length);
    WaitAllIsRegular(fate, WriteChunksTrace(fate, start, off, length), n);
  }

  lemma {:induction false} EraseGroupIsRegular(fate: Fate, log: Log, i: nat)
    requires Regular(log)
    ensures Regular(EraseGroupTrace(fate, log, i).log)
  {
    if i > 0 {
      EraseGroupIsRegular(fate, log, i - 1);
      var t := EraseGroupTrace(fate, log, i - 1);
      SendIsRegular(t.log, i - 1, true);
      WaitIsRegular(fate, t.log.Send(i - 1, true), i - 1);
    }
  }

  lemma {:induction false} EraseGroupsAreRegular(fate: Fate, n: nat, t: Trace, off: nat, end: nat)
    requires GroupSize(n) > 0 && Regular(t.log)
    ensures Regular(EraseGroupsTrace(fate, n, t, off, end).log)
    decreases end - off
  {
    if off < end && t.ok {
      EraseGroupIsRegular(fate, t.log, n);
      EraseGroupsAreRegular(fate, n, EraseGroupTrace(fate, t.log, n), off + GroupSize(n), end);
    }
  }

  lemma {:induction false} EraseIsRegular(fate: Fate, n: nat, log: Log, offset: nat, length: nat)
    requires GroupSize(n) > 0 && Regular(log)
    ensures Regular(EraseTrace(fate, n, log, offset, length).log)
  {
    if Aligned(offset, n) && Aligned(length, n) {
      EraseGroupsAreRegular(fate, n, Trace(log, true), offset, (offset + length) % U32);
    }
  }

  ghost predicate AllFindIdle(events: seq<Event>) {
    forall k | 0 <= k < |events| && events[k].Sent? :: events[k].idle
  }

  /** No command goes to a chip after a wait for it has timed out. */
  ghost predicate NoneAfterTimeout(events: seq<Event>) {
    forall j, k | 0 <= j < k < |events| && events[j] == Waited(events[k].chip, TimedOut) :: !events[k].Sent?
  }

  /** If every command finds its chip idle, a chip whose wait timed out is left alone. */
  lemma {:induction false} LeftAlone(log: Log, j: nat, k: nat)
    requires Regular(log) && AllFindIdle(log.events) && j < k <= |log.events|
    requires log.events[j].Waited? && log.events[j].outcome == TimedOut
    ensures LastTimedOut(log.events[..k], log.events[j].chip) && !Armed(log.events[..k], log.events[j].chip)
    ensures forall m | j < m < k :: log.events[m].chip != log.events[j].chip
  {
    var events, chip := log.events, log.events[j].chip;
    assert events[..k][..k - 1] == events[..k - 1];
    assert RegularAt(events, k - 1);
    if k > j + 1 {
      LeftAlone(log, j, k - 1);
      assert events[k - 1].chip != chip;
    }
  }

  lemma {:induction false} LateComesFrom(events: seq<Event>, chip: nat) returns (j: nat)
    requires LastTimedOut(events, chip)
    ensures j < |events| && events[j] == Waited(chip, TimedOut)
  {
    var last := events[|events| - 1];
    if last.Waited? && last.chip == chip {
      j := |events| - 1;
    } else {
      j := LateComesFrom(events[..|events| - 1], chip);
    }
  }

  /** Over any sequence of calls, every command finds its chip idle exactly if no command goes
      to a chip after a wait for it has timed out. */
  lemma {:induction false} IdleIffNoTimeout(log: Log)
    requires Regular(log)
    ensures AllFindIdle(log.events) <==> NoneAfterTimeout(log.events)
  {
    var events := log.events;
    if AllFindIdle(events) && !NoneAfterTimeout(events) {
      var j, k :| 0 <= j < k < |events| && events[j] == Waited(events[k].chip, TimedOut) && events[k].Sent?;
      LeftAlone(log, j, |events|);
      assert false;
    }
    if NoneAfterTimeout(events) && !AllFindIdle(events) {
      var k :| 0 <= k < |events| && events[k].Sent? && !events[k].idle;
      assert RegularAt(events, k);
      var j := LateComesFrom(events[..k], events[k].chip);
      assert false;
    }
  }

  const NEW := Log([], {})

  /** One timed-out wait: the program of a one-byte write does not end in time, the write
      returns false with its chip busy, and the read that follows finds it so. */
  lemma {:induction false} TimeoutMeetsRead(fate: Fate)
    requires fate(0) == Done && fate(1) == Done && fate(2) == TimedOut
    ensures var w := WriteTrace(fate, 1, NEW, 0, 1);
            !w.ok && w.log.events == [Sent(0, true, true), Sent(0, true, true), Waited(0, TimedOut)] &&
            var r := ReadTrace(fate, 1, Trace(w.log, true), 0, 1);
            |r.log.events| > 3 && r.log.events[3] == Sent(0, false, true)
  {
    var start := Pipe(NEW, NonePending(1), true);
    var l1, l2 := TrySend(fate, NEW, 0), TrySend(fate, TrySend(fate, NEW, 0), 0);
    assert l1.events == [Sent(0, true, true)];
    assert l2.events == [Sent(0, true, true), Sent(0, true, true)];
    var p := WriteChunkTrace(fate, start, 0, 0);
    assert p == Pipe(l2, [0], true);
    assert WriteChunksTrace(fate, start, 0, 1) == WriteChunksTrace(fate, p, 1, 0) == p;
    var w := WaitAllTrace(fate, p, 1);
    assert WaitAllTrace(fate, p, 0) == p;
    assert w.log.events == l2.events + [Waited(0, TimedOut)] && 0 in w.log.late;
    var c := ReadChunkTrace(fate, w.log, 0);
    assert c.log.events[3] == Sent(0, false, true);
    assert ReadTrace(fate, 1, Trace(w.log, true), 0, 1) == ReadTrace(fate, 1, c, 1, 0) == c;
  }
}
