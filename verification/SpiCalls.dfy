/** Calls and sequences of calls of the striped device: which of their commands find their chip
    idle, as far as a caller can tell beforehand. */
module SpiCalls {
  import opened Machine
  import opened SpiTrace
  import opened SpiIdle
  import opened FlatMemory

  /** The call sends commands to chip c if nothing fails. */
  ghost predicate Uses(x: Access, n: nat, c: nat)
    requires n > 0 && GroupSize(n) > 0
  {
    match x
    case ReadAt(offset, length) => LiesOn(n, offset, length, c)
    case WriteAt(offset, data) => LiesOn(n, offset, |data|, c)
    case EraseAt(offset, length) => Starts(n, offset, length) && c < n
  }

  ghost predicate UsesNone(x: Access, n: nat, late: set<nat>)
    requires n > 0 && GroupSize(n) > 0
  {
    forall c {:trigger c in late} | c in late :: !Uses(x, n, c)
  }

  // ----- one call

  lemma {:induction false} IdleIfUnused(fate: Fate, n: nat, log: Log, x: Access)
    requires n > 0 && GroupSize(n) > 0 && x.offset < U32 && UsesNone(x, n, log.late)
    ensures NewFindIdle(log, CallTrace(fate, n, log, x).log)
  {
    match x {
      case ReadAt(offset, length) => ReadFindsIdle(fate, n, Trace(log, true), offset, length);
      case WriteAt(offset, data) => WriteFindsIdle(fate, n, log, offset, |data|);
      case EraseAt(offset, length) => EraseFindsIdle(fate, n, log, offset, length);
    }
  }

  lemma {:induction false} MeetsLate(fate: Fate, n: nat, log: Log, x: Access, c: nat)
    requires n > 0 && GroupSize(n) > 0 && x.offset < U32 && DoneFrom(fate, |log.events|)
    requires Uses(x, n, c) && c in log.late
    ensures !NewFindIdle(log, CallTrace(fate, n, log, x).log)
  {
    match x {
      case ReadAt(offset, length) => ReadMeetsLate(fate, n, Trace(log, true), offset, length, c);
      case WriteAt(offset, data) =>
        var i :| 0 <= i < |data| && ChipOfByte(n, offset, i) == c;
        WriteMeetsLate(fate, n, log, offset, |data|, c);
      case EraseAt(offset, length) => EraseMeetsLate(fate, n, log, offset, length, c);
    }
  }

  /** Whatever fails, every command of a call finds its chip idle, if and only if the call uses no
      chip that was left busy before it. */
  lemma {:induction false} CallFindsIdle(n: nat, log: Log, x: Access)
    requires n > 0 && GroupSize(n) > 0 && x.offset < U32
    ensures (forall fate: Fate {:trigger CallTrace(fate, n, log, x)} ::
               NewFindIdle(log, CallTrace(fate, n, log, x).log)) <==>
            UsesNone(x, n, log.late)
  {
    if UsesNone(x, n, log.late) {
      forall fate: Fate ensures NewFindIdle(log, CallTrace(fate, n, log, x).log) {
        IdleIfUnused(fate, n, log, x);
      }
    } else {
      var c :| c in log.late && Uses(x, n, c);
      MeetsLate(AllDone(), n, log, x, c);
    }
  }

  /** A call leaves every chip that it does not use as busy as it was. */
  lemma {:induction false} CallLeaves(fate: Fate, n: nat, log: Log, x: Access, c: nat)
    requires n > 0 && GroupSize(n) > 0 && x.offset < U32 && !Uses(x, n, c)
    ensures c in CallTrace(fate, n, log, x).log.late <==> c in log.late
  {
    match x {
      case ReadAt(offset, length) => ReadLeaves(fate, n, Trace(log, true), offset, length, c);
      case WriteAt(offset, data) => WriteLeaves(fate, n, log, offset, |data|, c);
      case EraseAt(offset, length) =>
        if Aligned(offset, n) && Aligned(length, n) && offset < (offset + length) % U32 {
          EraseGroupsLeave(fate, n, Trace(log, true), offset, (offset + length) % U32, c);
        }
    }
  }

  /** Any chip that a call uses can be left busy by it. */
  lemma {:induction false} CallTimesOut(n: nat, log: Log, x: Access, c: nat) returns (m: nat)
    requires n > 0 && GroupSize(n) > 0 && x.offset < U32 && Uses(x, n, c)
    ensures var r := CallTrace(OneTimeout(m), n, log, x);
            |log.events| <= m < |r.log.events| && c in r.log.late
  {
    match x {
      case ReadAt(offset, length) => m := ReadTimesOut(n, Trace(log, true), offset, length, c);
      case WriteAt(offset, data) =>
        var i :| 0 <= i < |data| && ChipOfByte(n, offset, i) == c;
        m := WriteTimesOut(n, log, offset, |data|, c);
      case EraseAt(offset, length) => m := EraseTimesOut(n, log, offset, length, c);
    }
  }

  lemma {:induction false} CallAgrees(fate: Fate, n: nat, log: Log, x: Access)
    requires n > 0 && GroupSize(n) > 0
    requires DoneOn(fate, |log.events|, |CallTrace(AllDone(), n, log, x).log.events|)
    ensures CallTrace(fate, n, log, x) == CallTrace(AllDone(), n, log, x)
  {
    match x {
      case ReadAt(offset, length) => ReadAgrees(fate, n, Trace(log, true), offset, length);
      case WriteAt(offset, data) => WriteAgrees(fate, n, log, offset, |data|);
      case EraseAt(offset, length) =>
        if Aligned(offset, n) && Aligned(length, n) {
          EraseGroupsAgree(fate, n, Trace(log, true), offset, (offset + length) % U32);
        }
    }
  }

  // ----- sequences of calls

  ghost predicate AddressesFit(xs: seq<Access>) {
    forall i {:trigger xs[i]} | 0 <= i < |xs| :: xs[i].offset < U32
  }

  /** No two of the calls use the same chip. */
  ghost predicate NoChipTwice(xs: seq<Access>, n: nat)
    requires n > 0 && GroupSize(n) > 0
  {
    forall j, k, c {:trigger Uses(xs[j], n, c), Uses(xs[k], n, c)} | 0 <= j < k < |xs| ::
      !Uses(xs[j], n, c) || !Uses(xs[k], n, c)
  }

  lemma {:induction false} CallsExtend(fate: Fate, n: nat, log: Log, xs: seq<Access>, j: nat, k: nat)
    requires n > 0 && GroupSize(n) > 0 && j <= k <= |xs|
    ensures log.events <= CallsTrace(fate, n, log, xs, j).0.events <= CallsTrace(fate, n, log, xs, k).0.events
    decreases k
  {
    if j < k {
      CallsExtend(fate, n, log, xs, j, k - 1);
      CallTells(fate, n, CallsTrace(fate, n, log, xs, k - 1).0, xs[k - 1]);
    } else if k > 0 {
      CallsExtend(fate, n, log, xs, k - 1, k - 1);
      CallTells(fate, n, CallsTrace(fate, n, log, xs, k - 1).0, xs[k - 1]);
    }
  }

  /** A chip that is busy after some calls has been used by one of them. */
  lemma {:induction false} LateWasUsed(fate: Fate, n: nat, xs: seq<Access>, k: nat, c: nat) returns (j: nat)
    requires n > 0 && GroupSize(n) > 0 && k <= |xs| && AddressesFit(xs) && c in CallsTrace(fate, n, NEW, xs, k).0.late
    ensures j < k && Uses(xs[j], n, c)
  {
    var before := CallsTrace(fate, n, NEW, xs, k - 1).0;
    if Uses(xs[k - 1], n, c) {
      j := k - 1;
    } else {
      CallLeaves(fate, n, before, xs[k - 1], c);
      j := LateWasUsed(fate, n, xs, k - 1, c);
    }
  }

  lemma {:induction false} CallsIdle(fate: Fate, n: nat, xs: seq<Access>, k: nat)
    requires n > 0 && GroupSize(n) > 0 && k <= |xs| && AddressesFit(xs) && NoChipTwice(xs, n)
    ensures AllFindIdle(CallsTrace(fate, n, NEW, xs, k).0.events)
  {
    if k > 0 {
      CallsIdle(fate, n, xs, k - 1);
      var before, after := CallsTrace(fate, n, NEW, xs, k - 1).0, CallsTrace(fate, n, NEW, xs, k).0;
      forall c | c in before.late ensures !Uses(xs[k - 1], n, c) {
        var j := LateWasUsed(fate, n, xs, k - 1, c);
      }
      IdleIfUnused(fate, n, before, xs[k - 1]);
      CallsExtend(fate, n, NEW, xs, k - 1, k);
    }
  }

  lemma {:induction false} CallsAgree(fate: Fate, n: nat, xs: seq<Access>, k: nat)
    requires n > 0 && GroupSize(n) > 0 && k <= |xs|
    requires DoneOn(fate, 0, |CallsTrace(AllDone(), n, NEW, xs, k).0.events|)
    ensures CallsTrace(fate, n, NEW, xs, k) == CallsTrace(AllDone(), n, NEW, xs, k)
  {
    if k > 0 {
      CallsExtend(AllDone(), n, NEW, xs, k - 1, k);
      CallsAgree(fate, n, xs, k - 1);
      CallAgrees(fate, n, CallsTrace(AllDone(), n, NEW, xs, k - 1).0, xs[k - 1]);
    }
  }

  /** A chip left busy stays so until a call uses it; the first that does meets it. */
  lemma {:induction false} NextUserMeets(fate: Fate, n: nat, xs: seq<Access>, j: nat, k: nat, c: nat)
    requires n > 0 && GroupSize(n) > 0 && j <= k < |xs| && AddressesFit(xs)
    requires DoneFrom(fate, |CallsTrace(fate, n, NEW, xs, j).0.events|)
    requires c in CallsTrace(fate, n, NEW, xs, j).0.late && Uses(xs[k], n, c)
    ensures !AllFindIdle(CallsTrace(fate, n, NEW, xs, |xs|).0.events)
    decreases k - j
  {
    var before, after := CallsTrace(fate, n, NEW, xs, j).0, CallsTrace(fate, n, NEW, xs, j + 1).0;
    CallsExtend(fate, n, NEW, xs, j, j + 1);
    if Uses(xs[j], n, c) {
      MeetsLate(fate, n, before, xs[j], c);
      CallsExtend(fate, n, NEW, xs, j + 1, |xs|);
      BusyShows(before, after, CallsTrace(fate, n, NEW, xs, |xs|).0);
    } else {
      CallLeaves(fate, n, before, xs[j], c);
      NextUserMeets(fate, n, xs, j + 1, k, c);
    }
  }

  lemma {:induction false} BusyShows(before: Log, after: Log, end: Log)
    requires before.events <= after.events <= end.events && !NewFindIdle(before, after)
    ensures !AllFindIdle(end.events)
  {
    var k :| |before.events| <= k < |after.events| && after.events[k].Sent? && !after.events[k].idle;
    assert end.events[k] == after.events[k];
  }

  /** If two calls use a chip, a timeout in the first makes a later one meet it. */
  lemma {:induction false} TwiceCanMeet(n: nat, xs: seq<Access>, j: nat, k: nat, c: nat) returns (fate: Fate)
    requires n > 0 && GroupSize(n) > 0 && j < k < |xs| && AddressesFit(xs) && Uses(xs[j], n, c) && Uses(xs[k], n, c)
    ensures !AllFindIdle(CallsTrace(fate, n, NEW, xs, |xs|).0.events)
  {
    var before := CallsTrace(AllDone(), n, NEW, xs, j).0;
    var m := CallTimesOut(n, before, xs[j], c);
    fate := OneTimeout(m);
    CallsAgree(fate, n, xs, j);
    NextUserMeets(fate, n, xs, j + 1, k, c);
  }

  /** Over any sequence of calls after opening, whatever fails, every command finds its chip idle,
      if and only if no two of the calls use the same chip. */
  lemma {:induction false} CallsFindIdle(n: nat, xs: seq<Access>)
    requires n > 0 && GroupSize(n) > 0 && AddressesFit(xs)
    ensures (forall fate: Fate {:trigger CallsTrace(fate, n, NEW, xs, |xs|)} ::
               AllFindIdle(CallsTrace(fate, n, NEW, xs, |xs|).0.events)) <==> NoChipTwice(xs, n)
  {
    if NoChipTwice(xs, n) {
      forall fate: Fate ensures AllFindIdle(CallsTrace(fate, n, NEW, xs, |xs|).0.events) {
        CallsIdle(fate, n, xs, |xs|);
      }
    } else {
      var j, k, c :| 0 <= j < k < |xs| && Uses(xs[j], n, c) && Uses(xs[k], n, c);
      var fate := TwiceCanMeet(n, xs, j, k, c);
    }
  }

  // ----- after calls that returned true

  lemma {:induction false} NoTimeoutNoneLate(log: Log)
    requires Regular(log) && AllSucceeded(log.events, 0)
    ensures log.late == {}
  {
    forall c | c in log.late ensures false {
      var j := LateComesFrom(log.events, c);
    }
  }

  /** As long as every call has returned true, the next one finds all its chips idle, whatever
      becomes of it. */
  lemma {:induction false} NextFindsIdle(fate: Fate, n: nat, xs: seq<Access>, k: nat)
    requires n > 0 && GroupSize(n) > 0 && k < |xs| && AddressesFit(xs)
    requires AllOk(CallsTrace(fate, n, NEW, xs, k).1)
    ensures CallsTrace(fate, n, NEW, xs, k).0.late == {}
    ensures AllFindIdle(CallsTrace(fate, n, NEW, xs, k + 1).0.events)
  {
    var before := CallsTrace(fate, n, NEW, xs, k).0;
    CallsTell(fate, n, NEW, xs, k);
    CallsAreRegular(fate, n, NEW, xs, k);
    NoTimeoutNoneLate(before);
    IdleIffNoTimeout(before);
    IdleIfUnused(fate, n, before, xs[k]);
    CallsExtend(fate, n, NEW, xs, k, k + 1);
  }

  /** In terms of what has happened: all commands have found their chips idle exactly if none went
      to a chip after a wait for it had timed out. */
  lemma {:induction false} IdleUnlessTimedOut(fate: Fate, n: nat, xs: seq<Access>)
    requires n > 0 && GroupSize(n) > 0
    ensures var events := CallsTrace(fate, n, NEW, xs, |xs|).0.events; AllFindIdle(events) <==> NoneAfterTimeout(events)
  {
    CallsAreRegular(fate, n, NEW, xs, |xs|);
    IdleIffNoTimeout(CallsTrace(fate, n, NEW, xs, |xs|).0);
  }
}
