/** Counting the clients of the last second in a table of fixed size. */
module Clients {

  const MAXC := 32
  const SECOND := 1_000_000_000  // in nanoseconds

  /** A client and when it was seen; a history of touches is a sequence of these, too. */
  datatype Ent = Ent(key: nat, seen: int)

  predicate Active(e: Ent, now: int) {
    now - e.seen < SECOND
  }

  // ----- the table as a value

  predicate HasKey(t: seq<Ent>, key: nat) {
    exists i :: 0 <= i < |t| && t[i].key == key
  }

  function Refresh(t: seq<Ent>, key: nat, now: int): (r: seq<Ent>)
    ensures |r| == |t| && forall i | 0 <= i < |t| :: r[i] == if t[i].key == key then Ent(key, now) else t[i]
  {
    seq(|t|, i requires 0 <= i < |t| => if t[i].key == key then Ent(key, now) else t[i])
  }

  function CountActive(t: seq<Ent>, now: int): nat {
    if t == [] then 0 else CountActive(t[..|t| - 1], now) + (if Active(t[|t| - 1], now) then 1 else 0)
  }

  /** The first expired slot, or the length of the table. */
  function FirstExpired(t: seq<Ent>, now: int): (slot: nat)
    ensures slot <= |t| && (slot < |t| ==> !Active(t[slot], now))
    ensures forall i | 0 <= i < slot :: Active(t[i], now)
  {
    if t == [] then 0
    else
      var slot := FirstExpired(t[..|t| - 1], now);
      if slot < |t| - 1 then slot else if Active(t[|t| - 1], now) then |t| else |t| - 1
  }

  /** The table after a touch: a known client is refreshed, a new one takes an expired slot or
      a new one; a full table of active clients stays as it is. */
  function Touched(t: seq<Ent>, key: nat, now: int): (r: seq<Ent>) {
    var slot := FirstExpired(t, now);
    if HasKey(t, key) then Refresh(t, key, now)
    else if slot < |t| then t[slot := Ent(key, now)]
    else if |t| < MAXC then t + [Ent(key, now)]
    else t
  }

  function Answer(t: seq<Ent>, key: nat, now: int): nat {
    CountActive(Refresh(t, key, now), now) + if HasKey(t, key) then 0 else 1
  }

  // ----- the table as an object

  class ClientTracker {
    const ent: array<Ent>
    var n: nat

    ghost predicate Valid()
      reads this
    {
      ent.Length == MAXC && n <= MAXC
    }

    ghost function Table(): seq<Ent>
      requires Valid()
      reads this, ent
    {
      ent[..n]
    }

    constructor ()
      ensures Valid() && Table() == []
    {
      ent := new Ent[MAXC](i => Ent(0, 0));
      n := 0;
    }

    /** The pass over the table: refreshes the client, counts the active entries and finds the
        first expired slot, or -1. */
    method Scan(key: nat, now: int) returns (active: nat, slot: int, found: bool)
      requires Valid()
      modifies ent
      ensures Valid() && Table() == Refresh(old(Table()), key, now)
      ensures found == HasKey(old(Table()), key) && active == CountActive(Table(), now)
      ensures var first := FirstExpired(Table(), now); slot == if first < |Table()| then first else -1
    {
      ghost var t, r := Table(), Refresh(Table(), key, now);
      active, slot, found := 0, -1, false;
      for i := 0 to n
        invariant forall k | 0 <= k < n :: ent[k] == if k < i then r[k] else t[k]
        invariant found <==> HasKey(t[..i], key)
        invariant active == CountActive(r[..i], now)
        invariant slot == if FirstExpired(r[..i], now) < i then FirstExpired(r[..i], now) else -1
      {
        TakeNext(r, i);
        TakeNext(t, i);
        NextHasKey(t, i, key);
        if ent[i].key == key {
          ent[i] := Ent(ent[i].key, now);
          found := true;
        }
        if now - ent[i].seen < SECOND {
          active := active + 1;
        } else if slot < 0 {
          slot := i;
        }
      }
      assert r[..n] == r && t[..n] == t && Table() == r;
    }

    /** Records the client and returns the number of active clients. */
    method Touch(key: nat, now: int) returns (active: nat)
      requires Valid()
      modifies this, ent
      ensures Valid() && Table() == Touched(old(Table()), key, now)
      ensures active == Answer(old(Table()), key, now)
    {
      ghost var t := Table();
      var slot, found;
      active, slot, found := Scan(key, now);
      if !found {
        assert Table() == t;
        if slot < 0 && n < MAXC {
          slot := n;
          n := n + 1;
        }
        if slot >= 0 {
          ent[slot] := Ent(key, now);
        }
        active := active + 1;
      }
    }
  }

  lemma {:induction false} TakeNext(t: seq<Ent>, i: nat)
    requires i < |t|
    ensures t[..i + 1][..i] == t[..i] && t[..i + 1][i] == t[i]
  {
  }

  lemma {:induction false} NextHasKey(t: seq<Ent>, i: nat, key: nat)
    requires i < |t|
    ensures HasKey(t[..i + 1], key) <==> HasKey(t[..i], key) || t[i].key == key
  {
  }

  // ----- the full history

  /** Seen less than a second ago. */
  predicate Recent(e: Ent, now: int) {
    now - e.seen < 1_000_000_000
  }

  /** The clients of the last second, from the full history. */
  function ActiveKeys(h: seq<Ent>, now: int): set<nat> {
    set i | 0 <= i < |h| && Recent(h[i], now) :: h[i].key
  }

  ghost predicate InOrder(h: seq<Ent>) {
    forall i, j | 0 <= i < j < |h| :: h[i].seen <= h[j].seen
  }

  /** Never more than 32 clients within a second. */
  ghost predicate FewClients(h: seq<Ent>) {
    forall n {:trigger h[..n]} | 0 < n <= |h| :: |ActiveKeys(h[..n], h[n - 1].seen)| <= 32
  }

  /** The table after a whole history of touches. */
  function TableOf(h: seq<Ent>): seq<Ent> {
    if h == [] then [] else Touched(TableOf(h[..|h| - 1]), h[|h| - 1].key, h[|h| - 1].seen)
  }

  /** Every entry is the latest touch of its client; every client active at `now` has one. */
  ghost predicate Tracks(t: seq<Ent>, h: seq<Ent>, now: int) {
    (forall i, j | 0 <= i < j < |t| :: t[i].key != t[j].key) &&
    (forall i | 0 <= i < |t| :: t[i] in h) &&
    (forall i, j | 0 <= i < |t| && 0 <= j < |h| && h[j].key == t[i].key :: h[j].seen <= t[i].seen) &&
    forall j | 0 <= j < |h| && Recent(h[j], now) :: HasKey(t, h[j].key)
  }

  lemma {:induction false} TracksLater(t: seq<Ent>, h: seq<Ent>, before: int, now: int)
    requires Tracks(t, h, before) && before <= now
    ensures Tracks(t, h, now)
  {
  }

  lemma {:induction false} LastKey(t: seq<Ent>, now: int)
    requires t != []
    ensures ActiveKeys(t, now) ==
            ActiveKeys(t[..|t| - 1], now) + if Active(t[|t| - 1], now) then {t[|t| - 1].key} else {}
  {
  }

  /** Distinct clients are counted one by one. */
  lemma {:induction false} CountIsSize(t: seq<Ent>, now: int)
    requires forall i, j | 0 <= i < j < |t| :: t[i].key != t[j].key
    ensures CountActive(t, now) == |ActiveKeys(t, now)|
  {
    if t != [] {
      var n := |t| - 1;
      CountIsSize(t[..n], now);
      LastKey(t, now);
      assert t[n].key !in ActiveKeys(t[..n], now);
    }
  }

  /** The table knows exactly the active clients. */
  lemma {:induction false} TableIsExact(t: seq<Ent>, h: seq<Ent>, now: int)
    requires Tracks(t, h, now)
    ensures ActiveKeys(t, now) == ActiveKeys(h, now)
  {
  }

  /** Every client active after a touch has an entry. */
  lemma {:induction false} TouchKnows(t: seq<Ent>, h: seq<Ent>, key: nat, now: int, j: nat)
    requires Tracks(t, h, now) && j < |h| && Recent(h[j], now)
    ensures HasKey(Touched(t, key, now), h[j].key)
  {
    var t', slot := Touched(t, key, now), FirstExpired(t, now);
    assert HasKey(t, h[j].key);
    var i :| 0 <= i < |t| && t[i].key == h[j].key;
    assert h[j].seen <= t[i].seen;
    assert t'[i].key == h[j].key;
  }

  /** The entries after a touch. */
  lemma {:induction false} TouchedEntry(t: seq<Ent>, key: nat, now: int, i: nat)
    requires i < |Touched(t, key, now)|
    ensures Touched(t, key, now)[i] == Ent(key, now) || (i < |t| && Touched(t, key, now)[i] == t[i] && t[i].key != key)
  {
  }

  lemma {:induction false} TouchedDistinct(t: seq<Ent>, key: nat, now: int)
    requires forall i, j | 0 <= i < j < |t| :: t[i].key != t[j].key
    ensures forall i, j | 0 <= i < j < |Touched(t, key, now)| ::
              Touched(t, key, now)[i].key != Touched(t, key, now)[j].key
  {
  }

  lemma {:induction false} TouchedInHistory(t: seq<Ent>, h: seq<Ent>, key: nat, now: int, i: nat)
    requires Tracks(t, h, now) && (forall j | 0 <= j < |h| :: h[j].seen <= now) && i < |Touched(t, key, now)|
    ensures var h', e := h + [Ent(key, now)], Touched(t, key, now)[i];
            e in h' && forall j | 0 <= j < |h'| && h'[j].key == e.key :: h'[j].seen <= e.seen
  {
    TouchedEntry(t, key, now, i);
    var h', e := h + [Ent(key, now)], Touched(t, key, now)[i];
    assert h'[|h|] == Ent(key, now);
    if i < |t| && e == t[i] {
      assert t[i] in h;
    }
  }

  /** One touch keeps the table exact, unless it finds it full of other active clients. */
  lemma {:induction false} TouchTracks(t: seq<Ent>, h: seq<Ent>, key: nat, now: int)
    requires Tracks(t, h, now) && (forall j | 0 <= j < |h| :: h[j].seen <= now)
    requires HasKey(t, key) || FirstExpired(t, now) < |t| || |t| < 32
    ensures Tracks(Touched(t, key, now), h + [Ent(key, now)], now)
  {
    var t', h' := Touched(t, key, now), h + [Ent(key, now)];
    TouchedDistinct(t, key, now);
    forall j | 0 <= j < |h'| && Recent(h'[j], now) ensures HasKey(t', h'[j].key) {
      if j < |h| {
        TouchKnows(t, h, key, now, j);
      } else {
        NewHasKey(t, key, now);
      }
    }
    forall i | 0 <= i < |t'|
      ensures t'[i] in h' && forall j | 0 <= j < |h'| && h'[j].key == t'[i].key :: h'[j].seen <= t'[i].seen
    {
      TouchedInHistory(t, h, key, now, i);
    }
  }

  lemma {:induction false} NewHasKey(t: seq<Ent>, key: nat, now: int)
    requires HasKey(t, key) || FirstExpired(t, now) < |t| || |t| < 32
    ensures HasKey(Touched(t, key, now), key)
  {
    var t' := Touched(t, key, now);
    if HasKey(t, key) {
      var i :| 0 <= i < |t| && t[i].key == key;
      assert t'[i].key == key;
    } else {
      assert t'[FirstExpired(t, now)].key == key;
    }
  }

  lemma {:induction false} KeysWithTouch(h: seq<Ent>, key: nat, now: int)
    ensures ActiveKeys(h + [Ent(key, now)], now) == ActiveKeys(h, now) + {key}
  {
    var h' := h + [Ent(key, now)];
    assert h'[|h|] == Ent(key, now);
    forall k | k in ActiveKeys(h, now) ensures k in ActiveKeys(h', now) {
      var j :| 0 <= j < |h| && Recent(h[j], now) && h[j].key == k;
      assert h'[j] == h[j];
    }
  }

  lemma {:induction false} KeysRefreshed(t: seq<Ent>, key: nat, now: int)
    ensures ActiveKeys(Refresh(t, key, now), now) == ActiveKeys(t, now) + (if HasKey(t, key) then {key} else {})
  {
  }

  lemma {:induction false} UnknownIsInactive(t: seq<Ent>, key: nat, now: int)
    requires !HasKey(t, key)
    ensures key !in ActiveKeys(t, now)
  {
  }

  /** The answer counts the active clients, the touching one included. */
  lemma {:induction false} AnswerIsExact(t: seq<Ent>, h: seq<Ent>, key: nat, now: int)
    requires Tracks(t, h, now)
    ensures Answer(t, key, now) == |ActiveKeys(h + [Ent(key, now)], now)|
  {
    CountIsSize(Refresh(t, key, now), now);
    TableIsExact(t, h, now);
    KeysWithTouch(h, key, now);
    KeysRefreshed(t, key, now);
    if !HasKey(t, key) {
      UnknownIsInactive(t, key, now);
    }
  }

  /** A table full of other active clients means that more than 32 are active now. */
  lemma {:induction false} FullMeansMany(t: seq<Ent>, h: seq<Ent>, key: nat, now: int)
    requires Tracks(t, h, now) && (forall j | 0 <= j < |h| :: h[j].seen <= now) && |t| <= 32
    requires !HasKey(t, key) && FirstExpired(t, now) == |t| && |t| >= 32
    ensures |ActiveKeys(h + [Ent(key, now)], now)| == 33 && Touched(t, key, now) == t
  {
    AnswerIsExact(t, h, key, now);
    assert Refresh(t, key, now) == t;
    AllCounted(t, now);
  }

  lemma {:induction false} AllCounted(t: seq<Ent>, now: int)
    requires forall i | 0 <= i < |t| :: Active(t[i], now)
    ensures CountActive(t, now) == |t|
  {
    if t != [] {
      AllCounted(t[..|t| - 1], now);
    }
  }

  lemma {:induction false} TableSize(h: seq<Ent>)
    ensures |TableOf(h)| <= 32
  {
    if h != [] {
      TableSize(h[..|h| - 1]);
    }
  }

  lemma {:induction false} PrefixOfHistory(h: seq<Ent>, n: nat)
    requires InOrder(h) && FewClients(h) && n <= |h|
    ensures InOrder(h[..n]) && FewClients(h[..n])
  {
    var g := h[..n];
    forall m {:trigger g[..m]} | 0 < m <= n ensures |ActiveKeys(g[..m], g[m - 1].seen)| <= 32 {
      assert g[..m] == h[..m];
    }
  }

  lemma {:induction false} LastOfHistory(h: seq<Ent>, g: seq<Ent>, e: Ent)
    requires InOrder(h) && FewClients(h) && h != [] && g == h[..|h| - 1] && e == h[|h| - 1]
    ensures h == g + [e] && |ActiveKeys(h, e.seen)| <= 32 && forall j | 0 <= j < |g| :: g[j].seen <= e.seen
  {
    assert h[..|h|] == h;
  }

  /** The table agrees with the full history as long as at most 32 clients are active. */
  lemma {:induction false} TableTracks(h: seq<Ent>)
    requires InOrder(h) && FewClients(h)
    ensures h != [] ==> Tracks(TableOf(h), h, h[|h| - 1].seen)
  {
    if h != [] {
      var g, e := h[..|h| - 1], h[|h| - 1];
      PrefixOfHistory(h, |h| - 1);
      TableTracks(g);
      LastOfHistory(h, g, e);
      NextTracks(g, e);
      assert TableOf(h) == Touched(TableOf(g), e.key, e.seen);
    }
  }

  lemma {:induction false} NextTracks(g: seq<Ent>, e: Ent)
    requires g != [] ==> Tracks(TableOf(g), g, g[|g| - 1].seen)
    requires forall j | 0 <= j < |g| :: g[j].seen <= e.seen
    requires |ActiveKeys(g + [e], e.seen)| <= 32
    ensures Tracks(Touched(TableOf(g), e.key, e.seen), g + [e], e.seen)
  {
    var t := TableOf(g);
    TableSize(g);
    if g != [] {
      TracksLater(t, g, g[|g| - 1].seen, e.seen);
    }
    if !HasKey(t, e.key) && FirstExpired(t, e.seen) == |t| >= 32 {
      FullMeansMany(t, g, e.key, e.seen);
    }
    TouchTracks(t, g, e.key, e.seen);
  }

  /** What every touch of such a history returns: the number of clients of the last second. */
  lemma {:induction false} TouchCounts(h: seq<Ent>, e: Ent)
    requires InOrder(h + [e]) && FewClients(h)
    ensures Answer(TableOf(h), e.key, e.seen) == |ActiveKeys(h + [e], e.seen)|
  {
    LaterThanAll(h, e);
    TableTracks(h);
    if h != [] {
      TracksLater(TableOf(h), h, h[|h| - 1].seen, e.seen);
    }
    AnswerIsExact(TableOf(h), h, e.key, e.seen);
  }

  lemma {:induction false} LaterThanAll(h: seq<Ent>, e: Ent)
    requires InOrder(h + [e])
    ensures InOrder(h) && forall j | 0 <= j < |h| :: h[j].seen <= e.seen
  {
    var g := h + [e];
    forall j | 0 <= j < |h| ensures h[j].seen <= e.seen {
      assert g[j] == h[j] && g[|h|] == e;
    }
    forall i, j | 0 <= i < j < |h| ensures h[i].seen <= h[j].seen {
      assert g[i] == h[i] && g[j] == h[j];
    }
  }

  /** Beyond 32 clients the table forgets: of two new clients that find it full of others,
      both are answered with 33, although 34 are active by then. */
  lemma {:induction false} FullTableForgets(h: seq<Ent>, d: Ent, e: Ent)
    requires h != [] && InOrder(h + [d]) && InOrder(h + [e]) && FewClients(h) && d.seen == e.seen && d.key != e.key
    requires |ActiveKeys(h, d.seen)| == 32 && d.key !in ActiveKeys(h, d.seen) && e.key !in ActiveKeys(h, d.seen)
    ensures Answer(TableOf(h + [d]), e.key, e.seen) == 33
    ensures |ActiveKeys(h + [d, e], e.seen)| == 34
  {
    FullTable(h, d);
    FullTable(h, e);
    TwoMoreKeys(h, d, e);
  }

  lemma {:induction false} TwoMoreKeys(h: seq<Ent>, d: Ent, e: Ent)
    requires d.seen == e.seen && d.key != e.key && d.key !in ActiveKeys(h, d.seen) && e.key !in ActiveKeys(h, d.seen)
    ensures |ActiveKeys(h + [d, e], e.seen)| == |ActiveKeys(h, d.seen)| + 2
  {
    assert h + [d, e] == h + [d] + [e];
    KeysWithTouch(h, d.key, d.seen);
    KeysWithTouch(h + [d], e.key, d.seen);
  }

  /** A table full of other active clients: a new client leaves it as it is. */
  lemma {:induction false} FullTable(h: seq<Ent>, d: Ent)
    requires h != [] && InOrder(h + [d]) && FewClients(h)
    requires |ActiveKeys(h, d.seen)| == 32 && d.key !in ActiveKeys(h, d.seen)
    ensures TableOf(h + [d]) == TableOf(h) && Answer(TableOf(h), d.key, d.seen) == 33
  {
    var t, now := TableOf(h), d.seen;
    LaterThanAll(h, d);
    TableSize(h);
    TableTracks(h);
    TracksLater(t, h, h[|h| - 1].seen, now);
    FullOfOthers(t, h, now);
    AllActive(t, now);
    assert !HasKey(t, d.key);
    assert Refresh(t, d.key, now) == t;
    assert (h + [d])[..|h|] == h;
  }

  /** As many active clients as slots: every entry is one of them. */
  lemma {:induction false} FullOfOthers(t: seq<Ent>, h: seq<Ent>, now: int)
    requires Tracks(t, h, now) && |ActiveKeys(h, now)| == 32 && |t| <= 32
    ensures |t| == 32 && ActiveKeys(t, now) == ActiveKeys(h, now) && CountActive(t, now) == 32
  {
    TableIsExact(t, h, now);
    CountIsSize(t, now);
    CountAtMost(t, now);
  }

  lemma {:induction false} CountAtMost(t: seq<Ent>, now: int)
    ensures CountActive(t, now) <= |t|
  {
    if t != [] {
      CountAtMost(t[..|t| - 1], now);
    }
  }

  lemma {:induction false} AllActive(t: seq<Ent>, now: int)
    requires CountActive(t, now) == |t|
    ensures FirstExpired(t, now) == |t|
  {
    if t != [] {
      CountAtMost(t[..|t| - 1], now);
      AllActive(t[..|t| - 1], now);
    }
  }

  // ----- exactly how many clients the table can follow

  lemma {:induction false} UpperBound(s: set<nat>) returns (k: nat)
    ensures forall x | x in s :: x < k
  {
    if s == {} {
      k := 0;
    } else {
      var x :| x in s;
      var rest := UpperBound(s - {x});
      k := if rest <= x then x + 1 else rest;
      forall y | y in s ensures y < k {
        assert y == x || y in s - {x};
      }
    }
  }

  /** As time passes, clients only become inactive. */
  lemma {:induction false} ActiveShrinks(h: seq<Ent>, before: int, now: int)
    requires before <= now
    ensures ActiveKeys(h, now) <= ActiveKeys(h, before)
    ensures |ActiveKeys(h, now)| <= |ActiveKeys(h, before)|
  {
    SubsetIsSmaller(ActiveKeys(h, now), ActiveKeys(h, before));
  }

  lemma {:induction false} SubsetIsSmaller(a: set<nat>, b: set<nat>)
    requires a <= b
    ensures |a| <= |b|
  {
    assert b == a + (b - a);
  }

  lemma {:induction false} FewSnoc(h: seq<Ent>, d: Ent)
    requires FewClients(h)
    ensures FewClients(h + [d]) <==> |ActiveKeys(h + [d], d.seen)| <= 32
  {
    var g := h + [d];
    assert g[..|g|] == g;
    forall n {:trigger g[..n]} | 0 < n <= |h| ensures |ActiveKeys(g[..n], g[n - 1].seen)| <= 32 {
      assert g[..n] == h[..n];
    }
  }

  /** The table answers the next touch correctly, whoever makes it and whenever. */
  ghost predicate NextIsExact(h: seq<Ent>) {
    forall e: Ent {:trigger Answer(TableOf(h), e.key, e.seen)} ::
      InOrder(h + [e]) ==> Answer(TableOf(h), e.key, e.seen) == |ActiveKeys(h + [e], e.seen)|
  }

  /** As long as few clients are active, and no longer, the table answers every next touch. */
  lemma {:induction false} ExactIffFew(h: seq<Ent>, d: Ent)
    requires InOrder(h + [d]) && FewClients(h)
    ensures NextIsExact(h + [d]) <==> FewClients(h + [d])
  {
    FewSnoc(h, d);
    KeysWithTouch(h, d.key, d.seen);
    if FewClients(h + [d]) {
      forall e: Ent | InOrder(h + [d] + [e])
        ensures Answer(TableOf(h + [d]), e.key, e.seen) == |ActiveKeys(h + [d] + [e], e.seen)|
      {
        TouchCounts(h + [d], e);
      }
    } else {
      var e := Spoiler(h, d);
      assert InOrder(h + [d] + [e]) && Answer(TableOf(h + [d]), e.key, e.seen) != |ActiveKeys(h + [d] + [e], e.seen)|;
    }
  }

  /** A client whose touch is answered wrongly once the table has overflowed. */
  lemma {:induction false} Spoiler(h: seq<Ent>, d: Ent) returns (e: Ent)
    requires h != [] && InOrder(h + [d]) && FewClients(h) && |ActiveKeys(h + [d], d.seen)| > 32
    ensures InOrder(h + [d] + [e]) && Answer(TableOf(h + [d]), e.key, e.seen) != |ActiveKeys(h + [d] + [e], e.seen)|
  {
    var key := UpperBound(ActiveKeys(h, d.seen) + {d.key});
    e := Ent(key, d.seen);
    LaterThanAll(h, d);
    assert h[..|h|] == h;
    ActiveShrinks(h, h[|h| - 1].seen, d.seen);
    KeysWithTouch(h, d.key, d.seen);
    assert h + [d] + [e] == h + [d, e];
    FullTableForgets(h, d, e);
  }
}
