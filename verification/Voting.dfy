/** The vote over the eight bits of a cell: how many good columns decide it. */
module Voting {
  import opened Bits
  import opened Machine

  /** The places below n at which x has a 1. */
  function Ones(x: nat, n: nat): set<nat> {
    set k: nat | k < n && BitAt(x, k)
  }

  lemma {:induction false} CountIsCardinality(x: nat, n: nat)
    ensures CountOnes(x, n) == |Ones(x, n)|
  {
    if n == 0 {
      assert Ones(x, 0) == {};
    } else {
      CountIsCardinality(x, n - 1);
      if BitAt(x, n - 1) {
        assert Ones(x, n) == Ones(x, n - 1) + {n - 1};
      } else {
        assert Ones(x, n) == Ones(x, n - 1);
      }
    }
  }

  /** The vote is true exactly if at least four of the eight bits are set: a tie is true. */
  lemma {:induction false} VoteIsFour(x: byte)
    ensures MajorityVote(x) <==> |Ones(x, 8)| >= 4
  {
    CountIsCardinality(x, 8);
  }

  lemma {:induction false} SubsetIsSmaller(xs: set<nat>, ys: set<nat>)
    requires xs <= ys
    ensures |xs| <= |ys|
  {
    if xs != {} {
      var x :| x in xs;
      SubsetIsSmaller(xs - {x}, ys - {x});
    }
  }

  /** The numbers below n. */
  function Below(n: nat): (ks: set<nat>)
    ensures |ks| == n && forall k: nat :: k in ks <==> k < n
  {
    if n == 0 then {} else Below(n - 1) + {n - 1}
  }

  /** How a vote can come out for a bit that a number of columns agree on: the others do not
      change a 1 from four columns on, nor a 0 from five on. */
  predicate Voted(got: bool, bit: bool, columns: nat) {
    (columns >= 4 && bit ==> got) && (columns >= 5 ==> got == bit)
  }

  /** What agreeing columns make of the vote, whatever the others read. */
  lemma {:induction false} VoteOfGood(x: byte, good: set<nat>, bit: bool)
    requires forall k | k in good :: k < 8 && BitAt(x, k) == bit
    ensures Voted(MajorityVote(x), bit, |good|)
  {
    var ones, all := Ones(x, 8), Below(8);
    CountIsCardinality(x, 8);
    if bit {
      SubsetIsSmaller(good, ones);
    } else {
      assert ones !! good;
      assert |ones + good| == |ones| + |good|;
      SubsetIsSmaller(ones + good, all);
    }
  }

  /** Five good columns outvote three bad ones. */
  lemma {:induction false} MajorityOfGood(x: byte, good: set<nat>, bit: bool)
    requires |good| >= 5 && forall k | k in good :: k < 8 && BitAt(x, k) == bit
    ensures MajorityVote(x) == bit
  {
    VoteOfGood(x, good, bit);
  }

  /** The good columns read 1 or 0. */
  predicate AllRead(x: byte, good: set<nat>, bit: bool) {
    forall k | k in good :: BitAt(x, k) == bit
  }

  /** A cell in which exactly the given columns read 1. */
  lemma {:induction false} CellWith(ones: set<nat>) returns (x: byte)
    ensures forall k: nat | k < 8 :: BitAt(x, k) == (k in ones)
  {
    var bs := seq(8, k => k in ones);
    assert Pow2(8) == 256 by { Pow2Byte(0); }
    x := ToNat(bs);
    FromToNat(bs);
    forall k: nat | k < 8 ensures BitAt(x, k) == (k in ones) {
      FromNatAt(x, 8, k);
    }
  }

  lemma {:induction false} VoteOfCell(x: byte, ones: set<nat>)
    requires forall k: nat | k < 8 :: BitAt(x, k) == (k in ones)
    requires forall k | k in ones :: k < 8
    ensures MajorityVote(x) <==> |ones| >= 4
  {
    CountIsCardinality(x, 8);
    assert Ones(x, 8) == ones;
  }

  /** Exactly four columns decide a 1, and exactly five a 0. */
  lemma {:induction false} ColumnsThatDecide(good: set<nat>)
    requires forall k | k in good :: k < 8
    ensures (forall x: byte | AllRead(x, good, true) :: MajorityVote(x)) <==> |good| >= 4
    ensures (forall x: byte | AllRead(x, good, false) :: !MajorityVote(x)) <==> |good| >= 5
  {
    forall x: byte | AllRead(x, good, true) ensures |good| >= 4 ==> MajorityVote(x) {
      VoteOfGood(x, good, true);
    }
    forall x: byte | AllRead(x, good, false) ensures |good| >= 5 ==> !MajorityVote(x) {
      VoteOfGood(x, good, false);
    }
    var all := Below(8);
    var x := CellWith(good);
    VoteOfCell(x, good);
    assert AllRead(x, good, true);
    var y := CellWith(all - good);
    VoteOfCell(y, all - good);
    assert good <= all;
    assert |all - good| == |all| - |good|;
    assert AllRead(y, good, false);
  }
}
