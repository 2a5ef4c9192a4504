/** The arithmetic of subtraction with borrow, independent of any circuit.

    Position i generates a borrow when a_i is 1 and b_i is 0, and propagates one when
    a_i and b_i are equal.  A chain of (generate, propagate) pairs turns the borrow that
    enters at the bottom into the borrow that leaves at the top. */
module Borrow {
  import opened Bits

  /** The borrow that leaves position k - 1, rippling up from `bin`. */
  predicate Chain(g: seq<bool>, p: seq<bool>, bin: bool, k: nat)
    requires k <= |g| && k <= |p|
  {
    if k == 0 then bin else g[k - 1] || (p[k - 1] && Chain(g, p, bin, k - 1))
  }

  /** All of p[lo..hi] hold. */
  predicate AllOf(p: seq<bool>, lo: nat, hi: nat)
    requires hi <= |p|
  {
    forall m | lo <= m < hi :: p[m]
  }

  /** The two-level form: some position generates and all above it propagate, or the
      borrow from below passes through everything. */
  predicate Lookahead(g: seq<bool>, p: seq<bool>, bin: bool, k: nat)
    requires k <= |g| && k <= |p|
  {
    (exists j | 0 <= j < k :: g[j] && AllOf(p, j + 1, k)) || (AllOf(p, 0, k) && bin)
  }

  lemma {:induction false} LookaheadIsChain(g: seq<bool>, p: seq<bool>, bin: bool, k: nat)
    requires k <= |g| && k <= |p|
    ensures Lookahead(g, p, bin, k) == Chain(g, p, bin, k)
  {
    if k > 0 {
      LookaheadIsChain(g, p, bin, k - 1);
      if Lookahead(g, p, bin, k) {
        if j :| 0 <= j < k && g[j] && AllOf(p, j + 1, k) {
          if j < k - 1 {
            assert AllOf(p, j + 1, k - 1) && p[k - 1];
          }
        } else {
          assert AllOf(p, 0, k - 1) && p[k - 1];
        }
      }
      if Chain(g, p, bin, k) {
        if g[k - 1] {
          assert AllOf(p, k, k);
        } else if j :| 0 <= j < k - 1 && g[j] && AllOf(p, j + 1, k - 1) {
          assert AllOf(p, j + 1, k);
        } else {
          assert AllOf(p, 0, k);
        }
      }
    }
  }

  /** What a whole chain does to the borrow entering it is again one generate and one
      propagate bit. */
  lemma {:induction false} ChainIsOnePosition(g: seq<bool>, p: seq<bool>, bin: bool, k: nat)
    requires k <= |g| && k <= |p|
    ensures Chain(g, p, bin, k) == (Chain(g, p, false, k) || (AllOf(p, 0, k) && bin))
  {
    if k > 0 {
      ChainIsOnePosition(g, p, bin, k - 1);
      assert AllOf(p, 0, k) == (AllOf(p, 0, k - 1) && p[k - 1]);
    }
  }

  /** A chain cut at position `at` is the upper part fed by the lower part. */
  lemma {:induction false} ChainSplit(g: seq<bool>, p: seq<bool>, bin: bool, at: nat, k: nat)
    requires at + k <= |g| && at + k <= |p|
    ensures Chain(g, p, bin, at + k) == Chain(g[at..], p[at..], Chain(g, p, bin, at), k)
  {
    if k > 0 {
      ChainSplit(g, p, bin, at, k - 1);
    }
  }

  /** Only the first k positions matter. */
  lemma {:induction false} ChainPrefix(g: seq<bool>, p: seq<bool>, g': seq<bool>, p': seq<bool>, bin: bool, k: nat)
    requires k <= |g| && k <= |p| && k <= |g'| && k <= |p'|
    requires forall i | 0 <= i < k :: g[i] == g'[i] && p[i] == p'[i]
    ensures Chain(g, p, bin, k) == Chain(g', p', bin, k)
  {
    if k > 0 {
      ChainPrefix(g, p, g', p', bin, k - 1);
    }
  }

  /** (gg, gp) are the group generate and propagate of the chain (g, p) cut into groups of four. */
  ghost predicate Groups(g: seq<bool>, p: seq<bool>, gg: seq<bool>, gp: seq<bool>) {
    |g| == |p| == 4 * |gg| && |gp| == |gg| &&
    forall k | 0 <= k < |gg| ::
      gg[k] == Chain(g[4 * k..4 * k + 4], p[4 * k..4 * k + 4], false, 4) &&
      gp[k] == AllOf(p[4 * k..4 * k + 4], 0, 4)
  }

  /** Group composition: rippling over groups gives the borrow at every group boundary. */
  lemma {:induction false} ChainOfGroups(g: seq<bool>, p: seq<bool>, gg: seq<bool>, gp: seq<bool>, bin: bool, k: nat)
    requires Groups(g, p, gg, gp) && k <= |gg|
    ensures Chain(gg, gp, bin, k) == Chain(g, p, bin, 4 * k)
  {
    if k > 0 {
      var at := 4 * (k - 1);
      var below := Chain(g, p, bin, at);
      ChainOfGroups(g, p, gg, gp, bin, k - 1);
      ChainSplit(g, p, bin, at, 4);
      ChainPrefix(g[at..], p[at..], g[at..at + 4], p[at..at + 4], below, 4);
      ChainIsOnePosition(g[at..at + 4], p[at..at + 4], below, 4);
    }
  }

  /** The borrow inside a group, from the borrow entering that group. */
  lemma {:induction false} ChainInsideGroup(g: seq<bool>, p: seq<bool>, bin: bool, at: nat, u: nat)
    requires |g| == |p| && at + 4 <= |g| && u <= 4
    ensures Chain(g[at..at + 4], p[at..at + 4], Chain(g, p, bin, at), u) == Chain(g, p, bin, at + u)
  {
    ChainSplit(g, p, bin, at, u);
    ChainPrefix(g[at..], p[at..], g[at..at + 4], p[at..at + 4], Chain(g, p, bin, at), u);
  }

  // ----- subtraction of bit strings

  function Generate(a: seq<bool>, b: seq<bool>): (g: seq<bool>)
    requires |a| == |b|
    ensures |g| == |a|
  {
    seq(|a|, i requires 0 <= i < |a| && |a| == |b| => a[i] && !b[i])
  }

  function Propagate(a: seq<bool>, b: seq<bool>): (p: seq<bool>)
    requires |a| == |b|
    ensures |p| == |a|
  {
    seq(|a|, i requires 0 <= i < |a| && |a| == |b| => a[i] == b[i])
  }

  /** The borrow into position i of b - a. */
  predicate Ripple(a: seq<bool>, b: seq<bool>, i: nat)
    requires |a| == |b| && i <= |a|
  {
    Chain(Generate(a, b), Propagate(a, b), false, i)
  }

  /** Bit i of b - a. */
  predicate DifferenceBit(a: seq<bool>, b: seq<bool>, i: nat)
    requires |a| == |b| && i < |a|
  {
    (a[i] != b[i]) != Ripple(a, b, i)
  }

  function Difference(a: seq<bool>, b: seq<bool>): (d: seq<bool>)
    requires |a| == |b|
    ensures |d| == |a|
  {
    seq(|a|, i requires 0 <= i < |a| && |a| == |b| => DifferenceBit(a, b, i))
  }

  function One(b: bool): nat {
    if b then 1 else 0
  }

  /** One position of the subtraction, as numbers. */
  lemma {:induction false} PositionSubtracts(a: seq<bool>, b: seq<bool>, i: nat)
    requires |a| == |b| && i < |a|
    ensures One(DifferenceBit(a, b, i)) ==
            One(b[i]) - One(a[i]) - One(Ripple(a, b, i)) + 2 * One(Ripple(a, b, i + 1))
  {
  }

  lemma {:induction false} ToNatPrefix(xs: seq<bool>, i: nat)
    requires i < |xs|
    ensures ToNat(xs[..i + 1]) == ToNat(xs[..i]) + One(xs[i]) * Pow2(i)
  {
    assert xs[..i + 1] == xs[..i] + [xs[i]];
    ToNatSnoc(xs[..i], xs[i]);
  }

  /** The low i bits of the difference are the difference of the low i bits, up to the
      borrow that leaves them. */
  lemma {:induction false} LowDifference(a: seq<bool>, b: seq<bool>, i: nat)
    requires |a| == |b| && i <= |a|
    ensures ToNat(Difference(a, b)[..i]) ==
            ToNat(b[..i]) - ToNat(a[..i]) + One(Ripple(a, b, i)) * Pow2(i)
  {
    if i > 0 {
      LowDifference(a, b, i - 1);
      LowStep(a, b, i - 1);
    }
  }

  lemma {:induction false} LowStep(a: seq<bool>, b: seq<bool>, i: nat)
    requires |a| == |b| && i < |a|
    requires ToNat(Difference(a, b)[..i]) == ToNat(b[..i]) - ToNat(a[..i]) + One(Ripple(a, b, i)) * Pow2(i)
    ensures ToNat(Difference(a, b)[..i + 1]) ==
            ToNat(b[..i + 1]) - ToNat(a[..i + 1]) + One(Ripple(a, b, i + 1)) * Pow2(i + 1)
  {
    var d := Difference(a, b);
    ToNatPrefix(a, i);
    ToNatPrefix(b, i);
    ToNatPrefix(d, i);
    var x: int, y: int, z: int := One(a[i]), One(b[i]), One(d[i]);
    var c: int, c': int := One(Ripple(a, b, i)), One(Ripple(a, b, i + 1));
    assert z == y - x - c + 2 * c' by {
      PositionSubtracts(a, b, i);
    }
    Recombine(z, y, x, c, c', Pow2(i));
  }

  lemma {:induction false} Recombine(d: int, y: int, x: int, c: int, c': int, p: int)
    requires d == y - x - c + 2 * c'
    ensures d * p == y * p - x * p - c * p + c' * (2 * p)
  {
  }

  /** The bits are those of b - a modulo 2^n. */
  lemma {:induction false} DifferenceIsSubtraction(a: seq<bool>, b: seq<bool>)
    requires |a| == |b|
    ensures ToNat(Difference(a, b)) == (ToNat(b) - ToNat(a)) % Pow2(|a|)
  {
    LowDifference(a, b, |a|);
    assert a[..|a|] == a && b[..|a|] == b && Difference(a, b)[..|a|] == Difference(a, b);
    var x, m := ToNat(b) - ToNat(a), Pow2(|a|);
    if x < 0 {
      WrapOnce(x, m);
    } else {
      assert ToNat(b) < m;
      SmallMod(x, m);
    }
  }

  lemma {:induction false} WrapOnce(x: int, m: int)
    requires -m < x < 0
    ensures x % m == x + m
  {
  }

  lemma {:induction false} SmallMod(x: nat, m: nat)
    requires x < m
    ensures x % m == x
  {
  }
}
