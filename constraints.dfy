/** The constraints both optimizers hand to their solver, as immutable
    records. In the scripts each constraint is a cvxpy expression or a
    Python closure over a loop variable; here every constraint fixes its
    kind, the price indices it reads and its constant when it is built, and
    one function evaluates it against a price vector. */
module Constraints {
  import opened Common

  datatype Kind =
    | LowerBound    // p[i] >= constant
    | UpperBound    // p[i] <= constant
    | Separation    // margins[hi] * p[hi] >= margins[lo] * p[lo] + constant
    | Spread        // |p[a] - p[b]| <= constant
    | PriceOrder    // p[i + 1] - p[i] >= 0
    | RoyaltyOrder  // margins[i] * p[i] - margins[i + 1] * p[i + 1] >= 0

  datatype Constraint = Constraint(kind: Kind, indices: seq<nat>, constant: real)

  function Arity(k: Kind): nat
  {
    if k == LowerBound || k == UpperBound then 1 else 2
  }

  /** `c` reads exactly as many prices as its kind needs, all of them
      among the `n` platforms. */
  predicate WellFormed(c: Constraint, n: nat)
  {
    |c.indices| == Arity(c.kind) && forall j :: 0 <= j < |c.indices| ==> c.indices[j] < n
  }

  /** The constraint in inequality form: it is met when the value is
      non-negative. */
  function Value(c: Constraint, margins: seq<real>, p: seq<real>): real
    requires |margins| == |p| && WellFormed(c, |p|)
  {
    match c.kind
    case LowerBound => p[c.indices[0]] - c.constant
    case UpperBound => c.constant - p[c.indices[0]]
    case Separation =>
      margins[c.indices[0]] * p[c.indices[0]] - (margins[c.indices[1]] * p[c.indices[1]] + c.constant)
    case Spread => c.constant - Abs(p[c.indices[0]] - p[c.indices[1]])
    case PriceOrder => p[c.indices[1]] - p[c.indices[0]]
    case RoyaltyOrder => margins[c.indices[0]] * p[c.indices[0]] - margins[c.indices[1]] * p[c.indices[1]]
  }

  predicate Holds(c: Constraint, margins: seq<real>, p: seq<real>)
  {
    |margins| == |p| && WellFormed(c, |p|) && Value(c, margins, p) >= 0.0
  }

  predicate AllHold(cs: seq<Constraint>, margins: seq<real>, p: seq<real>)
  {
    forall k :: 0 <= k < |cs| ==> Holds(cs[k], margins, p)
  }

  lemma AllHoldConcat(xs: seq<Constraint>, ys: seq<Constraint>, margins: seq<real>, p: seq<real>)
    ensures AllHold(xs + ys, margins, p) <==> AllHold(xs, margins, p) && AllHold(ys, margins, p)
  {
    if AllHold(xs, margins, p) && AllHold(ys, margins, p) {
      forall k | 0 <= k < |xs + ys|
        ensures Holds((xs + ys)[k], margins, p)
      {
        if k >= |xs| {
          assert (xs + ys)[k] == ys[k - |xs|];
        }
      }
    }
    if AllHold(xs + ys, margins, p) {
      forall k | 0 <= k < |xs|
        ensures Holds(xs[k], margins, p)
      {
        assert (xs + ys)[k] == xs[k];
      }
      forall k | 0 <= k < |ys|
        ensures Holds(ys[k], margins, p)
      {
        assert (xs + ys)[|xs| + k] == ys[k];
      }
    }
  }

  /** `prices[i] >= low` */
  function LowerBoundOn(i: nat, low: real): (c: Constraint)
    ensures forall margins, p :: Holds(c, margins, p) <==> |margins| == |p| && i < |p| && p[i] >= low
  {
    Constraint(LowerBound, [i], low)
  }

  /** `prices[i] <= high` */
  function UpperBoundOn(i: nat, high: real): (c: Constraint)
    ensures forall margins, p :: Holds(c, margins, p) <==> |margins| == |p| && i < |p| && p[i] <= high
  {
    Constraint(UpperBound, [i], high)
  }

  /** `margins[hi] * prices[hi] >= margins[lo] * prices[lo] + diff` */
  function SeparationOf(hi: nat, lo: nat, diff: real): (c: Constraint)
    ensures forall margins, p :: Holds(c, margins, p) <==>
      |margins| == |p| && hi < |p| && lo < |p| && margins[hi] * p[hi] >= margins[lo] * p[lo] + diff
  {
    Constraint(Separation, [hi, lo], diff)
  }

  /** `|prices[a] - prices[b]| <= cap` */
  function SpreadOf(a: nat, b: nat, cap: real): (c: Constraint)
    ensures forall margins, p :: Holds(c, margins, p) <==>
      |margins| == |p| && a < |p| && b < |p| && Abs(p[a] - p[b]) <= cap
  {
    Constraint(Spread, [a, b], cap)
  }

  /** The price-order constraint of loop step `i`: it reads prices `i` and
      `i + 1`, whatever step comes later, and holds iff `x[i+1] - x[i] >= 0`. */
  function PriceOrderAt(i: nat): (c: Constraint)
    ensures c.indices == [i, i + 1]
    ensures forall margins, x :: |margins| == |x| && i + 1 < |x| ==>
      (Holds(c, margins, x) <==> x[i] <= x[i + 1])
  {
    Constraint(PriceOrder, [i, i + 1], 0.0)
  }

  /** The royalty-order constraint of loop step `i`: it holds iff
      `margins[i] * x[i] - margins[i+1] * x[i+1] >= 0`, that is, iff royalty
      `i` is at least royalty `i + 1`. */
  function RoyaltyOrderAt(i: nat): (c: Constraint)
    ensures c.indices == [i, i + 1]
    ensures forall margins, x :: |margins| == |x| && i + 1 < |x| ==>
      (Holds(c, margins, x) <==> Royalties(margins, x)[i] >= Royalties(margins, x)[i + 1])
  {
    Constraint(RoyaltyOrder, [i, i + 1], 0.0)
  }
}
