/** `optimize_pricing` (optimizer.py): maximize the total royalty over
    prices that rise along the platform list while royalties fall, starting
    from a given guess or from the midpoints of the price ranges. The SLSQP
    solver is a parameter; the model covers what is handed to it and how its
    answer is reported. */
module Optimizer {
  import opened Common
  import opened Constraints

  /** A platform as `optimize_pricing` sees it: a name and a margin. Its
      price range travels separately, in `bounds`. */
  datatype Listing = Listing(name: string, margin: real)

  function ListingMargins(ls: seq<Listing>): (ms: seq<real>)
    ensures |ms| == |ls|
  {
    seq(|ls|, i requires 0 <= i < |ls| => ls[i].margin)
  }

  // ---------------------------------------------------------------------
  // Objective (lines 17-19)

  /** `-np.sum(margins * prices)`: minimizing it maximizes the total
      royalty. */
  function Objective(margins: seq<real>, prices: seq<real>): real
    requires |margins| == |prices|
  {
    -Sum(Royalties(margins, prices))
  }

  /** With no margin negative, the upper ends of the ranges give the
      smallest objective among all prices within their ranges: the bounds
      alone never make a lower price better. */
  lemma ObjectiveLeastAtUppers(margins: seq<real>, bounds: seq<PriceRange>, p: seq<real>)
    requires |margins| == |bounds|
    requires forall i :: 0 <= i < |margins| ==> margins[i] >= 0.0
    requires WithinBounds(p, bounds)
    ensures Objective(margins, Uppers(bounds)) <= Objective(margins, p)
  {
    UppersMaximizeTotal(margins, bounds, p);
  }

  // ---------------------------------------------------------------------
  // Order constraints (lines 24-30)

  /** The price-order constraints for `n` platforms, one per `i` in
      `range(n - 1)`. */
  function PriceOrderSpec(n: nat): (cs: seq<Constraint>)
    ensures |cs| == if n == 0 then 0 else n - 1
  {
    seq(if n == 0 then 0 else n - 1, i requires 0 <= i => PriceOrderAt(i))
  }

  /** The royalty-order constraints for `n` platforms, one per `i` in
      `range(n - 1)`. */
  function RoyaltyOrderSpec(n: nat): (cs: seq<Constraint>)
    ensures |cs| == if n == 0 then 0 else n - 1
  {
    seq(if n == 0 then 0 else n - 1, i requires 0 <= i => RoyaltyOrderAt(i))
  }

  /** Both loops of lines 25-30. Each appended constraint is built from the
      current `i` (the `i=i` default argument), so step `i` reads prices `i`
      and `i + 1` whatever the loop does afterwards. */
  method OrderConstraints(n: nat) returns (cs: seq<Constraint>)
    ensures cs == PriceOrderSpec(n) + RoyaltyOrderSpec(n)
  {
    var steps := if n == 0 then 0 else n - 1;
    cs := [];
    var i := 0;
    while i < steps
      invariant 0 <= i <= steps
      invariant cs == PriceOrderSpec(n)[..i]
    {
      OrderStep(n, i);
      cs := cs + [PriceOrderAt(i)];
      i := i + 1;
    }
    assert PriceOrderSpec(n)[..i] == PriceOrderSpec(n);
    ghost var prices := cs;
    i := 0;
    while i < steps
      invariant 0 <= i <= steps
      invariant cs == prices + RoyaltyOrderSpec(n)[..i]
    {
      OrderStep(n, i);
      cs := cs + [RoyaltyOrderAt(i)];
      i := i + 1;
    }
    assert RoyaltyOrderSpec(n)[..i] == RoyaltyOrderSpec(n);
  }

  /** Loop step `i` appends constraint `i` of each family. */
  lemma OrderStep(n: nat, i: nat)
    requires i + 1 < n
    ensures PriceOrderSpec(n)[..i + 1] == PriceOrderSpec(n)[..i] + [PriceOrderAt(i)]
    ensures RoyaltyOrderSpec(n)[..i + 1] == RoyaltyOrderSpec(n)[..i] + [RoyaltyOrderAt(i)]
  {
    var ps, rs := PriceOrderSpec(n), RoyaltyOrderSpec(n);
    assert ps[..i + 1] == ps[..i] + [ps[i]];
    assert rs[..i + 1] == rs[..i] + [rs[i]];
  }

  predicate NonDecreasing(s: seq<real>)
  {
    forall a, b :: 0 <= a <= b < |s| ==> s[a] <= s[b]
  }

  predicate NonIncreasing(s: seq<real>)
  {
    forall a, b :: 0 <= a <= b < |s| ==> s[a] >= s[b]
  }

  /** A sequence whose every element is at most its predecessor is
      non-increasing as a whole. */
  lemma AdjacentNonIncreasing(s: seq<real>)
    requires forall k :: 0 < k < |s| ==> s[k] <= s[k - 1]
    ensures NonIncreasing(s)
  {
    GapChain(s, 0.0);
  }

  /** Step `i`'s price-order constraint holds iff price `i + 1` is at least
      price `i`. */
  lemma PriceOrderStep(margins: seq<real>, x: seq<real>, i: nat)
    requires |margins| == |x| && i + 1 < |x|
    ensures i < |PriceOrderSpec(|x|)|
    ensures Holds(PriceOrderSpec(|x|)[i], margins, x) <==> x[i] <= x[i + 1]
  {
    assert PriceOrderSpec(|x|)[i] == PriceOrderAt(i);
  }

  /** Step `i`'s royalty-order constraint holds iff royalty `i` is at least
      royalty `i + 1`. */
  lemma RoyaltyOrderStep(margins: seq<real>, x: seq<real>, i: nat)
    requires |margins| == |x| && i + 1 < |x|
    ensures i < |RoyaltyOrderSpec(|x|)|
    ensures Holds(RoyaltyOrderSpec(|x|)[i], margins, x) <==>
      Royalties(margins, x)[i] >= Royalties(margins, x)[i + 1]
  {
    assert RoyaltyOrderSpec(|x|)[i] == RoyaltyOrderAt(i);
  }

  /** All price-order constraints hold iff the prices never decrease along
      the list: `p1 <= p2 <= ... <= pn`. */
  lemma PriceOrderMeaning(margins: seq<real>, x: seq<real>)
    requires |margins| == |x|
    ensures AllHold(PriceOrderSpec(|x|), margins, x) <==> NonDecreasing(x)
  {
    var cs := PriceOrderSpec(|x|);
    if AllHold(cs, margins, x) {
      var neg := seq(|x|, k requires 0 <= k < |x| => -x[k]);
      forall k | 0 < k < |neg|
        ensures neg[k] <= neg[k - 1]
      {
        PriceOrderStep(margins, x, k - 1);
      }
      AdjacentNonIncreasing(neg);
      forall a, b | 0 <= a <= b < |x|
        ensures x[a] <= x[b]
      {
        assert neg[a] >= neg[b];
      }
    }
    if NonDecreasing(x) {
      forall i | 0 <= i < |cs|
        ensures Holds(cs[i], margins, x)
      {
        PriceOrderStep(margins, x, i);
      }
    }
  }

  /** All royalty-order constraints hold iff the royalties never increase
      along the list: `r1 >= r2 >= ... >= rn`. */
  lemma RoyaltyOrderMeaning(margins: seq<real>, x: seq<real>)
    requires |margins| == |x|
    ensures AllHold(RoyaltyOrderSpec(|x|), margins, x) <==> NonIncreasing(Royalties(margins, x))
  {
    var cs, r := RoyaltyOrderSpec(|x|), Royalties(margins, x);
    if AllHold(cs, margins, x) {
      forall k | 0 < k < |r|
        ensures r[k] <= r[k - 1]
      {
        RoyaltyOrderStep(margins, x, k - 1);
      }
      AdjacentNonIncreasing(r);
    }
    if NonIncreasing(r) {
      forall i | 0 <= i < |cs|
        ensures Holds(cs[i], margins, x)
      {
        RoyaltyOrderStep(margins, x, i);
      }
    }
  }

  // ---------------------------------------------------------------------
  // Initial guess (lines 33-34)

  /** `[(low + high) / 2 for (low, high) in bounds]`: each entry is as far
      from its range's lower end as from its upper end, and so lies inside
      any well-formed range. */
  function Midpoints(bounds: seq<PriceRange>): (g: seq<real>)
    ensures |g| == |bounds|
    ensures forall i :: 0 <= i < |g| ==> g[i] - bounds[i].low == bounds[i].high - g[i]
    ensures forall i :: 0 <= i < |g| && bounds[i].low <= bounds[i].high ==>
      bounds[i].low <= g[i] <= bounds[i].high
  {
    seq(|bounds|, i requires 0 <= i < |bounds| => (bounds[i].low + bounds[i].high) / 2.0)
  }

  /** `if not initial_guess`: a missing or empty guess is replaced by the
      midpoints; any other guess is passed on unchanged. */
  function InitialGuess(bounds: seq<PriceRange>, given: Option<seq<real>>): (g: seq<real>)
    ensures given.Some? && given.value != [] ==> g == given.value
    ensures given.None? || given.value == [] ==> g == Midpoints(bounds)
  {
    match given
    case Some(guess) => if guess == [] then Midpoints(bounds) else guess
    case None => Midpoints(bounds)
  }

  /** When no usable guess is given, the solver starts inside the bounds. */
  lemma DefaultGuessWithinBounds(bounds: seq<PriceRange>, given: Option<seq<real>>)
    requires given.None? || given.value == []
    requires forall i :: 0 <= i < |bounds| ==> bounds[i].low <= bounds[i].high
    ensures WithinBounds(InitialGuess(bounds, given), bounds)
  {
  }

  // ---------------------------------------------------------------------
  // Solving and reporting (lines 37-52)

  /** What is handed to `minimize`: the objective (through the margins), the
      starting point, the bounds and the constraints. */
  datatype NlpProblem = NlpProblem(margins: seq<real>, initialGuess: seq<real>, bounds: seq<PriceRange>, constraints: seq<Constraint>)

  /** What `minimize` returns: `result.success`, `result.x` and
      `result.message`. */
  datatype SolverResult = SolverResult(success: bool, x: seq<real>, message: string)

  datatype SummaryRow = SummaryRow(platform: string, price: real, margin: real, royaltyPerUnit: real)

  /** The summary table: one row per platform on success, the solver's
      message alone on failure. */
  datatype Summary = Priced(rows: seq<SummaryRow>) | Error(message: string)

  /** Lines 40-52: on success, each platform's name, price, margin and
      royalty (`margins * prices`); otherwise only the message. */
  function Summarize(listings: seq<Listing>, result: SolverResult): (s: Summary)
    requires result.success ==> |result.x| == |listings|
    ensures !result.success <==> s == Error(result.message)
    ensures result.success ==> s.Priced? && |s.rows| == |listings|
    ensures result.success ==> forall i :: 0 <= i < |listings| ==>
      && s.rows[i].platform == listings[i].name
      && s.rows[i].margin == listings[i].margin
      && s.rows[i].price == result.x[i]
      && s.rows[i].royaltyPerUnit == Royalties(ListingMargins(listings), result.x)[i]
  {
    if result.success then
      var royalties := Royalties(ListingMargins(listings), result.x);
      Priced(seq(|listings|, i requires 0 <= i < |listings| =>
        SummaryRow(listings[i].name, result.x[i], listings[i].margin, royalties[i])))
    else
      Error(result.message)
  }

  function SummaryPrices(rows: seq<SummaryRow>): seq<real>
  {
    seq(|rows|, i requires 0 <= i < |rows| => rows[i].price)
  }

  function SummaryRoyalties(rows: seq<SummaryRow>): seq<real>
  {
    seq(|rows|, i requires 0 <= i < |rows| => rows[i].royaltyPerUnit)
  }

  /** `optimize_pricing`: builds the problem and reports the solver's
      answer. `minimize` stands for `scipy.optimize.minimize` with SLSQP. */
  method OptimizePricing(listings: seq<Listing>, bounds: seq<PriceRange>, minimize: NlpProblem -> SolverResult,
                         initialGuess: Option<seq<real>> := None)
    returns (problem: NlpProblem, summary: Summary)
    requires forall pr :: minimize(pr).success ==> |minimize(pr).x| == |pr.margins|
    ensures problem.margins == ListingMargins(listings) && problem.bounds == bounds
    ensures problem.initialGuess == InitialGuess(bounds, initialGuess)
    ensures problem.constraints == PriceOrderSpec(|listings|) + RoyaltyOrderSpec(|listings|)
    ensures summary == Summarize(listings, minimize(problem))
  {
    var margins := ListingMargins(listings);
    var constraints := OrderConstraints(|listings|);
    var guess := InitialGuess(bounds, initialGuess);
    problem := NlpProblem(margins, guess, bounds, constraints);
    var result := minimize(problem);
    summary := Summarize(listings, result);
  }

  /** If the solver succeeds with a point that meets every constraint it was
      given, the reported prices never decrease and the reported royalties
      never increase down the platform list. */
  lemma FeasibleSummaryOrdered(listings: seq<Listing>, result: SolverResult)
    requires result.success && |result.x| == |listings|
    requires AllHold(PriceOrderSpec(|listings|) + RoyaltyOrderSpec(|listings|), ListingMargins(listings), result.x)
    ensures Summarize(listings, result).Priced?
    ensures NonDecreasing(SummaryPrices(Summarize(listings, result).rows))
    ensures NonIncreasing(SummaryRoyalties(Summarize(listings, result).rows))
  {
    var margins, x := ListingMargins(listings), result.x;
    AllHoldConcat(PriceOrderSpec(|x|), RoyaltyOrderSpec(|x|), margins, x);
    PriceOrderMeaning(margins, x);
    RoyaltyOrderMeaning(margins, x);
    var rows := Summarize(listings, result).rows;
    assert SummaryPrices(rows) == x;
    assert SummaryRoyalties(rows) == Royalties(margins, x);
  }
}
