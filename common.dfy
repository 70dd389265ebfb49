/** Vocabulary shared by the three pricing scripts: platforms with their
    margins and price ranges, royalties (margin times price), and facts
    about sums and chains of reals that the other modules build on. */
module Common {

  datatype Option<T> = None | Some(value: T)

  /** An allowed price interval, the `(min_price, max_price)` pair of a
      platform. Nothing forces `low <= high`; where a property needs it, it
      says so. */
  datatype PriceRange = PriceRange(low: real, high: real)

  /** A distribution platform: its name, the fraction of the sale price the
      seller keeps, and its allowed price range. */
  datatype Platform = Platform(name: string, margin: real, bounds: PriceRange)

  function Min(a: real, b: real): (r: real)
    ensures r <= a && r <= b && (r == a || r == b)
  {
    if a <= b then a else b
  }

  function Max(a: real, b: real): (r: real)
    ensures r >= a && r >= b && (r == a || r == b)
  {
    if a >= b then a else b
  }

  function Abs(x: real): (r: real)
    ensures r >= 0.0 && (r == x || r == -x)
  {
    if x >= 0.0 then x else -x
  }

  function Margins(ps: seq<Platform>): seq<real>
  {
    seq(|ps|, i requires 0 <= i < |ps| => ps[i].margin)
  }

  function Bounds(ps: seq<Platform>): seq<PriceRange>
  {
    seq(|ps|, i requires 0 <= i < |ps| => ps[i].bounds)
  }

  /** The element-wise product `margins * prices`: the royalty each
      platform yields at the given prices. */
  function Royalties(margins: seq<real>, prices: seq<real>): seq<real>
    requires |margins| == |prices|
  {
    seq(|prices|, i requires 0 <= i < |prices| => margins[i] * prices[i])
  }

  function Sum(s: seq<real>): real
  {
    if s == [] then 0.0 else Sum(s[..|s| - 1]) + s[|s| - 1]
  }

  /** The upper end of every range: the price vector that the bounds alone
      would make optimal. */
  function Uppers(bounds: seq<PriceRange>): seq<real>
  {
    seq(|bounds|, i requires 0 <= i < |bounds| => bounds[i].high)
  }

  predicate WithinBounds(p: seq<real>, bounds: seq<PriceRange>)
  {
    |p| == |bounds| && forall i :: 0 <= i < |p| ==> bounds[i].low <= p[i] <= bounds[i].high
  }

  /** A sum is monotone in every summand. */
  lemma {:induction false} SumMonotone(s: seq<real>, t: seq<real>)
    requires |s| == |t|
    requires forall i :: 0 <= i < |s| ==> s[i] <= t[i]
    ensures Sum(s) <= Sum(t)
  {
    if s != [] {
      SumMonotone(s[..|s| - 1], t[..|t| - 1]);
    }
  }

  /** Raising prices within their ranges never lowers the total royalty when
      no margin is negative: the upper ends give the largest total. */
  lemma UppersMaximizeTotal(margins: seq<real>, bounds: seq<PriceRange>, p: seq<real>)
    requires |margins| == |bounds|
    requires forall i :: 0 <= i < |margins| ==> margins[i] >= 0.0
    requires WithinBounds(p, bounds)
    ensures Sum(Royalties(margins, p)) <= Sum(Royalties(margins, Uppers(bounds)))
  {
    var r, u := Royalties(margins, p), Royalties(margins, Uppers(bounds));
    forall i | 0 <= i < |r|
      ensures r[i] <= u[i]
    {
      MulMonotone(margins[i], p[i], bounds[i].high);
    }
    SumMonotone(r, u);
  }

  lemma MulMonotone(m: real, x: real, y: real)
    requires m >= 0.0 && x <= y
    ensures m * x <= m * y
  {
    assert m * y - m * x == m * (y - x);
  }

  /** If every element lies at least `d` below its predecessor, then any
      element lies at least `(b - a) * d` below an earlier one at `a`. */
  lemma GapChain(s: seq<real>, d: real)
    requires forall k :: 0 < k < |s| ==> s[k] <= s[k - 1] - d
    ensures forall a, b :: 0 <= a <= b < |s| ==> s[b] <= s[a] - (b - a) as real * d
  {
    forall a, b | 0 <= a <= b < |s|
      ensures s[b] <= s[a] - (b - a) as real * d
    {
      GapBetween(s, d, a, b);
    }
  }

  lemma {:induction false} GapBetween(s: seq<real>, d: real, a: nat, b: nat)
    requires forall k :: 0 < k < |s| ==> s[k] <= s[k - 1] - d
    requires a <= b < |s|
    ensures s[b] <= s[a] - (b - a) as real * d
    decreases b - a
  {
    if a < b {
      GapBetween(s, d, a, b - 1);
      var k := (b - 1 - a) as real;
      assert (b - a) as real == k + 1.0;
      assert (k + 1.0) * d == k * d + d;
    }
  }
}
