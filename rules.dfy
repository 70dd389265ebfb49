/** The greedy royalty-separation pricer of `enforce_royalty_separation`:
    platforms are stably sorted by descending margin, the first gets its
    highest price, and each later one the highest price that keeps its
    royalty `minDiff` below the previous royalty, clamped to its range. */
module Rules {
  import opened Common

  // ---------------------------------------------------------------------
  // The stable descending sort, `sorted(platforms, key=lambda x: -x['margin'])`

  /** Index `a` comes before index `b` in the sorted list: a larger margin
      first, and on equal margins the original order (the sort is stable). */
  predicate Before(ms: seq<real>, a: nat, b: nat)
    requires a < |ms| && b < |ms|
  {
    ms[a] > ms[b] || (ms[a] == ms[b] && a < b)
  }

  /** `o` lists indices of `ms`, each strictly before the next. */
  predicate StablyOrdered(ms: seq<real>, o: seq<nat>)
  {
    (forall k :: 0 <= k < |o| ==> o[k] < |ms|) &&
    forall a, b :: 0 <= a < b < |o| ==> Before(ms, o[a], o[b])
  }

  /** Inserts index `i`, larger than every index already in `o`, after all
      indices whose margin is at least its own. */
  function InsertAfter(ms: seq<real>, i: nat, o: seq<nat>): (r: seq<nat>)
    requires i < |ms| && StablyOrdered(ms, o)
    requires forall k :: 0 <= k < |o| ==> o[k] < i
    ensures |r| == |o| + 1
    ensures forall y: nat :: y in r <==> y in o || y == i
    ensures StablyOrdered(ms, r)
  {
    if o == [] then [i]
    else if ms[o[0]] >= ms[i] then
      var tail := o[1..];
      assert o == [o[0]] + tail;
      var rest := InsertAfter(ms, i, tail);
      assert forall b :: 0 <= b < |rest| ==> Before(ms, o[0], rest[b]) by {
        forall b | 0 <= b < |rest|
          ensures Before(ms, o[0], rest[b])
        {
          assert rest[b] in rest;
          if rest[b] != i {
            var a :| 0 <= a < |tail| && tail[a] == rest[b];
            assert o[a + 1] == rest[b];
          }
        }
      }
      [o[0]] + rest
    else
      assert forall b :: 0 <= b < |o| ==> ms[o[b]] <= ms[o[0]] by {
        forall b | 0 <= b < |o|
          ensures ms[o[b]] <= ms[o[0]]
        {
          if b > 0 {
            assert Before(ms, o[0], o[b]);
          }
        }
      }
      [i] + o
  }

  /** The first `n` indices of `ms` in stable descending-margin order. */
  function StableOrder(ms: seq<real>, n: nat): (r: seq<nat>)
    requires n <= |ms|
    ensures |r| == n
    ensures forall y: nat :: y in r <==> y < n
    ensures StablyOrdered(ms, r)
  {
    if n == 0 then []
    else
      var o := StableOrder(ms, n - 1);
      assert forall k :: 0 <= k < |o| ==> o[k] < n - 1 by {
        forall k | 0 <= k < |o|
          ensures o[k] < n - 1
        {
          assert o[k] in o;
        }
      }
      InsertAfter(ms, n - 1, o)
  }

  /** The ordering is total and strict, so a stably ordered list is fixed by
      its elements: any stable descending sort yields `StableOrder`. */
  lemma {:induction false} StablyOrderedUnique(ms: seq<real>, o: seq<nat>, q: seq<nat>)
    requires StablyOrdered(ms, o) && StablyOrdered(ms, q)
    requires forall y :: y in o <==> y in q
    ensures o == q
  {
    assert o != [] ==> o[0] in o;
    assert q != [] ==> q[0] in q;
    if o != [] && q != [] {
      assert o[0] == q[0];
      forall y
        ensures y in o[1..] <==> y in q[1..]
      {
        TailMembers(ms, o, y);
        TailMembers(ms, q, y);
      }
      StablyOrderedUnique(ms, o[1..], q[1..]);
      assert o == [o[0]] + o[1..];
      assert q == [q[0]] + q[1..];
    }
  }

  /** A stably ordered list holds no index twice, so dropping its head drops
      exactly that index. */
  lemma TailMembers(ms: seq<real>, o: seq<nat>, y: nat)
    requires StablyOrdered(ms, o) && o != []
    ensures y in o[1..] <==> y in o && y != o[0]
  {
    if y in o[1..] {
      var a :| 0 <= a < |o[1..]| && o[1..][a] == y;
      assert Before(ms, o[0], o[a + 1]);
    }
    if y in o && y != o[0] {
      var a :| 0 <= a < |o| && o[a] == y;
      assert o[1..][a - 1] == y;
    }
  }

  /** The positions in the input of the platforms, in processing order. */
  function SortOrder(platforms: seq<Platform>): seq<nat>
  {
    StableOrder(Margins(platforms), |platforms|)
  }

  /** `platforms_sorted`. */
  function SortByMarginDesc(platforms: seq<Platform>): seq<Platform>
  {
    var order := SortOrder(platforms);
    seq(|platforms|, k requires 0 <= k < |platforms| => platforms[order[k]])
  }

  /** The processing order: every input platform exactly once, margins
      non-increasing, and platforms with equal margins in their input order. */
  lemma SortByMarginDescMeaning(platforms: seq<Platform>)
    ensures |SortOrder(platforms)| == |SortByMarginDesc(platforms)| == |platforms|
    ensures forall y: nat :: y in SortOrder(platforms) <==> y < |platforms|
    ensures forall k :: 0 <= k < |platforms| ==>
      SortByMarginDesc(platforms)[k] == platforms[SortOrder(platforms)[k]]
    ensures forall a, b :: 0 <= a < b < |platforms| ==>
      SortByMarginDesc(platforms)[a].margin >= SortByMarginDesc(platforms)[b].margin
    ensures forall a, b ::
      (0 <= a < b < |platforms| &&
       SortByMarginDesc(platforms)[a].margin == SortByMarginDesc(platforms)[b].margin) ==>
      SortOrder(platforms)[a] < SortOrder(platforms)[b]
  {
    var ms, order, sorted := Margins(platforms), SortOrder(platforms), SortByMarginDesc(platforms);
    forall a, b | 0 <= a < b < |platforms|
      ensures sorted[a].margin >= sorted[b].margin
      ensures sorted[a].margin == sorted[b].margin ==> order[a] < order[b]
    {
      assert Before(ms, order[a], order[b]);
    }
  }

  // ---------------------------------------------------------------------
  // The greedy pricing loop

  /** One entry of `results`; rounding to two decimals is not modelled. */
  datatype PricedRow = PricedRow(platform: string, margin: real, price: real, royalty: real)

  /** The outcome of the loop: all rows, or the position in processing
      order at which `target_royalty / margin` divides by a zero margin
      (Python raises `ZeroDivisionError` there). */
  datatype Pricing = Priced(rows: seq<PricedRow>) | ZeroMargin(position: nat)

  /** A price `q` in the range of `p` whose royalty stays `minDiff` below
      `previous`. */
  predicate Admissible(p: Platform, previous: real, minDiff: real, q: real)
  {
    p.bounds.low <= q <= p.bounds.high && p.margin * q <= previous - minDiff
  }

  /** The row recorded for platform `p` given `previous_royalty` (`None`
      for the first platform, the previous row's royalty afterwards): name
      and margin copied, royalty equal to margin times price, a price inside
      the range, the highest price for the first platform, and for a later
      one with a positive margin either its lowest price or a royalty at
      least `minDiff` below the previous one, with no in-range price that
      keeps the gap higher; the target price is taken exactly when it lies in range,
      and the highest price when the target lies above the range. */
  function RowFor(p: Platform, previous: Option<real>, minDiff: real): (row: PricedRow)
    requires previous.Some? ==> p.margin != 0.0
    ensures row.platform == p.name && row.margin == p.margin
    ensures row.royalty == p.margin * row.price
    ensures row.price >= p.bounds.low
    ensures p.bounds.low <= p.bounds.high ==> row.price <= p.bounds.high
    ensures previous.None? ==> row.price >= p.bounds.high && (row.price == p.bounds.high || row.price == p.bounds.low)
    ensures previous.Some? && p.margin > 0.0 && row.price > p.bounds.low ==>
      row.royalty <= previous.value - minDiff
    ensures previous.Some? && p.bounds.low <= (previous.value - minDiff) / p.margin <= p.bounds.high ==>
      row.price == (previous.value - minDiff) / p.margin
    ensures previous.Some? && p.margin > 0.0 ==>
      forall q :: Admissible(p, previous.value, minDiff, q) ==> q <= row.price
    ensures previous.Some? && (previous.value - minDiff) / p.margin >= p.bounds.high ==>
      row.price == Max(p.bounds.high, p.bounds.low)
  {
    var price :=
      match previous
      case None => Max(p.bounds.high, p.bounds.low)
      case Some(r) =>
        (LaterPriceFacts(p, r, minDiff);
         Max(Min((r - minDiff) / p.margin, p.bounds.high), p.bounds.low));
    PricedRow(p.name, p.margin, price, p.margin * price)
  }

  /** The price of a later platform, `max(min(target / margin, high), low)`:
      with a positive margin it keeps the gap unless raised to `low` and no
      admissible price is higher; and it is the target price or the highest price when the
      target lies in or above the range. */
  lemma LaterPriceFacts(p: Platform, previous: real, minDiff: real)
    requires p.margin != 0.0
    ensures var c := (previous - minDiff) / p.margin;
      var price := Max(Min(c, p.bounds.high), p.bounds.low);
      && (p.margin > 0.0 && price > p.bounds.low ==> p.margin * price <= previous - minDiff)
      && (p.bounds.low <= c <= p.bounds.high ==> price == c)
      && (p.margin > 0.0 ==> forall q :: Admissible(p, previous, minDiff, q) ==> q <= price)
      && (c >= p.bounds.high ==> price == Max(p.bounds.high, p.bounds.low))
  {
    var target := previous - minDiff;
    var c := target / p.margin;
    var capped := Min(c, p.bounds.high);
    if p.margin > 0.0 {
      GapBelowTarget(p.margin, target, capped);
      forall q | Admissible(p, previous, minDiff, q)
        ensures q <= capped
      {
        AtMostQuotient(p.margin, target, q);
      }
    }
  }

  lemma RowForIs(p: Platform, previous: Option<real>, minDiff: real, price: real)
    requires previous.Some? ==> p.margin != 0.0
    requires previous.None? ==> price == Max(p.bounds.high, p.bounds.low)
    requires previous.Some? ==> price == Max(Min((previous.value - minDiff) / p.margin, p.bounds.high), p.bounds.low)
    ensures RowFor(p, previous, minDiff) == PricedRow(p.name, p.margin, price, p.margin * price)
  {
  }

  /** A price at most `target / m` yields a royalty at most `target`. */
  lemma GapBelowTarget(m: real, target: real, price: real)
    requires m > 0.0 && price <= target / m
    ensures m * price <= target
  {
    MulMonotone(m, price, target / m);
    assert m * (target / m) == target;
  }

  /** A price whose royalty is at most `target` is at most `target / m`. */
  lemma AtMostQuotient(m: real, target: real, q: real)
    requires m > 0.0 && m * q <= target
    ensures q <= target / m
  {
    var c := target / m;
    assert m * c == target;
    if q > c {
      assert m * q - m * c == m * (q - c);
      assert m * (q - c) > 0.0;
    }
  }

  /** `previous_royalty` when the loop reaches position `k`. */
  function PreviousRoyalty(rows: seq<PricedRow>, k: nat): Option<real>
    requires k <= |rows|
  {
    if k == 0 then None else Some(rows[k - 1].royalty)
  }

  /** What the loop computes on the platforms `ps`, already in processing
      order: it fails exactly when a platform after the first has a zero
      margin, at the first such one, and otherwise yields one row per
      platform. */
  function Greedy(ps: seq<Platform>, minDiff: real): (r: Pricing)
    ensures r.Priced? <==> forall k :: 0 < k < |ps| ==> ps[k].margin != 0.0
    ensures r.Priced? ==> |r.rows| == |ps|
    ensures r.ZeroMargin? ==>
      0 < r.position < |ps| && ps[r.position].margin == 0.0 &&
      forall k :: 0 < k < r.position ==> ps[k].margin != 0.0
  {
    if ps == [] then Priced([])
    else
      var init, p := ps[..|ps| - 1], ps[|ps| - 1];
      assert forall k :: 0 <= k < |init| ==> init[k] == ps[k];
      match Greedy(init, minDiff)
      case ZeroMargin(k) => ZeroMargin(k)
      case Priced(rows) =>
        var previous := PreviousRoyalty(rows, |rows|);
        if previous.Some? && p.margin == 0.0 then ZeroMargin(|init|)
        else Priced(rows + [RowFor(p, previous, minDiff)])
  }

  /** Row `k` is priced from the royalty of row `k - 1`. */
  lemma {:induction false} GreedyRow(ps: seq<Platform>, minDiff: real, k: nat)
    requires Greedy(ps, minDiff).Priced? && k < |ps|
    ensures PreviousRoyalty(Greedy(ps, minDiff).rows, k).Some? ==> ps[k].margin != 0.0
    ensures Greedy(ps, minDiff).rows[k] ==
      RowFor(ps[k], PreviousRoyalty(Greedy(ps, minDiff).rows, k), minDiff)
  {
    var init := ps[..|ps| - 1];
    if k < |ps| - 1 {
      assert init[k] == ps[k];
      GreedyRow(init, minDiff, k);
    }
  }

  /** Once the loop has failed on a prefix, the whole run fails there. */
  lemma {:induction false} GreedyStops(ps: seq<Platform>, minDiff: real, n: nat)
    requires n <= |ps| && Greedy(ps[..n], minDiff).ZeroMargin?
    ensures Greedy(ps, minDiff) == Greedy(ps[..n], minDiff)
    decreases |ps| - n
  {
    if n < |ps| {
      var init := ps[..|ps| - 1];
      assert init[..n] == ps[..n];
      GreedyStops(init, minDiff, n);
    } else {
      assert ps[..n] == ps;
    }
  }

  /** What each recorded row promises: name and margin copied, price inside
      the range, and the first platform at its highest price (its royalty is
      margin times price by `RowFor`). */
  lemma GreedyMeaning(ps: seq<Platform>, minDiff: real, k: nat)
    requires Greedy(ps, minDiff).Priced? && k < |ps|
    ensures var row := Greedy(ps, minDiff).rows[k];
      && row.platform == ps[k].name
      && row.margin == ps[k].margin
      && row.price >= ps[k].bounds.low
      && (ps[k].bounds.low <= ps[k].bounds.high ==> row.price <= ps[k].bounds.high)
      && (k == 0 ==> row.price == Max(ps[k].bounds.high, ps[k].bounds.low))
  {
    GreedyRow(ps, minDiff, k);
  }

  /** A zero margin after a successful prefix stops the whole run there. */
  lemma GreedyFailsAt(ps: seq<Platform>, minDiff: real, i: nat, rows: seq<PricedRow>)
    requires 0 < i < |ps| && Greedy(ps[..i], minDiff) == Priced(rows)
    requires ps[i].margin == 0.0
    ensures Greedy(ps, minDiff) == ZeroMargin(i)
  {
    assert ps[..i + 1][..i] == ps[..i];
    GreedyStops(ps, minDiff, i + 1);
  }

  /** Every later platform either sits at its lowest price or has its royalty
      at least `minDiff` below the previous one. With a positive margin it
      gets the highest in-range price that keeps that gap; it gets exactly
      the target price `(previous - minDiff) / margin` when that lies within
      its range, and its highest price when the target lies above it. */
  lemma GreedyGap(ps: seq<Platform>, minDiff: real, k: nat)
    requires Greedy(ps, minDiff).Priced? && 0 < k < |ps|
    ensures ps[k].margin != 0.0
    ensures var rows := Greedy(ps, minDiff).rows;
      var target := rows[k - 1].royalty - minDiff;
      && (ps[k].margin > 0.0 && rows[k].price > ps[k].bounds.low ==> rows[k].royalty <= target)
      && (ps[k].bounds.low <= target / ps[k].margin <= ps[k].bounds.high ==>
            rows[k].price == target / ps[k].margin)
      && (ps[k].margin > 0.0 ==>
            forall q :: Admissible(ps[k], PreviousRoyalty(rows, k).value, minDiff, q) ==> q <= rows[k].price)
      && (target / ps[k].margin >= ps[k].bounds.high ==>
            rows[k].price == Max(ps[k].bounds.high, ps[k].bounds.low))
  {
    GreedyRow(ps, minDiff, k);
  }

  /** One more loop step on a prefix that priced without failing. */
  lemma GreedySnoc(ps: seq<Platform>, minDiff: real, i: nat, rows: seq<PricedRow>)
    requires i < |ps| && Greedy(ps[..i], minDiff) == Priced(rows)
    requires i > 0 ==> ps[i].margin != 0.0
    ensures |rows| == i
    ensures Greedy(ps[..i + 1], minDiff) ==
      Priced(rows + [RowFor(ps[i], PreviousRoyalty(rows, i), minDiff)])
  {
    assert ps[..i + 1][..i] == ps[..i];
  }

  /** When no later platform has a non-positive margin and none had to be
      raised to its lowest price, royalties fall by at least `minDiff` from
      each platform to the next, hence by `(b - a) * minDiff` from `a` to
      `b`. */
  lemma GreedySeparation(ps: seq<Platform>, minDiff: real)
    requires Greedy(ps, minDiff).Priced?
    requires forall k :: 0 < k < |ps| ==> ps[k].margin > 0.0
    requires forall k :: 0 < k < |ps| ==> Greedy(ps, minDiff).rows[k].price > ps[k].bounds.low
    ensures var royalties := seq(|ps|, k requires 0 <= k < |ps| => Greedy(ps, minDiff).rows[k].royalty);
      forall a, b :: 0 <= a <= b < |ps| ==> royalties[b] <= royalties[a] - (b - a) as real * minDiff
  {
    var rows := Greedy(ps, minDiff).rows;
    var royalties := seq(|ps|, k requires 0 <= k < |ps| => rows[k].royalty);
    forall k | 0 < k < |royalties|
      ensures royalties[k] <= royalties[k - 1] - minDiff
    {
      GreedyGap(ps, minDiff, k);
    }
    GapChain(royalties, minDiff);
  }

  /** `enforce_royalty_separation`: sort, then price the platforms one by
      one, carrying `previous_royalty` from each step to the next. */
  method EnforceRoyaltySeparation(platforms: seq<Platform>, minDiff: real := 0.3) returns (result: Pricing)
    ensures result == Greedy(SortByMarginDesc(platforms), minDiff)
  {
    result := PriceInOrder(SortByMarginDesc(platforms), minDiff);
  }

  /** The loop of `enforce_royalty_separation` over `platforms_sorted`. */
  method PriceInOrder(sorted: seq<Platform>, minDiff: real) returns (result: Pricing)
    ensures result == Greedy(sorted, minDiff)
  {
    var rows: seq<PricedRow> := [];
    var previous: Option<real> := None;
    var i := 0;
    while i < |sorted|
      invariant i <= |sorted|
      invariant Greedy(sorted[..i], minDiff) == Priced(rows)
      invariant |rows| == i && previous == PreviousRoyalty(rows, i)
    {
      var p := sorted[i];
      var price: real;
      if previous.None? {
        price := p.bounds.high;
      } else {
        if p.margin == 0.0 {
          GreedyFailsAt(sorted, minDiff, i, rows);
          return ZeroMargin(i);
        }
        var target := previous.value - minDiff;
        price := target / p.margin;
        price := Min(price, p.bounds.high);
      }
      price := Max(price, p.bounds.low);
      var royalty := p.margin * price;
      var row := PricedRow(p.name, p.margin, price, royalty);
      RowForIs(p, previous, minDiff, price);
      GreedySnoc(sorted, minDiff, i, rows);
      rows := rows + [row];
      previous := Some(royalty);
      i := i + 1;
    }
    assert sorted[..i] == sorted;
    result := Priced(rows);
  }
}
