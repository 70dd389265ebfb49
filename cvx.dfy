/** The constraint construction of `optimize_with_cvxpy` (op_cvx.py): two
    bound constraints per platform, one royalty-separation constraint per
    pair of adjacent margin tiers, and pairwise spread constraints inside
    every tier. Each loop is a method proved against a function that names
    the list it must build; the lemmas say what the lists mean. */
module CvxModel {
  import opened Common
  import opened Constraints
  import opened MarginGrouping

  /** `max_variation`: the largest price difference allowed inside a tier. */
  const MaxVariation: real := 5.0

  // ---------------------------------------------------------------------
  // Price bounds (lines 24-28)

  /** Entry `k` of the bound list: platform `k / 2`'s lower bound when `k`
      is even, its upper bound when `k` is odd. */
  function BoundAt(bounds: seq<PriceRange>, k: nat): Constraint
    requires k < 2 * |bounds|
  {
    var i := k / 2;
    if k % 2 == 0 then LowerBoundOn(i, bounds[i].low) else UpperBoundOn(i, bounds[i].high)
  }

  /** The bound constraints of the first `n` platforms. */
  function BoundPrefix(bounds: seq<PriceRange>, n: nat): (cs: seq<Constraint>)
    requires n <= |bounds|
    ensures |cs| == 2 * n
  {
    seq(2 * n, k requires 0 <= k < 2 * n => BoundAt(bounds, k))
  }

  function BoundSpec(bounds: seq<PriceRange>): seq<Constraint>
  {
    BoundPrefix(bounds, |bounds|)
  }

  /** The loop of lines 24-28: for each platform in turn, `prices[i] >= low`
      then `prices[i] <= high`. */
  method BoundConstraints(bounds: seq<PriceRange>) returns (cs: seq<Constraint>)
    ensures cs == BoundSpec(bounds)
  {
    cs := [];
    for i := 0 to |bounds|
      invariant cs == BoundPrefix(bounds, i)
    {
      BoundStep(bounds, i);
      cs := cs + [LowerBoundOn(i, bounds[i].low), UpperBoundOn(i, bounds[i].high)];
    }
  }

  lemma BoundStep(bounds: seq<PriceRange>, i: nat)
    requires i < |bounds|
    ensures BoundPrefix(bounds, i + 1) ==
      BoundPrefix(bounds, i) + [LowerBoundOn(i, bounds[i].low), UpperBoundOn(i, bounds[i].high)]
  {
    var longer, shorter := BoundPrefix(bounds, i + 1), BoundPrefix(bounds, i);
    var tail := [LowerBoundOn(i, bounds[i].low), UpperBoundOn(i, bounds[i].high)];
    assert |longer| == |shorter + tail|;
    forall k | 0 <= k < |longer|
      ensures longer[k] == (shorter + tail)[k]
    {
      if k < 2 * i {
        assert longer[k] == BoundAt(bounds, k) == shorter[k];
      } else if k == 2 * i {
        assert k / 2 == i && k % 2 == 0;
      } else {
        assert k / 2 == i && k % 2 == 1;
      }
    }
  }

  /** Platform `i` gets exactly two bound constraints, at positions `2i` and
      `2i + 1`. */
  lemma BoundSpecShape(bounds: seq<PriceRange>, i: nat)
    requires i < |bounds|
    ensures |BoundSpec(bounds)| == 2 * |bounds|
    ensures BoundSpec(bounds)[2 * i] == LowerBoundOn(i, bounds[i].low)
    ensures BoundSpec(bounds)[2 * i + 1] == UpperBoundOn(i, bounds[i].high)
  {
    assert (2 * i) / 2 == i && (2 * i) % 2 == 0;
    assert (2 * i + 1) / 2 == i && (2 * i + 1) % 2 == 1;
    assert BoundSpec(bounds)[2 * i] == BoundAt(bounds, 2 * i);
    assert BoundSpec(bounds)[2 * i + 1] == BoundAt(bounds, 2 * i + 1);
  }

  /** A price vector meets all bound constraints iff every price lies in
      its range. */
  lemma BoundSpecMeaning(bounds: seq<PriceRange>, margins: seq<real>, p: seq<real>)
    requires |bounds| <= |p| && |margins| == |p|
    ensures AllHold(BoundSpec(bounds), margins, p) <==>
      forall i :: 0 <= i < |bounds| ==> bounds[i].low <= p[i] <= bounds[i].high
  {
    var cs := BoundSpec(bounds);
    if AllHold(cs, margins, p) {
      forall i | 0 <= i < |bounds|
        ensures bounds[i].low <= p[i] <= bounds[i].high
      {
        BoundSpecShape(bounds, i);
        assert Holds(cs[2 * i], margins, p) && Holds(cs[2 * i + 1], margins, p);
      }
    }
    if forall i :: 0 <= i < |bounds| ==> bounds[i].low <= p[i] <= bounds[i].high {
      forall k | 0 <= k < |cs|
        ensures Holds(cs[k], margins, p)
      {
        assert cs[k] == BoundAt(bounds, k);
      }
    }
  }

  // ---------------------------------------------------------------------
  // Royalty separation between adjacent tiers (lines 36-44)

  /** Tier `u[k]`'s representative: `margin_groups[u[k]][0]`, the lowest
      index whose margin is `u[k]`. */
  function Representatives(margins: seq<real>, u: seq<real>): (reps: seq<nat>)
    requires forall k :: 0 <= k < |u| ==> u[k] in margins
    ensures |reps| == |u|
    ensures forall k :: 0 <= k < |u| ==> reps[k] < |margins|
  {
    seq(|u|, k requires 0 <= k < |u| => FirstIndex(margins, u[k]))
  }

  /** The representatives of the tiers in `unique_margins` order. */
  function TierRepresentatives(margins: seq<real>): (reps: seq<nat>)
    ensures forall k :: 0 <= k < |reps| ==> reps[k] < |margins|
  {
    var u := SortedDistinctDesc(margins);
    assert forall k :: 0 <= k < |u| ==> u[k] in u;
    Representatives(margins, u)
  }

  /** Representative `k` is the first platform of the `k`-th largest margin:
      representatives of higher tiers have strictly larger margins, and every
      platform has its tier among them. */
  lemma TierRepresentativesMeaning(margins: seq<real>)
    ensures var u, reps := SortedDistinctDesc(margins), TierRepresentatives(margins);
      |reps| == |u| &&
      (forall k :: 0 <= k < |u| ==> margins[reps[k]] == u[k] && forall j :: 0 <= j < reps[k] ==> margins[j] != u[k]) &&
      (forall a, b :: 0 <= a < b < |reps| ==> margins[reps[a]] > margins[reps[b]]) &&
      (forall i :: 0 <= i < |margins| ==> exists k :: 0 <= k < |reps| && margins[reps[k]] == margins[i])
  {
    var u, reps := SortedDistinctDesc(margins), TierRepresentatives(margins);
    forall k | 0 <= k < |u|
      ensures margins[reps[k]] == u[k] && forall j :: 0 <= j < reps[k] ==> margins[j] != u[k]
    {
      assert u[k] in u;
      assert reps[k] == FirstIndex(margins, u[k]);
    }
    forall i | 0 <= i < |margins|
      ensures exists k :: 0 <= k < |reps| && margins[reps[k]] == margins[i]
    {
      assert margins[i] in margins;
      var k :| 0 <= k < |u| && u[k] == margins[i];
      assert margins[reps[k]] == margins[i];
    }
  }

  /** For `k` in `range(len(unique_margins) - 1)`: representative `k` must
      out-earn representative `k + 1` by `diff`. */
  function SeparationOver(reps: seq<nat>, diff: real): (cs: seq<Constraint>)
    ensures |cs| == if |reps| == 0 then 0 else |reps| - 1
  {
    seq(if |reps| == 0 then 0 else |reps| - 1,
        k requires 0 <= k < |reps| - 1 => SeparationOf(reps[k], reps[k + 1], diff))
  }

  function SeparationSpec(margins: seq<real>, diff: real): seq<Constraint>
  {
    SeparationOver(TierRepresentatives(margins), diff)
  }

  /** The loop of lines 37-44: `margin_groups[m][0]` picks each tier's
      representative. */
  method SeparationConstraints(margins: seq<real>, groups: map<real, seq<nat>>, unique: seq<real>, diff: real)
    returns (cs: seq<Constraint>)
    requires unique == SortedDistinctDesc(margins)
    requires groups == GroupMap(margins)
    ensures cs == SeparationSpec(margins, diff)
  {
    cs := [];
    var i := 0;
    while i < |unique| - 1
      invariant 0 <= i <= |SeparationSpec(margins, diff)| == if |unique| == 0 then 0 else |unique| - 1
      invariant cs == SeparationSpec(margins, diff)[..i]
    {
      var hi, lo := unique[i], unique[i + 1];
      SeparationStep(margins, groups, unique, diff, i);
      var idxHi, idxLo := groups[hi][0], groups[lo][0];
      cs := cs + [SeparationOf(idxHi, idxLo, diff)];
      i := i + 1;
    }
    assert SeparationSpec(margins, diff)[..i] == SeparationSpec(margins, diff);
  }

  /** One step of the separation loop appends the constraint between the
      first members of the groups of tiers `i` and `i + 1`. */
  lemma SeparationStep(margins: seq<real>, groups: map<real, seq<nat>>, unique: seq<real>, diff: real, i: nat)
    requires unique == SortedDistinctDesc(margins)
    requires groups == GroupMap(margins)
    requires i + 1 < |unique|
    ensures unique[i] in groups && groups[unique[i]] != []
    ensures unique[i + 1] in groups && groups[unique[i + 1]] != []
    ensures SeparationSpec(margins, diff)[..i + 1] ==
      SeparationSpec(margins, diff)[..i] + [SeparationOf(groups[unique[i]][0], groups[unique[i + 1]][0], diff)]
  {
    Representative(margins, groups, unique, i);
    Representative(margins, groups, unique, i + 1);
    SeparationOverPrefix(TierRepresentatives(margins), diff, i);
  }

  lemma SeparationOverPrefix(reps: seq<nat>, diff: real, i: nat)
    requires i + 1 < |reps|
    ensures SeparationOver(reps, diff)[..i + 1] == SeparationOver(reps, diff)[..i] + [SeparationOf(reps[i], reps[i + 1], diff)]
  {
    var cs := SeparationOver(reps, diff);
    assert cs[..i + 1] == cs[..i] + [cs[i]];
  }

  /** Every tier has a group, and the group's first entry is the tier's
      representative. */
  lemma Representative(margins: seq<real>, groups: map<real, seq<nat>>, unique: seq<real>, k: nat)
    requires unique == SortedDistinctDesc(margins)
    requires groups == GroupMap(margins)
    requires k < |unique|
    ensures unique[k] in groups && groups[unique[k]] != []
    ensures k < |TierRepresentatives(margins)| && groups[unique[k]][0] == TierRepresentatives(margins)[k]
  {
    assert unique[k] in unique;
    GroupHead(margins, unique[k]);
  }

  /** The number of separation constraints is one less than the number of
      tiers; a single tier (or no platform) yields none. */
  lemma SeparationCount(margins: seq<real>, diff: real)
    ensures var u := SortedDistinctDesc(margins);
      (|margins| > 0 ==> |u| > 0 && |SeparationSpec(margins, diff)| == |u| - 1) &&
      (|u| <= 1 ==> SeparationSpec(margins, diff) == [])
  {
    var u := SortedDistinctDesc(margins);
    if |margins| > 0 {
      assert margins[0] in margins;
      assert margins[0] in u;
    }
  }

  /** The royalty platform `i` yields at prices `p`. */
  function RoyaltyOf(margins: seq<real>, p: seq<real>, i: nat): real
    requires |p| == |margins| && i < |p|
  {
    Royalties(margins, p)[i]
  }

  /** Representative `k` out-earns representative `k + 1` by `diff`. */
  predicate SeparatedAt(margins: seq<real>, p: seq<real>, reps: seq<nat>, diff: real, k: nat)
    requires |p| == |margins| && k + 1 < |reps| && reps[k] < |p| && reps[k + 1] < |p|
  {
    RoyaltyOf(margins, p, reps[k]) >= RoyaltyOf(margins, p, reps[k + 1]) + diff
  }

  /** Every representative out-earns the next one by `diff`. */
  predicate TiersSeparated(margins: seq<real>, p: seq<real>, reps: seq<nat>, diff: real)
    requires |p| == |margins|
    requires forall k :: 0 <= k < |reps| ==> reps[k] < |p|
  {
    forall k :: 0 <= k < |reps| - 1 ==> SeparatedAt(margins, p, reps, diff, k)
  }

  lemma SeparationOverAt(margins: seq<real>, p: seq<real>, reps: seq<nat>, diff: real, k: nat)
    requires |p| == |margins|
    requires forall k :: 0 <= k < |reps| ==> reps[k] < |p|
    requires k + 1 < |reps|
    ensures Holds(SeparationOver(reps, diff)[k], margins, p) <==> SeparatedAt(margins, p, reps, diff, k)
  {
    assert SeparationOver(reps, diff)[k] == SeparationOf(reps[k], reps[k + 1], diff);
    assert RoyaltyOf(margins, p, reps[k]) == margins[reps[k]] * p[reps[k]];
    assert RoyaltyOf(margins, p, reps[k + 1]) == margins[reps[k + 1]] * p[reps[k + 1]];
  }

  /** Over any list of representatives, the constraints hold iff each one
      out-earns the next by `diff`. */
  lemma SeparationOverMeaning(margins: seq<real>, p: seq<real>, reps: seq<nat>, diff: real)
    requires |p| == |margins|
    requires forall k :: 0 <= k < |reps| ==> reps[k] < |p|
    ensures AllHold(SeparationOver(reps, diff), margins, p) <==> TiersSeparated(margins, p, reps, diff)
  {
    var cs := SeparationOver(reps, diff);
    if AllHold(cs, margins, p) {
      forall k | 0 <= k < |reps| - 1
        ensures SeparatedAt(margins, p, reps, diff, k)
      {
        SeparationOverAt(margins, p, reps, diff, k);
      }
    }
    if TiersSeparated(margins, p, reps, diff) {
      forall k | 0 <= k < |cs|
        ensures Holds(cs[k], margins, p)
      {
        SeparationOverAt(margins, p, reps, diff, k);
      }
    }
  }

  /** A price vector meets every separation constraint iff, down the tiers
      sorted by decreasing margin, each tier's representative out-earns the
      next one's by `diff`. */
  lemma SeparationMeaning(margins: seq<real>, diff: real, p: seq<real>)
    requires |p| == |margins|
    ensures AllHold(SeparationSpec(margins, diff), margins, p) <==>
      TiersSeparated(margins, p, TierRepresentatives(margins), diff)
  {
    SeparationOverMeaning(margins, p, TierRepresentatives(margins), diff);
  }

  /** Separation is transitive along the tiers: when every representative
      out-earns the next by `diff`, representative `b` earns at least
      `(b - a) * diff` less than any earlier representative `a`. */
  lemma SeparationChain(margins: seq<real>, p: seq<real>, reps: seq<nat>, diff: real, a: nat, b: nat)
    requires |p| == |margins|
    requires forall k :: 0 <= k < |reps| ==> reps[k] < |p|
    requires TiersSeparated(margins, p, reps, diff)
    requires a <= b < |reps|
    ensures RoyaltyOf(margins, p, reps[b]) <= RoyaltyOf(margins, p, reps[a]) - (b - a) as real * diff
  {
    var r := seq(|reps|, k requires 0 <= k < |reps| => RoyaltyOf(margins, p, reps[k]));
    forall k | 0 < k < |r|
      ensures r[k] <= r[k - 1] - diff
    {
      assert SeparatedAt(margins, p, reps, diff, k - 1);
    }
    GapBetween(r, diff, a, b);
  }

  // ---------------------------------------------------------------------
  // Spread inside a tier (lines 47-54)

  /** The constraints of outer step `i` over a group `g`: one per later
      member `g[j]`, `j > i`. */
  function Row(g: seq<nat>, i: nat): seq<Constraint>
    requires i < |g|
  {
    seq(|g| - i - 1, k requires 0 <= k < |g| - i - 1 => SpreadOf(g[i], g[i + 1 + k], MaxVariation))
  }

  /** Inner step `j` appends the pair `(g[i], g[j])`; after the last step
      the row is complete and the first `i + 1` outer steps are done. */
  lemma RowStep(g: seq<nat>, i: nat, j: nat)
    requires i < j <= |g|
    ensures j < |g| ==> Row(g, i)[..j - i] == Row(g, i)[..j - i - 1] + [SpreadOf(g[i], g[j], MaxVariation)]
    ensures j == |g| ==> PairsUpTo(g, i) + Row(g, i)[..j - i - 1] == PairsUpTo(g, i + 1)
  {
    if j == |g| {
      assert Row(g, i)[..j - i - 1] == Row(g, i);
    } else {
      assert Row(g, i)[..j - i] == Row(g, i)[..j - i - 1] + [Row(g, i)[j - i - 1]];
    }
  }

  /** The constraints of the first `i` outer steps over `g`. */
  function PairsUpTo(g: seq<nat>, i: nat): seq<Constraint>
    requires i <= |g|
  {
    if i == 0 then [] else PairsUpTo(g, i - 1) + Row(g, i - 1)
  }

  /** What one group contributes: nothing unless it has two members. */
  function GroupSpread(g: seq<nat>): seq<Constraint>
  {
    if |g| > 1 then PairsUpTo(g, |g|) else []
  }

  /** The spread constraints of the groups keyed by `keys`, in that order. */
  function SpreadOver(margins: seq<real>, keys: seq<real>): seq<Constraint>
  {
    if keys == [] then []
    else SpreadOver(margins, keys[..|keys| - 1]) + GroupSpread(Members(margins, keys[|keys| - 1]))
  }

  /** The groups in the order `margin_groups.values()` yields them. */
  function SpreadSpec(margins: seq<real>): seq<Constraint>
  {
    SpreadOver(margins, Distinct(margins))
  }

  /** The loops of lines 48-54, over the groups in the dictionary's key
      order. */
  method SpreadConstraints(margins: seq<real>, order: seq<real>, groups: map<real, seq<nat>>)
    returns (cs: seq<Constraint>)
    requires order == Distinct(margins)
    requires groups == GroupMap(margins)
    ensures cs == SpreadSpec(margins)
  {
    cs := [];
    for gi := 0 to |order|
      invariant cs == SpreadOver(margins, order[..gi])
    {
      assert order[..gi + 1][..gi] == order[..gi];
      assert order[gi] in order;
      var indices := groups[order[gi]];
      var pairs := GroupSpreadConstraints(indices);
      cs := cs + pairs;
    }
    assert order[..|order|] == order;
  }

  /** The body of the loop over one group: for `i` in `range(len(indices))`
      and `j` in `range(i + 1, len(indices))`, a spread constraint between
      `indices[i]` and `indices[j]`, when the group has two or more
      members. */
  method GroupSpreadConstraints(indices: seq<nat>) returns (cs: seq<Constraint>)
    ensures cs == GroupSpread(indices)
  {
    cs := [];
    if |indices| > 1 {
      for i := 0 to |indices|
        invariant cs == PairsUpTo(indices, i)
      {
        ghost var done := cs;
        for j := i + 1 to |indices|
          invariant cs == done + Row(indices, i)[..j - i - 1]
        {
          RowStep(indices, i, j);
          cs := cs + [SpreadOf(indices[i], indices[j], MaxVariation)];
        }
        RowStep(indices, i, |indices|);
      }
    }
  }

  function PairCount(k: nat): nat
  {
    k * (k - 1) / 2
  }

  /** A group of `k` members contributes `k * (k - 1) / 2` constraints. */
  lemma GroupSpreadCount(g: seq<nat>)
    ensures |GroupSpread(g)| == PairCount(|g|)
  {
    if |g| > 1 {
      PairsCount(g, |g|);
    }
  }

  lemma {:induction false} PairsCount(g: seq<nat>, i: nat)
    requires i <= |g|
    ensures 2 * |PairsUpTo(g, i)| == i * (2 * |g| - i - 1)
  {
    if i > 0 {
      PairsCount(g, i - 1);
      var n := |g|;
      assert (i - 1) * (2 * n - i) + 2 * (n - i) == i * (2 * n - i - 1);
    }
  }

  /** Every pair of members `g[i]`, `g[j]` with `i < j` has its constraint. */
  lemma {:induction false} PairPresent(g: seq<nat>, k: nat, i: nat, j: nat)
    requires i < k <= |g| && i < j < |g|
    ensures SpreadOf(g[i], g[j], MaxVariation) in PairsUpTo(g, k)
  {
    if k - 1 == i {
      assert Row(g, i)[j - i - 1] == SpreadOf(g[i], g[j], MaxVariation);
    } else {
      PairPresent(g, k - 1, i, j);
    }
  }

  /** The constraints of outer step `i` hold iff `g[i]` is priced within
      `MaxVariation` of every later member. */
  lemma RowHolds(g: seq<nat>, i: nat, margins: seq<real>, p: seq<real>)
    requires i < |g| && |margins| == |p|
    requires forall k :: 0 <= k < |g| ==> g[k] < |p|
    ensures AllHold(Row(g, i), margins, p) <==>
      forall b :: i < b < |g| ==> Abs(p[g[i]] - p[g[b]]) <= MaxVariation
  {
    var row := Row(g, i);
    if AllHold(row, margins, p) {
      forall b | i < b < |g|
        ensures Abs(p[g[i]] - p[g[b]]) <= MaxVariation
      {
        assert row[b - i - 1] == SpreadOf(g[i], g[b], MaxVariation);
        assert Holds(row[b - i - 1], margins, p);
      }
    }
    if forall b :: i < b < |g| ==> Abs(p[g[i]] - p[g[b]]) <= MaxVariation {
      forall k | 0 <= k < |row|
        ensures Holds(row[k], margins, p)
      {
        assert row[k] == SpreadOf(g[i], g[i + 1 + k], MaxVariation);
      }
    }
  }

  /** The constraints of the first `i` outer steps hold iff every pair of
      members whose first position is below `i` is within `MaxVariation`. */
  lemma {:induction false} PairsHold(g: seq<nat>, i: nat, margins: seq<real>, p: seq<real>)
    requires i <= |g| && |margins| == |p|
    requires forall k :: 0 <= k < |g| ==> g[k] < |p|
    ensures AllHold(PairsUpTo(g, i), margins, p) <==>
      forall a, b :: 0 <= a < i && a < b < |g| ==> Abs(p[g[a]] - p[g[b]]) <= MaxVariation
  {
    if i > 0 {
      PairsHold(g, i - 1, margins, p);
      AllHoldConcat(PairsUpTo(g, i - 1), Row(g, i - 1), margins, p);
      RowHolds(g, i - 1, margins, p);
    }
  }

  lemma PairInGroup(margins: seq<real>, x: real, a: nat, b: nat)
    requires a < b < |margins| && margins[a] == x && margins[b] == x
    ensures exists i, j :: 0 <= i < j < |Members(margins, x)| && Members(margins, x)[i] == a && Members(margins, x)[j] == b
  {
    var g := Members(margins, x);
    MembersComplete(margins, x, a);
    MembersComplete(margins, x, b);
    var i :| 0 <= i < |g| && g[i] == a;
    var j :| 0 <= j < |g| && g[j] == b;
    assert i < j;
  }

  /** One group's constraints hold iff any two platforms of that margin are
      priced at most `MaxVariation` apart. */
  lemma GroupSpreadHolds(margins: seq<real>, x: real, p: seq<real>)
    requires |margins| == |p|
    ensures AllHold(GroupSpread(Members(margins, x)), margins, p) <==>
      forall a, b :: 0 <= a < b < |p| && margins[a] == x && margins[b] == x ==> Abs(p[a] - p[b]) <= MaxVariation
  {
    var g := Members(margins, x);
    // two platforms of margin `x` make a group of at least two
    forall a, b | 0 <= a < b < |p| && margins[a] == x && margins[b] == x
      ensures |g| > 1
    {
      PairInGroup(margins, x, a, b);
    }
    if |g| > 1 {
      PairsHold(g, |g|, margins, p);
      if AllHold(GroupSpread(g), margins, p) {
        forall a, b | 0 <= a < b < |p| && margins[a] == x && margins[b] == x
          ensures Abs(p[a] - p[b]) <= MaxVariation
        {
          PairInGroup(margins, x, a, b);
        }
      }
    }
  }

  lemma {:induction false} SpreadOverHolds(margins: seq<real>, keys: seq<real>, p: seq<real>)
    requires |margins| == |p|
    ensures AllHold(SpreadOver(margins, keys), margins, p) <==>
      forall a, b :: 0 <= a < b < |p| && margins[a] == margins[b] && margins[a] in keys ==>
        Abs(p[a] - p[b]) <= MaxVariation
  {
    if keys != [] {
      var init, x := keys[..|keys| - 1], keys[|keys| - 1];
      assert keys == init + [x];
      SpreadOverHolds(margins, init, p);
      AllHoldConcat(SpreadOver(margins, init), GroupSpread(Members(margins, x)), margins, p);
      GroupSpreadHolds(margins, x, p);
    }
  }

  /** Any two platforms sharing a margin are priced at most `MaxVariation`
      apart. */
  predicate SpreadWithin(margins: seq<real>, p: seq<real>)
    requires |p| == |margins|
  {
    forall a, b :: 0 <= a < b < |p| && margins[a] == margins[b] ==> Abs(p[a] - p[b]) <= MaxVariation
  }

  lemma SpreadMeaning(margins: seq<real>, p: seq<real>)
    requires |margins| == |p|
    ensures AllHold(SpreadSpec(margins), margins, p) <==> SpreadWithin(margins, p)
  {
    SpreadOverHolds(margins, Distinct(margins), p);
    assert forall a :: 0 <= a < |margins| ==> margins[a] in margins;
  }

  // ---------------------------------------------------------------------
  // The whole constraint list (lines 21-54)

  function CvxConstraintsSpec(platforms: seq<Platform>, minRoyaltyDiff: real): seq<Constraint>
  {
    BoundSpec(Bounds(platforms)) + SeparationSpec(Margins(platforms), minRoyaltyDiff) + SpreadSpec(Margins(platforms))
  }

  method BuildConstraints(platforms: seq<Platform>, minRoyaltyDiff: real) returns (cs: seq<Constraint>, unique: seq<real>)
    ensures unique == SortedDistinctDesc(Margins(platforms))
    ensures cs == CvxConstraintsSpec(platforms, minRoyaltyDiff)
  {
    var margins := Margins(platforms);
    cs := BoundConstraints(Bounds(platforms));
    var order, groups := GroupMargins(margins);
    unique := SortedDistinctDesc(margins);
    var separation := SeparationConstraints(margins, groups, unique, minRoyaltyDiff);
    cs := cs + separation;
    var spread := SpreadConstraints(margins, order, groups);
    cs := cs + spread;
  }

  /** The sum of `k * (k - 1) / 2` over the groups keyed by `keys`. */
  function PairTotal(margins: seq<real>, keys: seq<real>): nat
  {
    if keys == [] then 0
    else PairTotal(margins, keys[..|keys| - 1]) + PairCount(|Members(margins, keys[|keys| - 1])|)
  }

  lemma {:induction false} SpreadOverCount(margins: seq<real>, keys: seq<real>)
    ensures |SpreadOver(margins, keys)| == PairTotal(margins, keys)
  {
    if keys != [] {
      SpreadOverCount(margins, keys[..|keys| - 1]);
      GroupSpreadCount(Members(margins, keys[|keys| - 1]));
    }
  }

  /** There are `2n + (u - 1) + sum of C(k, 2)` constraints, for `n`
      platforms, `u` distinct margins and groups of sizes `k`. */
  lemma ConstraintCount(platforms: seq<Platform>, minRoyaltyDiff: real)
    ensures var margins := Margins(platforms);
      var u := SortedDistinctDesc(margins);
      |CvxConstraintsSpec(platforms, minRoyaltyDiff)| ==
        2 * |platforms| + (if |u| == 0 then 0 else |u| - 1) + PairTotal(margins, Distinct(margins))
  {
    var margins := Margins(platforms);
    SpreadOverCount(margins, Distinct(margins));
  }

  /** A price vector meets the whole list iff every price is within its
      bounds, adjacent tiers are separated and every tier's prices lie within
      `MaxVariation` of each other. */
  lemma FeasibleMeaning(platforms: seq<Platform>, minRoyaltyDiff: real, p: seq<real>)
    requires |p| == |platforms|
    ensures AllHold(CvxConstraintsSpec(platforms, minRoyaltyDiff), Margins(platforms), p) <==>
      WithinBounds(p, Bounds(platforms)) &&
      TiersSeparated(Margins(platforms), p, TierRepresentatives(Margins(platforms)), minRoyaltyDiff) &&
      SpreadWithin(Margins(platforms), p)
  {
    var margins, bounds := Margins(platforms), Bounds(platforms);
    var b, s, t := BoundSpec(bounds), SeparationSpec(margins, minRoyaltyDiff), SpreadSpec(margins);
    AllHoldConcat(b + s, t, margins, p);
    AllHoldConcat(b, s, margins, p);
    BoundSpecMeaning(bounds, margins, p);
    SeparationMeaning(margins, minRoyaltyDiff, p);
    SpreadMeaning(margins, p);
  }

  /** When no margin is negative, no price vector that meets the whole list
      earns more in total than every platform at its highest price: the
      bounds cap what the solver can reach. */
  lemma FeasibleTotalAtMostUppers(platforms: seq<Platform>, minRoyaltyDiff: real, p: seq<real>)
    requires |p| == |platforms|
    requires forall i :: 0 <= i < |platforms| ==> platforms[i].margin >= 0.0
    requires AllHold(CvxConstraintsSpec(platforms, minRoyaltyDiff), Margins(platforms), p)
    ensures Sum(Royalties(Margins(platforms), p)) <= Sum(Royalties(Margins(platforms), Uppers(Bounds(platforms))))
  {
    FeasibleMeaning(platforms, minRoyaltyDiff, p);
    UppersMaximizeTotal(Margins(platforms), Bounds(platforms), p);
  }

  // ---------------------------------------------------------------------
  // Solving and the royalty vector (lines 56-62)

  /** What is handed to cvxpy: maximize the sum of `margins[i] * prices[i]`
      subject to `constraints`. */
  datatype CvxProblem = CvxProblem(margins: seq<real>, constraints: seq<Constraint>)

  /** `solve` stands for `problem.solve()` followed by `prices.value`. */
  method OptimizeWithCvxpy(platforms: seq<Platform>, solve: CvxProblem -> seq<real>, minRoyaltyDiff: real := 0.5)
    returns (problem: CvxProblem, prices: seq<real>, royalties: seq<real>)
    requires forall pr :: |solve(pr)| == |pr.margins|
    ensures problem.margins == Margins(platforms)
    ensures problem.constraints == CvxConstraintsSpec(platforms, minRoyaltyDiff)
    ensures prices == solve(problem)
    ensures royalties == Royalties(Margins(platforms), prices)
  {
    var cs, unique := BuildConstraints(platforms, minRoyaltyDiff);
    problem := CvxProblem(Margins(platforms), cs);
    prices := solve(problem);
    royalties := Royalties(problem.margins, prices);
  }
}
