/** Margin grouping of `optimize_with_cvxpy`: the platforms' indices
    partitioned by exact margin value (a dictionary filled in index order,
    whose keys keep their first-insertion order), and the distinct margins
    sorted in descending order. */
module MarginGrouping {

  predicate StrictlyIncreasing(r: seq<nat>)
  {
    forall a, b :: 0 <= a < b < |r| ==> r[a] < r[b]
  }

  predicate StrictlyDescending(u: seq<real>)
  {
    forall a, b :: 0 <= a < b < |u| ==> u[a] > u[b]
  }

  predicate NoDuplicates(u: seq<real>)
  {
    forall a, b :: 0 <= a < b < |u| ==> u[a] != u[b]
  }

  /** The indices of `s` that hold the margin `m`, in increasing order: the
      list the grouping loop files under key `m`. */
  function Members(s: seq<real>, m: real): (r: seq<nat>)
    ensures forall a :: 0 <= a < |r| ==> r[a] < |s| && s[r[a]] == m
    ensures StrictlyIncreasing(r)
  {
    if s == [] then []
    else
      var init := s[..|s| - 1];
      assert forall k :: 0 <= k < |s| - 1 ==> s[k] == init[k];
      Members(init, m) + (if s[|s| - 1] == m then [|s| - 1] else [])
  }

  /** No index holding `m` is left out of its group. */
  lemma {:induction false} MembersComplete(s: seq<real>, m: real, k: nat)
    requires k < |s| && s[k] == m
    ensures k in Members(s, m)
  {
    var init := s[..|s| - 1];
    if k < |s| - 1 {
      assert init[k] == m;
      MembersComplete(init, m, k);
    }
  }

  /** Appending one margin extends exactly the group of that margin. */
  lemma MembersSnoc(s: seq<real>, x: real, m: real)
    ensures Members(s + [x], m) == Members(s, m) + (if x == m then [|s|] else [])
  {
    assert (s + [x])[..|s|] == s;
  }

  lemma DistinctSnoc(s: seq<real>, x: real)
    ensures Distinct(s + [x]) == if x in Distinct(s) then Distinct(s) else Distinct(s) + [x]
  {
    assert (s + [x])[..|s|] == s;
  }

  /** The lowest index whose margin is `m`. */
  function FirstIndex(s: seq<real>, m: real): (i: nat)
    requires m in s
    ensures i < |s| && s[i] == m
    ensures forall j :: 0 <= j < i ==> s[j] != m
  {
    if s[0] == m then 0
    else
      assert s == [s[0]] + s[1..];
      1 + FirstIndex(s[1..], m)
  }

  /** `margin_groups[m][0]`, the representative the separation constraints
      use for margin `m`, is the lowest index holding `m`. */
  lemma GroupHead(s: seq<real>, m: real)
    requires m in s
    ensures Members(s, m) != [] && Members(s, m)[0] == FirstIndex(s, m)
  {
    var r, i := Members(s, m), FirstIndex(s, m);
    MembersComplete(s, m, i);
    assert r[0] <= i;
  }

  /** The distinct values of `s` in order of first appearance: the keys of
      the grouping dictionary in the order Python iterates them. */
  function Distinct(s: seq<real>): (r: seq<real>)
    ensures forall x :: x in r <==> x in s
    ensures NoDuplicates(r)
  {
    if s == [] then []
    else
      var init, last := s[..|s| - 1], s[|s| - 1];
      assert s == init + [last];
      var d := Distinct(init);
      if last in d then d else d + [last]
  }

  /** Inserts `x` into a strictly descending list unless it is already
      there. */
  function InsertDesc(x: real, u: seq<real>): (q: seq<real>)
    requires StrictlyDescending(u)
    ensures StrictlyDescending(q)
    ensures forall y :: y in q <==> y in u || y == x
  {
    if u == [] then [x]
    else if x == u[0] then u
    else if x > u[0] then [x] + u
    else
      var tail := u[1..];
      assert u == [u[0]] + tail;
      var rest := InsertDesc(x, tail);
      assert forall b :: 0 <= b < |rest| ==> rest[b] < u[0] by {
        forall b | 0 <= b < |rest|
          ensures rest[b] < u[0]
        {
          assert rest[b] in rest;
          if rest[b] != x {
            var a :| 0 <= a < |tail| && tail[a] == rest[b];
            assert u[a + 1] == rest[b];
          }
        }
      }
      [u[0]] + rest
  }

  /** `sorted(set(s), reverse=True)`: the distinct values of `s`, largest
      first. */
  function SortedDistinctDesc(s: seq<real>): (u: seq<real>)
    ensures StrictlyDescending(u)
    ensures forall y :: y in u <==> y in s
  {
    if s == [] then []
    else
      assert s == s[..|s| - 1] + [s[|s| - 1]];
      InsertDesc(s[|s| - 1], SortedDistinctDesc(s[..|s| - 1]))
  }

  /** A strictly descending list is determined by its elements: whatever
      sorting procedure produced `unique_margins`, the list depends only on
      the set of margins. */
  lemma {:induction false} DescendingUnique(u: seq<real>, v: seq<real>)
    requires StrictlyDescending(u) && StrictlyDescending(v)
    requires forall y :: y in u <==> y in v
    ensures u == v
  {
    if u == [] && v != [] {
      HeadIn(v);
      assert false;
    } else if u != [] && v == [] {
      HeadIn(u);
      assert false;
    } else if u != [] && v != [] {
      assert u[0] in u && v[0] in v;
      assert u[0] in v;
      assert v[0] in u;
      assert forall a :: 0 <= a < |u| ==> u[0] >= u[a];
      assert forall a :: 0 <= a < |v| ==> v[0] >= v[a];
      forall y
        ensures y in u[1..] <==> y in v[1..]
      {
        assert y in u[1..] <==> y in u && y != u[0];
        assert y in v[1..] <==> y in v && y != v[0];
      }
      DescendingUnique(u[1..], v[1..]);
      assert u == [u[0]] + u[1..];
      assert v == [v[0]] + v[1..];
    }
  }

  lemma HeadIn(v: seq<real>)
    ensures v != [] ==> v[0] in v
  {
  }

  /** The grouping dictionary once the margins `s` are filed: every margin
      of `s` maps to the indices that hold it. */
  function GroupMap(s: seq<real>): map<real, seq<nat>>
  {
    map m | m in s :: Members(s, m)
  }

  /** Filing one more margin `x`, at index `|s|`, appends that index to the
      group of `x` (creating it if needed) and leaves every other group as
      it was; a new group is created exactly when `x` is a new key. */
  lemma GroupMapSnoc(s: seq<real>, x: real)
    ensures GroupMap(s + [x]) == GroupMap(s)[x := (if x in GroupMap(s) then GroupMap(s)[x] else []) + [|s|]]
  {
    var before, after := GroupMap(s), GroupMap(s + [x]);
    var expected := before[x := (if x in before then before[x] else []) + [|s|]];
    forall m
      ensures m in after <==> m in expected
    {
      assert m in s + [x] <==> m in s || m == x;
    }
    forall m | m in after
      ensures after[m] == expected[m]
    {
      MembersSnoc(s, x, m);
      if m == x && x !in s {
        MembersOfAbsent(s, x);
      }
    }
  }

  /** The dictionary's keys are the distinct margins. */
  lemma GroupKeys(s: seq<real>, x: real)
    ensures x in GroupMap(s) <==> x in Distinct(s)
  {
  }

  /** The grouping loop: `margin_groups.setdefault(m, []).append(i)` for each
      index `i` in turn. `order` records the dictionary's keys in insertion
      order. */
  method GroupMargins(margins: seq<real>) returns (order: seq<real>, groups: map<real, seq<nat>>)
    ensures order == Distinct(margins)
    ensures groups == GroupMap(margins)
  {
    order, groups := [], map[];
    for i := 0 to |margins|
      invariant order == Distinct(margins[..i])
      invariant groups == GroupMap(margins[..i])
    {
      var m := margins[i];
      assert margins[..i + 1] == margins[..i] + [m];
      GroupMapSnoc(margins[..i], m);
      GroupKeys(margins[..i], m);
      DistinctSnoc(margins[..i], m);
      if m !in groups {
        order := order + [m];
      }
      var group := if m in groups then groups[m] else [];
      groups := groups[m := group + [i]];
    }
    assert margins[..|margins|] == margins;
  }

  lemma MembersOfAbsent(s: seq<real>, x: real)
    requires x !in s
    ensures Members(s, x) == []
  {
    MembersHead(s, x);
  }

  lemma MembersHead(s: seq<real>, x: real)
    ensures Members(s, x) != [] ==> Members(s, x)[0] < |s| && s[Members(s, x)[0]] == x
  {
  }

  /** Every index lands in exactly one group, the one keyed by its own
      margin, and the group lists hold nothing else. */
  lemma GroupsPartition(margins: seq<real>, i: nat, m: real)
    requires i < |margins|
    ensures i in Members(margins, margins[i])
    ensures i in Members(margins, m) ==> m == margins[i]
    ensures forall k :: k in Members(margins, m) ==> k < |margins|
  {
    MembersComplete(margins, margins[i], i);
  }
}
