/** `Stack`: sort a side, build running sums, sort again.

    `sort.Sort` is unstable, so `IsStack` describes every array `Stack` may return:
    the running sums of SOME price-ordered arrangement of the bids, in SOME price order. */
module AuctionStack {
  import opened AuctionCurves
  import opened Multisets

  ghost predicate Ordered(s: seq<Bid>, descending: bool) {
    forall i, j :: 0 <= i < j < |s| ==> InOrder(s[i], s[j], descending)
  }

  predicate InOrder(a: Bid, b: Bid, descending: bool) {
    if descending then a.price >= b.price else a.price <= b.price
  }

  /** Units of the first `i` bids. */
  function Total(s: seq<Bid>, i: nat): real
    requires i <= |s|
  {
    if i == 0 then 0.0 else Total(s, i - 1) + s[i - 1].units
  }

  /** The running sums: entry `i` carries the price of bid `i` and the units up to it. */
  function Running(s: seq<Bid>): (r: seq<Bid>)
    ensures |r| == |s|
  {
    seq(|s|, i requires 0 <= i < |s| => Bid(s[i].price, Total(s, i + 1)))
  }

  ghost predicate StackedFrom(m: multiset<Bid>, g: Group, s: seq<Bid>, r: seq<Bid>) {
    && multiset(s) == m
    && Ordered(s, g.Buyers?)
    && multiset(r) == multiset(Running(s))
    && Ordered(r, g.Sellers?)
  }

  ghost predicate IsStack(m: multiset<Bid>, g: Group, r: seq<Bid>) {
    exists s :: StackedFrom(m, g, s, r)
  }

  // ----- the algorithm -----

  /** The exchange `sort.Sort` performs through the collection's `Swap`. */
  method Swap(a: array<Bid>, i: nat, j: nat)
    requires i < a.Length && j < a.Length
    modifies a
    ensures a[..] == old(a[..][i := a[j]][j := a[i]])
    ensures multiset(a[..]) == old(multiset(a[..]))
  {
    a[i], a[j] := a[j], a[i];
  }

  /** `sort.Sort` by price.  Only its contract is used: some price-ordered permutation. */
  method SortBids(a: array<Bid>, descending: bool)
    modifies a
    ensures multiset(a[..]) == old(multiset(a[..]))
    ensures Ordered(a[..], descending)
  {
    for i := 0 to a.Length
      invariant multiset(a[..]) == old(multiset(a[..]))
      invariant forall j, k :: 0 <= j < i && j < k < a.Length ==> InOrder(a[j], a[k], descending)
    {
      var first := i;
      for j := i + 1 to a.Length
        invariant i <= first < a.Length
        invariant forall k :: i <= k < j ==> InOrder(a[first], a[k], descending)
      {
        if !InOrder(a[first], a[j], descending) { first := j; }
      }
      Swap(a, i, first);
    }
  }

  /** The prefix-sum loop in the middle of `Stack`. */
  method RunningSums(bc: array<Bid>) returns (bids: array<Bid>)
    ensures fresh(bids) && bids[..] == Running(bc[..])
  {
    bids := new Bid[bc.Length];
    for i := 0 to bc.Length
      invariant forall k :: 0 <= k < i ==> bids[k] == Bid(bc[k].price, Total(bc[..], k + 1))
    {
      if i == 0 {
        bids[i] := Bid(bc[i].price, bc[i].units);
      } else {
        bids[i] := Bid(bc[i].price, bids[i - 1].units + bc[i].units);
      }
    }
  }

  method Stack(bc: array<Bid>, g: Group) returns (result: array<Bid>)
    modifies bc
    ensures multiset(bc[..]) == old(multiset(bc[..])) && Ordered(bc[..], g.Buyers?)
    ensures fresh(result) && result.Length == bc.Length
    ensures IsStack(old(multiset(bc[..])), g, result[..])
  {
    SortBids(bc, g.Buyers?);
    result := RunningSums(bc);
    assert result.Length == |result[..]|;
    SortBids(result, g.Sellers?);
    assert StackedFrom(old(multiset(bc[..])), g, bc[..], result[..]);
  }

  // ----- what a stack is: the cumulative curve of its side -----

  lemma CurveExtend(s: seq<Bid>, g: Group, p: real, i: nat)
    requires i < |s|
    ensures Curve(multiset(s[..i + 1]), g, p) == Curve(multiset(s[..i]), g, p) + Weight(g, s[i], p)
  {
    assert s[..i + 1] == s[..i] + [s[i]];
    CurveRemove(multiset(s[..i + 1]), g, p, s[i]);
    assert multiset(s[..i + 1]) - multiset{s[i]} == multiset(s[..i]);
  }

  /** Where the first `i` bids all trade, they contribute their running sum. */
  lemma {:induction false} PrefixCurve(s: seq<Bid>, g: Group, p: real, i: nat)
    requires i <= |s|
    requires forall k :: 0 <= k < i ==> Counts(g, s[k], p)
    ensures Curve(multiset(s[..i]), g, p) == Total(s, i)
  {
    if i == 0 {
      assert s[..0] == [];
    } else {
      PrefixCurve(s, g, p, i - 1);
      CurveExtend(s, g, p, i - 1);
    }
  }

  /** Bids from position `i` on only add to the curve if those that trade do, and add nothing if none
      of them trades. */
  lemma {:induction false} SuffixCurve(s: seq<Bid>, g: Group, p: real, i: nat)
    requires i <= |s|
    requires forall k :: i <= k < |s| && Counts(g, s[k], p) ==> s[k].units >= 0.0
    ensures Curve(multiset(s[..i]), g, p) <= Curve(multiset(s), g, p)
    decreases |s| - i
  {
    if i == |s| {
      assert s[..i] == s;
    } else {
      SuffixCurve(s, g, p, i + 1);
      CurveExtend(s, g, p, i);
    }
  }

  lemma {:induction false} IdleSuffix(s: seq<Bid>, g: Group, p: real, i: nat)
    requires i <= |s|
    requires forall k :: i <= k < |s| ==> !Counts(g, s[k], p)
    ensures Curve(multiset(s[..i]), g, p) == Curve(multiset(s), g, p)
    decreases |s| - i
  {
    if i == |s| {
      assert s[..i] == s;
    } else {
      IdleSuffix(s, g, p, i + 1);
      CurveExtend(s, g, p, i);
    }
  }

  lemma UnitsAt(s: seq<Bid>)
    requires NonNegative(multiset(s))
    ensures forall k :: 0 <= k < |s| ==> s[k].units >= 0.0
  {
  }

  lemma OrderedPair(s: seq<Bid>, descending: bool, i: nat, j: nat)
    requires Ordered(s, descending) && i <= j < |s|
    ensures InOrder(s[i], s[j], descending)
  {
  }

  lemma EarlierCount(s: seq<Bid>, g: Group, i: nat)
    requires Ordered(s, g.Buyers?) && i < |s|
    ensures forall k :: 0 <= k <= i ==> Counts(g, s[k], s[i].price)
  {
  }

  lemma LaterDoNotCount(s: seq<Bid>, g: Group, i: nat)
    requires Ordered(s, g.Buyers?) && i + 1 < |s| && s[i + 1].price != s[i].price
    ensures forall k :: i + 1 <= k < |s| ==> !Counts(g, s[k], s[i].price)
  {
  }

  lemma OtherPlace(s: seq<Bid>, a: nat, x: nat)
    requires a < |s| && x < |s| && a != x
    ensures s[a] in multiset(s) - multiset{s[x]}
  {
    var rest := s[..x] + s[x + 1..];
    assert s == s[..x] + [s[x]] + s[x + 1..];
    assert multiset(s) - multiset{s[x]} == multiset(rest);
    assert s[a] == rest[if a < x then a else a - 1];
  }

  /** The bid at `k`, if another at `a` has its price, brings no negative units. */
  predicate AddsBeside(s: seq<Bid>, a: nat, k: nat)
    requires a < |s| && k < |s|
  {
    a != k && s[a].price == s[k].price ==> s[k].units >= 0.0
  }

  lemma AddsInOrder(s: seq<Bid>, a: nat, k: nat)
    requires TiesNonNegative(multiset(s)) && a < |s| && k < |s|
    ensures AddsBeside(s, a, k)
  {
    if a != k {
      OtherPlace(s, a, k);
      assert s[k] in multiset(s) && s[a] in multiset(s);
    }
  }

  lemma LaterAdd(s: seq<Bid>, g: Group, i: nat)
    requires Ordered(s, g.Buyers?) && i < |s| && forall k :: 0 <= k < |s| ==> AddsBeside(s, i, k)
    ensures forall k :: i + 1 <= k < |s| && Counts(g, s[k], s[i].price) ==> s[k].units >= 0.0
  {
    forall k | i + 1 <= k < |s| && Counts(g, s[k], s[i].price) ensures s[k].units >= 0.0 {
      assert AddsBeside(s, i, k);
      OrderedPair(s, g.Buyers?, i, k);
    }
  }

  lemma RunningBelowCurve(s: seq<Bid>, g: Group, i: nat)
    requires Ordered(s, g.Buyers?) && i < |s| && forall k :: 0 <= k < |s| ==> AddsBeside(s, i, k)
    ensures Curve(multiset(s[..i + 1]), g, s[i].price) <= Curve(multiset(s), g, s[i].price)
  {
    LaterAdd(s, g, i);
    SuffixCurve(s, g, s[i].price, i + 1);
  }

  lemma RunningMeetsCurve(s: seq<Bid>, g: Group, i: nat)
    requires Ordered(s, g.Buyers?) && i < |s| && forall k :: 0 <= k < |s| ==> AddsBeside(s, i, k)
    ensures Running(s)[i].units <= Curve(multiset(s), g, s[i].price)
    ensures (i + 1 < |s| ==> s[i + 1].price != s[i].price) ==>
              Running(s)[i].units == Curve(multiset(s), g, s[i].price)
  {
    var p := s[i].price;
    assert Curve(multiset(s[..i + 1]), g, p) == Total(s, i + 1) by {
      EarlierCount(s, g, i);
      PrefixCurve(s, g, p, i + 1);
    }
    RunningBelowCurve(s, g, i);
    if i + 1 < |s| ==> s[i + 1].price != p { LastAddsAll(s, g, i); }
  }

  lemma LastAddsAll(s: seq<Bid>, g: Group, i: nat)
    requires Ordered(s, g.Buyers?) && i < |s| && (i + 1 < |s| ==> s[i + 1].price != s[i].price)
    ensures Curve(multiset(s[..i + 1]), g, s[i].price) == Curve(multiset(s), g, s[i].price)
  {
    if i + 1 < |s| { LaterDoNotCount(s, g, i); }
    IdleSuffix(s, g, s[i].price, i + 1);
  }

  /** Running sums never exceed the curve at their price; the last one at each price meets it. */
  lemma RunningIsCurve(s: seq<Bid>, g: Group, i: nat)
    requires TiesNonNegative(multiset(s)) && Ordered(s, g.Buyers?) && i < |s|
    ensures Running(s)[i].units <= Curve(multiset(s), g, s[i].price)
    ensures (i + 1 < |s| ==> s[i + 1].price != s[i].price) ==>
              Running(s)[i].units == Curve(multiset(s), g, s[i].price)
  {
    forall k | 0 <= k < |s| ensures AddsBeside(s, i, k) { AddsInOrder(s, i, k); }
    RunningMeetsCurve(s, g, i);
  }

  lemma LastAtPrice(s: seq<Bid>, descending: bool, k: nat) returns (i: nat)
    requires Ordered(s, descending) && k < |s|
    ensures k <= i < |s| && s[i].price == s[k].price
    ensures i + 1 < |s| ==> s[i + 1].price != s[i].price
    decreases |s| - k
  {
    if k + 1 < |s| && s[k + 1].price == s[k].price {
      i := LastAtPrice(s, descending, k + 1);
    } else {
      i := k;
    }
  }

  /** Every entry of a stack lies on or below the curve of its side. */
  lemma StackBelowCurve(m: multiset<Bid>, g: Group, r: seq<Bid>, e: Bid)
    requires TiesNonNegative(m) && IsStack(m, g, r) && e in r
    ensures e.units <= Curve(m, g, e.price)
    ensures exists b :: b in m && b.price == e.price
  {
    var s :| StackedFrom(m, g, s, r);
    var i := FindRunning(s, r, e);
    RunningIsCurve(s, g, i);
    assert s[i] in m;
  }

  /** At every price bid on that side, the largest entry of the stack is the curve itself. */
  lemma StackMeetsCurve(m: multiset<Bid>, g: Group, r: seq<Bid>, b: Bid)
    requires TiesNonNegative(m) && IsStack(m, g, r) && b in m
    ensures Bid(b.price, Curve(m, g, b.price)) in r
  {
    var s :| StackedFrom(m, g, s, r);
    var k :| 0 <= k < |s| && s[k] == b;
    var i := LastAtPrice(s, g.Buyers?, k);
    RunningIsCurve(s, g, i);
    assert Running(s)[i] in multiset(r);
  }

  /** Units never fall from one price to a strictly worse one for the other side: the sense in
      which the result "decreases monotonically". */
  lemma StackMonotone(m: multiset<Bid>, g: Group, r: seq<Bid>, d: Bid, e: Bid)
    requires NonNegative(m) && IsStack(m, g, r) && d in r && e in r
    requires d.price != e.price && InOrder(d, e, g.Buyers?)
    ensures d.units <= e.units
  {
    var s :| StackedFrom(m, g, s, r);
    RunningMonotone(s, g, r, d, e);
  }

  lemma RunningMonotone(s: seq<Bid>, g: Group, r: seq<Bid>, d: Bid, e: Bid)
    requires NonNegative(multiset(s)) && Ordered(s, g.Buyers?) && multiset(r) == multiset(Running(s))
    requires d in r && e in r && d.price != e.price && InOrder(d, e, g.Buyers?)
    ensures d.units <= e.units
  {
    var i := FindRunning(s, r, d);
    var j := FindRunning(s, r, e);
    if j < i { OrderedPair(s, g.Buyers?, j, i); }
    UnitsAt(s);
    TotalGrows(s, i + 1, j + 1);
  }

  lemma FindRunning(s: seq<Bid>, r: seq<Bid>, e: Bid) returns (i: nat)
    requires multiset(r) == multiset(Running(s)) && e in r
    ensures i < |s| && Running(s)[i] == e
  {
    assert e in multiset(Running(s));
    i :| 0 <= i < |s| && Running(s)[i] == e;
  }

  lemma {:induction false} TotalGrows(s: seq<Bid>, i: nat, j: nat)
    requires i <= j <= |s|
    requires forall k :: 0 <= k < |s| ==> s[k].units >= 0.0
    ensures Total(s, i) <= Total(s, j)
  {
    if i < j {
      TotalGrows(s, i, j - 1);
    }
  }

  function PriceOf(b: Bid): multiset<real> {
    multiset{b.price}
  }

  function Prices(s: seq<Bid>): seq<real> {
    if s == [] then [] else Prices(s[..|s| - 1]) + [s[|s| - 1].price]
  }

  lemma {:induction false} PricesGather(s: seq<Bid>)
    ensures multiset(Prices(s)) == Gather(multiset(s), PriceOf)
  {
    if s != [] {
      var t, b := s[..|s| - 1], s[|s| - 1];
      assert s == t + [b];
      PricesGather(t);
      GatherExtend(t, PriceOf, b);
      MultisetExtend(Prices(t), b.price);
    }
  }

  lemma {:induction false} SamePrices(s: seq<Bid>, t: seq<Bid>)
    requires |s| == |t| && forall i :: 0 <= i < |s| ==> s[i].price == t[i].price
    ensures Prices(s) == Prices(t)
  {
    if s != [] {
      SamePrices(s[..|s| - 1], t[..|s| - 1]);
    }
  }

  /** A stack lists exactly the prices that were bid, as often as they were bid. */
  lemma StackPrices(bids: seq<Bid>, g: Group, r: seq<Bid>)
    requires IsStack(multiset(bids), g, r)
    ensures multiset(Prices(r)) == multiset(Prices(bids))
  {
    var s :| StackedFrom(multiset(bids), g, s, r);
    PricesGather(r);
    PricesGather(Running(s));
    PricesGather(s);
    PricesGather(bids);
    SamePrices(Running(s), s);
  }

  /** The units of a stack need not be ordered among entries of equal price: listing 1 before 3
      is as possible as listing 3 before 1. */
  lemma StackTiesUnordered()
    ensures IsStack(multiset{Bid(5.0, 1.0), Bid(5.0, 2.0)}, Buyers, [Bid(5.0, 1.0), Bid(5.0, 3.0)])
    ensures IsStack(multiset{Bid(5.0, 1.0), Bid(5.0, 2.0)}, Buyers, [Bid(5.0, 3.0), Bid(5.0, 1.0)])
  {
    var x, y, z := Bid(5.0, 1.0), Bid(5.0, 2.0), Bid(5.0, 3.0);
    var s := [x, y];
    assert Total(s, 0) == 0.0 && Total(s, 1) == 1.0 && Total(s, 2) == 3.0;
    assert Running(s) == [x, z];
    assert StackedFrom(multiset{x, y}, Buyers, s, [x, z]);
    assert StackedFrom(multiset{x, y}, Buyers, s, [z, x]);
  }
}
