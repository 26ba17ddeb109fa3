/** Exactly when every stack of a side lists falling units, whatever the sorts do with ties. */
module AuctionTies {
  import opened AuctionCurves
  import opened AuctionStack

  /** The units never rise along the list. */
  ghost predicate Falling(r: seq<Bid>) {
    forall i, j :: 0 <= i < j < |r| ==> r[j].units <= r[i].units
  }

  /** No bid with units to trade shares its price with another bid. */
  ghost predicate TiesIdle(m: multiset<Bid>) {
    forall b, c :: b in m && b.units > 0.0 && c in m - multiset{b} ==> c.price != b.price
  }

  // ----- without such ties every stack falls -----

  /** The bid at `k`, if another at `a` has its price, has nothing to trade. */
  predicate IdleBeside(s: seq<Bid>, a: nat, k: nat)
    requires a < |s| && k < |s|
  {
    a != k && s[a].price == s[k].price ==> s[k].units == 0.0
  }

  lemma IdleInOrder(s: seq<Bid>, a: nat, k: nat)
    requires NonNegative(multiset(s)) && TiesIdle(multiset(s)) && a < |s| && k < |s|
    ensures IdleBeside(s, a, k)
  {
    if a != k {
      OtherPlace(s, a, k);
      assert s[k] in multiset(s);
    }
  }

  lemma RunningSteps(s: seq<Bid>, k: nat)
    requires k + 1 < |s|
    ensures Running(s)[k + 1].units == Running(s)[k].units + s[k + 1].units
  {
  }

  lemma PriceBetween(s: seq<Bid>, descending: bool, a: nat, k: nat, b: nat)
    requires Ordered(s, descending) && a <= k <= b < |s| && s[a].price == s[b].price
    ensures s[k].price == s[a].price
  {
    OrderedPair(s, descending, a, k);
    OrderedPair(s, descending, k, b);
  }

  /** Idle bids add nothing to the running sum. */
  lemma {:induction false} EqualAtPrice(s: seq<Bid>, g: Group, a: nat, b: nat)
    requires Ordered(s, g.Buyers?) && a <= b < |s| && s[a].price == s[b].price
    requires forall k :: 0 <= k < |s| ==> IdleBeside(s, a, k)
    ensures Running(s)[a].units == Running(s)[b].units
    decreases b
  {
    if a < b {
      PriceBetween(s, g.Buyers?, a, b - 1, b);
      EqualAtPrice(s, g, a, b - 1);
      assert IdleBeside(s, a, b);
      RunningSteps(s, b - 1);
    }
  }

  lemma IdleFalls(m: multiset<Bid>, g: Group, r: seq<Bid>)
    requires NonNegative(m) && TiesIdle(m) && IsStack(m, g, r)
    ensures Falling(r)
  {
    var s :| StackedFrom(m, g, s, r);
    forall a, k: nat | 0 <= a < |s| && k < |s| ensures IdleBeside(s, a, k) { IdleInOrder(s, a, k); }
    forall i, j | 0 <= i < j < |r| ensures r[j].units <= r[i].units { FallsBetween(m, g, s, r, i, j); }
  }

  lemma FallsBetween(m: multiset<Bid>, g: Group, s: seq<Bid>, r: seq<Bid>, i: nat, j: nat)
    requires NonNegative(m) && StackedFrom(m, g, s, r) && i < j < |r|
    requires forall a, k: nat :: 0 <= a < |s| && k < |s| ==> IdleBeside(s, a, k)
    ensures r[j].units <= r[i].units
  {
    OrderedPair(r, g.Sellers?, i, j);
    if r[i].price == r[j].price {
      var a := FindRunning(s, r, r[i]);
      var b := FindRunning(s, r, r[j]);
      EqualAtPrice(s, g, if a < b then a else b, if a < b then b else a);
    } else {
      StackMonotone(m, g, r, r[j], r[i]);
    }
  }

  // ----- with one some stack does not -----

  /** Insert a bid right after position `k`. */
  function InsertAfter(s: seq<Bid>, k: nat, b: Bid): (t: seq<Bid>)
    requires k < |s|
    ensures multiset(t) == multiset(s) + multiset{b}
  {
    assert s == s[..k + 1] + s[k + 1..];
    s[..k + 1] + [b] + s[k + 1..]
  }

  lemma InsertOrdered(s: seq<Bid>, k: nat, b: Bid, descending: bool)
    requires Ordered(s, descending) && k < |s| && InOrder(s[k], b, descending)
    requires k + 1 < |s| ==> InOrder(b, s[k + 1], descending)
    ensures Ordered(InsertAfter(s, k, b), descending)
  {
    var t := InsertAfter(s, k, b);
    forall i, j | 0 <= i < j < |t| ensures InOrder(t[i], t[j], descending) {
      if i <= k { OrderedPair(s, descending, i, k); }
      if j > k + 1 { OrderedPair(s, descending, k + 1, j - 1); }
    }
  }

  /** Where a bid belongs in an ordered list: after every bid it does not precede. */
  lemma {:induction false} Slot(s: seq<Bid>, b: Bid, descending: bool) returns (n: nat)
    requires Ordered(s, descending)
    ensures n <= |s|
    ensures forall i :: 0 <= i < n ==> InOrder(s[i], b, descending)
    ensures forall i :: n <= i < |s| ==> InOrder(b, s[i], descending)
  {
    if s == [] || InOrder(s[|s| - 1], b, descending) {
      n := |s|;
      forall i | 0 <= i < n ensures InOrder(s[i], b, descending) { OrderedPair(s, descending, i, |s| - 1); }
    } else {
      n := Slot(s[..|s| - 1], b, descending);
    }
  }

  lemma InsertAt(t: seq<Bid>, n: nat, b: Bid, descending: bool) returns (s: seq<Bid>)
    requires Ordered(t, descending) && n <= |t|
    requires forall i :: 0 <= i < n ==> InOrder(t[i], b, descending)
    requires forall i :: n <= i < |t| ==> InOrder(b, t[i], descending)
    ensures multiset(s) == multiset(t) + multiset{b} && Ordered(s, descending)
  {
    if n == 0 {
      s := [b] + t;
      forall i, j | 0 <= i < j < |s| ensures InOrder(s[i], s[j], descending) {
        if i > 0 { OrderedPair(t, descending, i - 1, j - 1); }
      }
    } else {
      InsertOrdered(t, n - 1, b, descending);
      s := InsertAfter(t, n - 1, b);
    }
  }

  /** Bids can be put in price order. */
  lemma {:induction false} Arrange(m: multiset<Bid>, descending: bool) returns (s: seq<Bid>)
    ensures multiset(s) == m && Ordered(s, descending)
    decreases |m|
  {
    if m == multiset{} {
      s := [];
    } else {
      var b :| b in m;
      var t := Arrange(m - multiset{b}, descending);
      var n := Slot(t, b, descending);
      s := InsertAt(t, n, b, descending);
    }
  }

  function Reversed(s: seq<Bid>): (r: seq<Bid>)
    ensures |r| == |s|
  {
    if s == [] then [] else [s[|s| - 1]] + Reversed(s[..|s| - 1])
  }

  lemma {:induction false} ReversedAt(s: seq<Bid>)
    ensures forall k :: 0 <= k < |s| ==> Reversed(s)[k] == s[|s| - 1 - k]
    ensures multiset(Reversed(s)) == multiset(s)
  {
    if s != [] {
      ReversedAt(s[..|s| - 1]);
      assert s == s[..|s| - 1] + [s[|s| - 1]];
    }
  }

  function Swapped(s: seq<Bid>, k: nat): (t: seq<Bid>)
    requires k + 1 < |s|
    ensures |t| == |s| && multiset(t) == multiset(s)
  {
    s[k := s[k + 1]][k + 1 := s[k]]
  }

  /** Two neighbours of one price, the second with units to trade: exchanging their running sums gives
      a stack along which the units rise. */
  lemma RisingStack(m: multiset<Bid>, g: Group, s: seq<Bid>, k: nat) returns (r: seq<Bid>)
    requires multiset(s) == m && Ordered(s, g.Buyers?)
    requires k + 1 < |s| && s[k].price == s[k + 1].price && s[k + 1].units > 0.0
    ensures IsStack(m, g, r) && !Falling(r)
  {
    var t := Swapped(Running(s), k);
    r := Reversed(t);
    ReversedAt(t);
    SwappedPrices(s, k);
    ReversedOrdered(s, t, g.Buyers?);
    assert StackedFrom(m, g, s, r);
    SwappedRises(s, k);
  }

  lemma SwappedPrices(s: seq<Bid>, k: nat)
    requires k + 1 < |s| && s[k].price == s[k + 1].price
    ensures forall i :: 0 <= i < |s| ==> Swapped(Running(s), k)[i].price == s[i].price
  {
  }

  lemma SwappedRises(s: seq<Bid>, k: nat)
    requires k + 1 < |s| && s[k + 1].units > 0.0
    ensures !Falling(Reversed(Swapped(Running(s), k)))
  {
    var t := Swapped(Running(s), k);
    var i := |s| - 2 - k;
    ReversedAt(t);
    RunningSteps(s, k);
    assert Reversed(t)[i] == Running(s)[k] && Reversed(t)[i + 1] == Running(s)[k + 1];
  }

  lemma ReversedOrdered(s: seq<Bid>, t: seq<Bid>, descending: bool)
    requires Ordered(s, descending) && |t| == |s| && forall i :: 0 <= i < |s| ==> t[i].price == s[i].price
    ensures Ordered(Reversed(t), !descending)
  {
    var r := Reversed(t);
    ReversedAt(t);
    forall i, j | 0 <= i < j < |r| ensures InOrder(r[i], r[j], !descending) {
      OrderedPair(s, descending, |s| - 1 - j, |s| - 1 - i);
    }
  }

  lemma TieRises(m: multiset<Bid>, g: Group, b: Bid, c: Bid) returns (r: seq<Bid>)
    requires b in m && b.units > 0.0 && c in m - multiset{b} && c.price == b.price
    ensures IsStack(m, g, r) && !Falling(r)
  {
    var t := Arrange(m - multiset{b}, g.Buyers?);
    assert c in multiset(t);
    var k :| 0 <= k < |t| && t[k] == c;
    if k + 1 < |t| { OrderedPair(t, g.Buyers?, k, k + 1); }
    InsertOrdered(t, k, b, g.Buyers?);
    r := RisingStack(m, g, InsertAfter(t, k, b), k);
  }

  /** The units of a stack fall along it, for every way the sorts may break ties, exactly when no bid
      with units to trade shares its price with another bid. */
  lemma StackFallsExactly(m: multiset<Bid>, g: Group)
    requires NonNegative(m)
    ensures (forall r :: IsStack(m, g, r) ==> Falling(r)) <==> TiesIdle(m)
  {
    if TiesIdle(m) {
      forall r | IsStack(m, g, r) ensures Falling(r) { IdleFalls(m, g, r); }
    } else {
      var b, c :| b in m && b.units > 0.0 && c in m - multiset{b} && c.price == b.price;
      var r := TieRises(m, g, b, c);
    }
  }
}
