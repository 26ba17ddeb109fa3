/** `Settle`: the all-pairs search for the clearing point, and what it means for the market. */
module AuctionSettle {
  import opened AuctionCurves
  import opened AuctionStack

  datatype Outcome = NoPrice | Cleared(best: Bid)

  function Min(x: real, y: real): real {
    if x <= y then x else y
  }

  /** A buyer's point and a seller's point can be matched. */
  predicate Feasible(b: Bid, s: Bid) {
    b.price >= s.price
  }

  function Match(b: Bid, s: Bid): Bid {
    Bid((b.price + s.price) / 2.0, Min(b.units, s.units))
  }

  /** `r` splits the difference of the two prices, and carries the units of one side that the other
      side can meet. */
  predicate Halfway(b: Bid, s: Bid, r: Bid) {
    && r.price - s.price == b.price - r.price
    && r.units <= b.units && r.units <= s.units && (r.units == b.units || r.units == s.units)
  }

  lemma MatchExactly(b: Bid, s: Bid, r: Bid)
    ensures r == Match(b, s) <==> Halfway(b, s, r)
  {
  }

  /** More units win; among equal units the higher price wins. */
  predicate NoBetter(x: Bid, y: Bid) {
    x.units < y.units || (x.units == y.units && x.price <= y.price)
  }

  ghost predicate Candidate(sb: seq<Bid>, ss: seq<Bid>, r: Bid) {
    exists b, s :: b in sb && s in ss && Feasible(b, s) && r == Match(b, s)
  }

  /** `r` is a greatest match between the points of `sb` and those of `ss`. */
  ghost predicate BestMatch(sb: seq<Bid>, ss: seq<Bid>, r: Bid) {
    && Candidate(sb, ss, r)
    && forall b, s :: b in sb && s in ss && Feasible(b, s) ==> NoBetter(Match(b, s), r)
  }

  ghost predicate SettlesFrom(sb: seq<Bid>, ss: seq<Bid>, o: Outcome) {
    match o
    case NoPrice => forall b, s :: b in sb && s in ss ==> !Feasible(b, s)
    case Cleared(r) => BestMatch(sb, ss, r)
  }

  /** What a call may answer, over every way the four sorts may break ties. */
  ghost predicate Settles(buyers: multiset<Bid>, sellers: multiset<Bid>, o: Outcome) {
    exists sb, ss :: IsStack(buyers, Buyers, sb) && IsStack(sellers, Sellers, ss) && SettlesFrom(sb, ss, o)
  }

  // ----- the algorithm -----

  /** Every feasible match, in the order the two loops append them. */
  method Matches(sb: array<Bid>, ss: array<Bid>) returns (result: seq<Bid>)
    ensures forall r :: r in result ==> Candidate(sb[..], ss[..], r)
    ensures forall b, s :: b in sb[..] && s in ss[..] && Feasible(b, s) ==> Match(b, s) in result
  {
    result := [];
    for i := 0 to sb.Length
      invariant forall r :: r in result ==> Candidate(sb[..], ss[..], r)
      invariant forall b, s :: b in sb[..i] && s in ss[..] && Feasible(b, s) ==> Match(b, s) in result
    {
      ghost var before := result;
      for j := 0 to ss.Length
        invariant before <= result
        invariant forall r :: r in result ==> Candidate(sb[..], ss[..], r)
        invariant forall s :: s in ss[..j] && Feasible(sb[i], s) ==> Match(sb[i], s) in result
      {
        if sb[i].price < ss[j].price { continue; }
        assert sb[i] in sb[..] && ss[j] in ss[..];
        result := result + [Bid((sb[i].price + ss[j].price) / 2.0, Min(sb[i].units, ss[j].units))];
      }
      assert ss[..] == ss[..ss.Length];
    }
    assert sb[..] == sb[..sb.Length];
  }

  method BestOf(result: seq<Bid>) returns (best: Bid)
    requires result != []
    ensures best in result && forall r :: r in result ==> NoBetter(r, best)
  {
    if |result| == 1 { return result[0]; }
    best := result[0];
    for i := 1 to |result|
      invariant best in result && forall r :: r in result[..i] ==> NoBetter(r, best)
    {
      assert result[..i + 1] == result[..i] + [result[i]];
      if result[i].units > best.units {
        best := result[i];
      } else if result[i].units == best.units {
        if result[i].price > best.price {
          best := result[i];
        }
      }
    }
    assert result == result[..|result|];
  }

  method Settle(buyers: array<Bid>, sellers: array<Bid>) returns (o: Outcome)
    requires buyers.Length > 0 && sellers.Length > 0
    modifies buyers, sellers
    ensures multiset(buyers[..]) == old(multiset(buyers[..]))
    ensures multiset(sellers[..]) == old(multiset(sellers[..]))
    ensures Settles(old(multiset(buyers[..])), old(multiset(sellers[..])), o)
  {
    var sb := Stack(buyers, Buyers);
    var ss := Stack(sellers, Sellers);
    ghost var b, s := sb[sb.Length - 1], ss[ss.Length - 1];
    assert b in sb[..] && s in ss[..];
    StackEnd(old(multiset(buyers[..])), Buyers, sb[..]);
    StackEnd(old(multiset(sellers[..])), Sellers, ss[..]);
    // The highest buying price against the lowest selling price.
    if sb[sb.Length - 1].price < ss[ss.Length - 1].price {
      o := NoPrice;
      assert SettlesFrom(sb[..], ss[..], o);
      return;
    }
    assert Feasible(b, s);
    var result := Matches(sb, ss);
    assert Match(b, s) in result;
    var best := BestOf(result);
    o := Cleared(best);
    assert SettlesFrom(sb[..], ss[..], o);
  }

  /** The last entry of a stack carries the most generous price of its side. */
  lemma StackEnd(m: multiset<Bid>, g: Group, r: seq<Bid>)
    requires IsStack(m, g, r) && r != []
    ensures forall e :: e in r ==> InOrder(e, r[|r| - 1], g.Sellers?)
  {
  }

  // ----- the meaning -----

  /** The match of two bids when each side brings everything it offers at that bid's price. */
  ghost function CurveMatch(buyers: multiset<Bid>, sellers: multiset<Bid>, b: Bid, s: Bid): Bid {
    Match(Bid(b.price, Curve(buyers, Buyers, b.price)), Bid(s.price, Curve(sellers, Sellers, s.price)))
  }

  ghost predicate CurveCandidate(buyers: multiset<Bid>, sellers: multiset<Bid>, r: Bid) {
    exists b, s :: b in buyers && s in sellers && Feasible(b, s) && r == CurveMatch(buyers, sellers, b, s)
  }

  /** An order-free description of the answer: the greatest match of the two curves. */
  ghost predicate Clears(buyers: multiset<Bid>, sellers: multiset<Bid>, o: Outcome) {
    match o
    case NoPrice => forall b, s :: b in buyers && s in sellers ==> !Feasible(b, s)
    case Cleared(r) =>
      && CurveCandidate(buyers, sellers, r)
      && forall b, s :: b in buyers && s in sellers && Feasible(b, s) ==>
           NoBetter(CurveMatch(buyers, sellers, b, s), r)
  }

  /** A stacked pair never beats the curves at its two prices. */
  lemma StackPairBelow(buyers: multiset<Bid>, sellers: multiset<Bid>, sb: seq<Bid>, ss: seq<Bid>, x: Bid, y: Bid)
    returns (b: Bid, s: Bid)
    requires TiesNonNegative(buyers) && TiesNonNegative(sellers)
    requires IsStack(buyers, Buyers, sb) && IsStack(sellers, Sellers, ss) && x in sb && y in ss
    ensures b in buyers && s in sellers && b.price == x.price && s.price == y.price
    ensures NoBetter(Match(x, y), CurveMatch(buyers, sellers, b, s))
  {
    StackBelowCurve(buyers, Buyers, sb, x);
    StackBelowCurve(sellers, Sellers, ss, y);
    b :| b in buyers && b.price == x.price;
    s :| s in sellers && s.price == y.price;
  }

  lemma CurvePairAttained(buyers: multiset<Bid>, sellers: multiset<Bid>, sb: seq<Bid>, ss: seq<Bid>, b: Bid, s: Bid)
    returns (x: Bid, y: Bid)
    requires TiesNonNegative(buyers) && TiesNonNegative(sellers)
    requires IsStack(buyers, Buyers, sb) && IsStack(sellers, Sellers, ss) && b in buyers && s in sellers
    ensures x in sb && y in ss && x.price == b.price && y.price == s.price
    ensures Match(x, y) == CurveMatch(buyers, sellers, b, s)
  {
    StackMeetsCurve(buyers, Buyers, sb, b);
    StackMeetsCurve(sellers, Sellers, ss, s);
    x := Bid(b.price, Curve(buyers, Buyers, b.price));
    y := Bid(s.price, Curve(sellers, Sellers, s.price));
  }

  /** Whatever the sorts do with ties, the search finds the greatest match of the curves. */
  lemma SettleClears(buyers: multiset<Bid>, sellers: multiset<Bid>, o: Outcome)
    requires TiesNonNegative(buyers) && TiesNonNegative(sellers) && Settles(buyers, sellers, o)
    ensures Clears(buyers, sellers, o)
  {
    var sb, ss :| IsStack(buyers, Buyers, sb) && IsStack(sellers, Sellers, ss) && SettlesFrom(sb, ss, o);
    forall b, s | b in buyers && s in sellers && Feasible(b, s)
      ensures o.Cleared? && NoBetter(CurveMatch(buyers, sellers, b, s), o.best)
    {
      var x, y := CurvePairAttained(buyers, sellers, sb, ss, b, s);
      assert Feasible(x, y);
    }
    if o.Cleared? {
      var x, y :| x in sb && y in ss && Feasible(x, y) && o.best == Match(x, y);
      var b, s := StackPairBelow(buyers, sellers, sb, ss, x, y);
      assert Feasible(b, s);
    }
  }

  lemma NonNegativeClears(buyers: multiset<Bid>, sellers: multiset<Bid>, o: Outcome)
    requires NonNegative(buyers) && NonNegative(sellers) && Settles(buyers, sellers, o)
    ensures Clears(buyers, sellers, o)
  {
    SettleClears(buyers, sellers, o);
  }

  /** Order independence: two calls on the same bids, however listed and however the sorts break
      ties, give the same price and units or the same error. */
  lemma SettleDeterministic(buyers: multiset<Bid>, sellers: multiset<Bid>, o: Outcome, o': Outcome)
    requires TiesNonNegative(buyers) && TiesNonNegative(sellers)
    requires Settles(buyers, sellers, o) && Settles(buyers, sellers, o')
    ensures o == o'
  {
    SettleClears(buyers, sellers, o);
    SettleClears(buyers, sellers, o');
  }

  /** With negative units the answer does depend on the order among equal prices. */
  lemma NegativeUnitsOrderMatters()
    ensures exists buyers, sellers, o, o' :: Settles(buyers, sellers, o) && Settles(buyers, sellers, o') && o != o'
  {
    var x, y, z := Bid(5.0, 3.0), Bid(5.0, -1.0), Bid(4.0, 9.0);
    var two := Bid(5.0, 2.0);
    OneBidStack(z);
    TwoBidStack(x, y, two);
    TwoBidStack(y, x, two);
    assert multiset{y, x} == multiset{x, y};
    SinglePoint([x, two], z, x);
    SinglePoint([y, two], z, two);
    assert Settles(multiset{x, y}, multiset{z}, Cleared(Match(x, z)));
    assert Settles(multiset{x, y}, multiset{z}, Cleared(Match(two, z)));
    assert Match(x, z).units == 3.0 && Match(two, z).units == 2.0;
  }

  lemma OneBidStack(z: Bid)
    ensures IsStack(multiset{z}, Sellers, [z])
  {
    assert Total([z], 0) == 0.0 && Total([z], 1) == z.units;
    assert Running([z]) == [z];
    assert StackedFrom(multiset{z}, Sellers, [z], [z]);
  }

  /** Two bids at one price, stacked in the order given. */
  lemma TwoBidStack(x: Bid, y: Bid, sum: Bid)
    requires x.price == y.price == sum.price && sum.units == x.units + y.units
    ensures IsStack(multiset{x, y}, Buyers, [x, sum])
  {
    assert Total([x, y], 0) == 0.0 && Total([x, y], 1) == x.units && Total([x, y], 2) == sum.units;
    assert Running([x, y]) == [x, sum];
    assert StackedFrom(multiset{x, y}, Buyers, [x, y], [x, sum]);
  }

  lemma SinglePoint(sb: seq<Bid>, z: Bid, best: Bid)
    requires best in sb && Feasible(best, z)
    requires forall b :: b in sb ==> NoBetter(Match(b, z), Match(best, z))
    ensures SettlesFrom(sb, [z], Cleared(Match(best, z)))
  {
  }

  // ----- economic consequences -----

  /** The volume a price clears: the smaller of demand and supply at it. */
  ghost function VolumeAt(buyers: multiset<Bid>, sellers: multiset<Bid>, p: real): real {
    Min(Curve(buyers, Buyers, p), Curve(sellers, Sellers, p))
  }

  /** No price at all clears more than the answer's units. */
  lemma NoPriceClearsMore(buyers: multiset<Bid>, sellers: multiset<Bid>, r: Bid, p: real)
    requires NonNegative(buyers) && NonNegative(sellers) && Clears(buyers, sellers, Cleared(r))
    ensures VolumeAt(buyers, sellers, p) <= r.units
  {
    CurveBounds(buyers, Buyers, p);
    CurveBounds(sellers, Sellers, p);
    if (exists b :: b in buyers && Counts(Buyers, b, p)) && (exists s :: s in sellers && Counts(Sellers, s, p)) {
      var b := MarginalBid(buyers, Buyers, p);
      var s := MarginalBid(sellers, Sellers, p);
      assert Feasible(b, s);
      assert NoBetter(CurveMatch(buyers, sellers, b, s), r);
    } else {
      CurveAllCount(buyers, Buyers, p);
      CurveAllCount(sellers, Sellers, p);
      var b, s :| b in buyers && s in sellers && Feasible(b, s) && r == CurveMatch(buyers, sellers, b, s);
      CurveBounds(buyers, Buyers, b.price);
      CurveBounds(sellers, Sellers, s.price);
    }
  }

  /** Volume optimality: the returned price clears exactly the returned units, and no real price
      clears more. */
  lemma VolumeOptimal(buyers: multiset<Bid>, sellers: multiset<Bid>, r: Bid)
    requires NonNegative(buyers) && NonNegative(sellers) && Settles(buyers, sellers, Cleared(r))
    ensures r.units == VolumeAt(buyers, sellers, r.price)
    ensures forall p :: VolumeAt(buyers, sellers, p) <= r.units
  {
    NonNegativeClears(buyers, sellers, Cleared(r));
    forall p ensures VolumeAt(buyers, sellers, p) <= r.units {
      NoPriceClearsMore(buyers, sellers, r, p);
    }
    var b, s :| b in buyers && s in sellers && Feasible(b, s) && r == CurveMatch(buyers, sellers, b, s);
    CurveMonotone(buyers, Buyers, b.price, r.price);
    CurveMonotone(sellers, Sellers, s.price, r.price);
  }

  /** The price rule: the price is half-way between a buyer's and a seller's, for any units, and the
      units are what the two curves have in common at those two prices. */
  lemma ClearingPair(buyers: multiset<Bid>, sellers: multiset<Bid>, r: Bid) returns (b: Bid, s: Bid)
    requires Settles(buyers, sellers, Cleared(r))
    ensures b in buyers && s in sellers && b.price >= s.price && r.price == (b.price + s.price) / 2.0
    ensures TiesNonNegative(buyers) && TiesNonNegative(sellers) ==>
              var demand, supply := Curve(buyers, Buyers, b.price), Curve(sellers, Sellers, s.price);
              r.units == if demand <= supply then demand else supply
  {
    if TiesNonNegative(buyers) && TiesNonNegative(sellers) {
      SettleClears(buyers, sellers, Cleared(r));
      b, s :| b in buyers && s in sellers && Feasible(b, s) && r == CurveMatch(buyers, sellers, b, s);
    } else {
      var sb, ss :| IsStack(buyers, Buyers, sb) && IsStack(sellers, Sellers, ss) && SettlesFrom(sb, ss, Cleared(r));
      var x, y :| x in sb && y in ss && Feasible(x, y) && r == Match(x, y);
      b := BidBehind(buyers, Buyers, sb, x);
      s := BidBehind(sellers, Sellers, ss, y);
    }
  }

  /** The rule for ties: no buyer and seller who can trade have more in common, and none with as much
      have a higher midpoint.  With `ClearingPair`, the price is exactly the greatest midpoint. */
  lemma HighestMidpoint(buyers: multiset<Bid>, sellers: multiset<Bid>, r: Bid, b: Bid, s: Bid)
    requires TiesNonNegative(buyers) && TiesNonNegative(sellers) && Settles(buyers, sellers, Cleared(r))
    requires b in buyers && s in sellers && b.price >= s.price
    ensures var demand, supply := Curve(buyers, Buyers, b.price), Curve(sellers, Sellers, s.price);
            var common := if demand <= supply then demand else supply;
            common <= r.units && (common == r.units ==> (b.price + s.price) / 2.0 <= r.price)
  {
    SettleClears(buyers, sellers, Cleared(r));
    assert Feasible(b, s);
  }

  /** Individual rationality, for any units: the price lies between a seller's and a buyer's, hence
      within any bounds all the bids respect. */
  lemma PriceWithinBids(buyers: multiset<Bid>, sellers: multiset<Bid>, r: Bid, lo: real, hi: real)
    requires Settles(buyers, sellers, Cleared(r))
    ensures exists b, s :: b in buyers && s in sellers && s.price <= r.price <= b.price
    ensures (forall b :: b in buyers + sellers ==> lo <= b.price <= hi) ==> lo <= r.price <= hi
  {
    var sb, ss :| IsStack(buyers, Buyers, sb) && IsStack(sellers, Sellers, ss) && SettlesFrom(sb, ss, Cleared(r));
    var x, y :| x in sb && y in ss && Feasible(x, y) && r == Match(x, y);
    var b := BidBehind(buyers, Buyers, sb, x);
    var s := BidBehind(sellers, Sellers, ss, y);
    assert s.price <= r.price <= b.price;
    assert b in buyers + sellers && s in buyers + sellers;
  }

  /** A stack's prices are bid prices, and every bid price is in the stack, for any units. */
  lemma BidBehind(m: multiset<Bid>, g: Group, r: seq<Bid>, e: Bid) returns (b: Bid)
    requires IsStack(m, g, r) && e in r
    ensures b in m && b.price == e.price
  {
    var s :| StackedFrom(m, g, s, r);
    var i := FindRunning(s, r, e);
    b := s[i];
  }

  lemma EntryFor(m: multiset<Bid>, g: Group, r: seq<Bid>, b: Bid) returns (e: Bid)
    requires IsStack(m, g, r) && b in m
    ensures e in r && e.price == b.price
  {
    var s :| StackedFrom(m, g, s, r);
    var i :| 0 <= i < |s| && s[i] == b;
    e := Running(s)[i];
    assert e in multiset(Running(s));
  }

  /** Exact failure, for any units: there is no price exactly when no buyer meets any seller. */
  lemma NoPriceExactly(buyers: multiset<Bid>, sellers: multiset<Bid>, o: Outcome)
    requires Settles(buyers, sellers, o)
    ensures o.NoPrice? <==> forall b, s :: b in buyers && s in sellers ==> b.price < s.price
  {
    var sb, ss :| IsStack(buyers, Buyers, sb) && IsStack(sellers, Sellers, ss) && SettlesFrom(sb, ss, o);
    if o.NoPrice? {
      forall b, s | b in buyers && s in sellers ensures b.price < s.price {
        var x := EntryFor(buyers, Buyers, sb, b);
        var y := EntryFor(sellers, Sellers, ss, s);
        assert !Feasible(x, y);
      }
    } else {
      PriceWithinBids(buyers, sellers, o.best, 0.0, 0.0);
    }
  }

  /** With strictly positive units that is: no price has both demand and supply. */
  lemma NoPriceNoMarket(buyers: multiset<Bid>, sellers: multiset<Bid>, o: Outcome)
    requires Positive(buyers) && Positive(sellers) && Settles(buyers, sellers, o)
    ensures o.NoPrice? <==> !exists p :: VolumeAt(buyers, sellers, p) > 0.0
  {
    NoPriceExactly(buyers, sellers, o);
    if p :| VolumeAt(buyers, sellers, p) > 0.0 {
      CurvePositive(buyers, Buyers, p);
      CurvePositive(sellers, Sellers, p);
    }
    if b, s :| b in buyers && s in sellers && !(b.price < s.price) {
      CurvePositive(buyers, Buyers, b.price);
      CurvePositive(sellers, Sellers, b.price);
      assert VolumeAt(buyers, sellers, b.price) > 0.0;
    }
  }

  /** The traded units never exceed what either side brought, even when the side that settled is
      only part of what was reported. */
  lemma TradedWithinReported(buyers: multiset<Bid>, sellers: multiset<Bid>, r: Bid,
                             uses: multiset<Bid>, gens: multiset<Bid>)
    requires NonNegative(uses) && NonNegative(gens) && buyers <= uses && sellers <= gens
    requires Settles(buyers, sellers, Cleared(r))
    ensures 0.0 <= r.units <= Volume(uses)
    ensures r.units <= Volume(gens)
  {
    SubNonNegative(buyers, uses);
    SubNonNegative(sellers, gens);
    SettledWithinCurves(buyers, sellers, r);
    VolumeSub(buyers, uses);
    VolumeSub(sellers, gens);
  }

  lemma SubNonNegative(m: multiset<Bid>, n: multiset<Bid>)
    requires NonNegative(n) && m <= n
    ensures NonNegative(m)
  {
  }

  lemma SettledWithinCurves(buyers: multiset<Bid>, sellers: multiset<Bid>, r: Bid)
    requires NonNegative(buyers) && NonNegative(sellers) && Settles(buyers, sellers, Cleared(r))
    ensures 0.0 <= r.units <= Volume(buyers) && r.units <= Volume(sellers)
  {
    NonNegativeClears(buyers, sellers, Cleared(r));
    var b, s :| b in buyers && s in sellers && Feasible(b, s) && r == CurveMatch(buyers, sellers, b, s);
    CurveBounds(buyers, Buyers, b.price);
    CurveBounds(sellers, Sellers, s.price);
  }
}
