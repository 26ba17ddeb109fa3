/** Bids, the cumulative demand and supply curves, and how sums over bids behave.

    A curve is a function of the multiset of bids, so nothing stated with it can
    depend on the order in which a collection lists them. */
module AuctionCurves {

  datatype Group = Buyers | Sellers

  datatype Bid = Bid(price: real, units: real)

  /** Does bid `b` trade at price `p`?  Buyers accept any price up to their own,
      sellers any price from their own upwards. */
  predicate Counts(g: Group, b: Bid, p: real) {
    match g
    case Buyers => b.price >= p
    case Sellers => b.price <= p
  }

  function Weight(g: Group, b: Bid, p: real): real {
    if Counts(g, b, p) then b.units else 0.0
  }

  /** Total units on offer at price `p`: demand for buyers, supply for sellers. */
  ghost function Curve(m: multiset<Bid>, g: Group, p: real): real
    decreases |m|
  {
    if m == multiset{} then 0.0
    else
      var b :| b in m;
      Weight(g, b, p) + Curve(m - multiset{b}, g, p)
  }

  /** Total units of a collection, whatever the price. */
  ghost function Volume(m: multiset<Bid>): real
    decreases |m|
  {
    if m == multiset{} then 0.0
    else
      var b :| b in m;
      b.units + Volume(m - multiset{b})
  }

  ghost predicate NonNegative(m: multiset<Bid>) {
    forall b :: b in m ==> b.units >= 0.0
  }

  /** No bid with negative units shares its price with another bid. */
  ghost predicate TiesNonNegative(m: multiset<Bid>) {
    forall b, c :: b in m && c in m && b.units < 0.0 && c.price == b.price ==> c == b && m[b] == 1
  }

  ghost predicate Positive(m: multiset<Bid>) {
    forall b :: b in m ==> b.units > 0.0
  }

  /** The choice inside `Curve` does not matter: any bid can be split off. */
  lemma {:induction false} CurveRemove(m: multiset<Bid>, g: Group, p: real, b: Bid)
    requires b in m
    ensures Curve(m, g, p) == Weight(g, b, p) + Curve(m - multiset{b}, g, p)
    decreases |m|
  {
    var c :| c in m && Curve(m, g, p) == Weight(g, c, p) + Curve(m - multiset{c}, g, p);
    if c != b {
      CurveRemove(m - multiset{c}, g, p, b);
      CurveRemove(m - multiset{b}, g, p, c);
      assert m - multiset{c} - multiset{b} == m - multiset{b} - multiset{c};
    }
  }

  lemma {:induction false} VolumeRemove(m: multiset<Bid>, b: Bid)
    requires b in m
    ensures Volume(m) == b.units + Volume(m - multiset{b})
    decreases |m|
  {
    var c :| c in m && Volume(m) == c.units + Volume(m - multiset{c});
    if c != b {
      VolumeRemove(m - multiset{c}, b);
      VolumeRemove(m - multiset{b}, c);
      assert m - multiset{c} - multiset{b} == m - multiset{b} - multiset{c};
    }
  }

  lemma {:induction false} CurveBounds(m: multiset<Bid>, g: Group, p: real)
    requires NonNegative(m)
    ensures 0.0 <= Curve(m, g, p) <= Volume(m)
    decreases |m|
  {
    if m != multiset{} {
      var b :| b in m;
      CurveRemove(m, g, p, b);
      VolumeRemove(m, b);
      CurveBounds(m - multiset{b}, g, p);
    }
  }

  lemma {:induction false} CurveAllCount(m: multiset<Bid>, g: Group, p: real)
    ensures (forall b :: b in m ==> Counts(g, b, p)) ==> Curve(m, g, p) == Volume(m)
    ensures (forall b :: b in m ==> !Counts(g, b, p)) ==> Curve(m, g, p) == 0.0
    decreases |m|
  {
    if m != multiset{} {
      var b :| b in m;
      CurveRemove(m, g, p, b);
      VolumeRemove(m, b);
      CurveAllCount(m - multiset{b}, g, p);
    }
  }

  /** If every bid trading at `p` also trades at `q`, the curve at `q` is no lower. */
  lemma {:induction false} CurveMonotone(m: multiset<Bid>, g: Group, p: real, q: real)
    requires NonNegative(m)
    requires forall b :: b in m && Counts(g, b, p) ==> Counts(g, b, q)
    ensures Curve(m, g, p) <= Curve(m, g, q)
    decreases |m|
  {
    if m != multiset{} {
      var b :| b in m;
      CurveRemove(m, g, p, b);
      CurveRemove(m, g, q, b);
      CurveMonotone(m - multiset{b}, g, p, q);
    }
  }

  /** With strictly positive units a curve is positive exactly where some bid trades. */
  lemma CurvePositive(m: multiset<Bid>, g: Group, p: real)
    requires Positive(m)
    ensures Curve(m, g, p) > 0.0 <==> exists b :: b in m && Counts(g, b, p)
  {
    CurveAllCount(m, g, p);
    if b :| b in m && Counts(g, b, p) {
      CurveRemove(m, g, p, b);
      CurveBounds(m - multiset{b}, g, p);
    }
  }

  lemma {:induction false} VolumeSub(m: multiset<Bid>, n: multiset<Bid>)
    requires NonNegative(n) && m <= n
    ensures 0.0 <= Volume(m) <= Volume(n)
    decreases |n|
  {
    if n != multiset{} {
      if m == multiset{} {
        CurveBounds(n, Buyers, 0.0);
      } else {
        var b :| b in m;
        VolumeRemove(m, b);
        VolumeRemove(n, b);
        VolumeSub(m - multiset{b}, n - multiset{b});
      }
    }
  }

  /** Among the bids that trade at `p` there is a marginal one: the curve at its own
      price is the curve at `p`. */
  lemma {:induction false} MarginalBid(m: multiset<Bid>, g: Group, p: real) returns (b: Bid)
    requires exists c :: c in m && Counts(g, c, p)
    ensures b in m && Counts(g, b, p)
    ensures forall c :: c in m ==> (Counts(g, c, p) <==> Counts(g, c, b.price))
    ensures Curve(m, g, b.price) == Curve(m, g, p)
  {
    b :| b in m && Counts(g, b, p);
    ghost var rest := set c | c in m && Counts(g, c, p) && !Counts(g, c, b.price);
    while rest != {}
      invariant b in m && Counts(g, b, p)
      invariant rest == set c | c in m && Counts(g, c, p) && !Counts(g, c, b.price)
      decreases rest
    {
      var c :| c in rest;
      b := c;
      rest := set d | d in m && Counts(g, d, p) && !Counts(g, d, b.price);
    }
    forall c | c in m ensures Counts(g, c, p) <==> Counts(g, c, b.price) {
      assert c !in rest;
    }
    SameCounts(m, g, p, b.price);
  }

  lemma {:induction false} SameCounts(m: multiset<Bid>, g: Group, p: real, q: real)
    requires forall c :: c in m ==> (Counts(g, c, p) <==> Counts(g, c, q))
    ensures Curve(m, g, p) == Curve(m, g, q)
    decreases |m|
  {
    if m != multiset{} {
      var b :| b in m;
      CurveRemove(m, g, p, b);
      CurveRemove(m, g, q, b);
      SameCounts(m - multiset{b}, g, p, q);
    }
  }
}
