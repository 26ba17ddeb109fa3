/** From the trace to the balance: what the bidders' rows of a slot add up to in its cell. */
module SlotTotals {
  import opened AuctionCurves
  import opened Bidder
  import opened Stats

  /** A bidder's row for the slot, with the numbers drawn for its two prices. */
  datatype Turn = Turn(row: Row, buyDraw: real, sellDraw: real)

  /** What a bidder reports on one side: nothing without energy to buy or sell. */
  function PlacedFor(side: Group, row: Row, draw: real): seq<Placed> {
    var energy := if side.Buyers? then row.use else row.gen;
    if energy <= 0.0 then []
    else [Placed(side, Bid(DrawPrice(row, draw), energy * 0.25), if side.Buyers? then row.hi else row.lo)]
  }

  function AllPlaced(turns: seq<Turn>): seq<Placed> {
    if turns == [] then []
    else
      var t := turns[|turns| - 1];
      AllPlaced(turns[..|turns| - 1]) + PlacedFor(Buyers, t.row, t.buyDraw) + PlacedFor(Sellers, t.row, t.sellDraw)
  }

  /** These are the lines `Place` reports. */
  lemma PlacedLines(slot: int, side: Group, row: Row, draw: real)
    ensures var energy := if side.Buyers? then row.use else row.gen;
            LinesOf(slot, PlacedFor(side, row, draw)) ==
              if energy <= 0.0 then []
              else if side.Buyers? then [SlotLine(slot, row.use * 0.25, row.hi, 0.0, 0.0, 0.0, 0.0)]
              else [SlotLine(slot, 0.0, 0.0, row.gen * 0.25, row.lo, 0.0, 0.0)]
  {
  }

  function Above(x: real): real {
    if x > 0.0 then x else 0.0
  }

  function TotalUse(turns: seq<Turn>): real {
    if turns == [] then 0.0 else TotalUse(turns[..|turns| - 1]) + Above(turns[|turns| - 1].row.use)
  }

  function TotalGen(turns: seq<Turn>): real {
    if turns == [] then 0.0 else TotalGen(turns[..|turns| - 1]) + Above(turns[|turns| - 1].row.gen)
  }

  ghost predicate AddsTo(placed: seq<Placed>, use: real, gen: real) {
    && Volume(Buys(multiset(placed))) == 0.25 * use && Volume(Sells(multiset(placed))) == 0.25 * gen
    && PositiveBids(placed)
  }

  lemma OneReport(placed: seq<Placed>, p: Placed)
    requires PositiveBids(placed) && p.bid.units > 0.0
    ensures PositiveBids(placed + [p])
    ensures Volume(Buys(multiset(placed + [p]))) ==
            Volume(Buys(multiset(placed))) + if p.side.Buyers? then p.bid.units else 0.0
    ensures Volume(Sells(multiset(placed + [p]))) ==
            Volume(Sells(multiset(placed))) + if p.side.Sellers? then p.bid.units else 0.0
  {
    PlacedNext(placed, p);
    VolumeNext(Buys(multiset(placed)), p);
    VolumeNext(Sells(multiset(placed)), p);
  }

  lemma OneSide(placed: seq<Placed>, use: real, gen: real, side: Group, row: Row, draw: real)
    requires AddsTo(placed, use, gen)
    ensures AddsTo(placed + PlacedFor(side, row, draw), use + (if side.Buyers? then Above(row.use) else 0.0),
                   gen + (if side.Sellers? then Above(row.gen) else 0.0))
  {
    var more := PlacedFor(side, row, draw);
    if more == [] {
      assert placed + more == placed;
    } else {
      OneReport(placed, more[0]);
      assert more == [more[0]];
    }
  }

  lemma {:induction false} AllAddUp(turns: seq<Turn>)
    ensures AddsTo(AllPlaced(turns), TotalUse(turns), TotalGen(turns))
  {
    if turns == [] {
      assert multiset(AllPlaced([])) == multiset{};
    } else {
      var before, t := turns[..|turns| - 1], turns[|turns| - 1];
      var placed, bought := AllPlaced(before), PlacedFor(Buyers, t.row, t.buyDraw);
      AllAddUp(before);
      OneSide(placed, TotalUse(before), TotalGen(before), Buyers, t.row, t.buyDraw);
      OneSide(placed + bought, TotalUse(turns), TotalGen(before), Sellers, t.row, t.sellDraw);
    }
  }

  lemma SamePositive(placed: seq<Placed>, other: seq<Placed>)
    requires PositiveBids(placed) && multiset(other) == multiset(placed)
    ensures PositiveBids(other)
  {
    forall i | 0 <= i < |other| ensures other[i].bid.units > 0.0 {
      assert other[i] in multiset(placed);
    }
  }

  /** A slot in which nothing is traded, its mark line anywhere among the reports, in any order: the
      cell holds a quarter of the power used and of the power generated, as energy in kWh. */
  lemma UntradedTotals(slot: int, turns: seq<Turn>, before: seq<Placed>, after: seq<Placed>, price: real)
    requires multiset(before + after) == multiset(AllPlaced(turns))
    ensures var cell := Fold(LinesOf(slot, before) + [MarkLine(slot, 0.0, price)] + LinesOf(slot, after));
            cell.use == 0.25 * TotalUse(turns) && cell.gen == 0.25 * TotalGen(turns)
  {
    AllAddUp(turns);
    SamePositive(AllPlaced(turns), before + after);
    assert forall i :: 0 <= i < |before| ==> (before + after)[i] == before[i];
    NothingTraded(slot, before, after, price);
  }

  /** When the mark line is the last, what was traded comes off both. */
  lemma TradedTotals(slot: int, turns: seq<Turn>, placed: seq<Placed>, traded: real, price: real)
    requires multiset(placed) == multiset(AllPlaced(turns)) && placed != []
    ensures var cell := Fold(LinesOf(slot, placed) + [MarkLine(slot, traded, price)]);
            && cell.use == 0.25 * TotalUse(turns) - traded && cell.gen == 0.25 * TotalGen(turns) - traded
            && cell.traded == traded && cell.price == price
  {
    AllAddUp(turns);
    SamePositive(AllPlaced(turns), placed);
    MarkAdded(slot, placed, traded, price);
  }
}
