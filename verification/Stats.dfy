/** The statistics collector: folding the lines reported for a slot into one cell, and what the cell
    then says about energy. */
module Stats {
  import opened AuctionCurves
  import opened AuctionSettle
  import opened Multisets

  datatype SlotLine = SlotLine(number: int, use: real, paid: real, gen: real, sold: real, traded: real, price: real)

  const ZERO := SlotLine(0, 0.0, 0.0, 0.0, 0.0, 0.0, 0.0)

  function Max(x: real, y: real): real {
    if x < y then y else x
  }

  /** One line into a cell: taken over if the cell is still blank, else added up; the energy traded is
      taken off what was drawn from and sold to the grid. */
  function Add(cell: SlotLine, line: SlotLine): SlotLine {
    if cell == ZERO then line
    else
      cell.(use := cell.use + line.use - line.traded, gen := cell.gen + line.gen - line.traded,
            paid := Max(cell.paid, line.paid), sold := Max(cell.sold, line.sold),
            traded := line.traded, price := line.price)
  }

  function Fold(lines: seq<SlotLine>): SlotLine {
    if lines == [] then ZERO else Add(Fold(lines[..|lines| - 1]), lines[|lines| - 1])
  }

  /** The lines for one slot, in the order they came. */
  function LinesFor(lines: seq<SlotLine>, slot: int): seq<SlotLine> {
    if lines == [] then []
    else
      LinesFor(lines[..|lines| - 1], slot) +
      if lines[|lines| - 1].number == slot then [lines[|lines| - 1]] else []
  }

  /** The largest slot number among the lines, or `from` if that is larger. */
  function LargestNumber(lines: seq<SlotLine>, from: int): (m: int)
    ensures m >= from && forall i :: 0 <= i < |lines| ==> lines[i].number <= m
    ensures m == from || exists i :: 0 <= i < |lines| && lines[i].number == m
  {
    if lines == [] then from
    else
      var rest, last := lines[..|lines| - 1], lines[|lines| - 1].number;
      assert forall i :: 0 <= i < |rest| ==> lines[i] == rest[i];
      if last > LargestNumber(rest, from) then last else LargestNumber(rest, from)
  }

  lemma LinesForNext(lines: seq<SlotLine>, line: SlotLine, slot: int)
    ensures LinesFor(lines + [line], slot) ==
            if line.number == slot then LinesFor(lines, slot) + [line] else LinesFor(lines, slot)
    ensures Fold(lines + [line]) == Add(Fold(lines), line)
  {
  }

  class Collector {
    var largestSlotSeen: int

    constructor ()
      ensures largestSlotSeen == 0
    {
      largestSlotSeen := 0;
    }

    method SlotCalc(newLine: SlotLine, aggStats: array<SlotLine>)
      requires 0 <= newLine.number < aggStats.Length
      modifies this, aggStats
      ensures aggStats[..] == old(aggStats[..][newLine.number := Add(aggStats[newLine.number], newLine)])
      ensures largestSlotSeen == if newLine.number > old(largestSlotSeen) then newLine.number else old(largestSlotSeen)
    {
      var slotNum := newLine.number;
      if slotNum > largestSlotSeen {
        largestSlotSeen := slotNum;
      }
      if aggStats[slotNum] == ZERO {
        aggStats[slotNum] := newLine;
      } else {
        var curLine := aggStats[slotNum];
        curLine := curLine.(use := curLine.use + newLine.use, gen := curLine.gen + newLine.gen);
        if curLine.paid < newLine.paid { curLine := curLine.(paid := newLine.paid); }
        if curLine.sold < newLine.sold { curLine := curLine.(sold := newLine.sold); }
        curLine := curLine.(traded := newLine.traded, price := newLine.price);
        curLine := curLine.(use := curLine.use - newLine.traded);
        curLine := curLine.(gen := curLine.gen - newLine.traded);
        aggStats[slotNum] := curLine;
      }
    }

    /** Every line that reaches the slot channel, in the order it is drained. */
    method Run(lines: seq<SlotLine>, aggStats: array<SlotLine>)
      requires forall l :: l in lines ==> 0 <= l.number < aggStats.Length
      requires forall i :: 0 <= i < aggStats.Length ==> aggStats[i] == ZERO
      modifies this, aggStats
      ensures forall i :: 0 <= i < aggStats.Length ==> aggStats[i] == Fold(LinesFor(lines, i))
      ensures largestSlotSeen == LargestNumber(lines, old(largestSlotSeen))
    {
      for n := 0 to |lines|
        invariant largestSlotSeen == LargestNumber(lines[..n], old(largestSlotSeen))
        invariant forall i :: 0 <= i < aggStats.Length ==> aggStats[i] == Fold(LinesFor(lines[..n], i))
      {
        ghost var before := aggStats[..];
        assert lines[n] in lines;
        SlotCalc(lines[n], aggStats);
        assert lines[..n + 1] == lines[..n] + [lines[n]] && lines[..n + 1][..n] == lines[..n];
        forall i | 0 <= i < aggStats.Length ensures aggStats[i] == Fold(LinesFor(lines[..n + 1], i)) {
          assert aggStats[i] == aggStats[..][i] && before[i] == Fold(LinesFor(lines[..n], i));
          LinesForNext(lines[..n], lines[n], i);
          LinesForNext(LinesFor(lines[..n], i), lines[n], i);
        }
      }
      assert lines[..|lines|] == lines;
    }
  }

  // ----- energy accounting -----

  /** A bid as its bidder reports it: the quantity, and the grid price it avoids (`Hi` for a buyer,
      `Lo` for a seller). */
  datatype Placed = Placed(side: Group, bid: Bid, grid: real)

  function LineOf(slot: int, p: Placed): SlotLine {
    match p.side
    case Buyers => ZERO.(number := slot, use := p.bid.units, paid := p.grid)
    case Sellers => ZERO.(number := slot, gen := p.bid.units, sold := p.grid)
  }

  function LinesOf(slot: int, placed: seq<Placed>): (r: seq<SlotLine>)
    ensures |r| == |placed| && forall i :: 0 <= i < |r| ==> r[i] == LineOf(slot, placed[i])
  {
    seq(|placed|, i requires 0 <= i < |placed| => LineOf(slot, placed[i]))
  }

  /** The line the regulator reports after `markEnd`. */
  function MarkLine(slot: int, traded: real, price: real): SlotLine {
    ZERO.(number := slot, traded := traded, price := price)
  }

  function BuyOf(p: Placed): multiset<Bid> {
    if p.side.Buyers? then multiset{p.bid} else multiset{}
  }

  function SellOf(p: Placed): multiset<Bid> {
    if p.side.Sellers? then multiset{p.bid} else multiset{}
  }

  ghost function Buys(placed: multiset<Placed>): multiset<Bid> { Gather(placed, BuyOf) }

  ghost function Sells(placed: multiset<Placed>): multiset<Bid> { Gather(placed, SellOf) }

  ghost predicate PositiveBids(placed: seq<Placed>) {
    forall i :: 0 <= i < |placed| ==> placed[i].bid.units > 0.0
  }

  lemma VolumeAdd(m: multiset<Bid>, b: Bid)
    ensures Volume(m + multiset{b}) == Volume(m) + b.units && Volume(m + multiset{}) == Volume(m)
  {
    VolumeRemove(m + multiset{b}, b);
    assert m + multiset{b} - multiset{b} == m && m + multiset{} == m;
  }

  lemma PlacedNext(placed: seq<Placed>, p: Placed)
    ensures Buys(multiset(placed + [p])) == Buys(multiset(placed)) + BuyOf(p)
    ensures Sells(multiset(placed + [p])) == Sells(multiset(placed)) + SellOf(p)
  {
    GatherExtend(placed, BuyOf, p);
    GatherExtend(placed, SellOf, p);
  }

  /** Nothing traded yet, and blank only while no bid was reported. */
  predicate Untraded(cell: SlotLine) {
    cell.use >= 0.0 && cell.gen >= 0.0 && cell.traded == 0.0 && (cell != ZERO ==> cell.use > 0.0 || cell.gen > 0.0)
  }

  lemma AddBidder(slot: int, cell: SlotLine, p: Placed)
    requires Untraded(cell) && p.bid.units > 0.0
    ensures var cell' := Add(cell, LineOf(slot, p));
            && Untraded(cell') && cell' != ZERO
            && cell'.use == cell.use + (if p.side.Buyers? then p.bid.units else 0.0)
            && cell'.gen == cell.gen + (if p.side.Sellers? then p.bid.units else 0.0)
  {
  }

  lemma VolumeNext(m: multiset<Bid>, p: Placed)
    ensures Volume(m + BuyOf(p)) == Volume(m) + (if p.side.Buyers? then p.bid.units else 0.0)
    ensures Volume(m + SellOf(p)) == Volume(m) + (if p.side.Sellers? then p.bid.units else 0.0)
  {
    VolumeAdd(m, p.bid);
  }

  ghost predicate SumsUp(cell: SlotLine, buys: multiset<Bid>, sells: multiset<Bid>) {
    cell.use == Volume(buys) && cell.gen == Volume(sells) && cell.traded == 0.0
  }

  ghost predicate AddsUp(cell: SlotLine, buys: multiset<Bid>, sells: multiset<Bid>) {
    Untraded(cell) && SumsUp(cell, buys, sells)
  }

  lemma AddsUpNext(slot: int, cell: SlotLine, buys: multiset<Bid>, sells: multiset<Bid>, p: Placed)
    requires AddsUp(cell, buys, sells) && p.bid.units > 0.0
    ensures AddsUp(Add(cell, LineOf(slot, p)), buys + BuyOf(p), sells + SellOf(p)) && Add(cell, LineOf(slot, p)) != ZERO
  {
    AddBidder(slot, cell, p);
    VolumeNext(buys, p);
    VolumeNext(sells, p);
  }

  /** Bidder lines alone add up to the volumes bid, in any order, and never blank the cell. */
  lemma {:induction false} BiddersAddUp(slot: int, placed: seq<Placed>)
    requires PositiveBids(placed)
    ensures AddsUp(Fold(LinesOf(slot, placed)), Buys(multiset(placed)), Sells(multiset(placed)))
    ensures Fold(LinesOf(slot, placed)) == ZERO <==> placed == []
  {
    if placed != [] {
      var before, p := placed[..|placed| - 1], placed[|placed| - 1];
      assert placed == before + [p];
      BiddersAddUp(slot, before);
      OneMore(slot, before, p);
    }
  }

  lemma OneMore(slot: int, before: seq<Placed>, p: Placed)
    requires AddsUp(Fold(LinesOf(slot, before)), Buys(multiset(before)), Sells(multiset(before))) && p.bid.units > 0.0
    ensures AddsUp(Fold(LinesOf(slot, before + [p])), Buys(multiset(before + [p])), Sells(multiset(before + [p])))
    ensures Fold(LinesOf(slot, before + [p])) != ZERO
  {
    var cell, buys, sells := Fold(LinesOf(slot, before)), Buys(multiset(before)), Sells(multiset(before));
    AddsUpNext(slot, cell, buys, sells, p);
    PlacedNext(before, p);
    FoldNext(slot, before, p);
  }

  lemma FoldNext(slot: int, before: seq<Placed>, p: Placed)
    ensures Fold(LinesOf(slot, before + [p])) == Add(Fold(LinesOf(slot, before)), LineOf(slot, p))
  {
    assert LinesOf(slot, before + [p]) == LinesOf(slot, before) + [LineOf(slot, p)];
    LinesForNext(LinesOf(slot, before), LineOf(slot, p), slot);
  }

  lemma MarkAdded(slot: int, placed: seq<Placed>, traded: real, price: real)
    requires PositiveBids(placed) && placed != []
    ensures var cell := Fold(LinesOf(slot, placed) + [MarkLine(slot, traded, price)]);
            && cell.use == Volume(Buys(multiset(placed))) - traded
            && cell.gen == Volume(Sells(multiset(placed))) - traded
            && cell.traded == traded && cell.price == price
  {
    BiddersAddUp(slot, placed);
    LinesForNext(LinesOf(slot, placed), MarkLine(slot, traded, price), slot);
  }

  /** Energy accounting: bidder lines, at least one, followed by the slot's mark line fold to what was
      drawn from and sold to the grid, whatever the order of the bidder lines; and neither is negative
      when what was traded was settled among bids that were reported. */
  lemma EnergyAccounting(slot: int, placed: seq<Placed>, buyers: multiset<Bid>, sellers: multiset<Bid>, r: Bid)
    requires PositiveBids(placed) && placed != []
    requires buyers <= Buys(multiset(placed)) && sellers <= Sells(multiset(placed))
    requires Settles(buyers, sellers, Cleared(r))
    ensures var cell := Fold(LinesOf(slot, placed) + [MarkLine(slot, r.units, r.price)]);
            && cell.use == Volume(Buys(multiset(placed))) - r.units >= 0.0
            && cell.gen == Volume(Sells(multiset(placed))) - r.units >= 0.0
            && cell.traded == r.units && cell.price == r.price
  {
    MarkAdded(slot, placed, r.units, r.price);
    BidsPositive(placed);
    TradedWithinReported(buyers, sellers, r, Buys(multiset(placed)), Sells(multiset(placed)));
  }

  lemma {:induction false} BidsPositive(placed: seq<Placed>)
    requires PositiveBids(placed)
    ensures NonNegative(Buys(multiset(placed))) && NonNegative(Sells(multiset(placed)))
  {
    if placed != [] {
      var before, p := placed[..|placed| - 1], placed[|placed| - 1];
      assert placed == before + [p];
      BidsPositive(before);
      PlacedNext(before, p);
    }
  }

  lemma SumsUpNext(slot: int, cell: SlotLine, buys: multiset<Bid>, sells: multiset<Bid>, p: Placed)
    requires SumsUp(cell, buys, sells)
    ensures SumsUp(Add(cell, LineOf(slot, p)), buys + BuyOf(p), sells + SellOf(p))
  {
    AddLine(slot, cell, p);
    VolumeNext(buys, p);
    VolumeNext(sells, p);
  }

  lemma AddLine(slot: int, cell: SlotLine, p: Placed)
    ensures var cell' := Add(cell, LineOf(slot, p));
            && cell'.use == cell.use + (if p.side.Buyers? then p.bid.units else 0.0)
            && cell'.gen == cell.gen + (if p.side.Sellers? then p.bid.units else 0.0)
            && cell'.traded == 0.0
  {
  }

  lemma FoldAfter(slot: int, head: seq<SlotLine>, after: seq<Placed>, p: Placed)
    ensures Fold(head + LinesOf(slot, after + [p])) == Add(Fold(head + LinesOf(slot, after)), LineOf(slot, p))
  {
    assert head + LinesOf(slot, after + [p]) == head + LinesOf(slot, after) + [LineOf(slot, p)];
    LinesForNext(head + LinesOf(slot, after), LineOf(slot, p), slot);
  }

  /** When nothing is traded, use and generation add up wherever the mark line stands. */
  lemma {:induction false} NothingTraded(slot: int, before: seq<Placed>, after: seq<Placed>, price: real)
    requires PositiveBids(before)
    ensures var all := multiset(before + after);
            SumsUp(Fold(LinesOf(slot, before) + [MarkLine(slot, 0.0, price)] + LinesOf(slot, after)),
                   Buys(all), Sells(all))
  {
    var head := LinesOf(slot, before) + [MarkLine(slot, 0.0, price)];
    if after == [] {
      BiddersAddUp(slot, before);
      LinesForNext(LinesOf(slot, before), MarkLine(slot, 0.0, price), slot);
      assert head + LinesOf(slot, after) == head && before + after == before;
    } else {
      var rest, p := after[..|after| - 1], after[|after| - 1];
      assert after == rest + [p] && before + after == before + rest + [p];
      NothingTraded(slot, before, rest, price);
      FoldAfter(slot, head, rest, p);
      PlacedNext(before + rest, p);
      SumsUpNext(slot, Fold(head + LinesOf(slot, rest)), Buys(multiset(before + rest)),
                 Sells(multiset(before + rest)), p);
    }
  }

  /** The order matters otherwise.  With the mark line anywhere among the bidder lines, the cell
      reconciles exactly when nothing was traded, or that line is the last and not the only one. */
  lemma ReconcilesExactly(slot: int, before: seq<Placed>, after: seq<Placed>, traded: real, price: real)
    requires PositiveBids(before + after)
    ensures var cell := Fold(LinesOf(slot, before) + [MarkLine(slot, traded, price)] + LinesOf(slot, after));
            var all := multiset(before + after);
            (cell.use == Volume(Buys(all)) - traded && cell.gen == Volume(Sells(all)) - traded && cell.traded == traded)
            <==> traded == 0.0 || (after == [] && before != [])
  {
    var head := LinesOf(slot, before) + [MarkLine(slot, traded, price)];
    assert forall i :: 0 <= i < |before| ==> (before + after)[i] == before[i];
    if traded == 0.0 {
      NothingTraded(slot, before, after, price);
    } else if after != [] {
      var n := |after| - 1;
      var lines := head + LinesOf(slot, after);
      assert lines == lines[..|lines| - 1] + [LineOf(slot, after[n])];
      LinesForNext(lines[..|lines| - 1], LineOf(slot, after[n]), slot);
    } else {
      assert head + LinesOf(slot, after) == head && before + after == before;
      if before == [] {
        LinesForNext([], MarkLine(slot, traded, price), slot);
        assert head == [] + [MarkLine(slot, traded, price)];
      } else {
        MarkAdded(slot, before, traded, price);
      }
    }
  }

  // ----- grid prices -----

  /** `p` is the highest of the prices, or zero if there are none above it. */
  ghost predicate Highest(p: real, prices: seq<real>) {
    && p >= 0.0 && (forall i :: 0 <= i < |prices| ==> prices[i] <= p)
    && (p > 0.0 ==> exists i :: 0 <= i < |prices| && prices[i] == p)
  }

  lemma HighestNext(p: real, prices: seq<real>, x: real)
    requires Highest(p, prices)
    ensures Highest(if p < x then x else p, prices + [x])
  {
    assert (prices + [x])[|prices|] == x;
    assert forall i :: 0 <= i < |prices| ==> (prices + [x])[i] == prices[i];
  }

  function PaidIn(lines: seq<SlotLine>): (r: seq<real>)
    ensures |r| == |lines| && forall i :: 0 <= i < |r| ==> r[i] == lines[i].paid
  {
    seq(|lines|, i requires 0 <= i < |lines| => lines[i].paid)
  }

  function SoldIn(lines: seq<SlotLine>): (r: seq<real>)
    ensures |r| == |lines| && forall i :: 0 <= i < |r| ==> r[i] == lines[i].sold
  {
    seq(|lines|, i requires 0 <= i < |lines| => lines[i].sold)
  }

  /** Whatever lines reach a cell, and whatever they report as traded, the grid prices it keeps are the
      highest reported on each side. */
  lemma {:induction false} FoldPrices(lines: seq<SlotLine>)
    requires forall i :: 0 <= i < |lines| ==> lines[i].paid >= 0.0 && lines[i].sold >= 0.0
    ensures Highest(Fold(lines).paid, PaidIn(lines)) && Highest(Fold(lines).sold, SoldIn(lines))
  {
    if lines != [] {
      var before, line := lines[..|lines| - 1], lines[|lines| - 1];
      FoldPrices(before);
      HighestNext(Fold(before).paid, PaidIn(before), line.paid);
      HighestNext(Fold(before).sold, SoldIn(before), line.sold);
      assert PaidIn(lines) == PaidIn(before) + [line.paid] && SoldIn(lines) == SoldIn(before) + [line.sold];
    }
  }

  /** The grid prices of a slot with its mark line anywhere among the bidder lines: the highest `Hi` of
      a buyer and the highest `Lo` of a seller. */
  lemma GridPrices(slot: int, before: seq<Placed>, after: seq<Placed>, traded: real, price: real)
    requires forall i :: 0 <= i < |before + after| ==> (before + after)[i].grid >= 0.0
    ensures var cell := Fold(LinesOf(slot, before) + [MarkLine(slot, traded, price)] + LinesOf(slot, after));
            var all := before + after;
            && (forall i :: 0 <= i < |all| ==> all[i].grid <= if all[i].side.Buyers? then cell.paid else cell.sold)
            && cell.paid >= 0.0 && cell.sold >= 0.0
            && (cell.paid > 0.0 ==> exists i :: 0 <= i < |all| && all[i].side.Buyers? && all[i].grid == cell.paid)
            && (cell.sold > 0.0 ==> exists i :: 0 <= i < |all| && all[i].side.Sellers? && all[i].grid == cell.sold)
  {
    var lines := LinesOf(slot, before) + [MarkLine(slot, traded, price)] + LinesOf(slot, after);
    var n, all := |before|, before + after;
    forall i | 0 <= i < |all| ensures lines[if i < n then i else i + 1] == LineOf(slot, all[i]) {}
    forall j | 0 <= j < |lines|
      ensures lines[j] ==
                if j == n then MarkLine(slot, traded, price) else LineOf(slot, all[if j < n then j else j - 1])
    {}
    FoldPrices(lines);
    KeptPrices(slot, all, n, lines, traded, price, Fold(lines));
  }

  lemma KeptPrices(slot: int, all: seq<Placed>, n: nat, lines: seq<SlotLine>, traded: real, price: real, cell: SlotLine)
    requires n <= |all| && |lines| == |all| + 1
    requires forall i :: 0 <= i < |all| ==> all[i].grid >= 0.0
    requires forall i :: 0 <= i < |all| ==> lines[if i < n then i else i + 1] == LineOf(slot, all[i])
    requires forall j :: 0 <= j < |lines| ==>
               lines[j] ==
                 if j == n then MarkLine(slot, traded, price) else LineOf(slot, all[if j < n then j else j - 1])
    requires Highest(cell.paid, PaidIn(lines)) && Highest(cell.sold, SoldIn(lines))
    ensures forall i :: 0 <= i < |all| ==> all[i].grid <= if all[i].side.Buyers? then cell.paid else cell.sold
    ensures cell.paid > 0.0 ==> exists i :: 0 <= i < |all| && all[i].side.Buyers? && all[i].grid == cell.paid
    ensures cell.sold > 0.0 ==> exists i :: 0 <= i < |all| && all[i].side.Sellers? && all[i].grid == cell.sold
  {
    forall i | 0 <= i < |all| ensures all[i].grid <= if all[i].side.Buyers? then cell.paid else cell.sold {
      var j := if i < n then i else i + 1;
      assert PaidIn(lines)[j] == lines[j].paid && SoldIn(lines)[j] == lines[j].sold;
    }
    if cell.paid > 0.0 {
      var j :| 0 <= j < |lines| && PaidIn(lines)[j] == cell.paid;
      assert all[if j < n then j else j - 1].side.Buyers?;
    }
    if cell.sold > 0.0 {
      var j :| 0 <= j < |lines| && SoldIn(lines)[j] == cell.sold;
      assert all[if j < n then j else j - 1].side.Sellers?;
    }
  }
}
