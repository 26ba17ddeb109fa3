/** From the ledger to the balance: what `markEnd` reports as traded was bid, so it can be taken off
    what the bidders reported. */
module LedgerEnergy {
  import opened AuctionCurves
  import opened AuctionSettle
  import opened LedgerBook
  import opened LedgerCollections
  import opened LedgerKeys
  import opened LedgerModel
  import opened LedgerTwoModels
  import opened Multisets
  import opened Options
  import opened Stats

  function GroupOf(side: string): Group {
    if side == "buy" then Buyers else Sellers
  }

  /** The bids reported on one side. */
  ghost function ReportedOn(side: string, reports: multiset<Placed>): multiset<Bid> {
    if side == "buy" then Buys(reports) else Sells(reports)
  }

  /** An entry is the bid its bidder reported under the same event, as far as it opens. */
  ghost predicate ReportedAs(codec: Codec, e: Entry, reports: map<string, Placed>) {
    && e.event in reports && reports[e.event].side == GroupOf(e.side)
    && forall b :: ReadEntry(codec, e, []) == Good(b) ==> b == reports[e.event].bid
  }

  /** Every bid of the slot was reported, one line per event. */
  ghost predicate Reported(codec: Codec, book: Book, slot: int, reports: map<string, Placed>) {
    forall i :: 0 <= i < |book| && book[i].slot == slot ==> ReportedAs(codec, book[i], reports)
  }

  lemma ReportOut(side: string, reports: map<string, Placed>, event: string)
    requires event in reports
    ensures ReportedOn(side, Outcomes(reports)) ==
            ReportedOn(side, Outcomes(reports - {event})) +
            (if side == "buy" then BuyOf(reports[event]) else SellOf(reports[event]))
  {
    var p, rest := reports[event], Outcomes(reports - {event});
    OutcomesRemove(reports, event);
    assert Outcomes(reports) - multiset{p} == rest;
    GatherRemove(Outcomes(reports), BuyOf, p);
    GatherRemove(Outcomes(reports), SellOf, p);
  }

  lemma BookBidsNext(codec: Codec, book: Book, slot: int, side: string)
    requires book != []
    ensures var e, rest := book[|book| - 1], BookBids(codec, book[..|book| - 1], slot, side);
            var d := ReadEntry(codec, e, []);
            BookBids(codec, book, slot, side) ==
              if Belongs(e, slot, side) && d.Good? then rest + multiset{d.bid} else rest
  {
    var e, log := book[|book| - 1], BookLog(codec, book[..|book| - 1], slot, side, []);
    assert (log + [ReadEntry(codec, e, [])])[..|log|] == log;
    assert GoodBids(log) + [] == GoodBids(log);
  }

  /** The other bids were reported under other events. */
  lemma ReportedBefore(codec: Codec, book: Book, slot: int, reports: map<string, Placed>)
    requires book != [] && Sound(Exp1, book) && Reported(codec, book, slot, reports)
    ensures var before := book[..|book| - 1];
            Reported(codec, before, slot, reports) && Reported(codec, before, slot, reports - {book[|book| - 1].event})
  {
    var n := |book| - 1;
    forall i | 0 <= i < n && book[..n][i].slot == slot
      ensures ReportedAs(codec, book[..n][i], reports) && ReportedAs(codec, book[..n][i], reports - {book[n].event})
    {
      assert ReportedAs(codec, book[i], reports);
      SoundIds(Exp1, book, i, n);
    }
  }

  lemma OneMoreReported(codec: Codec, e: Entry, side: string, reports: map<string, Placed>, bids: multiset<Bid>)
    requires ReportedAs(codec, e, reports) && e.side == side && Side(side)
    requires bids <= ReportedOn(side, Outcomes(reports - {e.event}))
    ensures bids <= ReportedOn(side, Outcomes(reports))
    ensures var d := ReadEntry(codec, e, []);
            d.Good? ==> bids + multiset{d.bid} <= ReportedOn(side, Outcomes(reports))
  {
    ReportOut(side, reports, e.event);
  }

  /** The bids a book holds for a slot and side are among those reported, if no event placed two. */
  lemma {:induction false} WithinReports(codec: Codec, book: Book, slot: int, side: string,
                                         reports: map<string, Placed>)
    requires Sound(Exp1, book) && Side(side) && Reported(codec, book, slot, reports)
    ensures BookBids(codec, book, slot, side) <= ReportedOn(side, Outcomes(reports))
  {
    if book != [] {
      var before, e := book[..|book| - 1], book[|book| - 1];
      BookBidsNext(codec, book, slot, side);
      ReportedBefore(codec, book, slot, reports);
      if Belongs(e, slot, side) {
        assert ReportedAs(codec, e, reports);
        WithinReports(codec, before, slot, side, reports - {e.event});
        OneMoreReported(codec, e, side, reports, BookBids(codec, before, slot, side));
      } else {
        WithinReports(codec, before, slot, side, reports);
      }
    }
  }

  /** Energy accounting from the ledger on, in experiments 1 and 3: when every bid of the slot was
      reported and none committed under an event twice, the balance of the slot after its mark line is
      what was drawn and generated less what was traded, and never negative. */
  lemma LedgerBalances(cfg: Config, ops: seq<BookOp>, s: Session, c: Call, st': State, r: Response,
                       reports: map<string, Placed>, placed: seq<Placed>)
    requires !cfg.exp.Exp2? && Lawful(cfg.codec) && Reached(cfg, ops, s)
    requires Sound(cfg.exp, s.book) && Sound(Exp1, s.book)
    requires MarkEndNext(cfg, s.st, c, st', r) && r.Settled? && Undisturbed(c, s.st.store)
    requires Reported(cfg.codec, s.book, c.slot, reports) && multiset(placed) == Outcomes(reports)
    requires PositiveBids(placed) && placed != []
    ensures var cell := Fold(LinesOf(c.slot, placed) + [MarkLine(c.slot, r.out.quantity, r.out.price)]);
            && cell.use == Volume(Buys(multiset(placed))) - r.out.quantity >= 0.0
            && cell.gen == Volume(Sells(multiset(placed))) - r.out.quantity >= 0.0
            && cell.traded == r.out.quantity
  {
    MarkEndTrades(cfg, s.st, c, st', r);
    CollectedReported(cfg, ops, s, c, "buy", reports);
    CollectedReported(cfg, ops, s, c, "sell", reports);
    if r.out.quantity == 0.0 {
      BiddersAddUp(c.slot, placed);
      MarkAdded(c.slot, placed, 0.0, r.out.price);
    } else {
      EnergyAccounting(c.slot, placed, BookBids(cfg.codec, s.book, c.slot, "buy"),
                       BookBids(cfg.codec, s.book, c.slot, "sell"), Bid(r.out.price, r.out.quantity));
    }
  }

  lemma CollectedReported(cfg: Config, ops: seq<BookOp>, s: Session, c: Call, side: string,
                          reports: map<string, Placed>)
    requires !cfg.exp.Exp2? && Lawful(cfg.codec) && Reached(cfg, ops, s)
    requires Sound(cfg.exp, s.book) && Sound(Exp1, s.book) && Undisturbed(c, s.st.store) && Side(side)
    requires Collect(cfg, s.st.store, c, side, PrivKey(0, 0)).Gathered?
    requires Reported(cfg.codec, s.book, c.slot, reports)
    ensures var bids := BookBids(cfg.codec, s.book, c.slot, side);
            && Yield(Collect(cfg, s.st.store, c, side, PrivKey(0, 0))) == bids
            && bids <= ReportedOn(side, Outcomes(reports))
  {
    if cfg.exp.Exp1? {
      SharedRun(cfg, ops, s);
      SharedReads(cfg, s, c, side);
    } else {
      SlicedRun(cfg, ops, s);
      SlicedReads(cfg, s, c, side, PrivKey(0, 0));
    }
    WithinReports(cfg.codec, s.book, c.slot, side, reports);
  }

  // ----- a bid committed twice in experiment 3 -----

  ghost function BidsIf(c: bool, b: Bid): multiset<Bid> {
    if c then multiset{b} else multiset{}
  }

  lemma BookBidsAdd(codec: Codec, book: Book, e: Entry, slot: int, side: string, b: Bid)
    requires ReadEntry(codec, e, []) == Good(b)
    ensures BookBids(codec, book + [e], slot, side) ==
            BookBids(codec, book, slot, side) + BidsIf(Belongs(e, slot, side), b)
  {
    assert (book + [e])[..|book|] == book;
    BookBidsNext(codec, book + [e], slot, side);
  }

  lemma OneEntry(codec: Codec, e: Entry, slot: int, side: string, b: Bid)
    requires ReadEntry(codec, e, []) == Good(b)
    ensures BookBids(codec, [e], slot, side) == BidsIf(Belongs(e, slot, side), b)
  {
    assert [] + [e] == [e];
    BookBidsAdd(codec, [], e, slot, side, b);
  }

  lemma ThreeEntries(codec: Codec, e1: Entry, e2: Entry, e3: Entry, slot: int, side: string, b1: Bid, b2: Bid, b3: Bid)
    requires ReadEntry(codec, e1, []) == Good(b1) && ReadEntry(codec, e2, []) == Good(b2)
    requires ReadEntry(codec, e3, []) == Good(b3)
    ensures BookBids(codec, [e1] + [e2] + [e3], slot, side) ==
            BidsIf(Belongs(e1, slot, side), b1) + BidsIf(Belongs(e2, slot, side), b2) +
            BidsIf(Belongs(e3, slot, side), b3)
  {
    OneEntry(codec, e1, slot, side, b1);
    BookBidsAdd(codec, [e1], e2, slot, side, b2);
    BookBidsAdd(codec, [e1] + [e2], e3, slot, side, b3);
  }

  /** A unit bought under event "e", committed under two transactions, and two units sold. */
  function TwiceBought(pem: Bytes, bought: Bytes, sold: Bytes): Book {
    [Entry(0, "buy", "e", "a", bought, Some(pem))] + [Entry(0, "buy", "e", "b", bought, Some(pem))]
    + [Entry(0, "sell", "f", "c", sold, Some(pem))]
  }

  lemma SoundAdd(exp: Exp, book: Book, e: Entry)
    requires Sound(exp, book) && Side(e.side) && e.tx != PRIVKEY
    requires forall i :: 0 <= i < |book| ==> IdOf(exp, book[i]) != IdOf(exp, e)
    ensures Sound(exp, book + [e])
  {
    assert (book + [e])[..|book|] == book;
  }

  /** It is a book of experiment 3, but not one in which each event placed one bid. */
  lemma TwiceBoughtSound(pem: Bytes, bought: Bytes, sold: Bytes)
    ensures Sound(Exp3, TwiceBought(pem, bought, sold)) && !Sound(Exp1, TwiceBought(pem, bought, sold))
  {
    var e1, e2 := Entry(0, "buy", "e", "a", bought, Some(pem)), Entry(0, "buy", "e", "b", bought, Some(pem));
    var e3 := Entry(0, "sell", "f", "c", sold, Some(pem));
    assert "a"[0] != "b"[0] && "a"[0] != "c"[0] && "b"[0] != "c"[0] && |PRIVKEY| == 7;
    assert [] + [e1] == [e1];
    SoundAdd(Exp3, [], e1);
    SoundAdd(Exp3, [e1], e2);
    SoundAdd(Exp3, [e1] + [e2], e3);
    if Sound(Exp1, TwiceBought(pem, bought, sold)) { SoundIds(Exp1, TwiceBought(pem, bought, sold), 0, 1); }
  }

  /** Twice its units are then cleared against the seller's, though it was reported once: the balance of
      the slot is negative. */
  lemma TwiceBoughtOverdraws(codec: Codec, pem: Bytes, bought: Bytes, sold: Bytes, b: Bid, s: Bid,
                             buy: Placed, sell: Placed)
    requires Open(codec, pem, bought) == Good(b) && Open(codec, pem, sold) == Good(s)
    requires b.units > 0.0 && s == Bid(b.price, b.units + b.units)
    requires buy.side.Buyers? && buy.bid == b && sell.side.Sellers? && sell.bid == s
    ensures var book := TwiceBought(pem, bought, sold);
            Settles(BookBids(codec, book, 0, "buy"), BookBids(codec, book, 0, "sell"), Cleared(s))
    ensures Fold(LinesOf(0, [buy] + [sell]) + [MarkLine(0, s.units, s.price)]).use < 0.0
  {
    var e1, e2 := Entry(0, "buy", "e", "a", bought, Some(pem)), Entry(0, "buy", "e", "b", bought, Some(pem));
    var e3 := Entry(0, "sell", "f", "c", sold, Some(pem));
    ThreeEntries(codec, e1, e2, e3, 0, "buy", b, b, s);
    ThreeEntries(codec, e1, e2, e3, 0, "sell", b, b, s);
    assert BidsIf(true, b) + BidsIf(true, b) + BidsIf(false, s) == multiset{b, b};
    assert BidsIf(false, b) + BidsIf(false, b) + BidsIf(true, s) == multiset{s};
    PairCleared(b, s);
    OverdrawnCell(buy, sell);
  }

  lemma PairCleared(b: Bid, s: Bid)
    requires b.units > 0.0 && s == Bid(b.price, b.units + b.units)
    ensures Settles(multiset{b, b}, multiset{s}, Cleared(s))
  {
    TwoBidStack(b, b, s);
    OneBidStack(s);
    SinglePoint([b, s], s, s);
    assert Match(s, s) == s;
  }

  lemma OverdrawnCell(buy: Placed, sell: Placed)
    requires buy.side.Buyers? && sell.side.Sellers? && 0.0 < buy.bid.units < sell.bid.units
    ensures Fold(LinesOf(0, [buy] + [sell]) + [MarkLine(0, sell.bid.units, sell.bid.price)]).use < 0.0
  {
    MarkAdded(0, [buy] + [sell], sell.bid.units, sell.bid.price);
    assert [] + [buy] == [buy] && Buys(multiset([])) == multiset{};
    PlacedNext([], buy);
    PlacedNext([buy], sell);
    VolumeNext(multiset{}, buy);
    VolumeNext(multiset{} + BuyOf(buy), sell);
  }
}
