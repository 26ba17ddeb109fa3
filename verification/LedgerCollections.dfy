/** What a bid collection accounts for, what it depends on, and why peers agree on the settlement. */
module LedgerCollections {
  import opened AuctionCurves
  import opened AuctionSettle
  import opened LedgerKeys
  import opened LedgerModel
  import opened Multisets
  import opened Options

  predicate Quiet(c: Counter) {
    !(c.LateTXs? || c.LateBuys? || c.LateSells? || c.LateDecrypts?)
  }

  lemma {:induction false} LogQuiet(log: seq<Decoded>)
    requires forall d :: d in log ==> Counted(d)
    ensures forall b :: b in LogBumps(log) ==> Quiet(b)
    ensures |GoodBids(log)| + multiset(LogBumps(log))[Decrypt] == |log|
  {
    if log != [] {
      var d := log[|log| - 1];
      assert d in log;
      LogQuiet(log[..|log| - 1]);
      DecryptsOf(LogBumps(log[..|log| - 1]), d);
    }
  }

  lemma DecryptsOf(bumps: seq<Counter>, d: Decoded)
    requires Counted(d)
    ensures d.Bad? ==> multiset(bumps + d.bumps)[Decrypt] == multiset(bumps)[Decrypt] + 1
    ensures multiset(bumps + [])[Decrypt] == multiset(bumps)[Decrypt]
  {
  }

  lemma CollectedCounted(cfg: Config, store: map<Key, Bytes>, c: Call, side: string, key: PrivKey, d: Decoded)
    requires var col := Collect(cfg, store, c, side, key);
             (col.Broken? && d in col.some) || (col.Gathered? && d in col.all)
    ensures Counted(d)
  {
    match cfg.exp
    case Exp1 => CollectedCounted1(cfg, store, c, side, d);
    case Exp2 => OutcomesMember(Entries2(cfg, store, c, side, key), d);
    case Exp3 => OutcomesMember(Entries3(cfg, store, c, side), d);
  }

  lemma CollectedCounted1(cfg: Config, store: map<Key, Bytes>, c: Call, side: string, d: Decoded)
    requires var col := Collect1(cfg, store, c, side); col.Gathered? && d in col.all
    ensures Counted(d)
  {
    var k := SlotKey(c.slot, side);
    var bids := cfg.codec.decodeTable(store[k]).value;
    var keys := cfg.codec.decodeTable(store[PrivKeyOf(k)]).value;
    OutcomesMember(Entries1(cfg.codec, bids, keys), d);
  }

  /** Collecting bids never touches a late counter, and accounts for every bid it looked at. */
  lemma CollectionQuiet(cfg: Config, store: map<Key, Bytes>, c: Call, side: string, key: PrivKey, log: seq<Decoded>)
    requires Logs(Collect(cfg, store, c, side, key), log)
    ensures forall b :: b in CollectionBumps(Collect(cfg, store, c, side, key), log) ==> Quiet(b)
    ensures |GoodBids(log)| + multiset(LogBumps(log))[Decrypt] == |log|
  {
    forall d | d in log ensures Counted(d) {
      assert d in multiset(log);
      CollectedCounted(cfg, store, c, side, key, d);
    }
    LogQuiet(log);
  }

  // ----- what a collection accounts for -----

  /** Bids stored for exactly this slot and side. */
  function StoredBids(cfg: Config, store: map<Key, Bytes>, slot: int, side: string): nat {
    match cfg.exp
    case Exp1 =>
      var k := SlotKey(slot, side);
      if k in store && cfg.codec.decodeTable(store[k]).Some? then |cfg.codec.decodeTable(store[k]).value| else 0
    case Exp2 => |Visited(store, slot, side)|
    case Exp3 => |set k | k in Visited(store, slot, side) && !HoldsPrivKey(k)|
  }

  lemma SharedSize(cfg: Config, store: map<Key, Bytes>, c: Call, side: string)
    requires cfg.exp.Exp1? && Collect1(cfg, store, c, side).Gathered?
    ensures |Collect1(cfg, store, c, side).all| == StoredBids(cfg, store, c.slot, side)
  {
    var k := SlotKey(c.slot, side);
    if k in store {
      var bids := cfg.codec.decodeTable(store[k]).value;
      var keys := cfg.codec.decodeTable(store[PrivKeyOf(k)]).value;
      OutcomesSize(Entries1(cfg.codec, bids, keys));
      assert Entries1(cfg.codec, bids, keys).Keys == bids.Keys;
    }
  }

  lemma CollectedSize(cfg: Config, store: map<Key, Bytes>, c: Call, side: string, key: PrivKey)
    requires Collect(cfg, store, c, side, key).Gathered?
    ensures |Collect(cfg, store, c, side, key).all| == StoredBids(cfg, store, c.slot, side)
  {
    match cfg.exp
    case Exp1 =>
      SharedSize(cfg, store, c, side);
    case Exp2 =>
      OutcomesSize(Entries2(cfg, store, c, side, key));
      assert Entries2(cfg, store, c, side, key).Keys == Visited(store, c.slot, side);
    case Exp3 =>
      OutcomesSize(Entries3(cfg, store, c, side));
      assert Entries3(cfg, store, c, side).Keys == set k | k in Visited(store, c.slot, side) && !HoldsPrivKey(k);
  }

  /** No bid is silently lost: a collection that does not fail returns each stored bid or counts it as
      a problematic decryption, one by one. */
  lemma NoBidLost(cfg: Config, store: map<Key, Bytes>, c: Call, side: string, key: PrivKey, log: seq<Decoded>)
    requires Collect(cfg, store, c, side, key).Gathered? && Logs(Collect(cfg, store, c, side, key), log)
    ensures |GoodBids(log)| + multiset(CollectionBumps(Collect(cfg, store, c, side, key), log))[Decrypt]
            == StoredBids(cfg, store, c.slot, side)
  {
    CollectionQuiet(cfg, store, c, side, key, log);
    CollectedSize(cfg, store, c, side, key);
    assert |log| == |multiset(log)|;
  }

  ghost predicate SameBook(store: map<Key, Bytes>, store': map<Key, Bytes>, slot: int, side: string) {
    forall k :: SlotKey(slot, side) <= k ==>
      (k in store <==> k in store') && (k in store ==> store[k] == store'[k])
  }

  lemma VisitedIsolated(store: map<Key, Bytes>, store': map<Key, Bytes>, slot: int, side: string)
    requires SameBook(store, store', slot, side)
    ensures Visited(store, slot, side) == Visited(store', slot, side)
  {
  }

  lemma EntriesIsolated(cfg: Config, store: map<Key, Bytes>, store': map<Key, Bytes>,
                        c: Call, side: string, key: PrivKey)
    requires SameBook(store, store', c.slot, side)
    ensures Entries2(cfg, store, c, side, key) == Entries2(cfg, store', c, side, key)
    ensures Entries3(cfg, store, c, side) == Entries3(cfg, store', c, side)
  {
    VisitedIsolated(store, store', c.slot, side);
    forall k | k in Visited(store, c.slot, side)
      ensures Decode3(cfg.codec, store, c, k, store[k]) == Decode3(cfg.codec, store', c, k, store'[k])
    {
      assert SlotKey(c.slot, side) <= PrivKeyOf(k);
    }
  }

  lemma SharedIsolated(cfg: Config, store: map<Key, Bytes>, store': map<Key, Bytes>, c: Call, side: string)
    requires SameBook(store, store', c.slot, side)
    ensures Collect1(cfg, store, c, side) == Collect1(cfg, store', c, side)
  {
  }

  /** Isolation: a collection depends on nothing but the entries filed under its slot and side. */
  lemma CollectionIsolated(cfg: Config, store: map<Key, Bytes>, store': map<Key, Bytes>,
                           c: Call, side: string, key: PrivKey)
    requires SameBook(store, store', c.slot, side)
    ensures Collect(cfg, store, c, side, key) == Collect(cfg, store', c, side, key)
  {
    SharedIsolated(cfg, store, store', c, side);
    VisitedIsolated(store, store', c.slot, side);
    EntriesIsolated(cfg, store, store', c, side, key);
  }

  // ----- peers agree -----

  function BidOf(d: Decoded): multiset<Bid> {
    match d case Good(b) => multiset{b} case Bad(_) => multiset{}
  }

  lemma {:induction false} GoodGather(log: seq<Decoded>)
    ensures multiset(GoodBids(log)) == Gather(multiset(log), BidOf)
  {
    if log != [] {
      var before, d := log[..|log| - 1], log[|log| - 1];
      assert log == before + [d];
      GoodGather(before);
      GatherExtend(before, BidOf, d);
      if d.Good? { MultisetExtend(GoodBids(before), d.bid); }
    }
  }

  ghost predicate NonNegativeBids(cfg: Config, st: State, c: Call) {
    KeyPair(cfg, c).Success? ==>
      var key := KeyPair(cfg, c).value.1;
      && BidsNonNegative(Collect(cfg, st.store, c, "buy", key))
      && BidsNonNegative(Collect(cfg, st.store, c, "sell", key))
  }

  ghost predicate BidsNonNegative(col: Collection) {
    col.Gathered? ==> NonNegative(Gather(col.all, BidOf))
  }

  /** No collected bid with negative units shares its price with another bid of its side. */
  ghost predicate TiedBidsNonNegative(cfg: Config, st: State, c: Call) {
    KeyPair(cfg, c).Success? ==>
      var key := KeyPair(cfg, c).value.1;
      && BidsTieNonNegative(Collect(cfg, st.store, c, "buy", key))
      && BidsTieNonNegative(Collect(cfg, st.store, c, "sell", key))
  }

  ghost predicate BidsTieNonNegative(col: Collection) {
    col.Gathered? ==> TiesNonNegative(Gather(col.all, BidOf))
  }

  ghost predicate SameBids(col: Collection, col': Collection) {
    && col.Gathered? && col'.Gathered?
    && Gather(col.all, BidOf) == Gather(col'.all, BidOf) && TiesNonNegative(Gather(col.all, BidOf))
  }

  lemma SameGood(col: Collection, log: seq<Decoded>, col': Collection, log': seq<Decoded>)
    requires SameBids(col, col') && Logs(col, log) && Logs(col', log')
    ensures multiset(GoodBids(log)) == multiset(GoodBids(log')) && TiesNonNegative(multiset(GoodBids(log)))
    ensures |GoodBids(log)| == |GoodBids(log')|
  {
    GoodGather(log);
    GoodGather(log');
    assert |GoodBids(log)| == |multiset(GoodBids(log))| && |GoodBids(log')| == |multiset(GoodBids(log'))|;
  }

  /** Collections of the same bids settle to the same output. */
  lemma SameSettlement(buys: Collection, sells: Collection, b: seq<Decoded>, s: seq<Decoded>, o: Outcome,
                       buys': Collection, sells': Collection, b': seq<Decoded>, s': seq<Decoded>, o': Outcome,
                       k: Key, pem: Bytes, slot: int)
    requires SameBids(buys, buys') && SameBids(sells, sells')
    requires Logs(buys, b) && Logs(sells, s) && Logs(buys', b') && Logs(sells', s')
    requires |GoodBids(s)| > 0 && |GoodBids(b)| > 0 ==> Settles(multiset(GoodBids(b)), multiset(GoodBids(s)), o)
    requires |GoodBids(s')| > 0 && |GoodBids(b')| > 0 ==> Settles(multiset(GoodBids(b')), multiset(GoodBids(s')), o')
    ensures Output(k, pem, slot, GoodBids(b), GoodBids(s), o) == Output(k, pem, slot, GoodBids(b'), GoodBids(s'), o')
  {
    SameGood(buys, b, buys', b');
    SameGood(sells, s, sells', s');
    if |GoodBids(s)| > 0 && |GoodBids(b)| > 0 {
      SettleDeterministic(multiset(GoodBids(b)), multiset(GoodBids(s)), o, o');
    }
  }

  /** The store and answer of `markEnd` once its output is fixed. */
  function Published(cfg: Config, st: State, c: Call, out: MarkEndOutput): (map<Key, Bytes>, Response) {
    var k := MarkKey(cfg.agreed, c.slot, c.tx);
    if k in c.faults.put then (st.store, Rejected(StoreError))
    else (st.store[k := cfg.codec.encodeMarkEnd(out)], Settled(out))
  }

  lemma MarkEndPublishes(cfg: Config, st: State, c: Call, buyLog: seq<Decoded>, sellLog: seq<Decoded>, o: Outcome,
                         pem: Bytes, key: PrivKey)
    requires KeyPair(cfg, c) == Success((pem, key))
    ensures var (st', r) := MarkEndStep(cfg, st, c, buyLog, sellLog, o);
            var buys, sells := Collect(cfg, st.store, c, "buy", key), Collect(cfg, st.store, c, "sell", key);
            (st'.store, r) ==
              if buys.Gathered? && sells.Gathered?
              then Published(cfg, st, c, Output(MarkKey(cfg.agreed, c.slot, c.tx), pem, c.slot,
                                                GoodBids(buyLog), GoodBids(sellLog), o))
              else (st.store, Rejected(NoCollection))
  {
  }

  /** A finished `markEnd` call, as what it published. */
  lemma MarkEndResult(cfg: Config, st: State, c: Call, st': State, r: Response, pem: Bytes, key: PrivKey)
    returns (buyLog: seq<Decoded>, sellLog: seq<Decoded>, o: Outcome)
    requires MarkEndNext(cfg, st, c, st', r) && KeyPair(cfg, c) == Success((pem, key))
    ensures Witnessed(cfg, st, c, buyLog, sellLog, o)
    ensures var buys, sells := Collect(cfg, st.store, c, "buy", key), Collect(cfg, st.store, c, "sell", key);
            (st'.store, r) ==
              if buys.Gathered? && sells.Gathered?
              then Published(cfg, st, c, Output(MarkKey(cfg.agreed, c.slot, c.tx), pem, c.slot,
                                                GoodBids(buyLog), GoodBids(sellLog), o))
              else (st.store, Rejected(NoCollection))
  {
    buyLog, sellLog, o :|
      Witnessed(cfg, st, c, buyLog, sellLog, o) && (st', r) == MarkEndStep(cfg, st, c, buyLog, sellLog, o);
    MarkEndPublishes(cfg, st, c, buyLog, sellLog, o, pem, key);
  }

  lemma MarkEndRefused(cfg: Config, st: State, c: Call, st': State, r: Response)
    requires MarkEndNext(cfg, st, c, st', r) && KeyPair(cfg, c).Failure?
    ensures st'.store == st.store && r == Rejected(KeyPair(cfg, c).error.1)
  {
  }

  /** Whatever order two peers' maps and iterators yield the bids in, and however their sorts break
      ties, they store the same settlement and answer alike, as long as no bid with negative units shares
      its price with another. */
  lemma PeersAgree(cfg: Config, st: State, c: Call, st1: State, r1: Response, st2: State, r2: Response)
    requires MarkEndNext(cfg, st, c, st1, r1) && MarkEndNext(cfg, st, c, st2, r2)
    requires TiedBidsNonNegative(cfg, st, c)
    ensures st1.store == st2.store && r1 == r2
  {
    if KeyPair(cfg, c).Success? {
      var (pem, key) := KeyPair(cfg, c).value;
      var b1, s1, o1 := MarkEndResult(cfg, st, c, st1, r1, pem, key);
      var b2, s2, o2 := MarkEndResult(cfg, st, c, st2, r2, pem, key);
      SameWitnessed(cfg, st, c, b1, s1, o1, b2, s2, o2, pem, key);
    } else {
      MarkEndRefused(cfg, st, c, st1, r1);
      MarkEndRefused(cfg, st, c, st2, r2);
    }
  }

  lemma SameWitnessed(cfg: Config, st: State, c: Call, b1: seq<Decoded>, s1: seq<Decoded>, o1: Outcome,
                      b2: seq<Decoded>, s2: seq<Decoded>, o2: Outcome, pem: Bytes, key: PrivKey)
    requires KeyPair(cfg, c) == Success((pem, key)) && TiedBidsNonNegative(cfg, st, c)
    requires Witnessed(cfg, st, c, b1, s1, o1) && Witnessed(cfg, st, c, b2, s2, o2)
    ensures var buys, sells := Collect(cfg, st.store, c, "buy", key), Collect(cfg, st.store, c, "sell", key);
            var k := MarkKey(cfg.agreed, c.slot, c.tx);
            buys.Gathered? && sells.Gathered? ==>
              Output(k, pem, c.slot, GoodBids(b1), GoodBids(s1), o1) ==
              Output(k, pem, c.slot, GoodBids(b2), GoodBids(s2), o2)
  {
    var buys, sells := Collect(cfg, st.store, c, "buy", key), Collect(cfg, st.store, c, "sell", key);
    if buys.Gathered? && sells.Gathered? {
      SameSettlement(buys, sells, b1, s1, o1, buys, sells, b2, s2, o2, MarkKey(cfg.agreed, c.slot, c.tx), pem, c.slot);
    }
  }

  /** The bids a successful collection yields. */
  ghost function Yield(col: Collection): multiset<Bid>
    requires col.Gathered?
  {
    Gather(col.all, BidOf)
  }

  /** The regulator's key, as text and as loaded. */
  ghost predicate RegulatorKey(cfg: Config, c: Call, pem: Bytes, key: PrivKey) {
    if cfg.exp.Exp2? then cfg.codec.decodeMarkEndInput(c.data) == Some(pem) && cfg.codec.loadKey(pem) == Some(key)
    else pem == []
  }

  lemma KeyPairLoads(cfg: Config, c: Call, pem: Bytes, key: PrivKey)
    requires KeyPair(cfg, c) == Success((pem, key))
    ensures RegulatorKey(cfg, c, pem, key)
  {
  }

  /** An answer carries the regulator's private key as it was sent. */
  lemma PublishedKey(cfg: Config, st: State, c: Call, st': State, r: Response, pem: Bytes, key: PrivKey)
    requires MarkEndNext(cfg, st, c, st', r) && r.Settled? && KeyPair(cfg, c) == Success((pem, key))
    ensures r.out.privKey == pem
  {
    var b, s, o := MarkEndResult(cfg, st, c, st', r, pem, key);
  }

  /** What an answered `markEnd` says is what the market does: the stored price clears the stored
      quantity among the bids collected for the slot and no price clears more, or no buyer meets any
      seller, or a side is empty. */
  lemma MarkEndClearsMarket(cfg: Config, st: State, c: Call, st': State, r: Response)
    requires MarkEndNext(cfg, st, c, st', r) && r.Settled? && NonNegativeBids(cfg, st, c)
    ensures KeyPair(cfg, c).Success?
    ensures var key := KeyPair(cfg, c).value.1;
            var buys, sells := Collect(cfg, st.store, c, "buy", key), Collect(cfg, st.store, c, "sell", key);
            var k := MarkKey(cfg.agreed, c.slot, c.tx);
            && buys.Gathered? && sells.Gathered? && r.out.slot == c.slot && r.out.writeKey == k
            && k in st'.store && st'.store[k] == cfg.codec.encodeMarkEnd(r.out)
            && Announces(r.out, Yield(buys), Yield(sells))
    ensures if cfg.exp.Exp2?
            then cfg.codec.decodeMarkEndInput(c.data) == Some(r.out.privKey)
                 && cfg.codec.loadKey(r.out.privKey) == Some(KeyPair(cfg, c).value.1)
            else r.out.privKey == []
  {
    if KeyPair(cfg, c).Failure? { MarkEndRefused(cfg, st, c, st', r); }
    var (pem, key) := KeyPair(cfg, c).value;
    PublishedKey(cfg, st, c, st', r, pem, key);
    KeyPairLoads(cfg, c, pem, key);
    var buys, sells := Collect(cfg, st.store, c, "buy", key), Collect(cfg, st.store, c, "sell", key);
    var b, s, o := MarkEndResult(cfg, st, c, st', r, pem, key);
    AnnouncedFrom(buys, sells, MarkKey(cfg.agreed, c.slot, c.tx), pem, c.slot, b, s, o);
  }

  lemma AnnouncedFrom(buys: Collection, sells: Collection, k: Key, pem: Bytes, slot: int,
                      b: seq<Decoded>, s: seq<Decoded>, o: Outcome)
    requires buys.Gathered? && sells.Gathered? && NonNegative(Yield(buys)) && NonNegative(Yield(sells))
    requires Logs(buys, b) && Logs(sells, s)
    requires |GoodBids(s)| > 0 && |GoodBids(b)| > 0 ==> Settles(multiset(GoodBids(b)), multiset(GoodBids(s)), o)
    ensures Announces(Output(k, pem, slot, GoodBids(b), GoodBids(s), o), Yield(buys), Yield(sells))
  {
    GoodGather(b);
    GoodGather(s);
    Announced(k, pem, slot, GoodBids(b), GoodBids(s), o);
  }

  /** The market was cleared among these bids, or nothing is reported as traded. */
  ghost predicate Trades(out: MarkEndOutput, buyers: multiset<Bid>, sellers: multiset<Bid>) {
    out.quantity == 0.0 || Settles(buyers, sellers, Cleared(Bid(out.price, out.quantity)))
  }

  lemma TradesFrom(buys: Collection, sells: Collection, k: Key, pem: Bytes, slot: int,
                   b: seq<Decoded>, s: seq<Decoded>, o: Outcome)
    requires buys.Gathered? && sells.Gathered? && Logs(buys, b) && Logs(sells, s)
    requires |GoodBids(s)| > 0 && |GoodBids(b)| > 0 ==> Settles(multiset(GoodBids(b)), multiset(GoodBids(s)), o)
    ensures Trades(Output(k, pem, slot, GoodBids(b), GoodBids(s), o), Yield(buys), Yield(sells))
  {
    GoodGather(b);
    GoodGather(s);
    assert o.Cleared? ==> o.best == Bid(o.best.price, o.best.units);
  }

  /** For any units: what an answered `markEnd` reports was traded among the bids it collected. */
  lemma MarkEndTrades(cfg: Config, st: State, c: Call, st': State, r: Response)
    requires MarkEndNext(cfg, st, c, st', r) && r.Settled?
    ensures KeyPair(cfg, c).Success?
    ensures var key := KeyPair(cfg, c).value.1;
            var buys, sells := Collect(cfg, st.store, c, "buy", key), Collect(cfg, st.store, c, "sell", key);
            buys.Gathered? && sells.Gathered? && Trades(r.out, Yield(buys), Yield(sells))
  {
    if KeyPair(cfg, c).Failure? { MarkEndRefused(cfg, st, c, st', r); }
    var (pem, key) := KeyPair(cfg, c).value;
    var buys, sells := Collect(cfg, st.store, c, "buy", key), Collect(cfg, st.store, c, "sell", key);
    var b, s, o := MarkEndResult(cfg, st, c, st', r, pem, key);
    TradesFrom(buys, sells, MarkKey(cfg.agreed, c.slot, c.tx), pem, c.slot, b, s, o);
  }

  ghost predicate Announces(out: MarkEndOutput, buyers: multiset<Bid>, sellers: multiset<Bid>) {
    match out.message
    case MarketCleared =>
      && out.quantity == VolumeAt(buyers, sellers, out.price)
      && forall p :: VolumeAt(buyers, sellers, p) <= out.quantity
    case NoClearingPrice =>
      && buyers != multiset{} && sellers != multiset{} && out.price == out.quantity == 0.0
      && forall b, s :: b in buyers && s in sellers ==> b.price < s.price
    case NoMarket => (buyers == multiset{} || sellers == multiset{}) && out.price == out.quantity == 0.0
  }

  lemma Announced(k: Key, pem: Bytes, slot: int, buys: seq<Bid>, sells: seq<Bid>, o: Outcome)
    requires NonNegative(multiset(buys)) && NonNegative(multiset(sells))
    requires |sells| > 0 && |buys| > 0 ==> Settles(multiset(buys), multiset(sells), o)
    ensures Announces(Output(k, pem, slot, buys, sells, o), multiset(buys), multiset(sells))
  {
    assert |multiset(buys)| == |buys| && |multiset(sells)| == |sells|;
    if |sells| > 0 && |buys| > 0 {
      match o
      case NoPrice => NoPriceExactly(multiset(buys), multiset(sells), o);
      case Cleared(best) => VolumeOptimal(multiset(buys), multiset(sells), best);
    }
  }
}
