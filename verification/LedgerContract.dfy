/** The smart contract as the peer runs it: handlers that read and write the store and bump the
    global counters.  Each handler takes the step its function in `LedgerModel` describes. */
module LedgerContract {
  import opened AuctionCurves
  import opened AuctionSettle
  import opened LedgerKeys
  import opened LedgerModel
  import opened Multisets
  import opened Options

  lemma LogExtend(log: seq<Decoded>, d: Decoded)
    ensures GoodBids(log + [d]) == GoodBids(log) + (if d.Good? then [d.bid] else [])
    ensures LogBumps(log + [d]) == LogBumps(log) + (if d.Good? then [] else d.bumps)
  {
  }

  // ----- the loops over stored bids -----

  /** Add one outcome to the collection, or to the counters to bump. */
  method Record(d: Decoded, resp: seq<Bid>, bumps: seq<Counter>, ghost log: seq<Decoded>)
    returns (resp': seq<Bid>, bumps': seq<Counter>, ghost log': seq<Decoded>)
    requires resp == GoodBids(log) && bumps == LogBumps(log)
    ensures log' == log + [d] && resp' == GoodBids(log') && bumps' == LogBumps(log')
  {
    LogExtend(log, d);
    resp', bumps', log' := resp, bumps, log + [d];
    match d
    case Good(bid) => resp' := resp + [bid];
    case Bad(more) => bumps' := bumps + more;
  }

  method DecodeTable(codec: Codec, bids: Table, keys: Table)
    returns (resp: seq<Bid>, bumps: seq<Counter>, ghost log: seq<Decoded>)
    ensures multiset(log) == Outcomes(Entries1(codec, bids, keys))
    ensures resp == GoodBids(log) && bumps == LogBumps(log)
  {
    resp, bumps, log := [], [], [];
    var order := Enumerate(bids.Keys);
    ghost var entries := Entries1(codec, bids, keys);
    for i := 0 to |order|
      invariant LooksUp(entries, order[..i], log)
      invariant resp == GoodBids(log) && bumps == LogBumps(log)
    {
      var e := order[i];
      assert e in order;
      LooksUpNext(entries, order[..i], log, e);
      assert order[..i + 1] == order[..i] + [e];
      resp, bumps, log := Record(Decode1(codec, keys, e, bids[e]), resp, bumps, log);
    }
    assert order[..|order|] == order;
    ListedAll(entries, order, log);
  }

  /** `ok` is false when the iterator broke off; its failure is then the last thing counted. */
  method Iterate2(cfg: Config, store: map<Key, Bytes>, c: Call, side: string, key: PrivKey)
    returns (ok: bool, resp: seq<Bid>, bumps: seq<Counter>, ghost log: seq<Decoded>)
    ensures ok <==> |Visited(store, c.slot, side)| <= c.faults.next
    ensures var all := Outcomes(Entries2(cfg, store, c, side, key));
            if ok then multiset(log) == all else multiset(log) <= all
    ensures resp == GoodBids(log) && bumps == LogBumps(log) + (if ok then [] else [Iter])
  {
    resp, bumps, log := [], [], [];
    var order := Enumerate(Visited(store, c.slot, side));
    ghost var entries := Entries2(cfg, store, c, side, key);
    for i := 0 to |order|
      invariant i <= c.faults.next
      invariant LooksUp(entries, order[..i], log)
      invariant resp == GoodBids(log) && bumps == LogBumps(log)
    {
      if i == c.faults.next {
        NoRepeatsPrefix(order, i);
        Listed(entries, order[..i], log);
        return false, resp, bumps + [Iter], log;
      }
      var k := order[i];
      assert k in order;
      LooksUpNext(entries, order[..i], log, k);
      assert order[..i + 1] == order[..i] + [k];
      resp, bumps, log := Record(Unseal(cfg.codec, key, store[k]), resp, bumps, log);
    }
    assert order[..|order|] == order;
    ListedAll(entries, order, log);
    ok := true;
  }

  /** The entries among `order` that do not hold a private key. */
  ghost function BidsAmong(order: seq<Key>): seq<Key> {
    if order == [] then []
    else
      var rest, k := BidsAmong(order[..|order| - 1]), order[|order| - 1];
      if HoldsPrivKey(k) then rest else rest + [k]
  }

  lemma {:induction false} BidsAmongOrder(order: seq<Key>)
    requires NoRepeats(order)
    ensures NoRepeats(BidsAmong(order))
    ensures forall k :: k in BidsAmong(order) <==> k in order && !HoldsPrivKey(k)
  {
    if order != [] {
      var rest, k := BidsAmong(order[..|order| - 1]), order[|order| - 1];
      BidsAmongOrder(order[..|order| - 1]);
      assert k !in rest && (rest + [k])[..|rest|] == rest;
      assert order == order[..|order| - 1] + [k];
    }
  }

  method Iterate3(cfg: Config, store: map<Key, Bytes>, c: Call, side: string)
    returns (ok: bool, resp: seq<Bid>, bumps: seq<Counter>, ghost log: seq<Decoded>)
    ensures ok <==> |Visited(store, c.slot, side)| <= c.faults.next
    ensures var all := Outcomes(Entries3(cfg, store, c, side));
            if ok then multiset(log) == all else multiset(log) <= all
    ensures resp == GoodBids(log) && bumps == LogBumps(log) + (if ok then [] else [Iter])
  {
    resp, bumps, log := [], [], [];
    var order := Enumerate(Visited(store, c.slot, side));
    ghost var entries := Entries3(cfg, store, c, side);
    for i := 0 to |order|
      invariant i <= c.faults.next
      invariant LooksUp(entries, BidsAmong(order[..i]), log)
      invariant resp == GoodBids(log) && bumps == LogBumps(log)
    {
      if i == c.faults.next {
        NoRepeatsPrefix(order, i);
        BidsAmongOrder(order[..i]);
        Listed(entries, BidsAmong(order[..i]), log);
        return false, resp, bumps + [Iter], log;
      }
      var k := order[i];
      assert k in order;
      assert order[..i + 1][..i] == order[..i];
      // An entry that holds a private key is not a bid.
      if HoldsPrivKey(k) { continue; }
      LooksUpNext(entries, BidsAmong(order[..i]), log, k);
      resp, bumps, log := Record(Decode3(cfg.codec, store, c, k, store[k]), resp, bumps, log);
    }
    assert order[..|order|] == order;
    BidsAmongOrder(order);
    ListedAll(entries, BidsAmong(order), log);
    ok := true;
  }

  class Contract {
    const cfg: Config
    var store: map<Key, Bytes>
    var metrics: Metrics

    constructor (cfg: Config)
      ensures View() == GENESIS && this.cfg == cfg
    {
      this.cfg, store, metrics := cfg, map[], map[];
    }

    function View(): State
      reads this
    {
      State(store, metrics)
    }

    // ----- wrappers -----

    method Get(c: Call, k: Key) returns (r: Read)
      modifies this`metrics
      ensures r == Fetch(old(store), c, k)
      ensures metrics == if r.Refused? then BumpAll(old(metrics), c.slot, [GetState]) else old(metrics)
    {
      if k in c.faults.get {
        BumpOne(metrics, c.slot, [], GetState);
        metrics := Bump(metrics, c.slot, GetState);
        return Refused;
      }
      if k in store { return Found(store[k]); }
      return Absent;
    }

    method Put(c: Call, k: Key, val: Bytes, onSuccess: Response) returns (r: Response)
      modifies this
      ensures (View(), r) == Persist(old(View()), c, k, val, onSuccess)
    {
      if k in c.faults.put {
        BumpOne(metrics, c.slot, [], PutState);
        metrics := Bump(metrics, c.slot, PutState);
        return Rejected(StoreError);
      }
      store := store[k := val];
      return onSuccess;
    }

    /** Bump the counters one outcome names. */
    method Note(c: Call, bumps: seq<Counter>)
      modifies this`metrics
      ensures metrics == BumpAll(old(metrics), c.slot, bumps)
    {
      for i := 0 to |bumps|
        invariant metrics == BumpAll(old(metrics), c.slot, bumps[..i])
      {
        BumpOne(old(metrics), c.slot, bumps[..i], bumps[i]);
        assert bumps[..i + 1] == bumps[..i] + [bumps[i]];
        metrics := Bump(metrics, c.slot, bumps[i]);
      }
      assert bumps[..|bumps|] == bumps;
    }

    // ----- bid, postKey -----

    method UpsertEntry(c: Call, k: Key, entry: string, val: Bytes) returns (r: Response)
      modifies this
      ensures (View(), r) == Upsert(cfg, old(View()), c, k, entry, val)
    {
      var read := Get(c, k);
      match read
      case Refused => return Rejected(StoreError);
      case Absent =>
        r := Put(c, k, cfg.codec.encodeTable(map[entry := val]), Accepted(k));
      case Found(b) =>
        match cfg.codec.decodeTable(b)
        case None =>
          Note(c, [Marshal]);
          return Rejected(BadData);
        case Some(t) =>
          r := Put(c, k, cfg.codec.encodeTable(t[entry := val]), Accepted(k));
    }

    method PostBid(c: Call) returns (r: Response)
      modifies this
      ensures (View(), r) == BidStep(cfg, old(View()), c)
    {
      var guard := Get(c, GuardKey(c.slot));
      if guard.Refused? { return Rejected(StoreError); }
      if guard.Found? {
        Note(c, LateBid(c.action));
        return Rejected(Late);
      }
      match cfg.exp
      case Exp1 =>
        r := UpsertEntry(c, SlotKey(c.slot, c.action), c.event, c.data);
      case _ =>
        var k := TxKey(c.slot, c.action, c.tx);
        r := Put(c, k, c.data, Accepted(k));
    }

    method PostKey(c: Call) returns (r: Response)
      modifies this
      ensures (View(), r) == PostKeyStep(cfg, old(View()), c)
    {
      var guard := Get(c, GuardKey(c.slot));
      if guard.Refused? { return Rejected(StoreError); }
      if guard.Found? {
        Note(c, [LateTXs, LateDecrypts]);
        return Rejected(Late);
      }
      match cfg.codec.decodePostKeyInput(c.data)
      case None => return Rejected(BadData);
      case Some(input) =>
        var k := PrivKeyOf(input.readKey);
        match cfg.exp
        case Exp1 => r := UpsertEntry(c, k, input.bidEvent, c.data);
        case Exp2 => return Accepted(k);
        case Exp3 =>
          r := Put(c, k, cfg.codec.encodePostKeyOutput(PostKeyOutput(k, input.privKey)), Accepted(k));
    }

    // ----- collections -----

    method NewBidCollection1(c: Call, side: string) returns (bids: Option<seq<Bid>>, ghost log: seq<Decoded>)
      modifies this`metrics
      ensures var col := Collect1(cfg, store, c, side);
              && Logs(col, log) && (bids == if col.Gathered? then Some(GoodBids(log)) else None)
              && metrics == BumpAll(old(metrics), c.slot, CollectionBumps(col, log))
    {
      var k := SlotKey(c.slot, side);
      var read := Get(c, k);
      if read.Refused? { return None, []; }
      if read.Absent? { return Some([]), []; }
      var table := cfg.codec.decodeTable(read.val);
      if table.None? {
        Note(c, [Marshal]);
        return None, [];
      }
      var keyRead := Get(c, PrivKeyOf(k));
      if keyRead.Refused? { return None, []; }
      var keys := if keyRead.Absent? then None else cfg.codec.decodeTable(keyRead.val);
      if keys.None? {
        Note(c, [Marshal]);
        return None, [];
      }
      var resp, bumps;
      resp, bumps, log := DecodeTable(cfg.codec, table.value, keys.value);
      Note(c, bumps);
      bids := Some(resp);
    }

    method NewBidCollection2(c: Call, side: string, key: PrivKey)
      returns (bids: Option<seq<Bid>>, ghost log: seq<Decoded>)
      modifies this`metrics
      ensures var col := Iterated(store, c, side, Entries2(cfg, store, c, side, key));
              && Logs(col, log) && (bids == if col.Gathered? then Some(GoodBids(log)) else None)
              && metrics == BumpAll(old(metrics), c.slot, CollectionBumps(col, log))
    {
      if c.faults.iter { return None, []; }
      var ok, resp, bumps;
      ok, resp, bumps, log := Iterate2(cfg, store, c, side, key);
      assert LogBumps(log) + [] == LogBumps(log);
      Note(c, bumps);
      bids := if ok then Some(resp) else None;
    }

    method NewBidCollection3(c: Call, side: string) returns (bids: Option<seq<Bid>>, ghost log: seq<Decoded>)
      modifies this`metrics
      ensures var col := Iterated(store, c, side, Entries3(cfg, store, c, side));
              && Logs(col, log) && (bids == if col.Gathered? then Some(GoodBids(log)) else None)
              && metrics == BumpAll(old(metrics), c.slot, CollectionBumps(col, log))
    {
      if c.faults.iter { return None, []; }
      var ok, resp, bumps;
      ok, resp, bumps, log := Iterate3(cfg, store, c, side);
      assert LogBumps(log) + [] == LogBumps(log);
      Note(c, bumps);
      bids := if ok then Some(resp) else None;
    }

    // ----- markEnd -----

    method NewBidCollection(c: Call, side: string, key: PrivKey)
      returns (bids: Option<seq<Bid>>, ghost log: seq<Decoded>)
      modifies this`metrics
      ensures var col := Collect(cfg, store, c, side, key);
              && Logs(col, log) && (bids == if col.Gathered? then Some(GoodBids(log)) else None)
              && metrics == BumpAll(old(metrics), c.slot, CollectionBumps(col, log))
    {
      match cfg.exp
      case Exp1 => bids, log := NewBidCollection1(c, side);
      case Exp2 => bids, log := NewBidCollection2(c, side, key);
      case Exp3 => bids, log := NewBidCollection3(c, side);
    }

    /** Settle two collections if both sides have bids. */
    method Clear(buys: seq<Bid>, sells: seq<Bid>) returns (o: Outcome)
      ensures |sells| > 0 && |buys| > 0 ==> Settles(multiset(buys), multiset(sells), o)
    {
      o := NoPrice;
      if |sells| > 0 && |buys| > 0 {
        var b := new Bid[|buys|](i requires 0 <= i < |buys| => buys[i]);
        var s := new Bid[|sells|](i requires 0 <= i < |sells| => sells[i]);
        assert b[..] == buys && s[..] == sells;
        o := Settle(b, s);
      }
    }

    method MarkEnd(c: Call) returns (r: Response)
      modifies this
      ensures MarkEndNext(cfg, old(View()), c, View(), r)
    {
      ghost var st := View();
      var pair := KeyPair(cfg, c);
      if pair.Failure? {
        Note(c, pair.error.0);
        assert Witnessed(cfg, st, c, [], [], NoPrice);
        return Rejected(pair.error.1);
      }
      var (pem, key) := pair.value;
      var buys, buyLog := NewBidCollection(c, "buy", key);
      ghost var buyBumps := CollectionBumps(Collect(cfg, st.store, c, "buy", key), buyLog);
      if buys.None? {
        Note(c, [BidCalc]);
        BumpTwice(st.metrics, c.slot, buyBumps, [BidCalc]);
        assert Witnessed(cfg, st, c, buyLog, [], NoPrice);
        return Rejected(NoCollection);
      }
      var sells, sellLog := NewBidCollection(c, "sell", key);
      ghost var sellBumps := CollectionBumps(Collect(cfg, st.store, c, "sell", key), sellLog);
      BumpTwice(st.metrics, c.slot, buyBumps, sellBumps);
      if sells.None? {
        Note(c, [BidCalc]);
        BumpTwice(st.metrics, c.slot, buyBumps + sellBumps, [BidCalc]);
        assert Witnessed(cfg, st, c, buyLog, sellLog, NoPrice);
        return Rejected(NoCollection);
      }
      var o := Clear(buys.value, sells.value);
      var k := MarkKey(cfg.agreed, c.slot, c.tx);
      var out := Output(k, pem, c.slot, buys.value, sells.value, o);
      assert Witnessed(cfg, st, c, buyLog, sellLog, o);
      r := Put(c, k, cfg.codec.encodeMarkEnd(out), Settled(out));
      assert (View(), r) == MarkEndStep(cfg, st, c, buyLog, sellLog, o);
    }

    method ClockTick(c: Call) returns (r: Response)
      modifies this
      ensures (View(), r) == ClockStep(old(View()), c)
    {
      var k := TxKey(c.slot, c.action, c.tx);
      r := Put(c, k, c.data, Accepted(k));
    }

    /** Every invocation is one step of the ledger. */
    method Invoke(c: Call) returns (r: Response)
      modifies this
      ensures Next(cfg, old(View()), c, View(), r)
    {
      if c.action == "buy" || c.action == "sell" {
        r := PostBid(c);
      } else if c.action == "postKey" {
        r := PostKey(c);
      } else if c.action == "markEnd" {
        r := MarkEnd(c);
      } else if c.action == "clock" {
        r := ClockTick(c);
      } else {
        r := Rejected(UnknownAction);
      }
    }
  }
}
