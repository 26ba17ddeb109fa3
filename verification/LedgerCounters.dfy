/** What the error counters count: store accesses refused, data that does not decode, iterations and
    collections that fail. */
module LedgerCounters {
  import opened AuctionSettle
  import opened LedgerClosure
  import opened LedgerCollections
  import opened LedgerKeys
  import opened LedgerModel

  /** How much an invocation adds to a counter of its own slot. */
  function Added(st: State, c: Call, st': State, ctr: Counter): int {
    Count(st'.metrics, ctr, c.slot) - Count(st.metrics, ctr, c.slot)
  }

  /** Is one of the reads before the write refused? */
  predicate ReadRefused(cfg: Config, c: Call) {
    || GuardKey(c.slot) in c.faults.get
    || (cfg.exp.Exp1? && Target(cfg, c).Some? && Target(cfg, c).value in c.faults.get)
  }

  /** The one error counter a bid or key posting moves, if any. */
  ghost predicate Moves(cfg: Config, st: State, c: Call, st': State, r: Response) {
    match r
    case Rejected(Late) => forall ctr :: Quiet(ctr) ==> Added(st, c, st', ctr) == 0
    case Rejected(StoreError) =>
      st'.metrics == Bump(st.metrics, c.slot, if ReadRefused(cfg, c) then GetState else PutState)
    case Rejected(BadData) =>
      st'.metrics == if c.action == "postKey" && cfg.codec.decodePostKeyInput(c.data).None? then st.metrics
                     else Bump(st.metrics, c.slot, Marshal)
    case Rejected(_) => false
    case _ => st'.metrics == st.metrics
  }

  lemma LateMoves(st: State, c: Call, bumps: seq<Counter>)
    requires forall b :: b in bumps ==> !Quiet(b)
    ensures forall ctr :: Quiet(ctr) ==> Added(st, c, Fail(st, c, bumps, Late).0, ctr) == 0
  {
    forall ctr | Quiet(ctr) ensures Added(st, c, Fail(st, c, bumps, Late).0, ctr) == 0 {
      CountAfter(st.metrics, c.slot, bumps, ctr, c.slot);
    }
  }

  lemma SingleBumps(m: Metrics, slot: int)
    ensures forall ctr :: ctr in [GetState, PutState, Marshal] ==> BumpAll(m, slot, [ctr]) == Bump(m, slot, ctr)
    ensures BumpAll(m, slot, []) == m
  {
    BumpOne(m, slot, [], GetState);
    BumpOne(m, slot, [], PutState);
    BumpOne(m, slot, [], Marshal);
  }

  lemma BidMoves(cfg: Config, st: State, c: Call)
    requires c.action == "buy" || c.action == "sell"
    ensures var (st', r) := BidStep(cfg, st, c); Moves(cfg, st, c, st', r)
  {
    SingleBumps(st.metrics, c.slot);
    LateMoves(st, c, LateBid(c.action));
  }

  lemma PostKeyMoves(cfg: Config, st: State, c: Call)
    requires c.action == "postKey"
    ensures var (st', r) := PostKeyStep(cfg, st, c); Moves(cfg, st, c, st', r)
  {
    SingleBumps(st.metrics, c.slot);
    LateMoves(st, c, [LateTXs, LateDecrypts]);
  }

  /** Bids and key postings: a refused access and stored data that does not decode are counted once each.
      A posting whose own data does not decode is rejected without being counted. */
  lemma PostingErrors(cfg: Config, st: State, c: Call, st': State, r: Response)
    requires Next(cfg, st, c, st', r) && c.action in ["buy", "sell", "postKey"]
    ensures Added(st, c, st', GetState) == if r == Rejected(StoreError) && ReadRefused(cfg, c) then 1 else 0
    ensures Added(st, c, st', PutState) == if r == Rejected(StoreError) && !ReadRefused(cfg, c) then 1 else 0
    ensures Added(st, c, st', Marshal) ==
              if r == Rejected(BadData) && (c.action == "postKey" ==> cfg.codec.decodePostKeyInput(c.data).Some?)
              then 1 else 0
    ensures Added(st, c, st', BidCalc) == Added(st, c, st', Iter) == Added(st, c, st', Decrypt) == 0
  {
    if c.action == "postKey" {
      PostKeyMoves(cfg, st, c);
    } else {
      BidMoves(cfg, st, c);
    }
  }

  // ----- markEnd -----

  lemma {:induction false} LogKinds(log: seq<Decoded>)
    requires forall d :: d in log ==> Counted(d)
    ensures forall b :: b in LogBumps(log) ==> b in [Decrypt, Marshal, GetState]
  {
    if log != [] {
      assert log[|log| - 1] in log;
      LogKinds(log[..|log| - 1]);
    }
  }

  lemma CollectionShape(cfg: Config, store: map<Key, Bytes>, c: Call, side: string, key: PrivKey)
    ensures var col := Collect(cfg, store, c, side, key);
            && (col.Broken? <==> !col.Gathered? && !cfg.exp.Exp1? && !c.faults.iter)
            && (col.Failed? ==> col.bumps == [] || col.bumps == [GetState] || col.bumps == [Marshal])
  {
  }

  /** How often a collection bumps the counters of failed calculations, writes and iterations. */
  ghost predicate Kinds(col: Collection, bumps: multiset<Counter>) {
    bumps[BidCalc] == 0 && bumps[PutState] == 0 && bumps[Iter] == if col.Broken? then 1 else 0
  }

  lemma LogsKinds(col: Collection, log: seq<Decoded>)
    requires Logs(col, log) && forall d :: d in log ==> Counted(d)
    requires col.Failed? ==> col.bumps == [] || col.bumps == [GetState] || col.bumps == [Marshal]
    ensures Kinds(col, multiset(CollectionBumps(col, log)))
  {
    var bumps := LogBumps(log);
    LogKinds(log);
    assert forall ctr :: ctr in multiset(bumps) <==> ctr in bumps;
    assert multiset(bumps + [Iter]) == multiset(bumps) + multiset{Iter};
  }

  lemma CollectionKinds(cfg: Config, store: map<Key, Bytes>, c: Call, side: string, key: PrivKey, log: seq<Decoded>)
    requires Logs(Collect(cfg, store, c, side, key), log)
    ensures var col := Collect(cfg, store, c, side, key);
            Kinds(col, multiset(CollectionBumps(col, log)))
            && (col.Broken? <==> !col.Gathered? && !cfg.exp.Exp1? && !c.faults.iter)
  {
    forall d | d in log ensures Counted(d) {
      assert d in multiset(log);
      CollectedCounted(cfg, store, c, side, key, d);
    }
    CollectionShape(cfg, store, c, side, key);
    LogsKinds(Collect(cfg, store, c, side, key), log);
  }

  lemma MarkEndKinds(cfg: Config, st: State, c: Call, buyLog: seq<Decoded>, sellLog: seq<Decoded>, o: Outcome)
    requires Witnessed(cfg, st, c, buyLog, sellLog, o)
    ensures var (st', r) := MarkEndStep(cfg, st, c, buyLog, sellLog, o);
            var bumps := multiset(MarkEndBumps(cfg, st, c, buyLog, sellLog));
            && bumps[BidCalc] == (if r == Rejected(NoCollection) then 1 else 0)
            && bumps[Iter] == (if r == Rejected(NoCollection) && !cfg.exp.Exp1? && !c.faults.iter then 1 else 0)
            && bumps[PutState] == (if r == Rejected(StoreError) then 1 else 0)
            && (r == Rejected(BadData) ==> bumps[Marshal] == 1)
            && (r == Rejected(BadKeyPair) ==> bumps[Decrypt] == 1)
  {
    if KeyPair(cfg, c).Success? {
      var key := KeyPair(cfg, c).value.1;
      CollectionKinds(cfg, st.store, c, "buy", key, buyLog);
      if Collect(cfg, st.store, c, "buy", key).Gathered? {
        CollectionKinds(cfg, st.store, c, "sell", key, sellLog);
      }
    }
  }

  lemma AddedOf(cfg: Config, st: State, c: Call, buyLog: seq<Decoded>, sellLog: seq<Decoded>, o: Outcome, ctr: Counter)
    ensures Added(st, c, MarkEndStep(cfg, st, c, buyLog, sellLog, o).0, ctr) ==
              multiset(MarkEndBumps(cfg, st, c, buyLog, sellLog))[ctr]
  {
    MarkEndMetrics(cfg, st, c, buyLog, sellLog, o);
    CountAfter(st.metrics, c.slot, MarkEndBumps(cfg, st, c, buyLog, sellLog), ctr, c.slot);
  }

  /** `markEnd`: a failed collection is counted once as such, and once more as a failed iteration if the
      iterator broke off; a refused write once; unreadable call data, or a regulator's key that does not
      load, once. */
  lemma MarkEndErrors(cfg: Config, st: State, c: Call, st': State, r: Response)
    requires MarkEndNext(cfg, st, c, st', r)
    ensures Added(st, c, st', BidCalc) == if r == Rejected(NoCollection) then 1 else 0
    ensures Added(st, c, st', Iter) ==
              if r == Rejected(NoCollection) && !cfg.exp.Exp1? && !c.faults.iter then 1 else 0
    ensures Added(st, c, st', PutState) == if r == Rejected(StoreError) then 1 else 0
    ensures r == Rejected(BadData) ==> Added(st, c, st', Marshal) == 1
    ensures r == Rejected(BadKeyPair) ==> Added(st, c, st', Decrypt) == 1
  {
    var buyLog, sellLog, o :|
      Witnessed(cfg, st, c, buyLog, sellLog, o) && (st', r) == MarkEndStep(cfg, st, c, buyLog, sellLog, o);
    MarkEndKinds(cfg, st, c, buyLog, sellLog, o);
    forall ctr ensures Added(st, c, st', ctr) == multiset(MarkEndBumps(cfg, st, c, buyLog, sellLog))[ctr] {
      AddedOf(cfg, st, c, buyLog, sellLog, o, ctr);
    }
  }

  // ----- runs -----

  /** Calls among the first `n` for one slot that were rejected for one reason. */
  function Rejections(calls: seq<Call>, rs: seq<Response>, n: nat, slot: int, reason: Reason): nat
    requires n <= |calls| == |rs|
  {
    if n == 0 then 0
    else
      Rejections(calls, rs, n - 1, slot, reason) +
      if rs[n - 1] == Rejected(reason) && calls[n - 1].slot == slot then 1 else 0
  }

  lemma AllBumpsOwnSlot(m: Metrics, at: int, ctr: Counter, slot: int)
    requires slot != at
    ensures forall bumps: seq<Counter> :: Count(BumpAll(m, at, bumps), ctr, slot) == Count(m, ctr, slot)
  {
    forall bumps: seq<Counter> ensures Count(BumpAll(m, at, bumps), ctr, slot) == Count(m, ctr, slot) {
      CountAfter(m, at, bumps, ctr, slot);
    }
  }

  /** A call moves the counters of its own slot alone. */
  lemma OwnSlot(cfg: Config, st: State, c: Call, st': State, r: Response, ctr: Counter, slot: int)
    requires Next(cfg, st, c, st', r) && slot != c.slot
    ensures Count(st'.metrics, ctr, slot) == Count(st.metrics, ctr, slot)
  {
    AllBumpsOwnSlot(st.metrics, c.slot, ctr, slot);
    if c.action == "markEnd" {
      var buyLog, sellLog, o :|
        Witnessed(cfg, st, c, buyLog, sellLog, o) && (st', r) == MarkEndStep(cfg, st, c, buyLog, sellLog, o);
      MarkEndMetrics(cfg, st, c, buyLog, sellLog, o);
    } else if c.action == "postKey" {
      PostKeyOwn(cfg, st, c, ctr, slot);
    } else if c.action in ["buy", "sell"] {
      BidOwn(cfg, st, c, ctr, slot);
    }
  }

  lemma PostKeyOwn(cfg: Config, st: State, c: Call, ctr: Counter, slot: int)
    requires slot != c.slot
    ensures Count(PostKeyStep(cfg, st, c).0.metrics, ctr, slot) == Count(st.metrics, ctr, slot)
  {
    AllBumpsOwnSlot(st.metrics, c.slot, ctr, slot);
  }

  lemma BidOwn(cfg: Config, st: State, c: Call, ctr: Counter, slot: int)
    requires slot != c.slot
    ensures Count(BidStep(cfg, st, c).0.metrics, ctr, slot) == Count(st.metrics, ctr, slot)
  {
    AllBumpsOwnSlot(st.metrics, c.slot, ctr, slot);
  }

  /** In every reachable state, for every slot: the failed calculations counted are the `markEnd` calls
      for it that were rejected for want of a collection. */
  lemma {:induction false} BidCalcExact(cfg: Config, sts: seq<State>, calls: seq<Call>, rs: seq<Response>,
                                        n: nat, slot: int)
    requires Run(cfg, sts, calls, rs) && n <= |calls|
    ensures Count(sts[n].metrics, BidCalc, slot) == Rejections(calls, rs, n, slot, NoCollection)
  {
    if n > 0 {
      BidCalcExact(cfg, sts, calls, rs, n - 1, slot);
      BidCalcAt(cfg, sts, calls, rs, n - 1, slot);
    }
  }

  lemma BidCalcAt(cfg: Config, sts: seq<State>, calls: seq<Call>, rs: seq<Response>, i: nat, slot: int)
    requires Run(cfg, sts, calls, rs) && i < |calls|
    ensures Count(sts[i + 1].metrics, BidCalc, slot) == Count(sts[i].metrics, BidCalc, slot) +
              if rs[i] == Rejected(NoCollection) && calls[i].slot == slot then 1 else 0
  {
    assert Taken(cfg, sts, calls, rs, i);
    BidCalcStep(cfg, sts[i], calls[i], sts[i + 1], rs[i], slot);
  }

  lemma BidCalcStep(cfg: Config, st: State, c: Call, st': State, r: Response, slot: int)
    requires Next(cfg, st, c, st', r)
    ensures Count(st'.metrics, BidCalc, slot) ==
              Count(st.metrics, BidCalc, slot) + if r == Rejected(NoCollection) && c.slot == slot then 1 else 0
  {
    if slot != c.slot {
      OwnSlot(cfg, st, c, st', r, BidCalc, slot);
    } else if c.action == "markEnd" {
      MarkEndErrors(cfg, st, c, st', r);
    } else if c.action in ["buy", "sell", "postKey"] {
      PostingErrors(cfg, st, c, st', r);
      PostingReasons(cfg, st, c, st', r);
    } else {
      SingleBumps(st.metrics, c.slot);
    }
  }

  lemma PostingReasons(cfg: Config, st: State, c: Call, st': State, r: Response)
    requires Next(cfg, st, c, st', r) && c.action in ["buy", "sell", "postKey"]
    ensures r != Rejected(NoCollection)
  {
    if c.action == "postKey" {
      PostKeyMoves(cfg, st, c);
    } else {
      BidMoves(cfg, st, c);
    }
  }
}
