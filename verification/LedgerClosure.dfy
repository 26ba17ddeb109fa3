/** What every run of the ledger keeps: which keys a call may write, when a slot is closed, what the
    late counters count, and what a collection accounts for. */
module LedgerClosure {
  import opened AuctionSettle
  import opened LedgerKeys
  import opened LedgerModel
  import opened LedgerCollections
  import opened Options

  // ----- the one key a call may write -----

  function Target(cfg: Config, c: Call): Option<Key> {
    if c.action == "buy" || c.action == "sell" then
      Some(if cfg.exp.Exp1? then SlotKey(c.slot, c.action) else TxKey(c.slot, c.action, c.tx))
    else if c.action == "postKey" then
      match cfg.codec.decodePostKeyInput(c.data)
      case None => None
      case Some(input) => if cfg.exp.Exp2? then None else Some(PrivKeyOf(input.readKey))
    else if c.action == "markEnd" then Some(MarkKey(cfg.agreed, c.slot, c.tx))
    else if c.action == "clock" then Some(TxKey(c.slot, c.action, c.tx))
    else None
  }

  /** At most `k` is written, nothing is deleted, and nothing is written by a rejected call. */
  ghost predicate Writes(st: State, st': State, r: Response, k: Option<Key>) {
    || st'.store == st.store
    || (k.Some? && !r.Rejected? && k.value in st'.store && st'.store == st.store[k.value := st'.store[k.value]])
  }

  lemma BidWrites(cfg: Config, st: State, c: Call)
    requires c.action == "buy" || c.action == "sell"
    ensures var (st', r) := BidStep(cfg, st, c); Writes(st, st', r, Target(cfg, c))
  {
  }

  lemma PostKeyWrites(cfg: Config, st: State, c: Call)
    requires c.action == "postKey"
    ensures var (st', r) := PostKeyStep(cfg, st, c); Writes(st, st', r, Target(cfg, c))
  {
  }

  lemma MarkEndWrites(cfg: Config, st: State, c: Call, buyLog: seq<Decoded>, sellLog: seq<Decoded>, o: Outcome)
    requires c.action == "markEnd"
    ensures var (st', r) := MarkEndStep(cfg, st, c, buyLog, sellLog, o); Writes(st, st', r, Target(cfg, c))
  {
  }

  /** Every call writes at most its target. */
  lemma OnlyTargetWritten(cfg: Config, st: State, c: Call, st': State, r: Response)
    requires Next(cfg, st, c, st', r)
    ensures Writes(st, st', r, Target(cfg, c))
  {
    if c.action == "buy" || c.action == "sell" {
      BidWrites(cfg, st, c);
    } else if c.action == "postKey" {
      PostKeyWrites(cfg, st, c);
    } else if c.action == "markEnd" {
      var buyLog, sellLog, o :|
        Witnessed(cfg, st, c, buyLog, sellLog, o) && (st', r) == MarkEndStep(cfg, st, c, buyLog, sellLog, o);
      MarkEndWrites(cfg, st, c, buyLog, sellLog, o);
    }
  }

  /** Only `markEnd` writes a guard key, and only if it uses the key the guard reads. */
  lemma GuardTarget(cfg: Config, c: Call, slot: int)
    requires Target(cfg, c) == Some(GuardKey(slot))
    ensures cfg.agreed && c.action == "markEnd" && c.slot == slot
  {
    KeysApart(slot, "markEnd", c.slot, c.action);
    KeysApart(slot, "markEnd", c.slot, "markEnd");
    TxKeysApart(slot, "markEnd", "", c.slot, c.action, c.tx);
    TxKeysApart(slot, "markEnd", "", c.slot, "markEnd", c.tx);
    if c.action == "postKey" {
      PrivKeysApart(cfg.codec.decodePostKeyInput(c.data).value.readKey, [], slot, "");
    }
  }

  // ----- runs -----

  /** The `i`-th call of a run. */
  ghost predicate Taken(cfg: Config, sts: seq<State>, calls: seq<Call>, rs: seq<Response>, i: nat)
    requires i + 1 < |sts| && i < |calls| && i < |rs|
  {
    Next(cfg, sts[i], calls[i], sts[i + 1], rs[i])
  }

  ghost predicate Run(cfg: Config, sts: seq<State>, calls: seq<Call>, rs: seq<Response>) {
    && |sts| == |calls| + 1 && |rs| == |calls|
    && sts[0] == GENESIS
    && forall i :: 0 <= i < |calls| ==> Taken(cfg, sts, calls, rs, i)
  }

  /** Calls turned away as late among the first `n`, for one slot, that charge `ctr`. */
  function LateCalls(calls: seq<Call>, rs: seq<Response>, n: nat, slot: int, ctr: Counter): nat
    requires n <= |calls| == |rs|
  {
    if n == 0 then 0
    else
      LateCalls(calls, rs, n - 1, slot, ctr) +
      (if rs[n - 1] == Rejected(Late) && calls[n - 1].slot == slot && Charges(ctr, calls[n - 1].action) then 1 else 0)
  }

  /** The counters `markEnd` bumps, given what its loops met. */
  ghost function MarkEndBumps(cfg: Config, st: State, c: Call, buyLog: seq<Decoded>, sellLog: seq<Decoded>)
    : seq<Counter>
  {
    match KeyPair(cfg, c)
    case Failure((bumps, r)) => bumps
    case Success((pem, key)) =>
      var buys, sells := Collect(cfg, st.store, c, "buy", key), Collect(cfg, st.store, c, "sell", key);
      var bumps := CollectionBumps(buys, buyLog);
      if !buys.Gathered? then bumps + [BidCalc]
      else
        var bumps := bumps + CollectionBumps(sells, sellLog);
        if !sells.Gathered? then bumps + [BidCalc]
        else bumps + if MarkKey(cfg.agreed, c.slot, c.tx) in c.faults.put then [PutState] else []
  }

  lemma MarkEndMetrics(cfg: Config, st: State, c: Call, buyLog: seq<Decoded>, sellLog: seq<Decoded>, o: Outcome)
    ensures var (st', r) := MarkEndStep(cfg, st, c, buyLog, sellLog, o);
            st'.metrics == BumpAll(st.metrics, c.slot, MarkEndBumps(cfg, st, c, buyLog, sellLog)) && r != Rejected(Late)
  {
    if KeyPair(cfg, c).Success? {
      var key := KeyPair(cfg, c).value.1;
      var bumps := CollectionBumps(Collect(cfg, st.store, c, "buy", key), buyLog) +
                   CollectionBumps(Collect(cfg, st.store, c, "sell", key), sellLog);
      BumpTwice(st.metrics, c.slot, bumps, [PutState]);
      assert bumps + [] == bumps;
    }
  }

  lemma MarkEndQuiet(cfg: Config, st: State, c: Call, buyLog: seq<Decoded>, sellLog: seq<Decoded>, o: Outcome)
    requires Witnessed(cfg, st, c, buyLog, sellLog, o)
    ensures forall b :: b in MarkEndBumps(cfg, st, c, buyLog, sellLog) ==> Quiet(b)
  {
    if KeyPair(cfg, c).Success? {
      var key := KeyPair(cfg, c).value.1;
      CollectionQuiet(cfg, st.store, c, "buy", key, buyLog);
      if Collect(cfg, st.store, c, "buy", key).Gathered? {
        CollectionQuiet(cfg, st.store, c, "sell", key, sellLog);
      }
    }
  }

  // ----- late calls -----

  /** Does a late call with this action bump `ctr`? */
  predicate Charges(ctr: Counter, action: string) {
    match ctr
    case LateTXs => true
    case LateBuys => action == "buy"
    case LateSells => action == "sell"
    case LateDecrypts => action == "postKey"
    case _ => false
  }

  ghost predicate Charged(st: State, c: Call, st': State, r: Response, ctr: Counter, slot: int) {
    Count(st'.metrics, ctr, slot) ==
      Count(st.metrics, ctr, slot) + if r == Rejected(Late) && c.slot == slot && Charges(ctr, c.action) then 1 else 0
  }

  /** Store and data errors leave the late counters alone. */
  lemma ErrorsNotCharged(m: Metrics, at: int, ctr: Counter, slot: int)
    requires !Quiet(ctr)
    ensures forall cs :: cs in [[GetState], [Marshal], [PutState], []] ==>
              Count(BumpAll(m, at, cs), ctr, slot) == Count(m, ctr, slot)
  {
  }

  lemma BidCharged(cfg: Config, st: State, c: Call, ctr: Counter, slot: int)
    requires !Quiet(ctr) && (c.action == "buy" || c.action == "sell")
    ensures var (st', r) := BidStep(cfg, st, c); Charged(st, c, st', r, ctr, slot)
  {
    ErrorsNotCharged(st.metrics, c.slot, ctr, slot);
    CountAfter(st.metrics, c.slot, LateBid(c.action), ctr, slot);
  }

  lemma PostKeyCharged(cfg: Config, st: State, c: Call, ctr: Counter, slot: int)
    requires !Quiet(ctr) && c.action == "postKey"
    ensures var (st', r) := PostKeyStep(cfg, st, c); Charged(st, c, st', r, ctr, slot)
  {
    ErrorsNotCharged(st.metrics, c.slot, ctr, slot);
    CountAfter(st.metrics, c.slot, [LateTXs, LateDecrypts], ctr, slot);
  }

  /** How one call moves a late counter. */
  lemma LateStep(cfg: Config, st: State, c: Call, st': State, r: Response, ctr: Counter, slot: int)
    requires Next(cfg, st, c, st', r) && !Quiet(ctr)
    ensures Charged(st, c, st', r, ctr, slot)
    ensures r == Rejected(Late) ==> c.action == "buy" || c.action == "sell" || c.action == "postKey"
  {
    if c.action == "buy" || c.action == "sell" {
      BidCharged(cfg, st, c, ctr, slot);
    } else if c.action == "postKey" {
      PostKeyCharged(cfg, st, c, ctr, slot);
    } else if c.action == "markEnd" {
      var buyLog, sellLog, o :|
        Witnessed(cfg, st, c, buyLog, sellLog, o) && (st', r) == MarkEndStep(cfg, st, c, buyLog, sellLog, o);
      MarkEndMetrics(cfg, st, c, buyLog, sellLog, o);
      MarkEndQuiet(cfg, st, c, buyLog, sellLog, o);
      CountAfter(st.metrics, c.slot, MarkEndBumps(cfg, st, c, buyLog, sellLog), ctr, slot);
    } else {
      CountAfter(st.metrics, c.slot, [PutState], ctr, slot);
    }
  }

  /** In every reachable state each late counter of each slot is the number of calls for that slot
      turned away as late so far, by kind. */
  lemma {:induction false} LateCountersExact(cfg: Config, sts: seq<State>, calls: seq<Call>, rs: seq<Response>,
                                             n: nat, slot: int, ctr: Counter)
    requires Run(cfg, sts, calls, rs) && n <= |calls| && !Quiet(ctr)
    ensures Count(sts[n].metrics, ctr, slot) == LateCalls(calls, rs, n, slot, ctr)
  {
    if n > 0 {
      LateCountersExact(cfg, sts, calls, rs, n - 1, slot, ctr);
      assert Taken(cfg, sts, calls, rs, n - 1);
      LateStep(cfg, sts[n - 1], calls[n - 1], sts[n], rs[n - 1], ctr, slot);
    }
  }

  lemma {:induction false} LateCallsSplit(cfg: Config, sts: seq<State>, calls: seq<Call>, rs: seq<Response>,
                                          n: nat, slot: int)
    requires Run(cfg, sts, calls, rs) && n <= |calls|
    ensures LateCalls(calls, rs, n, slot, LateTXs) ==
              LateCalls(calls, rs, n, slot, LateBuys) + LateCalls(calls, rs, n, slot, LateSells)
              + LateCalls(calls, rs, n, slot, LateDecrypts)
  {
    if n > 0 {
      LateCallsSplit(cfg, sts, calls, rs, n - 1, slot);
      assert Taken(cfg, sts, calls, rs, n - 1);
      LateStep(cfg, sts[n - 1], calls[n - 1], sts[n], rs[n - 1], LateTXs, slot);
    }
  }

  /** The documented sum: late transactions are late buys, late sells and late key postings. */
  lemma LateSum(cfg: Config, sts: seq<State>, calls: seq<Call>, rs: seq<Response>, n: nat, slot: int)
    requires Run(cfg, sts, calls, rs) && n <= |calls|
    ensures var m := sts[n].metrics;
            Count(m, LateTXs, slot) ==
            Count(m, LateBuys, slot) + Count(m, LateSells, slot) + Count(m, LateDecrypts, slot)
  {
    LateCountersExact(cfg, sts, calls, rs, n, slot, LateTXs);
    LateCountersExact(cfg, sts, calls, rs, n, slot, LateBuys);
    LateCountersExact(cfg, sts, calls, rs, n, slot, LateSells);
    LateCountersExact(cfg, sts, calls, rs, n, slot, LateDecrypts);
    LateCallsSplit(cfg, sts, calls, rs, n, slot);
  }

  // ----- as written: the guard never closes -----

  lemma {:induction false} GuardNeverWritten(cfg: Config, sts: seq<State>, calls: seq<Call>, rs: seq<Response>,
                                             n: nat, slot: int)
    requires Run(cfg, sts, calls, rs) && n <= |calls| && !cfg.agreed
    ensures GuardKey(slot) !in sts[n].store
  {
    if n > 0 {
      GuardNeverWritten(cfg, sts, calls, rs, n - 1, slot);
      assert Taken(cfg, sts, calls, rs, n - 1);
      OnlyTargetWritten(cfg, sts[n - 1], calls[n - 1], sts[n], rs[n - 1]);
      if Target(cfg, calls[n - 1]) == Some(GuardKey(slot)) { GuardTarget(cfg, calls[n - 1], slot); }
    }
  }

  lemma LateMeansGuarded(cfg: Config, st: State, c: Call, st': State, r: Response)
    requires Next(cfg, st, c, st', r) && r == Rejected(Late)
    ensures GuardKey(c.slot) in st.store
  {
    if c.action == "markEnd" {
      var buyLog, sellLog, o :|
        Witnessed(cfg, st, c, buyLog, sellLog, o) && (st', r) == MarkEndStep(cfg, st, c, buyLog, sellLog, o);
      MarkEndMetrics(cfg, st, c, buyLog, sellLog, o);
    }
  }

  /** With the keys as written no run ever turns a call away as late, and all four late counters of
      every slot stay zero. */
  lemma {:induction false} AsWrittenNothingIsLate(cfg: Config, sts: seq<State>, calls: seq<Call>, rs: seq<Response>,
                                                  n: nat, slot: int, ctr: Counter)
    requires Run(cfg, sts, calls, rs) && n <= |calls| && !cfg.agreed && !Quiet(ctr)
    ensures forall i :: 0 <= i < n ==> rs[i] != Rejected(Late)
    ensures Count(sts[n].metrics, ctr, slot) == 0
  {
    LateCountersExact(cfg, sts, calls, rs, n, slot, ctr);
    if n > 0 {
      AsWrittenNothingIsLate(cfg, sts, calls, rs, n - 1, slot, ctr);
      LateCountersExact(cfg, sts, calls, rs, n - 1, slot, ctr);
      GuardNeverWritten(cfg, sts, calls, rs, n - 1, calls[n - 1].slot);
      if rs[n - 1] == Rejected(Late) {
        assert Taken(cfg, sts, calls, rs, n - 1);
        LateMeansGuarded(cfg, sts[n - 1], calls[n - 1], sts[n], rs[n - 1]);
      }
    }
  }

  // ----- with agreeing keys: slot closure -----

  /** The bids of a slot and the private keys filed under them. */
  predicate InBook(k: Key, slot: int) {
    SlotKey(slot, "buy") <= k || SlotKey(slot, "sell") <= k
  }

  /** A key posting sent under one slot whose attributes point into the book of another. */
  predicate Stray(cfg: Config, c: Call, slot: int) {
    && c.action == "postKey" && c.slot != slot && !cfg.exp.Exp2?
    && cfg.codec.decodePostKeyInput(c.data).Some?
    && InBook(PrivKeyOf(cfg.codec.decodePostKeyInput(c.data).value.readKey), slot)
  }

  lemma GuardStays(cfg: Config, st: State, c: Call, st': State, r: Response, slot: int)
    requires Next(cfg, st, c, st', r) && GuardKey(slot) in st.store
    ensures GuardKey(slot) in st'.store
  {
    OnlyTargetWritten(cfg, st, c, st', r);
  }

  lemma BookTarget(cfg: Config, c: Call, slot: int)
    requires Target(cfg, c).Some? && InBook(Target(cfg, c).value, slot)
    ensures c.action == "buy" || c.action == "sell" ==> c.slot == slot
    ensures c.action == "buy" || c.action == "sell" || c.action == "postKey"
  {
    var k := Target(cfg, c).value;
    var side := if SlotKey(slot, "buy") <= k then "buy" else "sell";
    KeysApart(slot, side, c.slot, c.action);
    KeysApart(slot, side, c.slot, "markEnd");
    TxKeysApart(slot, side, "", c.slot, c.action, c.tx);
    TxKeysApart(slot, side, "", c.slot, "markEnd", c.tx);
  }

  /** Once a slot is marked, a call touches its book only if it is a stray key posting. */
  lemma ClosedStep(cfg: Config, st: State, c: Call, st': State, r: Response, slot: int, k: Key)
    requires Next(cfg, st, c, st', r) && GuardKey(slot) in st.store && InBook(k, slot)
    requires !Stray(cfg, c, slot)
    ensures k in st'.store <==> k in st.store
    ensures k in st.store ==> st'.store[k] == st.store[k]
  {
    OnlyTargetWritten(cfg, st, c, st', r);
    if Target(cfg, c) == Some(k) { BookTarget(cfg, c, slot); }
  }

  lemma {:induction false} GuardPersists(cfg: Config, sts: seq<State>, calls: seq<Call>, rs: seq<Response>,
                                         i: nat, j: nat, slot: int)
    requires Run(cfg, sts, calls, rs) && i <= j <= |calls| && GuardKey(slot) in sts[i].store
    ensures GuardKey(slot) in sts[j].store
  {
    if i < j {
      GuardPersists(cfg, sts, calls, rs, i, j - 1, slot);
      assert Taken(cfg, sts, calls, rs, j - 1);
      GuardStays(cfg, sts[j - 1], calls[j - 1], sts[j], rs[j - 1], slot);
    }
  }

  lemma MarkEndSetsGuard(cfg: Config, st: State, c: Call, st': State, r: Response)
    requires Next(cfg, st, c, st', r) && r.Settled? && cfg.agreed
    ensures c.action == "markEnd" && GuardKey(c.slot) in st'.store
  {
    if c.action == "markEnd" {
      var buyLog, sellLog, o :|
        Witnessed(cfg, st, c, buyLog, sellLog, o) && (st', r) == MarkEndStep(cfg, st, c, buyLog, sellLog, o);
    }
  }

  lemma ClosedCallsRejected(cfg: Config, st: State, c: Call, st': State, r: Response)
    requires Next(cfg, st, c, st', r) && GuardKey(c.slot) in st.store
    requires c.action == "buy" || c.action == "sell" || c.action == "postKey"
    ensures r == Rejected(if GuardKey(c.slot) in c.faults.get then StoreError else Late)
    ensures st'.store == st.store
  {
  }

  lemma MarkedAfter(cfg: Config, sts: seq<State>, calls: seq<Call>, rs: seq<Response>, i: nat, j: nat)
    requires Run(cfg, sts, calls, rs) && cfg.agreed && i < j <= |calls| && rs[i].Settled?
    ensures GuardKey(calls[i].slot) in sts[j].store
  {
    assert Taken(cfg, sts, calls, rs, i);
    MarkEndSetsGuard(cfg, sts[i], calls[i], sts[i + 1], rs[i]);
    GuardPersists(cfg, sts, calls, rs, i + 1, j, calls[i].slot);
  }

  /** Slot closure: after `markEnd` for a slot commits, every later bid or key posting for that slot
      is turned away without effect. */
  lemma LaterCallsRejected(cfg: Config, sts: seq<State>, calls: seq<Call>, rs: seq<Response>, i: nat, j: nat)
    requires Run(cfg, sts, calls, rs) && cfg.agreed && i < j < |calls| && rs[i].Settled?
    requires calls[j].slot == calls[i].slot
    requires calls[j].action == "buy" || calls[j].action == "sell" || calls[j].action == "postKey"
    ensures rs[j] == Rejected(if GuardKey(calls[j].slot) in calls[j].faults.get then StoreError else Late)
    ensures sts[j + 1].store == sts[j].store
  {
    MarkedAfter(cfg, sts, calls, rs, i, j);
    assert Taken(cfg, sts, calls, rs, j);
    ClosedCallsRejected(cfg, sts[j], calls[j], sts[j + 1], rs[j]);
  }

  lemma ClosedAt(cfg: Config, sts: seq<State>, calls: seq<Call>, rs: seq<Response>, i: nat, j: nat, k: Key)
    requires Run(cfg, sts, calls, rs) && cfg.agreed && i < j < |calls| && rs[i].Settled?
    requires !Stray(cfg, calls[j], calls[i].slot) && InBook(k, calls[i].slot)
    ensures k in sts[j + 1].store <==> k in sts[j].store
    ensures k in sts[j].store ==> sts[j + 1].store[k] == sts[j].store[k]
  {
    MarkedAfter(cfg, sts, calls, rs, i, j);
    assert Taken(cfg, sts, calls, rs, j);
    ClosedStep(cfg, sts[j], calls[j], sts[j + 1], rs[j], calls[i].slot, k);
  }

  /** And its book never changes again, unless a stray key posting reaches it. */
  lemma {:induction false} BookFrozen(cfg: Config, sts: seq<State>, calls: seq<Call>, rs: seq<Response>,
                                      i: nat, j: nat, k: Key)
    requires Run(cfg, sts, calls, rs) && cfg.agreed && i < j <= |calls| && rs[i].Settled?
    requires forall m :: i < m < j ==> !Stray(cfg, calls[m], calls[i].slot)
    requires InBook(k, calls[i].slot)
    ensures k in sts[j].store <==> k in sts[i + 1].store
    ensures k in sts[j].store ==> sts[j].store[k] == sts[i + 1].store[k]
  {
    if i + 1 < j {
      BookFrozen(cfg, sts, calls, rs, i, j - 1, k);
      ClosedAt(cfg, sts, calls, rs, i, j - 1, k);
    }
  }

  /** The exception is real.  When a stray key posting meets no obstacle: the slot it is sent under is
      not marked, and no access to the store fails. */
  predicate StrayWrites(cfg: Config, st: State, c: Call, slot: int) {
    Stray(cfg, c, slot) &&
    var k := PrivKeyOf(cfg.codec.decodePostKeyInput(c.data).value.readKey);
    && GuardKey(c.slot) !in st.store && GuardKey(c.slot) !in c.faults.get && k !in c.faults.put
    && (cfg.exp.Exp1? ==> k !in c.faults.get && (k in st.store ==> cfg.codec.decodeTable(st.store[k]).Some?))
  }

  /** A call writes into the book of a marked slot exactly when it is such a posting. */
  lemma ClosedBookWrittenExactly(cfg: Config, st: State, c: Call, st': State, r: Response, slot: int)
    requires Next(cfg, st, c, st', r) && GuardKey(slot) in st.store && !cfg.exp.Exp2?
    ensures (r.Accepted? && InBook(r.writeKey, slot)) <==> StrayWrites(cfg, st, c, slot)
    ensures r.Accepted? ==> r.writeKey in st'.store
  {
    AcceptedTarget(cfg, st, c, st', r);
    if r.Accepted? && InBook(r.writeKey, slot) { BookTarget(cfg, c, slot); }
  }

  lemma AcceptedTarget(cfg: Config, st: State, c: Call, st': State, r: Response)
    requires Next(cfg, st, c, st', r) && !cfg.exp.Exp2?
    ensures r.Accepted? ==> Target(cfg, c) == Some(r.writeKey) && r.writeKey in st'.store
    ensures r.Accepted? ==> c.action != "markEnd"
  {
    if c.action == "markEnd" {
      EndNotAccepted(cfg, st, c, st', r);
    }
  }

  /** An accepted clock tick, or bid filed under its transaction, stores its data as it came, under the
      key it answers. */
  lemma StoredAsSent(cfg: Config, st: State, c: Call, st': State, r: Response)
    requires Next(cfg, st, c, st', r) && r.Accepted?
    requires c.action == "clock" || ((c.action == "buy" || c.action == "sell") && !cfg.exp.Exp1?)
    ensures r.writeKey == [Itoa(c.slot), "-", c.action, "-", c.tx]
    ensures st' == st.(store := st.store[r.writeKey := c.data])
  {
  }

  /** An accepted key posting answers its bid's key with the suffix; experiment 2 stores nothing. */
  lemma KeyAnswered(cfg: Config, st: State, c: Call, st': State, r: Response)
    requires Next(cfg, st, c, st', r) && r.Accepted? && c.action == "postKey"
    ensures var input := cfg.codec.decodePostKeyInput(c.data);
            input.Some? && r.writeKey == input.value.readKey + ["-", "privkey"]
    ensures cfg.exp.Exp2? ==> st' == st
  {
  }

  lemma EndNotAccepted(cfg: Config, st: State, c: Call, st': State, r: Response)
    requires MarkEndNext(cfg, st, c, st', r)
    ensures !r.Accepted?
  {
    var buyLog, sellLog, o :|
      Witnessed(cfg, st, c, buyLog, sellLog, o) && (st', r) == MarkEndStep(cfg, st, c, buyLog, sellLog, o);
  }

  // ----- two runs -----

  /** Ending a slot of an empty ledger. */
  function EmptyOutput(cfg: Config, c: Call): MarkEndOutput {
    MarkEndOutput(MarkKey(cfg.agreed, c.slot, c.tx), [], 0.0, 0.0, c.slot, NoMarket)
  }

  function Ended(cfg: Config, c: Call): State {
    State(map[MarkKey(cfg.agreed, c.slot, c.tx) := cfg.codec.encodeMarkEnd(EmptyOutput(cfg, c))], map[])
  }

  lemma EmptyCollection(cfg: Config, c: Call, side: string, key: PrivKey)
    requires !cfg.exp.Exp2? && c.faults.get == {} && !c.faults.iter
    ensures Collect(cfg, map[], c, side, key) == Gathered(multiset{})
  {
    assert Visited(map[], c.slot, side) == {};
    assert Entries3(cfg, map[], c, side) == map[];
  }

  lemma EmptyEnd(cfg: Config, c: Call)
    requires !cfg.exp.Exp2? && c.action == "markEnd" && c.faults.get == {} && c.faults.put == {} && !c.faults.iter
    ensures Next(cfg, GENESIS, c, Ended(cfg, c), Settled(EmptyOutput(cfg, c)))
  {
    var none := PrivKey(0, 0);
    EmptyCollection(cfg, c, "buy", none);
    EmptyCollection(cfg, c, "sell", none);
    assert Witnessed(cfg, GENESIS, c, [], [], NoPrice);
    assert (Ended(cfg, c), Settled(EmptyOutput(cfg, c))) == MarkEndStep(cfg, GENESIS, c, [], [], NoPrice);
  }

  lemma TwoCalls(cfg: Config, c: Call, r: Response, st: State, d: Call, q: Response, st': State)
    returns (sts: seq<State>, calls: seq<Call>, rs: seq<Response>)
    requires Next(cfg, GENESIS, c, st, r) && Next(cfg, st, d, st', q)
    ensures Run(cfg, sts, calls, rs) && sts == [GENESIS, st, st'] && calls == [c, d] && rs == [r, q]
  {
    sts, calls, rs := [GENESIS, st, st'], [c, d], [r, q];
    assert Taken(cfg, sts, calls, rs, 0) && Taken(cfg, sts, calls, rs, 1);
  }

  const FAULTLESS := Faults({}, {}, false, 0)

  /** A closed book that is written, though the keys agree: slot 0 is ended, then a key posting sent
      under slot 1 files a private key among the bids of slot 0. */
  lemma StrayRun(cfg: Config) returns (sts: seq<State>, calls: seq<Call>, rs: seq<Response>)
    requires Lawful(cfg.codec) && cfg.agreed && !cfg.exp.Exp2?
    ensures Run(cfg, sts, calls, rs) && |calls| == 2 && calls[0].slot == 0 && rs[0].Settled?
    ensures StrayWrites(cfg, sts[1], calls[1], 0) && rs[1].Accepted? && InBook(rs[1].writeKey, 0)
    ensures rs[1].writeKey !in sts[1].store && rs[1].writeKey in sts[2].store
  {
    var end := Call("markEnd", 0, "", [], "", FAULTLESS);
    var input := PostKeyInput(SlotKey(0, "buy"), [], "");
    var stray := Call("postKey", 1, "", cfg.codec.encodePostKeyInput(input), "", FAULTLESS);
    EmptyEnd(cfg, end);
    KeysApart(1, "markEnd", 0, "markEnd");
    PrivKeysApart(SlotKey(0, "buy"), [], 0, "");
    assert SlotKey(0, "buy") <= PrivKeyOf(SlotKey(0, "buy"));
    var (st', r) := PostKeyStep(cfg, Ended(cfg, end), stray);
    sts, calls, rs := TwoCalls(cfg, end, Settled(EmptyOutput(cfg, end)), Ended(cfg, end), stray, r, st');
  }

  /** The slot that does not close, with the keys as written: slot 0 is ended, and a bid for it is then
      accepted and stored. */
  lemma OpenAfterEndRun(cfg: Config) returns (sts: seq<State>, calls: seq<Call>, rs: seq<Response>)
    requires !cfg.agreed && !cfg.exp.Exp2?
    ensures Run(cfg, sts, calls, rs) && |calls| == 2 && calls[0].slot == calls[1].slot == 0 && rs[0].Settled?
    ensures calls[1].action == "buy" && rs[1].Accepted? && InBook(rs[1].writeKey, 0)
    ensures rs[1].writeKey !in sts[1].store && rs[1].writeKey in sts[2].store
  {
    var end := Call("markEnd", 0, "", [], "", FAULTLESS);
    var bid := Call("buy", 0, "", [], "", FAULTLESS);
    EmptyEnd(cfg, end);
    TxKeysApart(0, "markEnd", "", 0, "markEnd", "");
    TxKeysApart(0, "buy", "", 0, "markEnd", "");
    TxKeysApart(0, "buy", "", 0, "buy", "");
    var (st', r) := BidStep(cfg, Ended(cfg, end), bid);
    sts, calls, rs := TwoCalls(cfg, end, Settled(EmptyOutput(cfg, end)), Ended(cfg, end), bid, r, st');
  }

  // ----- isolation -----

  /** Only a call that files something under a slot and side changes what is collected for them. */
  lemma OthersDoNotContribute(cfg: Config, st: State, c: Call, st': State, r: Response,
                              slot: int, side: string, m: Call, key: PrivKey)
    requires Next(cfg, st, c, st', r) && m.slot == slot
    requires Target(cfg, c).Some? ==> !(SlotKey(slot, side) <= Target(cfg, c).value)
    ensures Collect(cfg, st.store, m, side, key) == Collect(cfg, st'.store, m, side, key)
  {
    OnlyTargetWritten(cfg, st, c, st', r);
    CollectionIsolated(cfg, st.store, st'.store, m, side, key);
  }

  /** So no bid for another slot or side contributes, no clock tick and no mark; */
  lemma OtherCallsDoNotContribute(cfg: Config, st: State, c: Call, st': State, r: Response,
                                  slot: int, side: string, m: Call, key: PrivKey)
    requires Next(cfg, st, c, st', r) && m.slot == slot && (side == "buy" || side == "sell")
    requires c.action != "postKey" && !(c.slot == slot && c.action == side)
    ensures Collect(cfg, st.store, m, side, key) == Collect(cfg, st'.store, m, side, key)
  {
    KeysApart(slot, side, c.slot, c.action);
    KeysApart(slot, side, c.slot, "markEnd");
    TxKeysApart(slot, side, "", c.slot, c.action, c.tx);
    TxKeysApart(slot, side, "", c.slot, "markEnd", c.tx);
    OthersDoNotContribute(cfg, st, c, st', r, slot, side, m, key);
  }

  lemma OnePrefix(a: Key, b: Key, k: Key)
    requires |a| == |b| && a != b && b <= k
    ensures !(a <= k)
  {
    assert k[..|b|] == b;
  }

  /** and no key posted for a bid of another slot or side. */
  lemma OtherKeysDoNotContribute(cfg: Config, st: State, c: Call, st': State, r: Response,
                                 slot: int, side: string, m: Call, key: PrivKey, at: int, of: string, tx: string)
    requires Next(cfg, st, c, st', r) && m.slot == slot && (at, of) != (slot, side)
    requires c.action == "postKey" && cfg.codec.decodePostKeyInput(c.data).Some?
    requires cfg.codec.decodePostKeyInput(c.data).value.readKey in [SlotKey(at, of), TxKey(at, of, tx)]
    ensures Collect(cfg, st.store, m, side, key) == Collect(cfg, st'.store, m, side, key)
  {
    var k := PrivKeyOf(cfg.codec.decodePostKeyInput(c.data).value.readKey);
    KeysApart(slot, side, at, of);
    assert SlotKey(at, of) <= k;
    OnePrefix(SlotKey(slot, side), SlotKey(at, of), k);
    OthersDoNotContribute(cfg, st, c, st', r, slot, side, m, key);
  }
}
