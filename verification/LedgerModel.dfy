/** The smart contract on values: the store, the counters, and what each invocation does to them.

    Encoding and encryption are parameters (`Codec`); a store access that the peer refuses is a
    parameter of the call (`Faults`).  `agreed` selects the key under which `markEnd` records the end
    of a slot: as written (false) it is not the key the late guard reads. */
module LedgerModel {
  import opened AuctionCurves
  import opened AuctionSettle
  import opened LedgerKeys
  import opened Multisets
  import opened Options

  newtype byte = b: int | 0 <= b < 256
  type Bytes = seq<byte>
  type Table = map<string, Bytes>

  datatype Exp = Exp1 | Exp2 | Exp3

  datatype PrivKey = PrivKey(modulus: nat, exponent: nat)

  datatype PostKeyInput = PostKeyInput(readKey: Key, privKey: Bytes, bidEvent: string)
  datatype PostKeyOutput = PostKeyOutput(writeKey: Key, privKey: Bytes)

  datatype Message = MarketCleared | NoClearingPrice | NoMarket
  datatype MarkEndOutput = MarkEndOutput(writeKey: Key, privKey: Bytes, price: real, quantity: real,
                                         slot: int, message: Message)

  /** JSON, PEM and RSA, as far as the contract uses them. */
  datatype Codec = Codec(
    encodeTable: Table -> Bytes,
    decodeTable: Bytes -> Option<Table>,
    encodePostKeyInput: PostKeyInput -> Bytes,
    decodePostKeyInput: Bytes -> Option<PostKeyInput>,
    encodePostKeyOutput: PostKeyOutput -> Bytes,
    decodePostKeyOutput: Bytes -> Option<PostKeyOutput>,
    encodeMarkEnd: MarkEndOutput -> Bytes,
    decodeMarkEndInput: Bytes -> Option<Bytes>,
    encodeBid: Bid -> Bytes,
    decodeBid: Bytes -> Option<Bid>,
    loadKey: Bytes -> Option<PrivKey>,
    decrypt: (Bytes, PrivKey) -> Option<Bytes>)

  /** What the contract encodes decodes to itself. */
  ghost predicate Lawful(c: Codec) {
    && (forall x :: c.decodeTable(c.encodeTable(x)) == Some(x))
    && (forall x :: c.decodePostKeyInput(c.encodePostKeyInput(x)) == Some(x))
    && (forall x :: c.decodePostKeyOutput(c.encodePostKeyOutput(x)) == Some(x))
  }

  datatype Config = Config(exp: Exp, agreed: bool, codec: Codec)

  datatype Counter =
    | LateTXs | LateBuys | LateSells | LateDecrypts
    | Iter | Marshal | Decrypt | BidCalc | GetState | PutState

  type Metrics = map<(Counter, int), nat>

  function Count(m: Metrics, c: Counter, slot: int): nat {
    if (c, slot) in m then m[(c, slot)] else 0
  }

  function Bump(m: Metrics, slot: int, c: Counter): Metrics {
    m[(c, slot) := Count(m, c, slot) + 1]
  }

  function BumpAll(m: Metrics, slot: int, cs: seq<Counter>): Metrics {
    if cs == [] then m else Bump(BumpAll(m, slot, cs[..|cs| - 1]), slot, cs[|cs| - 1])
  }

  datatype State = State(store: map<Key, Bytes>, metrics: Metrics)

  const GENESIS := State(map[], map[])

  /** Accesses the peer refuses during one invocation; `next` is how many entries an iterator
      yields before it fails. */
  datatype Faults = Faults(get: set<Key>, put: set<Key>, iter: bool, next: nat)

  datatype Call = Call(action: string, slot: int, event: string, data: Bytes, tx: string, faults: Faults)

  datatype Reason = Late | StoreError | BadData | BadKeyPair | NoCollection | UnknownAction

  datatype Response = Accepted(writeKey: Key) | Settled(out: MarkEndOutput) | Rejected(reason: Reason)

  // ----- wrappers -----

  datatype Read = Refused | Absent | Found(val: Bytes)

  function Fetch(store: map<Key, Bytes>, c: Call, k: Key): Read {
    if k in c.faults.get then Refused
    else if k in store then Found(store[k])
    else Absent
  }

  function Fail(st: State, c: Call, bumps: seq<Counter>, r: Reason): (State, Response) {
    (st.(metrics := BumpAll(st.metrics, c.slot, bumps)), Rejected(r))
  }

  function Persist(st: State, c: Call, k: Key, val: Bytes, r: Response): (State, Response) {
    if k in c.faults.put then Fail(st, c, [PutState], StoreError)
    else (st.(store := st.store[k := val]), r)
  }

  // ----- bid, postKey, clock -----

  function LateBid(action: string): seq<Counter> {
    [LateTXs] + (if action == "buy" then [LateBuys] else if action == "sell" then [LateSells] else [])
  }

  /** Read the map under `k`, or start one, and store it with `entry` set. */
  function Upsert(cfg: Config, st: State, c: Call, k: Key, entry: string, val: Bytes): (State, Response) {
    match Fetch(st.store, c, k)
    case Refused => Fail(st, c, [GetState], StoreError)
    case Absent => Persist(st, c, k, cfg.codec.encodeTable(map[entry := val]), Accepted(k))
    case Found(b) =>
      match cfg.codec.decodeTable(b)
      case None => Fail(st, c, [Marshal], BadData)
      case Some(t) => Persist(st, c, k, cfg.codec.encodeTable(t[entry := val]), Accepted(k))
  }

  function BidStep(cfg: Config, st: State, c: Call): (State, Response) {
    match Fetch(st.store, c, GuardKey(c.slot))
    case Refused => Fail(st, c, [GetState], StoreError)
    case Found(_) => Fail(st, c, LateBid(c.action), Late)
    case Absent =>
      match cfg.exp
      case Exp1 => Upsert(cfg, st, c, SlotKey(c.slot, c.action), c.event, c.data)
      case _ =>
        var k := TxKey(c.slot, c.action, c.tx);
        Persist(st, c, k, c.data, Accepted(k))
  }

  function PostKeyStep(cfg: Config, st: State, c: Call): (State, Response) {
    match Fetch(st.store, c, GuardKey(c.slot))
    case Refused => Fail(st, c, [GetState], StoreError)
    case Found(_) => Fail(st, c, [LateTXs, LateDecrypts], Late)
    case Absent =>
      match cfg.codec.decodePostKeyInput(c.data)
      case None => Fail(st, c, [], BadData)
      case Some(input) =>
        var k := PrivKeyOf(input.readKey);
        match cfg.exp
        case Exp1 => Upsert(cfg, st, c, k, input.bidEvent, c.data)
        case Exp2 => (st, Accepted(k))
        case Exp3 => Persist(st, c, k, cfg.codec.encodePostKeyOutput(PostKeyOutput(k, input.privKey)), Accepted(k))
  }

  function ClockStep(st: State, c: Call): (State, Response) {
    var k := TxKey(c.slot, c.action, c.tx);
    Persist(st, c, k, c.data, Accepted(k))
  }

  // ----- bid collections -----

  /** What became of one stored bid; a bad one names the counters it bumps. */
  datatype Decoded = Good(bid: Bid) | Bad(bumps: seq<Counter>)

  /** A bid that cannot be read bumps the decryption counter once, beside at most one other. */
  predicate Counted(d: Decoded) {
    d.Bad? ==> d.bumps == [Decrypt] || d.bumps == [Marshal, Decrypt] || d.bumps == [GetState, Decrypt]
  }

  function Unseal(codec: Codec, key: PrivKey, sealed: Bytes): (d: Decoded)
    ensures Counted(d)
  {
    match codec.decrypt(sealed, key)
    case None => Bad([Decrypt])
    case Some(b) =>
      match codec.decodeBid(b)
      case None => Bad([Marshal, Decrypt])
      case Some(bid) => Good(bid)
  }

  function Open(codec: Codec, privKey: Bytes, sealed: Bytes): (d: Decoded)
    ensures Counted(d)
  {
    match codec.loadKey(privKey)
    case None => Bad([Decrypt])
    case Some(key) => Unseal(codec, key, sealed)
  }

  function Decode1(codec: Codec, keys: Table, event: string, sealed: Bytes): (d: Decoded)
    ensures Counted(d)
  {
    if event !in keys then Bad([Decrypt])
    else
      match codec.decodePostKeyInput(keys[event])
      case None => Bad([Marshal, Decrypt])
      case Some(input) => Open(codec, input.privKey, sealed)
  }

  function Decode3(codec: Codec, store: map<Key, Bytes>, c: Call, k: Key, sealed: Bytes): (d: Decoded)
    ensures Counted(d)
  {
    match Fetch(store, c, PrivKeyOf(k))
    case Refused => Bad([GetState, Decrypt])
    case Absent => Bad([Marshal, Decrypt])
    case Found(b) =>
      match codec.decodePostKeyOutput(b)
      case None => Bad([Marshal, Decrypt])
      case Some(output) => Open(codec, output.privKey, sealed)
  }

  /** A collection fails before it looks at a bid, breaks off among them, or has them all: what
      became of each bid stored for this slot and side. */
  datatype Collection =
    | Failed(bumps: seq<Counter>)
    | Broken(some: multiset<Decoded>)
    | Gathered(all: multiset<Decoded>)

  /** Exp 1: what becomes of each bid in the shared map, by the event that placed it. */
  function Entries1(codec: Codec, bids: Table, keys: Table): map<string, Decoded> {
    map e | e in bids :: Decode1(codec, keys, e, bids[e])
  }

  ghost function Collect1(cfg: Config, store: map<Key, Bytes>, c: Call, side: string): Collection {
    var k := SlotKey(c.slot, side);
    match Fetch(store, c, k)
    case Refused => Failed([GetState])
    case Absent => Gathered(multiset{})
    case Found(b) =>
      match cfg.codec.decodeTable(b)
      case None => Failed([Marshal])
      case Some(bids) =>
        match Fetch(store, c, PrivKeyOf(k))
        case Refused => Failed([GetState])
        case Absent => Failed([Marshal])
        case Found(b) =>
          match cfg.codec.decodeTable(b)
          case None => Failed([Marshal])
          case Some(keys) => Gathered(Outcomes(Entries1(cfg.codec, bids, keys)))
  }

  /** The entries an iterator over the slot and side visits. */
  function Visited(store: map<Key, Bytes>, slot: int, side: string): set<Key> {
    set k | k in store && SlotKey(slot, side) <= k
  }

  /** Exp 2: what becomes of each visited entry, under the regulator's key. */
  function Entries2(cfg: Config, store: map<Key, Bytes>, c: Call, side: string, key: PrivKey): map<Key, Decoded> {
    map k | k in Visited(store, c.slot, side) :: Unseal(cfg.codec, key, store[k])
  }

  /** Exp 3: the same for each visited entry that does not itself hold a private key. */
  function Entries3(cfg: Config, store: map<Key, Bytes>, c: Call, side: string): map<Key, Decoded> {
    map k | k in Visited(store, c.slot, side) && !HoldsPrivKey(k) :: Decode3(cfg.codec, store, c, k, store[k])
  }

  ghost function Iterated(store: map<Key, Bytes>, c: Call, side: string, entries: map<Key, Decoded>): Collection {
    if c.faults.iter then Failed([])
    else if c.faults.next < |Visited(store, c.slot, side)| then Broken(Outcomes(entries))
    else Gathered(Outcomes(entries))
  }

  ghost function Collect(cfg: Config, store: map<Key, Bytes>, c: Call, side: string, key: PrivKey): Collection {
    match cfg.exp
    case Exp1 => Collect1(cfg, store, c, side)
    case Exp2 => Iterated(store, c, side, Entries2(cfg, store, c, side, key))
    case Exp3 => Iterated(store, c, side, Entries3(cfg, store, c, side))
  }

  function GoodBids(log: seq<Decoded>): seq<Bid> {
    if log == [] then []
    else
      GoodBids(log[..|log| - 1]) +
      (match log[|log| - 1] case Good(b) => [b] case Bad(_) => [])
  }

  function LogBumps(log: seq<Decoded>): seq<Counter> {
    if log == [] then []
    else
      LogBumps(log[..|log| - 1]) +
      (match log[|log| - 1] case Good(_) => [] case Bad(bumps) => bumps)
  }

  /** `log` lists, in some order, what the loop over a collection met. */
  ghost predicate Logs(col: Collection, log: seq<Decoded>) {
    match col
    case Failed(_) => log == []
    case Broken(some) => multiset(log) <= some
    case Gathered(all) => multiset(log) == all
  }

  ghost function CollectionBumps(col: Collection, log: seq<Decoded>): seq<Counter> {
    match col
    case Failed(bumps) => bumps
    case Broken(_) => LogBumps(log) + [Iter]
    case Gathered(_) => LogBumps(log)
  }

  // ----- markEnd -----

  /** The regulator's private key, in experiment 2; without use otherwise. */
  function KeyPair(cfg: Config, c: Call): Result<(Bytes, PrivKey), (seq<Counter>, Reason)> {
    if !cfg.exp.Exp2? then Success(([], PrivKey(0, 0)))
    else
      match cfg.codec.decodeMarkEndInput(c.data)
      case None => Failure(([Marshal], BadData))
      case Some(pem) =>
        match cfg.codec.loadKey(pem)
        case None => Failure(([Decrypt], BadKeyPair))
        case Some(key) => Success((pem, key))
  }

  function Output(key: Key, pem: Bytes, slot: int, buys: seq<Bid>, sells: seq<Bid>, o: Outcome): MarkEndOutput {
    if |sells| > 0 && |buys| > 0 then
      match o
      case NoPrice => MarkEndOutput(key, pem, 0.0, 0.0, slot, NoClearingPrice)
      case Cleared(best) => MarkEndOutput(key, pem, best.price, best.units, slot, MarketCleared)
    else MarkEndOutput(key, pem, 0.0, 0.0, slot, NoMarket)
  }

  /** `markEnd`, given what the two collection loops met and what `Settle` answered. */
  ghost function MarkEndStep(cfg: Config, st: State, c: Call, buyLog: seq<Decoded>, sellLog: seq<Decoded>, o: Outcome)
    : (State, Response)
  {
    match KeyPair(cfg, c)
    case Failure((bumps, r)) => Fail(st, c, bumps, r)
    case Success((pem, key)) =>
      var buys, sells := Collect(cfg, st.store, c, "buy", key), Collect(cfg, st.store, c, "sell", key);
      var bumps := CollectionBumps(buys, buyLog);
      if !buys.Gathered? then Fail(st, c, bumps + [BidCalc], NoCollection)
      else
        var bumps := bumps + CollectionBumps(sells, sellLog);
        if !sells.Gathered? then Fail(st, c, bumps + [BidCalc], NoCollection)
        else
          var k := MarkKey(cfg.agreed, c.slot, c.tx);
          var out := Output(k, pem, c.slot, GoodBids(buyLog), GoodBids(sellLog), o);
          Persist(st.(metrics := BumpAll(st.metrics, c.slot, bumps)), c, k, cfg.codec.encodeMarkEnd(out), Settled(out))
  }

  /** The logs and the settlement are ones the code may produce. */
  ghost predicate Witnessed(cfg: Config, st: State, c: Call, buyLog: seq<Decoded>, sellLog: seq<Decoded>, o: Outcome) {
    KeyPair(cfg, c).Success? ==>
      var key := KeyPair(cfg, c).value.1;
      var buys, sells := Collect(cfg, st.store, c, "buy", key), Collect(cfg, st.store, c, "sell", key);
      && Logs(buys, buyLog)
      && (buys.Gathered? ==> Logs(sells, sellLog))
      && (buys.Gathered? && sells.Gathered? && |GoodBids(sellLog)| > 0 && |GoodBids(buyLog)| > 0 ==>
            Settles(multiset(GoodBids(buyLog)), multiset(GoodBids(sellLog)), o))
  }

  ghost predicate MarkEndNext(cfg: Config, st: State, c: Call, st': State, r: Response) {
    exists buyLog, sellLog, o ::
      Witnessed(cfg, st, c, buyLog, sellLog, o) && (st', r) == MarkEndStep(cfg, st, c, buyLog, sellLog, o)
  }

  // ----- counters -----

  lemma BumpOne(m: Metrics, slot: int, cs: seq<Counter>, c: Counter)
    ensures BumpAll(m, slot, cs + [c]) == Bump(BumpAll(m, slot, cs), slot, c)
    ensures BumpAll(m, slot, [c]) == Bump(m, slot, c)
  {
  }

  lemma {:induction false} BumpTwice(m: Metrics, slot: int, a: seq<Counter>, b: seq<Counter>)
    ensures BumpAll(BumpAll(m, slot, a), slot, b) == BumpAll(m, slot, a + b)
  {
    if b == [] {
      assert a + b == a;
    } else {
      BumpTwice(m, slot, a, b[..|b| - 1]);
      assert (a + b)[..|a + b| - 1] == a + b[..|b| - 1];
    }
  }

  lemma {:induction false} CountAfter(m: Metrics, slot: int, cs: seq<Counter>, c: Counter, s: int)
    ensures Count(BumpAll(m, slot, cs), c, s) == Count(m, c, s) + if s == slot then multiset(cs)[c] else 0
  {
    if cs != [] {
      CountAfter(m, slot, cs[..|cs| - 1], c, s);
      assert cs == cs[..|cs| - 1] + [cs[|cs| - 1]];
    }
  }

  // ----- one invocation -----

  ghost predicate Next(cfg: Config, st: State, c: Call, st': State, r: Response) {
    if c.action == "buy" || c.action == "sell" then (st', r) == BidStep(cfg, st, c)
    else if c.action == "postKey" then (st', r) == PostKeyStep(cfg, st, c)
    else if c.action == "markEnd" then MarkEndNext(cfg, st, c, st', r)
    else if c.action == "clock" then (st', r) == ClockStep(st, c)
    else (st', r) == (st, Rejected(UnknownAction))
  }
}
