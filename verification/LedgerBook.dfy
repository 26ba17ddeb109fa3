/** One book in two data models: the shared maps of experiment 1 and the sliced keys of experiment 3
    store the same bids and keys, over every history of the ledger. */
module LedgerBook {
  import opened LedgerClosure
  import opened LedgerKeys
  import opened LedgerModel
  import opened Options

  /** A bid as its bidder knows it: what was posted, and the private key published for it so far. */
  datatype Entry = Entry(slot: int, side: string, event: string, tx: string, data: Bytes, key: Option<Bytes>)

  type Book = seq<Entry>

  // ----- histories -----

  /** What happens to the ledger: a bid; the same bid again, whose first answer was lost; a private key
      published for the `index`-th bid it accepted; or any other call, such as a clock tick or the end of
      any slot. */
  datatype BookOp =
    | Post(call: Call)
    | Again(index: nat, tx: string, faults: Faults)
    | Publish(index: nat, privKey: Bytes, event: string, tx: string, faults: Faults)
    | Other(call: Call)

  /** The ledger, the bids it accepted, and the write-key attributes each was answered with: what a
      bidder records, and sends back when it posts the key. */
  datatype Ledger = Ledger(st: State, book: Book, recorded: seq<Key>)

  type Session = s: Ledger | |s.book| == |s.recorded| witness START

  const START := Ledger(GENESIS, [], [])

  predicate Side(side: string) {
    side == "buy" || side == "sell"
  }

  /** Keys of bids, and of whatever is filed under them. */
  predicate Sided(k: Key) {
    |k| >= 3 && Side(k[2])
  }

  /** A call that files nothing among the bids. */
  predicate Elsewhere(cfg: Config, c: Call) {
    !Side(c.action) && (Target(cfg, c).Some? ==> !Sided(Target(cfg, c).value))
  }

  function EntryOf(c: Call): Entry {
    Entry(c.slot, c.action, c.event, c.tx, c.data, None)
  }

  function PublishCall(codec: Codec, s: Session, op: BookOp): Call
    requires op.Publish? && op.index < |s.book|
  {
    var e := s.book[op.index];
    var input := PostKeyInput(s.recorded[op.index], op.privKey, e.event);
    Call("postKey", e.slot, op.event, codec.encodePostKeyInput(input), op.tx, op.faults)
  }

  function AgainCall(s: Session, op: BookOp): Call
    requires op.Again? && op.index < |s.book|
  {
    var e := s.book[op.index];
    Call(e.side, e.slot, e.event, e.data, op.tx, op.faults)
  }

  function Entered(s: Session, st: State, c: Call, k: Key): Session {
    Ledger(st, s.book + [EntryOf(c)], s.recorded + [k])
  }

  /** One operation.  Only what the ledger accepts enters the book: a late call, or one that meets a
      store fault, leaves it as it is.  A repeated bid is the same entry of experiment 1's shared map,
      and an entry of its own otherwise. */
  ghost predicate OpNext(cfg: Config, s: Session, op: BookOp, s': Session) {
    match op
    case Post(c) =>
      var (st, r) := BidStep(cfg, s.st, c);
      Side(c.action) &&
      s' == if r.Accepted? then Entered(s, st, c, r.writeKey) else s.(st := st)
    case Again(i, _, _) =>
      if i < |s.book| then
        var c := AgainCall(s, op);
        var (st, r) := BidStep(cfg, s.st, c);
        s' == if r.Accepted? && !cfg.exp.Exp1? then Entered(s, st, c, r.writeKey) else s.(st := st)
      else s' == s
    case Publish(i, privKey, _, _, _) =>
      if i < |s.book| then
        var (st, r) := PostKeyStep(cfg, s.st, PublishCall(cfg.codec, s, op));
        s' == s.(st := st, book := if r.Accepted? then s.book[i := s.book[i].(key := Some(privKey))] else s.book)
      else s' == s
    case Other(c) =>
      Elsewhere(cfg, c) && s' == s.(st := s'.st) && exists r :: Next(cfg, s.st, c, s'.st, r)
  }

  /** `ops` may have led from the empty ledger to `s`. */
  ghost predicate Reached(cfg: Config, ops: seq<BookOp>, s: Session)
    decreases |ops|, 0
  {
    if ops == [] then s == START else ReachedBy(cfg, ops[..|ops| - 1], ops[|ops| - 1], s)
  }

  ghost predicate ReachedBy(cfg: Config, before: seq<BookOp>, op: BookOp, s: Session)
    decreases |before|, 1
  {
    exists t: Session :: Reached(cfg, before, t) && OpNext(cfg, t, op, s)
  }

  // ----- well-formed books -----

  predicate Belongs(e: Entry, slot: int, side: string) {
    e.slot == slot && e.side == side
  }

  /** What tells the bids apart: the event in the shared maps, the transaction otherwise. */
  function IdOf(exp: Exp, e: Entry): string {
    if exp.Exp1? then e.event else e.tx
  }

  /** Bids on either side, with IDs of their own; no transaction ID is the private-key suffix. */
  ghost predicate Sound(exp: Exp, book: Book) {
    book == [] ||
    (var n := |book| - 1;
     && Sound(exp, book[..n]) && Side(book[n].side) && (!exp.Exp1? ==> book[n].tx != PRIVKEY)
     && forall i :: 0 <= i < n ==> IdOf(exp, book[i]) != IdOf(exp, book[n]))
  }

  lemma SoundBefore(cfg: Config, s: Session, op: BookOp, s': Session, exp: Exp)
    requires OpNext(cfg, s, op, s') && Sound(exp, s'.book)
    ensures Sound(exp, s.book)
  {
    match op
    case Post(c) => assert (s.book + [EntryOf(c)])[..|s.book|] == s.book;
    case Again(i, _, _) =>
      if i < |s.book| { assert (s.book + [EntryOf(AgainCall(s, op))])[..|s.book|] == s.book; }
    case Publish(i, privKey, _, _, _) => if i < |s.book| { SoundWithKey(exp, s.book, i, Some(privKey)); }
    case Other(_) =>
  }

  lemma {:induction false} SoundWithKey(exp: Exp, book: Book, i: nat, key: Option<Bytes>)
    requires i < |book|
    ensures Sound(exp, book[i := book[i].(key := key)]) <==> Sound(exp, book)
  {
    var n, book' := |book| - 1, book[i := book[i].(key := key)];
    if i < n {
      SoundWithKey(exp, book[..n], i, key);
      assert book'[..n] == book[..n][i := book[..n][i].(key := key)];
    } else {
      assert book'[..n] == book[..n];
    }
    assert forall j :: 0 <= j < n ==> IdOf(exp, book'[j]) == IdOf(exp, book[j]);
  }

  lemma {:induction false} SoundSides(exp: Exp, book: Book, i: nat)
    requires Sound(exp, book) && i < |book|
    ensures Side(book[i].side) && (!exp.Exp1? ==> book[i].tx != PRIVKEY)
  {
    if i < |book| - 1 { SoundSides(exp, book[..|book| - 1], i); }
  }

  lemma {:induction false} SoundIds(exp: Exp, book: Book, i: nat, j: nat)
    requires Sound(exp, book) && i < j < |book|
    ensures IdOf(exp, book[i]) != IdOf(exp, book[j])
  {
    if j < |book| - 1 { SoundIds(exp, book[..|book| - 1], i, j); }
  }

  // ----- keys among the bids -----

  ghost predicate SameSided(store: map<Key, Bytes>, store': map<Key, Bytes>) {
    forall k :: Sided(k) ==> (k in store <==> k in store') && (k in store ==> store[k] == store'[k])
  }

  /** Any other call leaves everything filed among the bids as it is. */
  lemma OtherKeepsSided(cfg: Config, st: State, c: Call, st': State, r: Response)
    requires Elsewhere(cfg, c) && Next(cfg, st, c, st', r)
    ensures SameSided(st.store, st'.store)
  {
    OnlyTargetWritten(cfg, st, c, st', r);
  }

  // ----- experiment 1: the shared maps -----

  ghost function BidTable(book: Book, slot: int, side: string): Table {
    if book == [] then map[]
    else
      var t, e := BidTable(book[..|book| - 1], slot, side), book[|book| - 1];
      if Belongs(e, slot, side) then t[e.event := e.data] else t
  }

  /** What `postKey` files for an entry of the shared map. */
  function KeyRecord(codec: Codec, slot: int, side: string, privKey: Bytes, event: string): Bytes {
    codec.encodePostKeyInput(PostKeyInput(SlotKey(slot, side), privKey, event))
  }

  ghost function KeyTable(codec: Codec, book: Book, slot: int, side: string): Table {
    if book == [] then map[]
    else
      var t, e := KeyTable(codec, book[..|book| - 1], slot, side), book[|book| - 1];
      if Belongs(e, slot, side) && e.key.Some?
      then t[e.event := KeyRecord(codec, slot, side, e.key.value, e.event)] else t
  }

  lemma {:induction false} BidTableAt(book: Book, slot: int, side: string, i: nat)
    requires Sound(Exp1, book) && i < |book| && Belongs(book[i], slot, side)
    ensures book[i].event in BidTable(book, slot, side)
    ensures BidTable(book, slot, side)[book[i].event] == book[i].data
  {
    var n := |book| - 1;
    if i < n {
      BidTableAt(book[..n], slot, side, i);
      assert book[i].event != book[n].event;
    }
  }

  lemma {:induction false} BidTableOnly(book: Book, slot: int, side: string, event: string)
    requires event in BidTable(book, slot, side)
    ensures exists i :: 0 <= i < |book| && Belongs(book[i], slot, side) && book[i].event == event
  {
    var n := |book| - 1;
    if !(Belongs(book[n], slot, side) && book[n].event == event) {
      BidTableOnly(book[..n], slot, side, event);
      var i :| 0 <= i < n && Belongs(book[..n][i], slot, side) && book[..n][i].event == event;
      assert book[i].event == event;
    }
  }

  lemma {:induction false} KeyTableOnly(codec: Codec, book: Book, slot: int, side: string, event: string)
    requires event in KeyTable(codec, book, slot, side)
    ensures exists i :: 0 <= i < |book| && Belongs(book[i], slot, side) && book[i].event == event && book[i].key.Some?
  {
    var n := |book| - 1;
    if !(Belongs(book[n], slot, side) && book[n].event == event && book[n].key.Some?) {
      KeyTableOnly(codec, book[..n], slot, side, event);
      var i :| 0 <= i < n && Belongs(book[..n][i], slot, side) && book[..n][i].event == event && book[..n][i].key.Some?;
      assert book[i].key.Some?;
    }
  }

  lemma {:induction false} KeyTableAt(codec: Codec, book: Book, slot: int, side: string, i: nat)
    requires Sound(Exp1, book) && i < |book| && Belongs(book[i], slot, side)
    ensures book[i].event in KeyTable(codec, book, slot, side) <==> book[i].key.Some?
    ensures book[i].key.Some? ==>
              KeyTable(codec, book, slot, side)[book[i].event] ==
              KeyRecord(codec, slot, side, book[i].key.value, book[i].event)
  {
    var n := |book| - 1;
    if i < n {
      KeyTableAt(codec, book[..n], slot, side, i);
      assert book[i].event != book[n].event;
    } else if book[n].event in KeyTable(codec, book[..n], slot, side) {
      KeyTableOnly(codec, book[..n], slot, side, book[n].event);
    }
  }

  /** Publishing a key changes no bid, and sets one entry of one key map. */
  lemma {:induction false} TablesWithKey(codec: Codec, book: Book, i: nat, privKey: Bytes, slot: int, side: string)
    requires Sound(Exp1, book) && i < |book|
    ensures var book', e := book[i := book[i].(key := Some(privKey))], book[i];
            && BidTable(book', slot, side) == BidTable(book, slot, side)
            && KeyTable(codec, book', slot, side) ==
                 if Belongs(e, slot, side)
                 then KeyTable(codec, book, slot, side)[e.event := KeyRecord(codec, slot, side, privKey, e.event)]
                 else KeyTable(codec, book, slot, side)
  {
    var n, book' := |book| - 1, book[i := book[i].(key := Some(privKey))];
    if i < n {
      TablesWithKey(codec, book[..n], i, privKey, slot, side);
      assert book'[..n] == book[..n][i := book[..n][i].(key := Some(privKey))];
      assert book[i].event != book[n].event;
    } else {
      assert book'[..n] == book[..n];
    }
  }

  /** A map the contract keeps under one key: absent while empty. */
  ghost predicate Holds(codec: Codec, store: map<Key, Bytes>, k: Key, t: Table) {
    if t == map[] then k !in store else k in store && store[k] == codec.encodeTable(t)
  }

  ghost predicate SharedAt(codec: Codec, store: map<Key, Bytes>, book: Book, slot: int, side: string) {
    && Holds(codec, store, SlotKey(slot, side), BidTable(book, slot, side))
    && Holds(codec, store, PrivKeyOf(SlotKey(slot, side)), KeyTable(codec, book, slot, side))
  }

  /** The store of experiment 1 holds the book. */
  ghost predicate Shared(codec: Codec, store: map<Key, Bytes>, book: Book) {
    forall slot, side :: Side(side) ==> SharedAt(codec, store, book, slot, side)
  }

  lemma SideKeysApart(s: int, a: string, t: int, b: string)
    ensures SlotKey(s, a) == SlotKey(t, b) <==> s == t && a == b
    ensures PrivKeyOf(SlotKey(s, a)) == PrivKeyOf(SlotKey(t, b)) <==> s == t && a == b
    ensures SlotKey(s, a) != PrivKeyOf(SlotKey(t, b))
  {
    KeysApart(s, a, t, b);
    PrivKeysApart(SlotKey(s, a), SlotKey(t, b), t, "");
    assert |SlotKey(s, a)| == 3 && |PrivKeyOf(SlotKey(t, b))| == 5;
  }

  /** `Upsert`, when accepted, sets one entry of one map; only a store fault makes it fail. */
  lemma UpsertHolds(cfg: Config, st: State, c: Call, k: Key, entry: string, val: Bytes, t: Table)
    requires Lawful(cfg.codec) && Holds(cfg.codec, st.store, k, t)
    ensures var (st', r) := Upsert(cfg, st, c, k, entry, val);
            && (r == Accepted(k) <==> k !in c.faults.get && k !in c.faults.put)
            && (r == Accepted(k) ==> st'.store == st.store[k := cfg.codec.encodeTable(t[entry := val])])
            && (r != Accepted(k) ==> r.Rejected? && st'.store == st.store)
  {
  }

  lemma HoldsSet(codec: Codec, store: map<Key, Bytes>, k: Key, t: Table, entry: string, val: Bytes, l: Key, u: Table)
    requires l == k ==> u == t[entry := val]
    requires l != k ==> Holds(codec, store, l, u)
    ensures Holds(codec, store[k := codec.encodeTable(t[entry := val])], l, u)
  {
    assert entry in t[entry := val];
  }

  lemma PostSharedAt(codec: Codec, store: map<Key, Bytes>, book: Book, e: Entry, slot: int, side: string)
    requires SharedAt(codec, store, book, slot, side) && SharedAt(codec, store, book, e.slot, e.side) && e.key.None?
    ensures var store' := store[SlotKey(e.slot, e.side) :=
                                codec.encodeTable(BidTable(book, e.slot, e.side)[e.event := e.data])];
            SharedAt(codec, store', book + [e], slot, side)
  {
    var t, book' := BidTable(book, e.slot, e.side), book + [e];
    assert book'[..|book|] == book;
    SideKeysApart(e.slot, e.side, slot, side);
    HoldsSet(codec, store, SlotKey(e.slot, e.side), t, e.event, e.data,
             SlotKey(slot, side), BidTable(book', slot, side));
    HoldsSet(codec, store, SlotKey(e.slot, e.side), t, e.event, e.data,
             PrivKeyOf(SlotKey(slot, side)), KeyTable(codec, book', slot, side));
  }

  lemma PostShared(cfg: Config, st: State, book: Book, c: Call)
    requires Lawful(cfg.codec) && cfg.exp.Exp1? && Shared(cfg.codec, st.store, book) && Side(c.action)
    ensures var (st', r) := BidStep(cfg, st, c);
            if r.Accepted?
            then r.writeKey == SlotKey(c.slot, c.action) && Shared(cfg.codec, st'.store, book + [EntryOf(c)])
            else st'.store == st.store
  {
    var e := EntryOf(c);
    var (st', r) := BidStep(cfg, st, c);
    assert SharedAt(cfg.codec, st.store, book, c.slot, c.action);
    UpsertHolds(cfg, st, c, SlotKey(c.slot, c.action), c.event, c.data, BidTable(book, c.slot, c.action));
    if r.Accepted? {
      forall slot, side | Side(side) ensures SharedAt(cfg.codec, st'.store, book + [e], slot, side) {
        assert SharedAt(cfg.codec, st.store, book, slot, side);
        PostSharedAt(cfg.codec, st.store, book, e, slot, side);
      }
    }
  }

  lemma PublishSharedAt(codec: Codec, store: map<Key, Bytes>, book: Book, i: nat, privKey: Bytes,
                        slot: int, side: string)
    requires Sound(Exp1, book) && i < |book|
    requires SharedAt(codec, store, book, slot, side) && SharedAt(codec, store, book, book[i].slot, book[i].side)
    ensures var e := book[i];
            var t := KeyTable(codec, book, e.slot, e.side);
            var val := KeyRecord(codec, e.slot, e.side, privKey, e.event);
            var store' := store[PrivKeyOf(SlotKey(e.slot, e.side)) := codec.encodeTable(t[e.event := val])];
            SharedAt(codec, store', book[i := e.(key := Some(privKey))], slot, side)
  {
    var e, book' := book[i], book[i := book[i].(key := Some(privKey))];
    var t, val := KeyTable(codec, book, e.slot, e.side), KeyRecord(codec, e.slot, e.side, privKey, e.event);
    var k := PrivKeyOf(SlotKey(e.slot, e.side));
    TablesWithKey(codec, book, i, privKey, slot, side);
    SideKeysApart(slot, side, e.slot, e.side);
    HoldsSet(codec, store, k, t, e.event, val, SlotKey(slot, side), BidTable(book', slot, side));
    HoldsSet(codec, store, k, t, e.event, val, PrivKeyOf(SlotKey(slot, side)), KeyTable(codec, book', slot, side));
  }

  lemma PublishShared(cfg: Config, s: Session, op: BookOp)
    requires Lawful(cfg.codec) && cfg.exp.Exp1? && Shared(cfg.codec, s.st.store, s.book) && Sound(Exp1, s.book)
    requires op.Publish? && op.index < |s.book|
    requires s.recorded[op.index] == SlotKey(s.book[op.index].slot, s.book[op.index].side)
    ensures var e := s.book[op.index];
            var (st', r) := PostKeyStep(cfg, s.st, PublishCall(cfg.codec, s, op));
            if r.Accepted? then Shared(cfg.codec, st'.store, s.book[op.index := e.(key := Some(op.privKey))])
            else st'.store == s.st.store
  {
    var i, e := op.index, s.book[op.index];
    var c := PublishCall(cfg.codec, s, op);
    var (st', r) := PostKeyStep(cfg, s.st, c);
    SoundSides(Exp1, s.book, i);
    assert SharedAt(cfg.codec, s.st.store, s.book, e.slot, e.side);
    UpsertHolds(cfg, s.st, c, PrivKeyOf(SlotKey(e.slot, e.side)), e.event, c.data,
                KeyTable(cfg.codec, s.book, e.slot, e.side));
    if r.Accepted? {
      var book' := s.book[i := e.(key := Some(op.privKey))];
      forall slot, side | Side(side) ensures SharedAt(cfg.codec, st'.store, book', slot, side) {
        assert SharedAt(cfg.codec, s.st.store, s.book, slot, side);
        PublishSharedAt(cfg.codec, s.st.store, s.book, i, op.privKey, slot, side);
      }
    }
  }

  /** A bid that is already in the book leaves the store as it is when it commits again. */
  lemma AgainShared(cfg: Config, s: Session, op: BookOp)
    requires Lawful(cfg.codec) && cfg.exp.Exp1? && Shared(cfg.codec, s.st.store, s.book) && Sound(Exp1, s.book)
    requires op.Again? && op.index < |s.book|
    ensures BidStep(cfg, s.st, AgainCall(s, op)).0.store == s.st.store
  {
    var e, c := s.book[op.index], AgainCall(s, op);
    var t := BidTable(s.book, e.slot, e.side);
    SoundSides(Exp1, s.book, op.index);
    assert SharedAt(cfg.codec, s.st.store, s.book, e.slot, e.side);
    BidTableAt(s.book, e.slot, e.side, op.index);
    UpsertHolds(cfg, s.st, c, SlotKey(e.slot, e.side), e.event, e.data, t);
    assert t[e.event := e.data] == t;
  }

  lemma OtherShared(codec: Codec, store: map<Key, Bytes>, store': map<Key, Bytes>, book: Book)
    requires Shared(codec, store, book) && SameSided(store, store')
    ensures Shared(codec, store', book)
  {
    forall slot, side | Side(side) ensures SharedAt(codec, store', book, slot, side) {
      assert SharedAt(codec, store, book, slot, side);
      assert Sided(SlotKey(slot, side)) && Sided(PrivKeyOf(SlotKey(slot, side)));
    }
  }

  /** The store of experiment 1 holds the book, and every bid was answered with the key of its map. */
  ghost predicate SharedSession(codec: Codec, s: Session) {
    && Shared(codec, s.st.store, s.book)
    && forall i :: 0 <= i < |s.book| ==> s.recorded[i] == SlotKey(s.book[i].slot, s.book[i].side)
  }

  /** In experiment 1 every history leaves the store holding its book. */
  lemma {:induction false} SharedRun(cfg: Config, ops: seq<BookOp>, s: Session)
    requires Lawful(cfg.codec) && cfg.exp.Exp1? && Reached(cfg, ops, s) && Sound(Exp1, s.book)
    ensures SharedSession(cfg.codec, s)
  {
    if ops == [] {
      assert forall slot, side :: Side(side) ==> SharedAt(cfg.codec, GENESIS.store, [], slot, side);
    } else {
      var n := |ops| - 1;
      var t: Session :| Reached(cfg, ops[..n], t) && OpNext(cfg, t, ops[n], s);
      SoundBefore(cfg, t, ops[n], s, Exp1);
      SharedRun(cfg, ops[..n], t);
      SharedStep(cfg, t, ops[n], s);
    }
  }

  lemma SharedStep(cfg: Config, t: Session, op: BookOp, s: Session)
    requires Lawful(cfg.codec) && cfg.exp.Exp1? && SharedSession(cfg.codec, t)
    requires Sound(Exp1, t.book) && OpNext(cfg, t, op, s)
    ensures SharedSession(cfg.codec, s)
  {
    match op
    case Post(c) => PostShared(cfg, t.st, t.book, c);
    case Again(i, _, _) => if i < |t.book| { AgainShared(cfg, t, op); }
    case Publish(i, _, _, _, _) => if i < |t.book| { PublishShared(cfg, t, op); }
    case Other(c) =>
      var r :| Next(cfg, t.st, c, s.st, r);
      OtherKeepsSided(cfg, t.st, c, s.st, r);
      OtherShared(cfg.codec, t.st.store, s.st.store, t.book);
  }

  // ----- experiment 3: one key each -----

  function KeyOf(e: Entry): Key {
    TxKey(e.slot, e.side, e.tx)
  }

  ghost predicate SlicedAt(codec: Codec, store: map<Key, Bytes>, e: Entry) {
    var k := KeyOf(e);
    && k in store && store[k] == e.data
    && (PrivKeyOf(k) in store <==> e.key.Some?)
    && (e.key.Some? ==> store[PrivKeyOf(k)] == codec.encodePostKeyOutput(PostKeyOutput(PrivKeyOf(k), e.key.value)))
  }

  /** `k` is a key of some entry of the book: its bid, or its private key. */
  ghost predicate Filed(book: Book, k: Key) {
    exists i :: 0 <= i < |book| && (k == KeyOf(book[i]) || k == PrivKeyOf(KeyOf(book[i])))
  }

  /** The store of experiment 3 holds the book, and nothing else among the bids. */
  ghost predicate Sliced(codec: Codec, store: map<Key, Bytes>, book: Book) {
    && (forall i :: 0 <= i < |book| ==> SlicedAt(codec, store, book[i]))
    && (forall k :: k in store && Sided(k) ==> Filed(book, k))
  }

  lemma EntryKeysApart(d: Entry, e: Entry)
    requires d.tx != e.tx
    ensures KeyOf(d) != KeyOf(e) && PrivKeyOf(KeyOf(d)) != PrivKeyOf(KeyOf(e))
    ensures KeyOf(d) != PrivKeyOf(KeyOf(e)) && PrivKeyOf(KeyOf(d)) != KeyOf(e)
  {
    TxKeysApart(d.slot, d.side, d.tx, e.slot, e.side, e.tx);
    PrivKeysApart(KeyOf(d), KeyOf(e), 0, "");
    assert |KeyOf(d)| == 5 && |PrivKeyOf(KeyOf(e))| == 7 && |KeyOf(e)| == 5 && |PrivKeyOf(KeyOf(d))| == 7;
  }

  lemma BidSlice(cfg: Config, st: State, c: Call)
    requires !cfg.exp.Exp1?
    ensures var (st', r) := BidStep(cfg, st, c);
            if r.Accepted? then r.writeKey == KeyOf(EntryOf(c)) && st'.store == st.store[KeyOf(EntryOf(c)) := c.data]
            else st'.store == st.store
  {
  }

  lemma PostSliced(cfg: Config, st: State, book: Book, c: Call, st': State, r: Response)
    requires cfg.exp.Exp3? && Sliced(cfg.codec, st.store, book) && (st', r) == BidStep(cfg, st, c)
    requires Sound(Exp3, book + [EntryOf(c)]) && r.Accepted?
    ensures r.writeKey == KeyOf(EntryOf(c)) && Sliced(cfg.codec, st'.store, book + [EntryOf(c)])
  {
    BidSlice(cfg, st, c);
    FiledWithEntry(cfg.codec, st.store, book, EntryOf(c));
  }

  lemma FiledWithEntry(codec: Codec, store: map<Key, Bytes>, book: Book, e: Entry)
    requires Sliced(codec, store, book) && Sound(Exp3, book + [e]) && e.key.None?
    ensures Sliced(codec, store[KeyOf(e) := e.data], book + [e])
  {
    var n, book', store' := |book|, book + [e], store[KeyOf(e) := e.data];
    assert Side(e.side) && Sided(PrivKeyOf(KeyOf(e)));
    forall i | 0 <= i < |book'| ensures SlicedAt(codec, store', book'[i]) {
      if i < n {
        SoundIds(Exp3, book', i, n);
        EntryKeysApart(book[i], e);
      } else if PrivKeyOf(KeyOf(e)) in store {
        NotFiled(book', e);
      }
    }
    forall k | k in store' && Sided(k) ensures Filed(book', k) {
      if k == KeyOf(e) { assert k == KeyOf(book'[n]); } else { FiledLonger(book, e, k); }
    }
  }

  lemma FiledLonger(book: Book, e: Entry, k: Key)
    requires Filed(book, k)
    ensures Filed(book + [e], k)
  {
    var i :| 0 <= i < |book| && (k == KeyOf(book[i]) || k == PrivKeyOf(KeyOf(book[i])));
    assert (book + [e])[i] == book[i];
  }

  lemma NotFiled(book: Book, e: Entry)
    requires book != [] && Sound(Exp3, book) && e == book[|book| - 1]
    ensures !Filed(book[..|book| - 1], PrivKeyOf(KeyOf(e)))
  {
    var before, k := book[..|book| - 1], PrivKeyOf(KeyOf(e));
    if i :| 0 <= i < |before| && (k == KeyOf(before[i]) || k == PrivKeyOf(KeyOf(before[i]))) {
      SoundIds(Exp3, book, i, |book| - 1);
      EntryKeysApart(before[i], e);
    }
  }

  lemma PublishSlicedAt(codec: Codec, store: map<Key, Bytes>, book: Book, i: nat, privKey: Bytes, j: nat)
    requires Sound(Exp3, book) && i < |book| && j < |book| && SlicedAt(codec, store, book[j])
    ensures var k := PrivKeyOf(KeyOf(book[i]));
            SlicedAt(codec, store[k := codec.encodePostKeyOutput(PostKeyOutput(k, privKey))],
                     book[i := book[i].(key := Some(privKey))][j])
  {
    var k := PrivKeyOf(KeyOf(book[i]));
    assert |KeyOf(book[i])| == 5 && |k| == 7;
    if j < i {
      SoundIds(Exp3, book, j, i);
      EntryKeysApart(book[j], book[i]);
    } else if j > i {
      SoundIds(Exp3, book, i, j);
      EntryKeysApart(book[j], book[i]);
    }
  }

  lemma PublishFiled(book: Book, i: nat, privKey: Bytes, k: Key)
    requires i < |book| && (Filed(book, k) || k == PrivKeyOf(KeyOf(book[i])))
    ensures Filed(book[i := book[i].(key := Some(privKey))], k)
  {
    var book' := book[i := book[i].(key := Some(privKey))];
    if k == PrivKeyOf(KeyOf(book[i])) {
      assert k == PrivKeyOf(KeyOf(book'[i]));
    } else {
      var j :| 0 <= j < |book| && (k == KeyOf(book[j]) || k == PrivKeyOf(KeyOf(book[j])));
      assert KeyOf(book'[j]) == KeyOf(book[j]);
    }
  }

  lemma FiledWithKey(codec: Codec, store: map<Key, Bytes>, book: Book, i: nat, privKey: Bytes)
    requires Sliced(codec, store, book) && Sound(Exp3, book) && i < |book|
    ensures var k := PrivKeyOf(KeyOf(book[i]));
            Sliced(codec, store[k := codec.encodePostKeyOutput(PostKeyOutput(k, privKey))],
                   book[i := book[i].(key := Some(privKey))])
  {
    var k, book' := PrivKeyOf(KeyOf(book[i])), book[i := book[i].(key := Some(privKey))];
    var store' := store[k := codec.encodePostKeyOutput(PostKeyOutput(k, privKey))];
    forall j | 0 <= j < |book'| ensures SlicedAt(codec, store', book'[j]) {
      PublishSlicedAt(codec, store, book, i, privKey, j);
    }
    forall l | l in store' && Sided(l) ensures Filed(book', l) {
      PublishFiled(book, i, privKey, l);
    }
  }

  lemma PublishSliced(cfg: Config, s: Session, op: BookOp)
    requires Lawful(cfg.codec) && cfg.exp.Exp3? && Sliced(cfg.codec, s.st.store, s.book) && Sound(Exp3, s.book)
    requires op.Publish? && op.index < |s.book| && s.recorded[op.index] == KeyOf(s.book[op.index])
    ensures var e := s.book[op.index];
            var (st', r) := PostKeyStep(cfg, s.st, PublishCall(cfg.codec, s, op));
            if r.Accepted? then Sliced(cfg.codec, st'.store, s.book[op.index := e.(key := Some(op.privKey))])
            else st'.store == s.st.store
  {
    FiledWithKey(cfg.codec, s.st.store, s.book, op.index, op.privKey);
  }

  lemma OtherSliced(codec: Codec, store: map<Key, Bytes>, store': map<Key, Bytes>, book: Book)
    requires Sliced(codec, store, book) && Sound(Exp3, book) && SameSided(store, store')
    ensures Sliced(codec, store', book)
  {
    forall i | 0 <= i < |book| ensures SlicedAt(codec, store', book[i]) {
      SoundSides(Exp3, book, i);
      assert SlicedAt(codec, store, book[i]);
      assert Sided(KeyOf(book[i])) && Sided(PrivKeyOf(KeyOf(book[i])));
    }
  }

  /** The store of experiment 3 holds the book, and every bid was answered with its own key. */
  ghost predicate SlicedSession(codec: Codec, s: Session) {
    && Sliced(codec, s.st.store, s.book)
    && forall i :: 0 <= i < |s.book| ==> s.recorded[i] == KeyOf(s.book[i])
  }

  /** In experiment 3 every history leaves the store holding its book. */
  lemma {:induction false} SlicedRun(cfg: Config, ops: seq<BookOp>, s: Session)
    requires Lawful(cfg.codec) && cfg.exp.Exp3? && Reached(cfg, ops, s) && Sound(Exp3, s.book)
    ensures SlicedSession(cfg.codec, s)
  {
    if ops != [] {
      var n := |ops| - 1;
      var t: Session :| Reached(cfg, ops[..n], t) && OpNext(cfg, t, ops[n], s);
      SoundBefore(cfg, t, ops[n], s, Exp3);
      SlicedRun(cfg, ops[..n], t);
      SlicedStep(cfg, t, ops[n], s);
    }
  }

  lemma SlicedStep(cfg: Config, t: Session, op: BookOp, s: Session)
    requires Lawful(cfg.codec) && cfg.exp.Exp3? && SlicedSession(cfg.codec, t)
    requires Sound(Exp3, s.book) && OpNext(cfg, t, op, s)
    ensures SlicedSession(cfg.codec, s)
  {
    SoundBefore(cfg, t, op, s, Exp3);
    match op
    case Post(c) =>
      var (st, r) := BidStep(cfg, t.st, c);
      BidSlice(cfg, t.st, c);
      if r.Accepted? { PostSliced(cfg, t.st, t.book, c, st, r); }
    case Again(i, _, _) =>
      if i < |t.book| {
        var c := AgainCall(t, op);
        var (st, r) := BidStep(cfg, t.st, c);
        SoundSides(Exp3, t.book, i);
        BidSlice(cfg, t.st, c);
        if r.Accepted? { PostSliced(cfg, t.st, t.book, c, st, r); }
      }
    case Publish(i, _, _, _, _) => if i < |t.book| { PublishSliced(cfg, t, op); }
    case Other(c) =>
      var r :| Next(cfg, t.st, c, s.st, r);
      OtherKeepsSided(cfg, t.st, c, s.st, r);
      OtherSliced(cfg.codec, t.st.store, s.st.store, t.book);
  }
}
