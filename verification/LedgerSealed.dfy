/** Which bids `markEnd` settles: exactly those that open.  In experiments 1 and 3 each with the key
    posted for it, in experiment 2 all with the key the regulator posts. */
module LedgerSealed {
  import opened AuctionCurves
  import opened LedgerBook
  import opened LedgerCollections
  import opened LedgerKeys
  import opened LedgerModel
  import opened LedgerTwoModels
  import opened Multisets
  import opened Options

  /** What is sealed in `data`, for one who holds `key`. */
  function OpenedWith(codec: Codec, key: PrivKey, data: Bytes): Option<Bid> {
    match codec.decrypt(data, key)
    case Some(plain) => codec.decodeBid(plain)
    case None => None
  }

  /** What is sealed in an entry, for one who holds the key posted for it. */
  function OpenedByPosted(codec: Codec, e: Entry): Option<Bid> {
    match e.key
    case None => None
    case Some(pem) =>
      match codec.loadKey(pem)
      case Some(key) => OpenedWith(codec, key, e.data)
      case None => None
  }

  function Posted(codec: Codec): Entry -> Option<Bid> {
    (e: Entry) => OpenedByPosted(codec, e)
  }

  function Holding(codec: Codec, key: PrivKey): Entry -> Option<Bid> {
    (e: Entry) => OpenedWith(codec, key, e.data)
  }

  /** The bids of a slot and side that open, each as often as it was accepted. */
  ghost function OpenBids(book: Book, slot: int, side: string, look: Entry -> Option<Bid>): multiset<Bid> {
    if book == [] then multiset{}
    else
      var rest, e := OpenBids(book[..|book| - 1], slot, side, look), book[|book| - 1];
      if e.slot == slot && e.side == side && look(e).Some? then rest + multiset{look(e).value} else rest
  }

  lemma {:induction false} OpenBidsMember(book: Book, slot: int, side: string, look: Entry -> Option<Bid>, i: nat)
    requires i < |book| && book[i].slot == slot && book[i].side == side && look(book[i]).Some?
    ensures look(book[i]).value in OpenBids(book, slot, side, look)
  {
    if i < |book| - 1 { OpenBidsMember(book[..|book| - 1], slot, side, look, i); }
  }

  lemma GoodNext(log: seq<Decoded>, d: Decoded)
    ensures multiset(GoodBids(log + [d])) == multiset(GoodBids(log)) + BidOf(d)
  {
    assert (log + [d])[..|log|] == log;
    assert GoodBids(log) + [] == GoodBids(log);
  }

  lemma UnsealOpens(codec: Codec, key: PrivKey, data: Bytes)
    ensures BidOf(Unseal(codec, key, data)) ==
            if OpenedWith(codec, key, data).Some? then multiset{OpenedWith(codec, key, data).value} else multiset{}
  {
  }

  // ----- experiments 1 and 3 -----

  lemma ReadOpens(codec: Codec, e: Entry)
    ensures BidOf(ReadEntry(codec, e, [])) ==
            if OpenedByPosted(codec, e).Some? then multiset{OpenedByPosted(codec, e).value} else multiset{}
  {
    if e.key.Some? && codec.loadKey(e.key.value).Some? {
      UnsealOpens(codec, codec.loadKey(e.key.value).value, e.data);
    }
  }

  /** The bids collected in experiments 1 and 3 are exactly those that open with the key posted for
      them. */
  lemma {:induction false} BookBidsExactly(codec: Codec, book: Book, slot: int, side: string)
    ensures BookBids(codec, book, slot, side) == OpenBids(book, slot, side, Posted(codec))
  {
    if book != [] {
      var before, e := book[..|book| - 1], book[|book| - 1];
      BookBidsExactly(codec, before, slot, side);
      if Belongs(e, slot, side) {
        GoodNext(BookLog(codec, before, slot, side, []), ReadEntry(codec, e, []));
        ReadOpens(codec, e);
      }
    }
  }

  lemma CollectsPosted(cfg: Config, ops: seq<BookOp>, s: Session, c: Call, side: string)
    requires !cfg.exp.Exp2? && Lawful(cfg.codec) && Reached(cfg, ops, s) && Sound(cfg.exp, s.book) && Side(side)
    requires Undisturbed(c, s.st.store) && Collect(cfg, s.st.store, c, side, PrivKey(0, 0)).Gathered?
    ensures Yield(Collect(cfg, s.st.store, c, side, PrivKey(0, 0))) == OpenBids(s.book, c.slot, side, Posted(cfg.codec))
  {
    BookBidsExactly(cfg.codec, s.book, c.slot, side);
    if cfg.exp.Exp1? {
      SharedRun(cfg, ops, s);
      SharedReads(cfg, s, c, side);
    } else {
      SlicedRun(cfg, ops, s);
      SlicedReads(cfg, s, c, side, PrivKey(0, 0));
    }
  }

  /** After any history, what `markEnd` announces in experiments 1 and 3 is the market of the bids that
      open with the keys posted for them. */
  lemma PostedSettles(cfg: Config, ops: seq<BookOp>, s: Session, c: Call, st': State, r: Response)
    requires !cfg.exp.Exp2? && Lawful(cfg.codec) && Reached(cfg, ops, s) && Sound(cfg.exp, s.book)
    requires Undisturbed(c, s.st.store) && MarkEndNext(cfg, s.st, c, st', r) && r.Settled?
    requires NonNegative(OpenBids(s.book, c.slot, "buy", Posted(cfg.codec)))
    requires NonNegative(OpenBids(s.book, c.slot, "sell", Posted(cfg.codec)))
    ensures Announces(r.out, OpenBids(s.book, c.slot, "buy", Posted(cfg.codec)),
                      OpenBids(s.book, c.slot, "sell", Posted(cfg.codec)))
  {
    MarkEndTrades(cfg, s.st, c, st', r);
    CollectsPosted(cfg, ops, s, c, "buy");
    CollectsPosted(cfg, ops, s, c, "sell");
    NonNegativeIf(cfg, s.st, c, [], PrivKey(0, 0));
    MarkEndClearsMarket(cfg, s.st, c, st', r);
  }

  // ----- experiment 2 -----

  ghost predicate SealedAt(store: map<Key, Bytes>, e: Entry) {
    KeyOf(e) in store && store[KeyOf(e)] == e.data
  }

  /** `k` is the key of some bid. */
  ghost predicate BidKey(book: Book, k: Key) {
    exists i :: 0 <= i < |book| && k == KeyOf(book[i])
  }

  /** The store of experiment 2 holds the bids of the book, and nothing else among them. */
  ghost predicate Sealed(store: map<Key, Bytes>, book: Book) {
    && (forall i :: 0 <= i < |book| ==> SealedAt(store, book[i]))
    && (forall k :: k in store && Sided(k) ==> BidKey(book, k))
  }

  lemma BidSealed(store: map<Key, Bytes>, book: Book, e: Entry)
    requires Sealed(store, book) && Sound(Exp2, book + [e])
    ensures Sealed(store[KeyOf(e) := e.data], book + [e])
  {
    var n, book', store' := |book|, book + [e], store[KeyOf(e) := e.data];
    forall i | 0 <= i < |book'| ensures SealedAt(store', book'[i]) {
      if i < n {
        SoundIds(Exp2, book', i, n);
        EntryKeysApart(book[i], e);
        assert SealedAt(store, book[i]);
      }
    }
    forall k | k in store' && Sided(k) ensures BidKey(book', k) {
      if k == KeyOf(e) {
        assert k == KeyOf(book'[n]);
      } else {
        var i :| 0 <= i < n && k == KeyOf(book[i]);
        assert book'[i] == book[i];
      }
    }
  }

  lemma KeySealed(store: map<Key, Bytes>, book: Book, i: nat, key: Option<Bytes>)
    requires Sealed(store, book) && i < |book|
    ensures Sealed(store, book[i := book[i].(key := key)])
  {
    var book' := book[i := book[i].(key := key)];
    forall j | 0 <= j < |book'| ensures SealedAt(store, book'[j]) {
      assert SealedAt(store, book[j]);
    }
    forall k | k in store && Sided(k) ensures BidKey(book', k) {
      var j :| 0 <= j < |book| && k == KeyOf(book[j]);
      assert k == KeyOf(book'[j]);
    }
  }

  lemma OtherSealed(store: map<Key, Bytes>, store': map<Key, Bytes>, book: Book)
    requires Sealed(store, book) && Sound(Exp2, book) && SameSided(store, store')
    ensures Sealed(store', book)
  {
    forall i | 0 <= i < |book| ensures SealedAt(store', book[i]) {
      SoundSides(Exp2, book, i);
      assert SealedAt(store, book[i]) && Sided(KeyOf(book[i]));
    }
  }

  lemma EnteredSealed(cfg: Config, t: Session, c: Call, s: Session)
    requires cfg.exp.Exp2? && Sealed(t.st.store, t.book) && Sound(Exp2, s.book)
    requires var (st, r) := BidStep(cfg, t.st, c);
             s == if r.Accepted? then Entered(t, st, c, r.writeKey) else t.(st := st)
    ensures Sealed(s.st.store, s.book)
  {
    BidSlice(cfg, t.st, c);
    if BidStep(cfg, t.st, c).1.Accepted? { BidSealed(t.st.store, t.book, EntryOf(c)); }
  }

  lemma SealedStep(cfg: Config, t: Session, op: BookOp, s: Session)
    requires cfg.exp.Exp2? && Sealed(t.st.store, t.book) && Sound(Exp2, s.book) && OpNext(cfg, t, op, s)
    ensures Sealed(s.st.store, s.book)
  {
    SoundBefore(cfg, t, op, s, Exp2);
    match op
    case Post(c) => EnteredSealed(cfg, t, c, s);
    case Again(i, _, _) => if i < |t.book| { EnteredSealed(cfg, t, AgainCall(t, op), s); }
    case Publish(i, privKey, _, _, _) =>
      if i < |t.book| {
        PostStoresNothing(cfg, t.st, PublishCall(cfg.codec, t, op));
        KeySealed(t.st.store, t.book, i, Some(privKey));
      }
    case Other(c) =>
      var r :| Next(cfg, t.st, c, s.st, r);
      OtherKeepsSided(cfg, t.st, c, s.st, r);
      OtherSealed(t.st.store, s.st.store, t.book);
  }

  lemma PostStoresNothing(cfg: Config, st: State, c: Call)
    requires cfg.exp.Exp2?
    ensures PostKeyStep(cfg, st, c).0.store == st.store
  {
  }

  /** In experiment 2 every history leaves exactly one entry per accepted bid. */
  lemma {:induction false} SealedRun(cfg: Config, ops: seq<BookOp>, s: Session)
    requires cfg.exp.Exp2? && Reached(cfg, ops, s) && Sound(Exp2, s.book)
    ensures Sealed(s.st.store, s.book)
  {
    if ops != [] {
      var n := |ops| - 1;
      var t: Session :| Reached(cfg, ops[..n], t) && OpNext(cfg, t, ops[n], s);
      SoundBefore(cfg, t, ops[n], s, Exp2);
      SealedRun(cfg, ops[..n], t);
      SealedStep(cfg, t, ops[n], s);
    }
  }

  // ----- the regulator's key opens them -----

  /** What the iterator meets, in the order the bids were accepted. */
  ghost function SealedLog(codec: Codec, key: PrivKey, book: Book, slot: int, side: string): seq<Decoded> {
    if book == [] then []
    else
      var rest, e := SealedLog(codec, key, book[..|book| - 1], slot, side), book[|book| - 1];
      if Belongs(e, slot, side) then rest + [Unseal(codec, key, e.data)] else rest
  }

  lemma {:induction false} SealedLogOpens(codec: Codec, key: PrivKey, book: Book, slot: int, side: string)
    ensures multiset(GoodBids(SealedLog(codec, key, book, slot, side))) ==
            OpenBids(book, slot, side, Holding(codec, key))
  {
    if book != [] {
      var before, e := book[..|book| - 1], book[|book| - 1];
      SealedLogOpens(codec, key, before, slot, side);
      if Belongs(e, slot, side) {
        GoodNext(SealedLog(codec, key, before, slot, side), Unseal(codec, key, e.data));
        UnsealOpens(codec, key, e.data);
      }
    }
  }

  lemma SealedEntry(cfg: Config, store: map<Key, Bytes>, book: Book, c: Call, side: string, key: PrivKey, i: nat)
    requires Sealed(store, book) && i < |book| && Belongs(book[i], c.slot, side)
    ensures var m := Entries2(cfg, store, c, side, key);
            KeyOf(book[i]) in m && m[KeyOf(book[i])] == Unseal(cfg.codec, key, book[i].data)
  {
    assert SealedAt(store, book[i]);
    TxKeysApart(c.slot, side, "", book[i].slot, book[i].side, book[i].tx);
  }

  lemma SealedOnly(cfg: Config, store: map<Key, Bytes>, book: Book, c: Call, side: string, key: PrivKey, k: Key)
    requires Sealed(store, book) && Side(side) && k in Entries2(cfg, store, c, side, key)
    ensures exists i :: 0 <= i < |book| && Belongs(book[i], c.slot, side) && KeyOf(book[i]) == k
  {
    assert SlotKey(c.slot, side) <= k && SlotKey(c.slot, side)[2] == side && Sided(k);
    var i :| 0 <= i < |book| && k == KeyOf(book[i]);
    TxKeysApart(c.slot, side, "", book[i].slot, book[i].side, book[i].tx);
  }

  lemma {:induction false} SealedLooksUp(cfg: Config, store: map<Key, Bytes>, book: Book, c: Call, side: string,
                                         key: PrivKey, n: nat)
    requires Sealed(store, book) && n <= |book|
    ensures LooksUp(Entries2(cfg, store, c, side, key), BookKeys(book[..n], c.slot, side),
                    SealedLog(cfg.codec, key, book[..n], c.slot, side))
  {
    if n > 0 {
      SealedLooksUp(cfg, store, book, c, side, key, n - 1);
      assert book[..n][..n - 1] == book[..n - 1];
      if Belongs(book[n - 1], c.slot, side) {
        SealedEntry(cfg, store, book, c, side, key, n - 1);
        LooksUpNext(Entries2(cfg, store, c, side, key), BookKeys(book[..n - 1], c.slot, side),
                    SealedLog(cfg.codec, key, book[..n - 1], c.slot, side), KeyOf(book[n - 1]));
      }
    }
  }

  /** The IDs of experiments 2 and 3 are the same. */
  lemma {:induction false} SameSound(book: Book)
    ensures Sound(Exp2, book) <==> Sound(Exp3, book)
  {
    if book != [] { SameSound(book[..|book| - 1]); }
  }

  lemma SealedOutcomes(cfg: Config, store: map<Key, Bytes>, book: Book, c: Call, side: string, key: PrivKey)
    requires Sealed(store, book) && Sound(Exp2, book) && Side(side)
    ensures Outcomes(Entries2(cfg, store, c, side, key)) == multiset(SealedLog(cfg.codec, key, book, c.slot, side))
  {
    var m := Entries2(cfg, store, c, side, key);
    SealedLooksUp(cfg, store, book, c, side, key, |book|);
    assert book[..|book|] == book;
    SameSound(book);
    KeysOnce(book, c.slot, side);
    forall k | k in BookKeys(book, c.slot, side) ensures k in m {
      KeysOf(book, c.slot, side, k);
      var i :| 0 <= i < |book| && Belongs(book[i], c.slot, side) && KeyOf(book[i]) == k;
      SealedEntry(cfg, store, book, c, side, key, i);
    }
    forall k | k in m ensures k in BookKeys(book, c.slot, side) {
      KeysOf(book, c.slot, side, k);
      SealedOnly(cfg, store, book, c, side, key, k);
    }
    ListedAll(m, BookKeys(book, c.slot, side), SealedLog(cfg.codec, key, book, c.slot, side));
  }

  /** After any history, what experiment 2 collects with a key is exactly what opens with it among the
      bids accepted for the slot and side. */
  lemma SealedCollects(cfg: Config, ops: seq<BookOp>, s: Session, c: Call, side: string, key: PrivKey)
    requires cfg.exp.Exp2? && Reached(cfg, ops, s) && Sound(Exp2, s.book) && Side(side) && Undisturbed(c, s.st.store)
    ensures var col := Collect(cfg, s.st.store, c, side, key);
            && col.Gathered?
            && Gather(col.all, BidOf) == OpenBids(s.book, c.slot, side, Holding(cfg.codec, key))
  {
    SealedRun(cfg, ops, s);
    SealedOutcomes(cfg, s.st.store, s.book, c, side, key);
    GoodGather(SealedLog(cfg.codec, key, s.book, c.slot, side));
    SealedLogOpens(cfg.codec, key, s.book, c.slot, side);
  }

  /** The round trip of experiment 2: a bid sealed for the holder of the key reappears, whatever happened
      before it was accepted and since. */
  lemma SealedRoundTrip(cfg: Config, ops: seq<BookOp>, s: Session, i: nat, b: Bid, key: PrivKey, c: Call)
    requires cfg.exp.Exp2? && Reached(cfg, ops, s) && Sound(Exp2, s.book) && i < |s.book|
    requires cfg.codec.decrypt(s.book[i].data, key) == Some(cfg.codec.encodeBid(b))
    requires cfg.codec.decodeBid(cfg.codec.encodeBid(b)) == Some(b)
    requires c.slot == s.book[i].slot && Undisturbed(c, s.st.store)
    ensures var col := Collect(cfg, s.st.store, c, s.book[i].side, key); col.Gathered? && b in Gather(col.all, BidOf)
  {
    SoundSides(Exp2, s.book, i);
    SealedCollects(cfg, ops, s, c, s.book[i].side, key);
    OpenBidsMember(s.book, c.slot, s.book[i].side, Holding(cfg.codec, key), i);
  }

  lemma KeyPairPosted(cfg: Config, c: Call, pem: Bytes, key: PrivKey)
    requires cfg.exp.Exp2? && cfg.codec.decodeMarkEndInput(c.data) == Some(pem) && cfg.codec.loadKey(pem) == Some(key)
    ensures KeyPair(cfg, c) == Success((pem, key))
  {
  }

  lemma NonNegativeIf(cfg: Config, st: State, c: Call, pem: Bytes, key: PrivKey)
    requires KeyPair(cfg, c) == Success((pem, key))
    requires BidsNonNegative(Collect(cfg, st.store, c, "buy", key))
    requires BidsNonNegative(Collect(cfg, st.store, c, "sell", key))
    ensures NonNegativeBids(cfg, st, c)
  {
  }

  /** And what `markEnd` announces in experiment 2 is the market of the bids that open with the key the
      regulator posts, which it makes public. */
  lemma RegulatorSettles(cfg: Config, ops: seq<BookOp>, s: Session, c: Call, st': State, r: Response,
                         pem: Bytes, key: PrivKey)
    requires cfg.exp.Exp2? && Reached(cfg, ops, s) && Sound(Exp2, s.book) && Undisturbed(c, s.st.store)
    requires cfg.codec.decodeMarkEndInput(c.data) == Some(pem) && cfg.codec.loadKey(pem) == Some(key)
    requires MarkEndNext(cfg, s.st, c, st', r) && r.Settled?
    requires NonNegative(OpenBids(s.book, c.slot, "buy", Holding(cfg.codec, key)))
    requires NonNegative(OpenBids(s.book, c.slot, "sell", Holding(cfg.codec, key)))
    ensures r.out.privKey == pem
    ensures Announces(r.out, OpenBids(s.book, c.slot, "buy", Holding(cfg.codec, key)),
                      OpenBids(s.book, c.slot, "sell", Holding(cfg.codec, key)))
  {
    SealedCollects(cfg, ops, s, c, "buy", key);
    SealedCollects(cfg, ops, s, c, "sell", key);
    KeyPairPosted(cfg, c, pem, key);
    NonNegativeIf(cfg, s.st, c, pem, key);
    MarkEndClearsMarket(cfg, s.st, c, st', r);
  }
}
