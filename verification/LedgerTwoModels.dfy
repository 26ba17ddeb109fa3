/** Collecting from either data model is reading the book: the two experiments settle alike, a key
    posted for a bid opens it, and a repeated commit counts once or twice. */
module LedgerTwoModels {
  import opened AuctionCurves
  import opened LedgerBook
  import opened LedgerClosure
  import opened LedgerCollections
  import opened LedgerKeys
  import opened LedgerModel
  import opened Multisets
  import opened Options

  /** What becomes of an entry: opened with its private key, or counted as `missing` says. */
  function ReadEntry(codec: Codec, e: Entry, missing: seq<Counter>): Decoded {
    if e.key.Some? then Open(codec, e.key.value, e.data) else Bad(missing)
  }

  /** The entries of a slot and side, read in the order they were placed. */
  ghost function BookLog(codec: Codec, book: Book, slot: int, side: string, missing: seq<Counter>): seq<Decoded> {
    if book == [] then []
    else
      var rest, e := BookLog(codec, book[..|book| - 1], slot, side, missing), book[|book| - 1];
      if Belongs(e, slot, side) then rest + [ReadEntry(codec, e, missing)] else rest
  }

  ghost function BookEvents(book: Book, slot: int, side: string): seq<string> {
    if book == [] then []
    else
      var rest, e := BookEvents(book[..|book| - 1], slot, side), book[|book| - 1];
      if Belongs(e, slot, side) then rest + [e.event] else rest
  }

  ghost function BookKeys(book: Book, slot: int, side: string): seq<Key> {
    if book == [] then []
    else
      var rest, e := BookKeys(book[..|book| - 1], slot, side), book[|book| - 1];
      if Belongs(e, slot, side) then rest + [KeyOf(e)] else rest
  }

  lemma {:induction false} EventsOf(book: Book, slot: int, side: string, event: string)
    ensures event in BookEvents(book, slot, side) <==>
            exists i :: 0 <= i < |book| && Belongs(book[i], slot, side) && book[i].event == event
  {
    if book != [] {
      var n, before := |book| - 1, book[..|book| - 1];
      EventsOf(before, slot, side, event);
      if i :| 0 <= i < n && Belongs(before[i], slot, side) && before[i].event == event {
        assert Belongs(book[i], slot, side) && book[i].event == event;
      }
      if i :| 0 <= i < |book| && Belongs(book[i], slot, side) && book[i].event == event {
        assert i < n ==> before[i] == book[i];
      }
    }
  }

  lemma {:induction false} KeysOf(book: Book, slot: int, side: string, k: Key)
    ensures k in BookKeys(book, slot, side) <==>
            exists i :: 0 <= i < |book| && Belongs(book[i], slot, side) && KeyOf(book[i]) == k
  {
    if book != [] {
      var n, before := |book| - 1, book[..|book| - 1];
      KeysOf(before, slot, side, k);
      if i :| 0 <= i < n && Belongs(before[i], slot, side) && KeyOf(before[i]) == k {
        assert Belongs(book[i], slot, side) && KeyOf(book[i]) == k;
      }
      if i :| 0 <= i < |book| && Belongs(book[i], slot, side) && KeyOf(book[i]) == k {
        assert i < n ==> before[i] == book[i];
      }
    }
  }

  lemma NoRepeatsNext<T>(s: seq<T>, x: T)
    requires NoRepeats(s) && x !in s
    ensures NoRepeats(s + [x])
  {
  }

  lemma {:induction false} EventsOnce(book: Book, slot: int, side: string)
    requires Sound(Exp1, book)
    ensures NoRepeats(BookEvents(book, slot, side))
  {
    if book != [] {
      var before, e := book[..|book| - 1], book[|book| - 1];
      EventsOnce(before, slot, side);
      EventsOf(before, slot, side, e.event);
      if Belongs(e, slot, side) { NoRepeatsNext(BookEvents(before, slot, side), e.event); }
    }
  }

  lemma {:induction false} KeysOnce(book: Book, slot: int, side: string)
    requires Sound(Exp3, book)
    ensures NoRepeats(BookKeys(book, slot, side))
  {
    if book != [] {
      var n, before, e := |book| - 1, book[..|book| - 1], book[|book| - 1];
      KeysOnce(before, slot, side);
      KeysOf(before, slot, side, KeyOf(e));
      forall i | 0 <= i < n ensures KeyOf(before[i]) != KeyOf(e) {
        EntryKeysApart(before[i], e);
      }
      if Belongs(e, slot, side) { NoRepeatsNext(BookKeys(before, slot, side), KeyOf(e)); }
    }
  }

  // ----- experiment 1 reads the book -----

  lemma SharedEntry(codec: Codec, book: Book, slot: int, side: string, i: nat)
    requires Lawful(codec) && Sound(Exp1, book) && i < |book| && Belongs(book[i], slot, side)
    ensures var m := Entries1(codec, BidTable(book, slot, side), KeyTable(codec, book, slot, side));
            book[i].event in m && m[book[i].event] == ReadEntry(codec, book[i], [Decrypt])
  {
    BidTableAt(book, slot, side, i);
    KeyTableAt(codec, book, slot, side, i);
  }

  lemma {:induction false} SharedLooksUp(codec: Codec, book: Book, slot: int, side: string, n: nat)
    requires Lawful(codec) && Sound(Exp1, book) && n <= |book|
    ensures LooksUp(Entries1(codec, BidTable(book, slot, side), KeyTable(codec, book, slot, side)),
                    BookEvents(book[..n], slot, side), BookLog(codec, book[..n], slot, side, [Decrypt]))
  {
    if n > 0 {
      SharedLooksUp(codec, book, slot, side, n - 1);
      assert book[..n][..n - 1] == book[..n - 1];
      if Belongs(book[n - 1], slot, side) {
        SharedEntry(codec, book, slot, side, n - 1);
        LooksUpNext(Entries1(codec, BidTable(book, slot, side), KeyTable(codec, book, slot, side)),
                    BookEvents(book[..n - 1], slot, side), BookLog(codec, book[..n - 1], slot, side, [Decrypt]),
                    book[n - 1].event);
      }
    }
  }

  lemma SharedOutcomes(codec: Codec, book: Book, slot: int, side: string)
    requires Lawful(codec) && Sound(Exp1, book)
    ensures Outcomes(Entries1(codec, BidTable(book, slot, side), KeyTable(codec, book, slot, side)))
            == multiset(BookLog(codec, book, slot, side, [Decrypt]))
  {
    var m := Entries1(codec, BidTable(book, slot, side), KeyTable(codec, book, slot, side));
    SharedLooksUp(codec, book, slot, side, |book|);
    assert book[..|book|] == book;
    EventsOnce(book, slot, side);
    forall event ensures event in BookEvents(book, slot, side) <==> event in m {
      EventsOf(book, slot, side, event);
      if event in m {
        BidTableOnly(book, slot, side, event);
      } else if i :| 0 <= i < |book| && Belongs(book[i], slot, side) && book[i].event == event {
        SharedEntry(codec, book, slot, side, i);
      }
    }
    ListedAll(m, BookEvents(book, slot, side), BookLog(codec, book, slot, side, [Decrypt]));
  }

  /** Has a key been published for some bid of this slot and side? */
  ghost predicate SomeKey(book: Book, slot: int, side: string) {
    exists i :: 0 <= i < |book| && Belongs(book[i], slot, side) && book[i].key.Some?
  }

  ghost predicate SomeBid(book: Book, slot: int, side: string) {
    exists i :: 0 <= i < |book| && Belongs(book[i], slot, side)
  }

  /** Bids, but not one published key. */
  ghost predicate Keyless(book: Book, slot: int, side: string) {
    SomeBid(book, slot, side) && !SomeKey(book, slot, side)
  }

  /** A `markEnd` call whose store accesses all succeed. */
  predicate Undisturbed(c: Call, store: map<Key, Bytes>) {
    && c.faults.get == {} && !c.faults.iter
    && forall side :: side in ["buy", "sell"] ==> |Visited(store, c.slot, side)| <= c.faults.next
  }

  lemma TablesEmpty(codec: Codec, book: Book, slot: int, side: string)
    requires Sound(Exp1, book)
    ensures BidTable(book, slot, side) != map[] <==> SomeBid(book, slot, side)
    ensures KeyTable(codec, book, slot, side) != map[] <==> SomeKey(book, slot, side)
  {
    if event :| event in BidTable(book, slot, side) { BidTableOnly(book, slot, side, event); }
    if event :| event in KeyTable(codec, book, slot, side) { KeyTableOnly(codec, book, slot, side, event); }
    if i :| 0 <= i < |book| && Belongs(book[i], slot, side) { BidTableAt(book, slot, side, i); }
    if i :| 0 <= i < |book| && Belongs(book[i], slot, side) && book[i].key.Some? {
      KeyTableAt(codec, book, slot, side, i);
    }
  }

  /** Experiment 1 collects the book, except that it fails for a side that has bids but no key. */
  lemma SharedCollects(cfg: Config, store: map<Key, Bytes>, book: Book, c: Call, side: string)
    requires Lawful(cfg.codec) && cfg.exp.Exp1? && Sound(Exp1, book) && Side(side)
    requires Shared(cfg.codec, store, book) && Undisturbed(c, store)
    ensures Collect1(cfg, store, c, side) ==
            if Keyless(book, c.slot, side) then Failed([Marshal])
            else Gathered(multiset(BookLog(cfg.codec, book, c.slot, side, [Decrypt])))
  {
    assert SharedAt(cfg.codec, store, book, c.slot, side);
    TablesEmpty(cfg.codec, book, c.slot, side);
    SharedOutcomes(cfg.codec, book, c.slot, side);
    if !SomeBid(book, c.slot, side) {
      assert Entries1(cfg.codec, BidTable(book, c.slot, side), KeyTable(cfg.codec, book, c.slot, side)) == map[];
    }
  }

  // ----- experiment 3 reads the book -----

  lemma SlicedEntry(cfg: Config, store: map<Key, Bytes>, book: Book, c: Call, side: string, i: nat)
    requires Lawful(cfg.codec) && Sound(Exp3, book) && Sliced(cfg.codec, store, book) && c.faults.get == {}
    requires i < |book| && Belongs(book[i], c.slot, side)
    ensures var m := Entries3(cfg, store, c, side);
            KeyOf(book[i]) in m && m[KeyOf(book[i])] == ReadEntry(cfg.codec, book[i], [Marshal, Decrypt])
  {
    assert SlicedAt(cfg.codec, store, book[i]);
    SlicedVisited(cfg.codec, store, book, c.slot, side, i);
  }

  lemma SlicedVisited(codec: Codec, store: map<Key, Bytes>, book: Book, slot: int, side: string, i: nat)
    requires Sound(Exp3, book) && i < |book| && Belongs(book[i], slot, side) && SlicedAt(codec, store, book[i])
    ensures KeyOf(book[i]) in Visited(store, slot, side) && !HoldsPrivKey(KeyOf(book[i]))
  {
  }

  lemma SlicedOnly(cfg: Config, store: map<Key, Bytes>, book: Book, c: Call, side: string, k: Key)
    requires Sliced(cfg.codec, store, book) && Side(side) && k in Entries3(cfg, store, c, side)
    ensures exists i :: 0 <= i < |book| && Belongs(book[i], c.slot, side) && KeyOf(book[i]) == k
  {
    assert SlotKey(c.slot, side) <= k && SlotKey(c.slot, side)[2] == side && Sided(k);
    var i :| 0 <= i < |book| && (k == KeyOf(book[i]) || k == PrivKeyOf(KeyOf(book[i])));
    PrivKeysApart(KeyOf(book[i]), [], 0, "");
    TxKeysApart(c.slot, side, "", book[i].slot, book[i].side, book[i].tx);
  }

  lemma {:induction false} SlicedLooksUp(cfg: Config, store: map<Key, Bytes>, book: Book, c: Call, side: string, n: nat)
    requires Lawful(cfg.codec) && Sound(Exp3, book) && Sliced(cfg.codec, store, book)
    requires c.faults.get == {} && n <= |book|
    ensures LooksUp(Entries3(cfg, store, c, side), BookKeys(book[..n], c.slot, side),
                    BookLog(cfg.codec, book[..n], c.slot, side, [Marshal, Decrypt]))
  {
    if n > 0 {
      SlicedLooksUp(cfg, store, book, c, side, n - 1);
      assert book[..n][..n - 1] == book[..n - 1];
      if Belongs(book[n - 1], c.slot, side) {
        SlicedEntry(cfg, store, book, c, side, n - 1);
        LooksUpNext(Entries3(cfg, store, c, side), BookKeys(book[..n - 1], c.slot, side),
                    BookLog(cfg.codec, book[..n - 1], c.slot, side, [Marshal, Decrypt]), KeyOf(book[n - 1]));
      }
    }
  }

  /** Experiment 3 collects the book. */
  lemma SlicedCollects(cfg: Config, store: map<Key, Bytes>, book: Book, c: Call, side: string, key: PrivKey)
    requires Lawful(cfg.codec) && cfg.exp.Exp3? && Sound(Exp3, book) && Side(side)
    requires Sliced(cfg.codec, store, book) && Undisturbed(c, store)
    ensures Collect(cfg, store, c, side, key) ==
            Gathered(multiset(BookLog(cfg.codec, book, c.slot, side, [Marshal, Decrypt])))
  {
    var m := Entries3(cfg, store, c, side);
    SlicedLooksUp(cfg, store, book, c, side, |book|);
    assert book[..|book|] == book;
    KeysOnce(book, c.slot, side);
    forall k ensures k in BookKeys(book, c.slot, side) <==> k in m {
      KeysOf(book, c.slot, side, k);
      if k in m {
        SlicedOnly(cfg, store, book, c, side, k);
      } else if i :| 0 <= i < |book| && Belongs(book[i], c.slot, side) && KeyOf(book[i]) == k {
        SlicedEntry(cfg, store, book, c, side, i);
      }
    }
    ListedAll(m, BookKeys(book, c.slot, side), BookLog(cfg.codec, book, c.slot, side, [Marshal, Decrypt]));
  }

  // ----- one book -----

  /** The bids of the book that open, as a multiset. */
  ghost function BookBids(codec: Codec, book: Book, slot: int, side: string): multiset<Bid> {
    multiset(GoodBids(BookLog(codec, book, slot, side, [])))
  }

  lemma {:induction false} MissingIrrelevant(codec: Codec, book: Book, slot: int, side: string, missing: seq<Counter>)
    ensures GoodBids(BookLog(codec, book, slot, side, missing)) == GoodBids(BookLog(codec, book, slot, side, []))
  {
    if book != [] {
      var before, e := book[..|book| - 1], book[|book| - 1];
      MissingIrrelevant(codec, before, slot, side, missing);
      if Belongs(e, slot, side) {
        var l, l' := BookLog(codec, before, slot, side, missing), BookLog(codec, before, slot, side, []);
        assert (l + [ReadEntry(codec, e, missing)])[..|l|] == l;
        assert (l' + [ReadEntry(codec, e, [])])[..|l'|] == l';
      }
    }
  }

  /** No event and no transaction ID is used for two bids: none is committed again. */
  ghost predicate SoundForBoth(book: Book) {
    Sound(Exp1, book) && Sound(Exp3, book)
  }

  /** Two data models, one book: whatever led to them, two ledgers of experiments 1 and 3 with the same
      book collect the same multiset of bids for each slot and side, except that experiment 1 fails
      exactly when the side has bids but not one published key. */
  lemma TwoModelsOneBook(cfg1: Config, ops1: seq<BookOp>, s1: Session, cfg3: Config, ops3: seq<BookOp>, s3: Session,
                         c: Call, side: string, key: PrivKey)
    requires cfg1.exp.Exp1? && cfg3.exp.Exp3? && cfg1.codec == cfg3.codec && Lawful(cfg1.codec)
    requires Reached(cfg1, ops1, s1) && Reached(cfg3, ops3, s3) && s1.book == s3.book
    requires SoundForBoth(s1.book) && Side(side)
    requires Undisturbed(c, s1.st.store) && Undisturbed(c, s3.st.store)
    ensures var col1, col3 := Collect(cfg1, s1.st.store, c, side, key), Collect(cfg3, s3.st.store, c, side, key);
            && col3.Gathered? && Gather(col3.all, BidOf) == BookBids(cfg1.codec, s1.book, c.slot, side)
            && (if Keyless(s1.book, c.slot, side) then col1 == Failed([Marshal])
                else col1.Gathered? && Gather(col1.all, BidOf) == BookBids(cfg1.codec, s1.book, c.slot, side))
  {
    SharedRun(cfg1, ops1, s1);
    SlicedRun(cfg3, ops3, s3);
    SharedReads(cfg1, s1, c, side);
    SlicedReads(cfg3, s3, c, side, key);
  }

  lemma SharedReads(cfg: Config, s: Session, c: Call, side: string)
    requires Lawful(cfg.codec) && cfg.exp.Exp1? && SharedSession(cfg.codec, s) && Sound(Exp1, s.book) && Side(side)
    requires Undisturbed(c, s.st.store)
    ensures var col := Collect1(cfg, s.st.store, c, side);
            if Keyless(s.book, c.slot, side) then col == Failed([Marshal])
            else col.Gathered? && Gather(col.all, BidOf) == BookBids(cfg.codec, s.book, c.slot, side)
  {
    SharedCollects(cfg, s.st.store, s.book, c, side);
    GoodGather(BookLog(cfg.codec, s.book, c.slot, side, [Decrypt]));
    MissingIrrelevant(cfg.codec, s.book, c.slot, side, [Decrypt]);
  }

  lemma SlicedReads(cfg: Config, s: Session, c: Call, side: string, key: PrivKey)
    requires Lawful(cfg.codec) && cfg.exp.Exp3? && SlicedSession(cfg.codec, s) && Sound(Exp3, s.book) && Side(side)
    requires Undisturbed(c, s.st.store)
    ensures var col := Collect(cfg, s.st.store, c, side, key);
            col.Gathered? && Gather(col.all, BidOf) == BookBids(cfg.codec, s.book, c.slot, side)
  {
    SlicedCollects(cfg, s.st.store, s.book, c, side, key);
    GoodGather(BookLog(cfg.codec, s.book, c.slot, side, [Marshal, Decrypt]));
    MissingIrrelevant(cfg.codec, s.book, c.slot, side, [Marshal, Decrypt]);
  }

  // ----- one settlement -----

  /** `markEnd` without store faults: an answer exactly if both sides can be collected. */
  lemma AnswerIffCollected(cfg: Config, st: State, c: Call, st': State, r: Response)
    requires !cfg.exp.Exp2? && MarkEndNext(cfg, st, c, st', r) && c.faults.put == {}
    ensures var none := PrivKey(0, 0);
            if Collect(cfg, st.store, c, "buy", none).Gathered? && Collect(cfg, st.store, c, "sell", none).Gathered?
            then
              r.Settled? && st'.store == st.store[MarkKey(cfg.agreed, c.slot, c.tx) := cfg.codec.encodeMarkEnd(r.out)]
            else r == Rejected(NoCollection) && st'.store == st.store
  {
    var b, s, o := MarkEndResult(cfg, st, c, st', r, [], PrivKey(0, 0));
  }

  lemma SettleAlike(cfg1: Config, cfg3: Config, c: Call, t1: State, t3: State, st1: State, r1: Response,
                    st3: State, r3: Response)
    requires cfg1.exp.Exp1? && cfg3 == cfg1.(exp := Exp3) && c.faults.put == {}
    requires MarkEndNext(cfg1, t1, c, st1, r1) && MarkEndNext(cfg3, t3, c, st3, r3)
    requires var none := PrivKey(0, 0);
             && SameBids(Collect(cfg1, t1.store, c, "buy", none), Collect(cfg3, t3.store, c, "buy", none))
             && SameBids(Collect(cfg1, t1.store, c, "sell", none), Collect(cfg3, t3.store, c, "sell", none))
    ensures r1 == r3
  {
    var none := PrivKey(0, 0);
    var b1, s1, o1 := MarkEndResult(cfg1, t1, c, st1, r1, [], none);
    var b3, s3, o3 := MarkEndResult(cfg3, t3, c, st3, r3, [], none);
    SameSettlement(Collect(cfg1, t1.store, c, "buy", none), Collect(cfg1, t1.store, c, "sell", none), b1, s1, o1,
                   Collect(cfg3, t3.store, c, "buy", none), Collect(cfg3, t3.store, c, "sell", none), b3, s3, o3,
                   MarkKey(cfg1.agreed, c.slot, c.tx), [], c.slot);
  }

  /** Is there a side without keys for `markEnd` to stumble over? */
  ghost predicate KeylessSlot(book: Book, slot: int) {
    Keyless(book, slot, "buy") || Keyless(book, slot, "sell")
  }

  /** With the same book `markEnd` then gives the same answer under both models, unless a side has bids
      and no key: then experiment 1 answers with an error. */
  lemma ModelsSettleAlike(cfg1: Config, ops1: seq<BookOp>, s1: Session, cfg3: Config, ops3: seq<BookOp>, s3: Session,
                          c: Call, st1: State, r1: Response, st3: State, r3: Response)
    requires cfg1.exp.Exp1? && cfg3 == cfg1.(exp := Exp3) && Lawful(cfg1.codec)
    requires Reached(cfg1, ops1, s1) && Reached(cfg3, ops3, s3) && s1.book == s3.book && SoundForBoth(s1.book)
    requires Undisturbed(c, s1.st.store) && Undisturbed(c, s3.st.store) && c.faults.put == {}
    requires MarkEndNext(cfg1, s1.st, c, st1, r1) && MarkEndNext(cfg3, s3.st, c, st3, r3)
    requires TiesNonNegative(BookBids(cfg1.codec, s1.book, c.slot, "buy"))
    requires TiesNonNegative(BookBids(cfg1.codec, s1.book, c.slot, "sell"))
    ensures r3.Settled?
    ensures r1 == if KeylessSlot(s1.book, c.slot) then Rejected(NoCollection) else r3
  {
    var none := PrivKey(0, 0);
    TwoModelsOneBook(cfg1, ops1, s1, cfg3, ops3, s3, c, "buy", none);
    TwoModelsOneBook(cfg1, ops1, s1, cfg3, ops3, s3, c, "sell", none);
    AnswerIffCollected(cfg1, s1.st, c, st1, r1);
    AnswerIffCollected(cfg3, s3.st, c, st3, r3);
    if !KeylessSlot(s1.book, c.slot) {
      SettleAlike(cfg1, cfg3, c, s1.st, s3.st, st1, r1, st3, r3);
    }
  }

  // ----- the same history keeps the same book -----

  /** No store fault in the bidders' calls, and no bid committed again; and where the guard works, each
      `markEnd` goes undisturbed and finds a key for either side that has bids. */
  ghost predicate Comparable(cfg: Config, op: BookOp, t1: Session, t3: Session) {
    match op
    case Post(c) => c.faults.get == {} && c.faults.put == {}
    case Again(_, _, _) => false
    case Publish(_, _, _, _, faults) => faults.get == {} && faults.put == {}
    case Other(c) =>
      cfg.agreed && c.action == "markEnd" ==>
        && Undisturbed(c, t1.st.store) && Undisturbed(c, t3.st.store) && c.faults.put == {}
        && !KeylessSlot(t1.book, c.slot)
  }

  /** The same history, under experiment 1 and under experiment 3. */
  ghost predicate SideBySide(cfg: Config, ops: seq<BookOp>, s1: Session, s3: Session)
    decreases |ops|, 0
  {
    if ops == [] then s1 == s3 == START else SideBySideBy(cfg, ops[..|ops| - 1], ops[|ops| - 1], s1, s3)
  }

  ghost predicate SideBySideBy(cfg: Config, before: seq<BookOp>, op: BookOp, s1: Session, s3: Session)
    decreases |before|, 1
  {
    exists t1: Session, t3: Session ::
      && SideBySide(cfg, before, t1, t3) && Comparable(cfg, op, t1, t3)
      && OpNext(cfg.(exp := Exp1), t1, op, s1) && OpNext(cfg.(exp := Exp3), t3, op, s3)
  }

  /** The same slots are marked. */
  ghost predicate SameMarks(store: map<Key, Bytes>, store': map<Key, Bytes>) {
    forall slot :: GuardKey(slot) in store <==> GuardKey(slot) in store'
  }

  /** The same history leaves the same book and the same slots marked. */
  lemma {:induction false} SameHistory(cfg: Config, ops: seq<BookOp>, s1: Session, s3: Session)
    requires Lawful(cfg.codec) && SideBySide(cfg, ops, s1, s3) && SoundForBoth(s1.book)
    ensures Reached(cfg.(exp := Exp1), ops, s1) && Reached(cfg.(exp := Exp3), ops, s3)
    ensures s1.book == s3.book && SameMarks(s1.st.store, s3.st.store)
  {
    if ops != [] {
      var before, op := ops[..|ops| - 1], ops[|ops| - 1];
      var t1: Session, t3: Session :|
        && SideBySide(cfg, before, t1, t3) && Comparable(cfg, op, t1, t3)
        && OpNext(cfg.(exp := Exp1), t1, op, s1) && OpNext(cfg.(exp := Exp3), t3, op, s3);
      SoundBefore(cfg.(exp := Exp1), t1, op, s1, Exp1);
      SoundBefore(cfg.(exp := Exp1), t1, op, s1, Exp3);
      SameHistory(cfg, before, t1, t3);
      assert ReachedBy(cfg.(exp := Exp1), before, op, s1) && ReachedBy(cfg.(exp := Exp3), before, op, s3);
      SharedRun(cfg.(exp := Exp1), before, t1);
      SlicedRun(cfg.(exp := Exp3), before, t3);
      SameStep(cfg, op, t1, t3, s1, s3);
    }
  }

  /** Two sessions that hold the same book and mark the same slots. */
  ghost predicate Paired(codec: Codec, t1: Session, t3: Session) {
    && SharedSession(codec, t1) && SlicedSession(codec, t3)
    && t1.book == t3.book && SoundForBoth(t1.book) && SameMarks(t1.st.store, t3.st.store)
  }

  lemma SameStep(cfg: Config, op: BookOp, t1: Session, t3: Session, s1: Session, s3: Session)
    requires Lawful(cfg.codec) && Paired(cfg.codec, t1, t3) && Comparable(cfg, op, t1, t3)
    requires OpNext(cfg.(exp := Exp1), t1, op, s1) && OpNext(cfg.(exp := Exp3), t3, op, s3)
    ensures s1.book == s3.book && SameMarks(s1.st.store, s3.st.store)
  {
    match op
    case Post(c) => SamePost(cfg, c, t1, t3, s1, s3);
    case Publish(i, _, _, _, _) => if i < |t1.book| { SamePublish(cfg, op, t1, t3, s1, s3); }
    case Other(c) =>
      var r1 :| Next(cfg.(exp := Exp1), t1.st, c, s1.st, r1);
      var r3 :| Next(cfg.(exp := Exp3), t3.st, c, s3.st, r3);
      if cfg.agreed && c.action == "markEnd" {
        BothMark(cfg, c, t1, t3, s1.st, r1, s3.st, r3);
      } else {
        NoMark(cfg.(exp := Exp1), t1.st, c, s1.st, r1);
        NoMark(cfg.(exp := Exp3), t3.st, c, s3.st, r3);
      }
  }

  /** Only `markEnd`, and only where the keys agree, marks a slot. */
  lemma NoMark(cfg: Config, st: State, c: Call, st': State, r: Response)
    requires Next(cfg, st, c, st', r) && !(cfg.agreed && c.action == "markEnd")
    ensures SameMarks(st.store, st'.store)
  {
    OnlyTargetWritten(cfg, st, c, st', r);
    forall slot ensures GuardKey(slot) in st.store <==> GuardKey(slot) in st'.store {
      if Target(cfg, c) == Some(GuardKey(slot)) { GuardTarget(cfg, c, slot); }
    }
  }

  /** A bid without store faults is accepted exactly if its slot is not marked. */
  lemma BidAccepted(cfg: Config, s: Session, c: Call)
    requires Lawful(cfg.codec) && Side(c.action) && c.faults.get == {} && c.faults.put == {}
    requires cfg.exp.Exp1? ==> SharedSession(cfg.codec, s)
    ensures BidStep(cfg, s.st, c).1.Accepted? <==> GuardKey(c.slot) !in s.st.store
  {
    if cfg.exp.Exp1? {
      assert SharedAt(cfg.codec, s.st.store, s.book, c.slot, c.action);
      UpsertHolds(cfg, s.st, c, SlotKey(c.slot, c.action), c.event, c.data, BidTable(s.book, c.slot, c.action));
    }
  }

  lemma SamePost(cfg: Config, c: Call, t1: Session, t3: Session, s1: Session, s3: Session)
    requires Lawful(cfg.codec) && Paired(cfg.codec, t1, t3) && c.faults.get == {} && c.faults.put == {}
    requires OpNext(cfg.(exp := Exp1), t1, Post(c), s1) && OpNext(cfg.(exp := Exp3), t3, Post(c), s3)
    ensures s1.book == s3.book && SameMarks(s1.st.store, s3.st.store)
  {
    BidAccepted(cfg.(exp := Exp1), t1, c);
    BidAccepted(cfg.(exp := Exp3), t3, c);
    NoMark(cfg.(exp := Exp1), t1.st, c, s1.st, BidStep(cfg.(exp := Exp1), t1.st, c).1);
    NoMark(cfg.(exp := Exp3), t3.st, c, s3.st, BidStep(cfg.(exp := Exp3), t3.st, c).1);
  }

  /** A key posting for a recorded bid, likewise. */
  lemma PublishAccepted(cfg: Config, s: Session, op: BookOp)
    requires Lawful(cfg.codec) && !cfg.exp.Exp2? && Sound(cfg.exp, s.book)
    requires op.Publish? && op.index < |s.book| && op.faults.get == {} && op.faults.put == {}
    requires if cfg.exp.Exp1? then SharedSession(cfg.codec, s) else SlicedSession(cfg.codec, s)
    ensures PostKeyStep(cfg, s.st, PublishCall(cfg.codec, s, op)).1.Accepted?
            <==> GuardKey(s.book[op.index].slot) !in s.st.store
  {
    if cfg.exp.Exp1? {
      var e, c := s.book[op.index], PublishCall(cfg.codec, s, op);
      SoundSides(cfg.exp, s.book, op.index);
      assert SharedAt(cfg.codec, s.st.store, s.book, e.slot, e.side);
      UpsertHolds(cfg, s.st, c, PrivKeyOf(SlotKey(e.slot, e.side)), e.event, c.data,
                  KeyTable(cfg.codec, s.book, e.slot, e.side));
    }
  }

  lemma SamePublish(cfg: Config, op: BookOp, t1: Session, t3: Session, s1: Session, s3: Session)
    requires Lawful(cfg.codec) && Paired(cfg.codec, t1, t3)
    requires op.Publish? && op.index < |t1.book| && op.faults.get == {} && op.faults.put == {}
    requires OpNext(cfg.(exp := Exp1), t1, op, s1) && OpNext(cfg.(exp := Exp3), t3, op, s3)
    ensures s1.book == s3.book && SameMarks(s1.st.store, s3.st.store)
  {
    var cfg1, cfg3 := cfg.(exp := Exp1), cfg.(exp := Exp3);
    var c1, c3 := PublishCall(cfg.codec, t1, op), PublishCall(cfg.codec, t3, op);
    PublishAccepted(cfg1, t1, op);
    PublishAccepted(cfg3, t3, op);
    NoMark(cfg1, t1.st, c1, s1.st, PostKeyStep(cfg1, t1.st, c1).1);
    NoMark(cfg3, t3.st, c3, s3.st, PostKeyStep(cfg3, t3.st, c3).1);
  }

  /** What an undisturbed `markEnd` with agreeing keys leaves marked: in experiment 3 its slot, in
      experiment 1 its slot unless a side has bids and no key. */
  lemma Marks(cfg: Config, s: Session, c: Call, st': State, r: Response)
    requires Lawful(cfg.codec) && cfg.agreed && !cfg.exp.Exp2? && Sound(cfg.exp, s.book)
    requires if cfg.exp.Exp1? then SharedSession(cfg.codec, s) else SlicedSession(cfg.codec, s)
    requires MarkEndNext(cfg, s.st, c, st', r) && Undisturbed(c, s.st.store) && c.faults.put == {}
    ensures var fails := cfg.exp.Exp1? && KeylessSlot(s.book, c.slot);
            forall slot :: GuardKey(slot) in st'.store <==> GuardKey(slot) in s.st.store || (slot == c.slot && !fails)
  {
    var none := PrivKey(0, 0);
    if cfg.exp.Exp1? {
      SharedReads(cfg, s, c, "buy");
      SharedReads(cfg, s, c, "sell");
    } else {
      SlicedReads(cfg, s, c, "buy", none);
      SlicedReads(cfg, s, c, "sell", none);
    }
    AnswerIffCollected(cfg, s.st, c, st', r);
    forall slot ensures GuardKey(slot) == GuardKey(c.slot) <==> slot == c.slot {
      KeysApart(slot, "markEnd", c.slot, "markEnd");
    }
  }

  lemma BothMark(cfg: Config, c: Call, t1: Session, t3: Session, st1: State, r1: Response, st3: State, r3: Response)
    requires Lawful(cfg.codec) && cfg.agreed && Paired(cfg.codec, t1, t3) && Comparable(cfg, Other(c), t1, t3)
    requires c.action == "markEnd"
    requires Next(cfg.(exp := Exp1), t1.st, c, st1, r1) && Next(cfg.(exp := Exp3), t3.st, c, st3, r3)
    ensures SameMarks(st1.store, st3.store)
  {
    Marks(cfg.(exp := Exp1), t1, c, st1, r1);
    Marks(cfg.(exp := Exp3), t3, c, st3, r3);
  }

  /** Where the two models part, given agreeing keys: ending a slot with a side that has bids and no
      key leaves it open in experiment 1 and closes it in experiment 3.  The next bid for the slot is
      then accepted by one and late for the other. */
  lemma KeylessEndDiverges(cfg: Config, ops: seq<BookOp>, s1: Session, s3: Session, c: Call,
                           st1: State, r1: Response, st3: State, r3: Response, bid: Call)
    requires Lawful(cfg.codec) && cfg.agreed && SideBySide(cfg, ops, s1, s3) && SoundForBoth(s1.book)
    requires MarkEndNext(cfg.(exp := Exp1), s1.st, c, st1, r1) && MarkEndNext(cfg.(exp := Exp3), s3.st, c, st3, r3)
    requires Undisturbed(c, s1.st.store) && Undisturbed(c, s3.st.store) && c.faults.put == {}
    requires GuardKey(c.slot) !in s1.st.store
    requires Side(bid.action) && bid.slot == c.slot && bid.faults.get == {} && bid.faults.put == {}
    ensures GuardKey(c.slot) in st3.store
    ensures GuardKey(c.slot) in st1.store <==> !KeylessSlot(s1.book, c.slot)
    ensures BidStep(cfg.(exp := Exp3), st3, bid).1 == Rejected(Late)
    ensures BidStep(cfg.(exp := Exp1), st1, bid).1.Accepted? <==> KeylessSlot(s1.book, c.slot)
  {
    var cfg1, cfg3 := cfg.(exp := Exp1), cfg.(exp := Exp3);
    SameHistory(cfg, ops, s1, s3);
    SharedRun(cfg1, ops, s1);
    SlicedRun(cfg3, ops, s3);
    Marks(cfg1, s1, c, st1, r1);
    Marks(cfg3, s3, c, st3, r3);
    if KeylessSlot(s1.book, c.slot) {
      KeylessStaysOpen(cfg1, s1, c, st1, r1);
      BidAccepted(cfg1, s1.(st := st1), bid);
    }
  }

  lemma KeylessStaysOpen(cfg: Config, s: Session, c: Call, st': State, r: Response)
    requires Lawful(cfg.codec) && cfg.exp.Exp1? && SharedSession(cfg.codec, s) && Sound(Exp1, s.book)
    requires MarkEndNext(cfg, s.st, c, st', r) && Undisturbed(c, s.st.store) && c.faults.put == {}
    requires KeylessSlot(s.book, c.slot)
    ensures st'.store == s.st.store && SharedSession(cfg.codec, s.(st := st'))
  {
    SharedReads(cfg, s, c, "buy");
    SharedReads(cfg, s, c, "sell");
    AnswerIffCollected(cfg, s.st, c, st', r);
  }

  // ----- the key path -----

  lemma {:induction false} OpenedInBook(codec: Codec, book: Book, slot: int, side: string, i: nat, b: Bid)
    requires i < |book| && Belongs(book[i], slot, side) && ReadEntry(codec, book[i], []) == Good(b)
    ensures b in BookBids(codec, book, slot, side)
  {
    var before, e := book[..|book| - 1], book[|book| - 1];
    var l := BookLog(codec, before, slot, side, []);
    if Belongs(e, slot, side) { assert (l + [ReadEntry(codec, e, [])])[..|l|] == l; }
    if i < |book| - 1 {
      OpenedInBook(codec, before, slot, side, i, b);
    }
  }

  /** The key-path round trip: once the private key for a bid is posted, it sits where the collector
      looks, and the bid's price and quantity reappear at `markEnd`, whatever else happened before and
      since. */
  lemma KeyPathRoundTrip(cfg: Config, ops: seq<BookOp>, s: Session, i: nat, b: Bid, key: PrivKey, c: Call)
    requires !cfg.exp.Exp2? && Lawful(cfg.codec) && Reached(cfg, ops, s) && Sound(cfg.exp, s.book) && i < |s.book|
    requires s.book[i].key.Some? && cfg.codec.loadKey(s.book[i].key.value) == Some(key)
    requires cfg.codec.decrypt(s.book[i].data, key) == Some(cfg.codec.encodeBid(b))
    requires cfg.codec.decodeBid(cfg.codec.encodeBid(b)) == Some(b)
    requires c.slot == s.book[i].slot && Undisturbed(c, s.st.store)
    ensures PrivKeyOf(s.recorded[i]) in s.st.store
    ensures var col := Collect(cfg, s.st.store, c, s.book[i].side, key); col.Gathered? && b in Gather(col.all, BidOf)
  {
    var e := s.book[i];
    SoundSides(cfg.exp, s.book, i);
    assert SomeKey(s.book, c.slot, e.side);
    OpenedInBook(cfg.codec, s.book, c.slot, e.side, i, b);
    if cfg.exp.Exp1? {
      SharedRun(cfg, ops, s);
      assert SharedAt(cfg.codec, s.st.store, s.book, e.slot, e.side);
      KeyTableAt(cfg.codec, s.book, e.slot, e.side, i);
      SharedReads(cfg, s, c, e.side);
    } else {
      SlicedRun(cfg, ops, s);
      assert SlicedAt(cfg.codec, s.st.store, e);
      SlicedReads(cfg, s, c, e.side, key);
    }
  }

  // ----- repeated commits of one bid -----

  /** In experiment 1 a bid that is already in the book leaves it as it is when it commits again. */
  lemma RepeatedCommitShared(cfg: Config, ops: seq<BookOp>, s: Session, i: nat, tx: string, faults: Faults)
    requires Lawful(cfg.codec) && cfg.exp.Exp1? && Reached(cfg, ops, s) && Sound(Exp1, s.book) && i < |s.book|
    ensures var e := s.book[i];
            BidStep(cfg, s.st, Call(e.side, e.slot, e.event, e.data, tx, faults)).0.store == s.st.store
  {
    SharedRun(cfg, ops, s);
    AgainShared(cfg, s, Again(i, tx, faults));
  }

  /** In experiments 2 and 3 an accepted bid adds one to the bids stored, unless its transaction ID was
      used before: a retry under a new one is counted once more. */
  lemma RepeatedCommitSliced(cfg: Config, st: State, c: Call)
    requires !cfg.exp.Exp1? && Side(c.action) && c.tx != PRIVKEY && BidStep(cfg, st, c).1.Accepted?
    ensures StoredBids(cfg, BidStep(cfg, st, c).0.store, c.slot, c.action) ==
            StoredBids(cfg, st.store, c.slot, c.action) + if TxKey(c.slot, c.action, c.tx) in st.store then 0 else 1
  {
    var k, store' := TxKey(c.slot, c.action, c.tx), BidStep(cfg, st, c).0.store;
    TxKeysApart(c.slot, c.action, "", c.slot, c.action, c.tx);
    assert k[|k| - 1] == c.tx;
    assert Visited(store', c.slot, c.action) == Visited(st.store, c.slot, c.action) + {k};
    assert (set l | l in Visited(store', c.slot, c.action) && !HoldsPrivKey(l))
        == (set l | l in Visited(st.store, c.slot, c.action) && !HoldsPrivKey(l)) + {k};
  }
}
