/** The key path end to end: from the ledger's answer to a bid, through the bidder's memory, to the key
    posting that opens the bid. */
module KeyPath {
  import opened AuctionCurves
  import opened Bidder
  import opened BidderMemory
  import opened LedgerBook
  import opened LedgerCollections
  import opened LedgerModel
  import opened LedgerTwoModels
  import opened LruSpec
  import opened Multisets
  import opened Options

  lemma {:induction false} MemoryDistinct(repair: bool, cap: int, mem: seq<MemOp>)
    requires Remember(repair, cap, mem).Done?
    ensures Distinct(Remember(repair, cap, mem).state.order)
  {
    if mem != [] {
      var s, op := Remember(repair, cap, mem[..|mem| - 1]).state, mem[|mem| - 1];
      MemoryDistinct(repair, cap, mem[..|mem| - 1]);
      match op
      case Merged(kv) => MergeRecords(repair, s, kv, kv.slot);
      case Looked(slot) => LookKeeps(s, slot, slot);
    }
  }

  /** Whatever the memory still holds for a bid is what was recorded for it. */
  lemma {:induction false} RecordedFrom(repair: bool, cap: int, mem: seq<MemOp>, slot: int, event: string)
    returns (j: nat)
    requires Remember(repair, cap, mem).Done? && event in RecordedFor(Remember(repair, cap, mem).state, slot)
    ensures j < |mem| && mem[j].Merged? && mem[j].kv.slot == slot && mem[j].kv.event == event
    ensures RecordedFor(Remember(repair, cap, mem).state, slot)[event] == mem[j].kv.writeKey
  {
    var before, op := mem[..|mem| - 1], mem[|mem| - 1];
    var s := Remember(repair, cap, before).state;
    MemoryDistinct(repair, cap, before);
    match op
    case Looked(looked) =>
      LookKeeps(s, looked, slot);
      j := RecordedFrom(repair, cap, before, slot, event);
    case Merged(kv) =>
      MergeRecords(repair, s, kv, slot);
      if kv.slot == slot && kv.event == event {
        j := |mem| - 1;
      } else {
        j := RecordedFrom(repair, cap, before, slot, event);
      }
  }

  /** What is recorded for the bid accepted `i`-th: the write key the ledger answered it with. */
  function RecordOf(s: Session, i: nat): Recent
    requires i < |s.book|
  {
    Recent(s.book[i].slot, s.book[i].event, s.recorded[i])
  }

  /** Every record merged in is of some bid the ledger accepted. */
  ghost predicate Remembers(s: Session, mem: seq<MemOp>) {
    forall j :: 0 <= j < |mem| && mem[j].Merged? ==> exists i :: 0 <= i < |s.book| && RecordOf(s, i) == mem[j].kv
  }

  /** The bid accepted `l`-th was placed for this slot under this event. */
  predicate PlacedAt(s: Session, l: nat, slot: int, event: string) {
    l < |s.book| && s.book[l].slot == slot && s.book[l].event == event
  }

  /** A record that was not evicted still carries the write key its bid was answered with, whatever
      bids were recorded and looked up around it. */
  lemma MemoryHoldsWriteKey(s: Session, repair: bool, cap: int, mem: seq<MemOp>, slot: int, event: string)
    returns (l: nat)
    requires Remembers(s, mem) && Remember(repair, cap, mem).Done?
    requires event in RecordedFor(Remember(repair, cap, mem).state, slot)
    ensures PlacedAt(s, l, slot, event)
    ensures RecordedFor(Remember(repair, cap, mem).state, slot)[event] == s.recorded[l]
  {
    var j := RecordedFrom(repair, cap, mem, slot, event);
    l :| 0 <= l < |s.book| && RecordOf(s, l) == mem[j].kv;
  }

  /** For every bid recorded and not evicted: when the ledger accepts the key posting the bidder sends
      for it, that publishes the key where the collector looks, and the bid's price and quantity
      reappear at `markEnd`. */
  lemma RecordedKeyOpensBid(cfg: Config, ops: seq<BookOp>, s: Session, repair: bool, cap: int, mem: seq<MemOp>,
                            post: PostKeyInput, sent: Call, key: PrivKey, b: Bid, c: Call) returns (l: nat)
    requires !cfg.exp.Exp2? && Lawful(cfg.codec) && Reached(cfg, ops, s) && Sound(cfg.exp, s.book)
    requires Remembers(s, mem) && Remember(repair, cap, mem).Done?
    requires PostFor(post, RecordedFor(Remember(repair, cap, mem).state, sent.slot), post.privKey)
    requires cfg.codec.loadKey(post.privKey) == Some(key)
    requires sent.action == "postKey" && sent.data == cfg.codec.encodePostKeyInput(post)
    requires PostKeyStep(cfg, s.st, sent).1.Accepted?
    requires forall l: nat :: PlacedAt(s, l, sent.slot, post.bidEvent) ==>
               cfg.codec.decrypt(s.book[l].data, key) == Some(cfg.codec.encodeBid(b))
    requires cfg.codec.decodeBid(cfg.codec.encodeBid(b)) == Some(b)
    requires c.slot == sent.slot && Undisturbed(c, PostKeyStep(cfg, s.st, sent).0.store)
    ensures PlacedAt(s, l, sent.slot, post.bidEvent) && post.readKey == s.recorded[l]
    ensures var col := Collect(cfg, PostKeyStep(cfg, s.st, sent).0.store, c, s.book[l].side, key);
            col.Gathered? && b in Gather(col.all, BidOf)
  {
    l := MemoryHoldsWriteKey(s, repair, cap, mem, sent.slot, post.bidEvent);
    var op := Publish(l, post.privKey, sent.event, sent.tx, sent.faults);
    var after := ops + [op];
    assert PublishCall(cfg.codec, s, op) == sent;
    var s' := Ledger(PostKeyStep(cfg, s.st, sent).0, s.book[l := s.book[l].(key := Some(post.privKey))], s.recorded);
    assert OpNext(cfg, s, op, s');
    assert after[..|ops|] == ops && ReachedBy(cfg, ops, op, s');
    SoundWithKey(cfg.exp, s.book, l, Some(post.privKey));
    KeyPathRoundTrip(cfg, after, s', l, b, key, c);
  }
}
