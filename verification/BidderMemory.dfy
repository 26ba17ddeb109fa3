/** What a bidder remembers: the container of the bids whose keys it must post, merged into as bids are
    answered and looked up as keys are posted; and what its length drift does to a bidder with two
    bids a slot. */
module BidderMemory {
  import opened LedgerKeys
  import opened LruSpec

  /** An answered bid, with the write key the ledger gave it. */
  datatype Recent = Recent(slot: int, event: string, writeKey: Key)

  type Recorded = map<string, Key>

  /** What happens to the container: a bid is merged in, or the bids of a slot are looked up to post
      their keys. */
  datatype MemOp = Merged(kv: Recent) | Looked(slot: int)

  /** What one recorded bid does to the container: look its slot up, then put the slot's map back with
      the bid added. */
  ghost function MergeStep(repair: bool, s: Lru<int, Recorded>, kv: Recent): LruSpec.Next<int, Recorded> {
    PutStep(repair, GetStep(s, kv.slot), kv.slot, RecordedFor(s, kv.slot)[kv.event := kv.writeKey])
  }

  /** The bids recorded for a slot. */
  ghost function RecordedFor(s: Lru<int, Recorded>, slot: int): Recorded {
    if Live(s, slot) then s.order[Find(s.order, slot)].val else map[]
  }

  ghost function MemStep(repair: bool, s: Lru<int, Recorded>, op: MemOp): LruSpec.Next<int, Recorded> {
    match op
    case Merged(kv) => MergeStep(repair, s, kv)
    case Looked(slot) => Done(GetStep(s, slot))
  }

  ghost function Remember(repair: bool, cap: int, ops: seq<MemOp>): LruSpec.Next<int, Recorded> {
    if ops == [] then Done(Empty(cap))
    else
      match Remember(repair, cap, ops[..|ops| - 1])
      case Panic => Panic
      case Done(s) => MemStep(repair, s, ops[|ops| - 1])
  }

  lemma FindReplaced(order: seq<Entry<int, Recorded>>, i: nat, e: Entry<int, Recorded>, k: int)
    requires Distinct(order) && i < |order| && order[i].key == e.key
    ensures var order' := Without(order, i) + [e];
            && Distinct(order') && Find(order', e.key) == |order| - 1
            && (k != e.key ==> (Find(order', k) >= 0 <==> Find(order, k) >= 0)
                               && (Find(order', k) >= 0 ==> order'[Find(order', k)] == order[Find(order, k)]))
  {
    DistinctWithout(order, i);
    DistinctAppend(Without(order, i), e);
    FindAppend(Without(order, i), e, e.key);
    FindAppend(Without(order, i), e, k);
    FindWithout(order, i, k);
  }

  /** Looking a slot up changes the order, but nothing that is recorded for any slot. */
  lemma LookKeeps(s: Lru<int, Recorded>, looked: int, slot: int)
    requires Distinct(s.order)
    ensures var t := GetStep(s, looked);
            && RecordedFor(t, slot) == RecordedFor(s, slot) && (Live(t, slot) <==> Live(s, slot))
            && Distinct(t.order) && |t.order| == |s.order| && t.len == s.len && t.cap == s.cap
  {
    var i := Find(s.order, looked);
    if i >= 0 { FindReplaced(s.order, i, s.order[i], slot); }
  }

  /** Every slot's map after one merge: the bid is added to its own, and the others are kept or evicted
      whole. */
  lemma MergeRecords(repair: bool, s: Lru<int, Recorded>, kv: Recent, slot: int)
    requires Distinct(s.order) && MergeStep(repair, s, kv).Done?
    ensures var t := MergeStep(repair, s, kv).state;
            && Live(t, kv.slot) && RecordedFor(t, kv.slot) == RecordedFor(s, kv.slot)[kv.event := kv.writeKey]
            && (slot != kv.slot && Live(t, slot) ==> Live(s, slot) && RecordedFor(t, slot) == RecordedFor(s, slot))
            && Distinct(t.order)
  {
    var got, e := GetStep(s, kv.slot), Entry(kv.slot, RecordedFor(s, kv.slot)[kv.event := kv.writeKey]);
    LookKeeps(s, kv.slot, kv.slot);
    LookKeeps(s, kv.slot, slot);
    var i := Find(got.order, kv.slot);
    if i >= 0 {
      FindReplaced(got.order, i, e, slot);
    } else {
      var rest := if s.len == s.cap then Without(s.order, 0) else s.order;
      if s.len == s.cap {
        DistinctWithout(s.order, 0);
        FindWithout(s.order, 0, kv.slot);
        FindWithout(s.order, 0, slot);
      }
      DistinctAppend(rest, e);
      FindAppend(rest, e, kv.slot);
      FindAppend(rest, e, slot);
    }
  }

  // ----- two bids a slot: the drift in use -----

  /** The bids merged in, without the look-ups. */
  function Merges(ops: seq<MemOp>): seq<Recent> {
    if ops == [] then []
    else
      var op := ops[|ops| - 1];
      Merges(ops[..|ops| - 1]) + if op.Merged? then [op.kv] else []
  }

  /** A bidder that both buys and sells records two bids for each of the slots 0, 1, 2, ... */
  ghost predicate TwoPerSlot(kvs: seq<Recent>) {
    forall i :: 0 <= i < |kvs| ==> kvs[i].slot == i / 2
  }

  ghost predicate SlotsBelow(s: Lru<int, Recorded>, n: int) {
    forall i :: 0 <= i < |s.order| ==> s.order[i].key < n
  }

  lemma LookStaysBelow(s: Lru<int, Recorded>, looked: int, n: int)
    requires SlotsBelow(s, n)
    ensures SlotsBelow(GetStep(s, looked), n)
  {
  }

  /** The first bid of a slot is a fresh `Put`, which evicts if the counter stands at the capacity. */
  lemma FirstOfSlot(s: Lru<int, Recorded>, kv: Recent)
    requires SlotsBelow(s, kv.slot) && (s.len == s.cap ==> s.order != [])
    ensures var t, room := MergeStep(false, s, kv), if s.len == s.cap then 0 else 1;
            && t.Done? && t.state.cap == s.cap && t.state.len == s.len + room && |t.state.order| == |s.order| + room
            && SlotsBelow(t.state, kv.slot + 1)
  {
  }

  /** The second overwrites. */
  lemma SecondOfSlot(s: Lru<int, Recorded>, kv: Recent)
    requires Distinct(s.order) && SlotsBelow(s, kv.slot + 1) && Live(s, kv.slot)
    ensures var t := MergeStep(false, s, kv);
            && t.Done? && t.state.cap == s.cap && t.state.len == s.len + 1 && |t.state.order| == |s.order|
            && SlotsBelow(t.state, kv.slot + 1)
  {
    LookKeeps(s, kv.slot, kv.slot);
    LookStaysBelow(s, kv.slot, kv.slot + 1);
  }

  /** After `n` bids, two a slot, has the container evicted one? */
  predicate Evicted(cap: int, n: nat) {
    cap % 2 == 0 && n > cap
  }

  /** After `n` bids, two a slot, the counter stands at `n`, or one less when one was evicted, while
      half as many entries are held.  Nothing is evicted twice. */
  ghost predicate Drifted(cap: int, n: nat, s: Lru<int, Recorded>) {
    var gone := if Evicted(cap, n) then 1 else 0;
    && s.cap == cap && s.len == n - gone && |s.order| == (n + 1) / 2 - gone
    && Distinct(s.order) && SlotsBelow(s, (n + 1) / 2)
    && (n % 2 == 1 ==> Live(s, n / 2))
  }

  lemma LookDrifted(cap: int, n: nat, s: Lru<int, Recorded>, slot: int)
    requires Drifted(cap, n, s)
    ensures Drifted(cap, n, GetStep(s, slot))
  {
    LookKeeps(s, slot, n / 2);
    LookStaysBelow(s, slot, (n + 1) / 2);
  }

  lemma MergeDrifted(cap: int, n: nat, s: Lru<int, Recorded>, kv: Recent)
    requires cap >= 1 && Drifted(cap, n, s) && kv.slot == n / 2
    ensures MergeStep(false, s, kv).Done? && Drifted(cap, n + 1, MergeStep(false, s, kv).state)
  {
    if n % 2 == 0 { FirstOfSlot(s, kv); } else { SecondOfSlot(s, kv); }
    MergeRecords(false, s, kv, kv.slot);
  }

  lemma TwoPerSlotFront(kvs: seq<Recent>, kv: Recent)
    requires TwoPerSlot(kvs + [kv])
    ensures TwoPerSlot(kvs) && kv.slot == |kvs| / 2
  {
    assert (kvs + [kv])[|kvs|] == kv;
    assert forall i :: 0 <= i < |kvs| ==> (kvs + [kv])[i] == kvs[i];
  }

  /** Whatever look-ups fall between the bids. */
  lemma {:induction false} TwoBidDrift(cap: int, ops: seq<MemOp>)
    requires cap >= 1 && TwoPerSlot(Merges(ops))
    ensures Remember(false, cap, ops).Done? && Drifted(cap, |Merges(ops)|, Remember(false, cap, ops).state)
  {
    if ops != [] {
      var before, op := ops[..|ops| - 1], ops[|ops| - 1];
      var n := |Merges(before)|;
      assert Merges(before) + [] == Merges(before);
      if op.Merged? { TwoPerSlotFront(Merges(before), op.kv); }
      TwoBidDrift(cap, before);
      match op
      case Looked(slot) => LookDrifted(cap, n, Remember(false, cap, before).state, slot);
      case Merged(kv) => MergeDrifted(cap, n, Remember(false, cap, before).state, kv);
    }
  }

  const BUFFER_LEN := 100

  /** The bid-key container (capacity 100) of such a bidder counts past its capacity from the 102nd bid
      on, the second of its 51st slot, when it holds 50; from then on nothing is ever evicted
      (`OverfullNeverEvicts`), and it grows by an entry a slot. */
  lemma RecentBidKeysOverflow(ops: seq<MemOp>)
    requires TwoPerSlot(Merges(ops))
    ensures var t, n := Remember(false, BUFFER_LEN, ops), |Merges(ops)|;
            && t.Done? && (t.state.len > BUFFER_LEN <==> n >= 102)
            && (n >= 102 ==> |t.state.order| == (n + 1) / 2 - 1)
  {
    TwoBidDrift(BUFFER_LEN, ops);
  }
}
