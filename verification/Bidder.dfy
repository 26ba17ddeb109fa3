/** A bidder's calls to the ledger: drawing a price, retrying with bounded backoff, recording which
    bids need their key posted, and posting those keys. */
module Bidder {
  import opened AuctionCurves
  import opened AuctionSettle
  import opened BidderMemory
  import opened LedgerKeys
  import opened LedgerModel
  import opened LruContainer
  import opened Multisets
  import opened Options
  import opened Stats

  /** The experiment's constants: retries after the first attempt, and the backoff factor. */
  datatype Params = Params(exp: Exp, retryCount: nat, alpha: nat)

  /** What one invocation brings back: an error, or a response from which the write key decodes
      (`Some`) or does not. */
  datatype Reply = Error | Answer(writeKey: Option<Key>)

  datatype Transaction = Transaction(id: string, kind: string, success: bool, attempt: nat)

  function Exp2(i: nat): (r: nat)
    ensures r >= 1
  {
    if i == 0 then 1 else 2 * Exp2(i - 1)
  }

  /** The most blocks `k` attempts can wait: attempt i draws from [0, alpha * 2^i). */
  function MaxWait(alpha: nat, k: nat): int {
    alpha * (Exp2(k) - 1) - k
  }

  lemma MaxWaitNext(alpha: nat, k: nat)
    requires alpha >= 1
    ensures MaxWait(alpha, k + 1) == MaxWait(alpha, k) + alpha * Exp2(k) - 1
    ensures MaxWait(alpha, k) <= MaxWait(alpha, k + 1)
  {
  }

  lemma {:induction false} MaxWaitGrows(alpha: nat, k: nat, n: nat)
    requires alpha >= 1 && k <= n
    ensures MaxWait(alpha, k) <= MaxWait(alpha, n)
    decreases n - k
  {
    if k < n {
      MaxWaitNext(alpha, k);
      MaxWaitGrows(alpha, k + 1, n);
    }
  }

  /** Attempts needed: up to and including the first answered one, at most one more than the retries. */
  function Attempts(invoke: nat -> Reply, i: nat, retryCount: nat): (k: nat)
    requires i <= retryCount
    ensures i < k <= retryCount + 1
    ensures forall j :: i <= j < k - 1 ==> invoke(j).Error?
    ensures invoke(k - 1).Answer? || k == retryCount + 1
    decreases retryCount - i
  {
    if invoke(i).Answer? || i == retryCount then i + 1 else Attempts(invoke, i + 1, retryCount)
  }

  lemma {:induction false} AttemptsEnd(invoke: nat -> Reply, i: nat, k: nat, retryCount: nat)
    requires i <= k <= retryCount && forall j :: i <= j < k ==> invoke(j).Error?
    requires invoke(k).Answer? || k == retryCount
    ensures Attempts(invoke, i, retryCount) == k + 1
    decreases k - i
  {
    if i < k { AttemptsEnd(invoke, i + 1, k, retryCount); }
  }

  /** Does a call end with a response from which the write key decodes? */
  predicate Answered(p: Params, invoke: nat -> Reply) {
    var last := invoke(Attempts(invoke, 0, p.retryCount) - 1);
    last.Answer? && last.writeKey.Some?
  }

  /** The lines of `k` attempts: numbered from 1, all failed but possibly the last. */
  function AttemptLines(id: string, kind: string, k: nat, success: bool): (lines: seq<Transaction>)
    ensures |lines| == k
  {
    seq(k, j requires 0 <= j < k => Transaction(id, kind, success && j == k - 1, j + 1))
  }

  /** `intn(i, n)` is the random number below `n` drawn before attempt i + 1. */
  type Draws = (nat, nat) -> nat

  ghost predicate BelowBound(intn: Draws) {
    forall i, n :: n >= 1 ==> intn(i, n) < n
  }

  /** Blocks waited before attempt i + 1: nothing outside experiment 1. */
  function Delay(p: Params, intn: Draws, i: nat): nat {
    if p.exp.Exp1? then intn(i, p.alpha * Exp2(i)) else 0
  }

  /** Blocks waited over `k` attempts. */
  function Waited(p: Params, intn: Draws, k: nat): nat {
    if k == 0 then 0 else Waited(p, intn, k - 1) + Delay(p, intn, k - 1)
  }

  /** Doubling: the bounds the delays are drawn below are powers of two. */
  lemma {:induction false} Exp2Sum(i: nat, j: nat)
    ensures Exp2(i + j) == Exp2(i) * Exp2(j) && Exp2(1) == 2
  {
    if i > 0 {
      Exp2Sum(i - 1, j);
      assert Exp2(i + j) == 2 * (Exp2(i - 1) * Exp2(j)) == (2 * Exp2(i - 1)) * Exp2(j);
    }
  }

  lemma {:induction false} WaitBounded(p: Params, intn: Draws, k: nat)
    requires p.exp.Exp1? && p.alpha >= 1 && BelowBound(intn)
    ensures Waited(p, intn, k) <= MaxWait(p.alpha, k)
  {
    if k > 0 {
      WaitBounded(p, intn, k - 1);
      MaxWaitNext(p.alpha, k - 1);
      assert p.alpha * Exp2(k - 1) >= 1;
    }
  }

  /** The bound is met: when every draw is the largest, that is what is waited. */
  lemma {:induction false} WaitAttained(p: Params, k: nat)
    requires p.exp.Exp1? && p.alpha >= 1
    ensures Waited(p, (i: nat, n: nat) => if n >= 1 then n - 1 else 0, k) == p.alpha * (Exp2(k) - 1) - k
  {
    if k > 0 {
      WaitAttained(p, k - 1);
      MaxWaitNext(p.alpha, k - 1);
      assert p.alpha * Exp2(k - 1) >= 1;
    }
  }

  lemma AttemptNext(id: string, kind: string, i: nat, success: bool)
    ensures AttemptLines(id, kind, i, false) + [Transaction(id, kind, success, i + 1)] ==
            AttemptLines(id, kind, i + 1, success)
  {
  }

  /** What a finished retry loop reports. */
  ghost predicate Retried(p: Params, id: string, kind: string, intn: Draws, invoke: nat -> Reply,
                          lines: seq<Transaction>, writeKey: Option<Key>, waited: nat) {
    && lines == AttemptLines(id, kind, Attempts(invoke, 0, p.retryCount), writeKey.Some?)
    && writeKey == (if invoke(|lines| - 1).Answer? then invoke(|lines| - 1).writeKey else None)
    && waited == Waited(p, intn, |lines|)
  }

  /** The retry loop shared by buys, sells and key postings.  `invoke(i)` is what the ledger brings back
      at attempt i + 1. */
  method Retry(p: Params, id: string, kind: string, intn: Draws, invoke: nat -> Reply)
    returns (lines: seq<Transaction>, writeKey: Option<Key>, waited: nat)
    ensures Retried(p, id, kind, intn, invoke, lines, writeKey, waited)
  {
    lines, writeKey, waited := [], None, 0;
    var i := 0;
    while true
      invariant i <= p.retryCount && forall j :: 0 <= j < i ==> invoke(j).Error?
      invariant lines == AttemptLines(id, kind, i, false)
      invariant waited == Waited(p, intn, i)
      decreases p.retryCount - i
    {
      if p.exp.Exp1? {
        var delayBlocks := intn(i, p.alpha * Exp2(i));
        waited := waited + delayBlocks;
      }
      var attempt, reply := i + 1, invoke(i);
      if reply.Error? {
        AttemptNext(id, kind, i, false);
        lines := lines + [Transaction(id, kind, false, attempt)];
        if i == p.retryCount {
          AttemptsEnd(invoke, 0, i, p.retryCount);
          return;
        }
      } else {
        // Extract the write key.
        writeKey := reply.writeKey;
        AttemptNext(id, kind, i, writeKey.Some?);
        lines := lines + [Transaction(id, kind, writeKey.Some?, attempt)];
        AttemptsEnd(invoke, 0, i, p.retryCount);
        return;
      }
      i := i + 1;
    }
  }

  /** Bounded retry: a call makes at most one attempt more than the retries, reports exactly one line
      per attempt, numbered from 1 and all failed but possibly the last, and in experiment 1 waits no
      longer than if every draw were the largest. */
  lemma RetryBounded(p: Params, id: string, kind: string, intn: Draws, invoke: nat -> Reply,
                     lines: seq<Transaction>, writeKey: Option<Key>, waited: nat)
    requires (p.exp.Exp1? ==> p.alpha >= 1) && BelowBound(intn)
    requires Retried(p, id, kind, intn, invoke, lines, writeKey, waited)
    ensures 1 <= |lines| <= p.retryCount + 1
    ensures forall j :: 0 <= j < |lines| ==> lines[j].attempt == j + 1 && lines[j].id == id && lines[j].kind == kind
    ensures forall j :: 0 <= j < |lines| ==> (lines[j].success <==> writeKey.Some? && j == |lines| - 1)
    ensures forall j :: 0 <= j < |lines| - 1 ==> invoke(j).Error?
    ensures invoke(|lines| - 1).Answer? || |lines| == p.retryCount + 1
    ensures if p.exp.Exp1? then waited <= p.alpha * (Exp2(p.retryCount + 1) - 1) - (p.retryCount + 1) else waited == 0
  {
    if p.exp.Exp1? {
      WaitBounded(p, intn, |lines|);
      MaxWaitGrows(p.alpha, |lines|, p.retryCount + 1);
    } else {
      NoWait(p, intn, |lines|);
    }
  }

  lemma {:induction false} NoWait(p: Params, intn: Draws, k: nat)
    requires !p.exp.Exp1?
    ensures Waited(p, intn, k) == 0
  {
    if k > 0 { NoWait(p, intn, k - 1); }
  }

  // ----- drawing a bid -----

  datatype Row = Row(gen: real, use: real, lo: real, hi: real)

  /** `draw` is the random number in [0, 1). */
  function DrawPrice(row: Row, draw: real): real {
    row.lo + (row.hi - row.lo) * (1.0 - draw)
  }

  lemma PriceInRange(row: Row, draw: real)
    requires row.lo <= row.hi && 0.0 <= draw < 1.0
    ensures row.lo <= DrawPrice(row, draw) <= row.hi
    ensures row.lo < row.hi ==> row.lo < DrawPrice(row, draw)
  {
    var gap, share := row.hi - row.lo, 1.0 - draw;
    assert 0.0 < share <= 1.0;
    assert gap * share <= gap * 1.0;
  }

  /** Equal shares of the draws fall on equal shares of the range, from `Hi` downwards; */
  lemma PriceUniform(row: Row, d: real, e: real)
    ensures DrawPrice(row, d) - DrawPrice(row, e) == (e - d) * (row.hi - row.lo)
    ensures DrawPrice(row, 0.0) == row.hi
  {
    var gap := row.hi - row.lo;
    assert gap * (1.0 - d) - gap * (1.0 - e) == (e - d) * gap;
  }

  /** and every price above `Lo` is drawn. */
  lemma PriceDrawn(row: Row, p: real) returns (draw: real)
    requires row.lo < p <= row.hi
    ensures 0.0 <= draw < 1.0 && DrawPrice(row, draw) == p
  {
    var gap := row.hi - row.lo;
    var share := (p - row.lo) / gap;
    assert gap * share == p - row.lo;
    assert 0.0 < share <= 1.0;
    draw := 1.0 - share;
  }

  /** All bidders draw between the grid's prices, so the clearing price lies between them too. */
  lemma ClearingPriceInRange(buyers: multiset<Bid>, sellers: multiset<Bid>, r: Bid, lo: real, hi: real)
    requires Settles(buyers, sellers, Cleared(r)) && lo <= hi
    requires forall b :: b in buyers + sellers ==>
               exists row: Row, draw ::
                 row.lo == lo && row.hi == hi && 0.0 <= draw < 1.0 && b.price == DrawPrice(row, draw)
    ensures lo <= r.price <= hi
  {
    forall b | b in buyers + sellers ensures lo <= b.price <= hi {
      var row: Row, draw :| row.lo == lo && row.hi == hi && 0.0 <= draw < 1.0 && b.price == DrawPrice(row, draw);
      PriceInRange(row, draw);
    }
    PriceWithinBids(buyers, sellers, r, lo, hi);
  }

  const TO_KWH := 0.25

  /** A key posting addresses the write key recorded for its bid. */
  predicate PostFor(post: PostKeyInput, recorded: map<string, Key>, privKey: Bytes) {
    post.bidEvent in recorded && post == PostKeyInput(recorded[post.bidEvent], privKey, post.bidEvent)
  }

  /** The lines of the key postings for these bids, one call after the other. */
  function PostLines(p: Params, ids: string -> string, invoke: string -> nat -> Reply, events: seq<string>)
    : seq<Transaction>
  {
    if events == [] then []
    else
      var e := events[|events| - 1];
      PostLines(p, ids, invoke, events[..|events| - 1]) +
      AttemptLines(ids(e), "postKey", Attempts(invoke(e), 0, p.retryCount), Answered(p, invoke(e)))
  }

  class BidderState {
    var slotLines: seq<SlotLine>
    var transactions: seq<Transaction>
    var recentQueue: seq<Recent>
    const recentBidKeys: Container<int, Recorded>

    /** `repair` is the container's: does it count an overwrite once? */
    constructor (repair: bool)
      ensures slotLines == [] && transactions == [] && recentQueue == []
      ensures recentBidKeys.Valid() && fresh(recentBidKeys) && fresh(recentBidKeys.nodes)
      ensures recentBidKeys.View() == LruSpec.Empty(BUFFER_LEN) && recentBidKeys.repair == repair
    {
      slotLines, transactions, recentQueue := [], [], [];
      var c := new Container<int, Recorded>(BUFFER_LEN, repair);
      recentBidKeys := c;
    }

    /** Take one answered bid from the queue into the container. */
    method Merge() returns (panicked: bool)
      requires recentQueue != [] && recentBidKeys.Valid()
      modifies this`recentQueue, recentBidKeys, recentBidKeys.nodes
      ensures recentQueue == old(recentQueue[1..])
      ensures panicked <==> MergeStep(recentBidKeys.repair, old(recentBidKeys.View()), old(recentQueue[0])).Panic?
      ensures !panicked ==>
                && recentBidKeys.Valid()
                && (forall n :: n in recentBidKeys.nodes ==> n in old(recentBidKeys.nodes) || fresh(n))
                && MergeStep(recentBidKeys.repair, old(recentBidKeys.View()), old(recentQueue[0])) ==
                     LruSpec.Done(recentBidKeys.View())
    {
      var kv := recentQueue[0];
      recentQueue := recentQueue[1..];
      panicked := MergeInto(recentBidKeys, kv);
    }

    /** `Buy` and `Sell`: a buyer bids for its use, a seller its generation, in kWh.  `seal` encodes and
        encrypts a bid, if it can; `invoke` is what the ledger brings back for it, attempt by attempt. */
    method Place(p: Params, slot: int, side: Group, row: Row, draw: real, event: string,
                 seal: Bid -> Option<Bytes>, intn: Draws, invoke: Bytes -> nat -> Reply) returns (ok: bool)
      modifies this
      ensures var energy := if side.Buyers? then row.use else row.gen;
              energy <= 0.0 || seal(Bid(DrawPrice(row, draw), energy * 0.25)).None? ==>
                && slotLines == old(slotLines) && transactions == old(transactions) && recentQueue == old(recentQueue)
                && ok == (energy <= 0.0)
      ensures var energy := if side.Buyers? then row.use else row.gen;
              var data := seal(Bid(DrawPrice(row, draw), energy * 0.25));
              energy > 0.0 && data.Some? ==>
                var k := Attempts(invoke(data.value), 0, p.retryCount);
                && slotLines == old(slotLines) +
                     [if side.Buyers? then SlotLine(slot, row.use * 0.25, row.hi, 0.0, 0.0, 0.0, 0.0)
                      else SlotLine(slot, 0.0, 0.0, row.gen * 0.25, row.lo, 0.0, 0.0)]
                && ok == Answered(p, invoke(data.value))
                && transactions == old(transactions) +
                     AttemptLines(event, if side.Buyers? then "buy" else "sell", k, ok)
                && recentQueue == old(recentQueue) +
                     if ok && !p.exp.Exp2? then [Recent(slot, event, invoke(data.value)(k - 1).writeKey.value)] else []
    {
      ok := true;
      var energy := if side.Buyers? then row.use else row.gen;
      if energy > 0.0 {
        var bid := Bid(DrawPrice(row, draw), energy * TO_KWH);
        var data := seal(bid);
        if data.None? { return false; }
        slotLines := slotLines + [LineOf(slot, Placed(side, bid, if side.Buyers? then row.hi else row.lo))];
        var kind := if side.Buyers? then "buy" else "sell";
        var lines, writeKey, _ := Retry(p, event, kind, intn, invoke(data.value));
        transactions := transactions + lines;
        if writeKey.None? { return false; }
        // Remember the bid for the key posting.
        if !p.exp.Exp2? {
          recentQueue := recentQueue + [Recent(slot, event, writeKey.value)];
        }
      }
    }

    /** `PostKey`: look the slot's bids up, which makes the slot the most recent of the container, and
        post their keys; `posts` are the payloads sent. */
    method PostKeys(p: Params, slot: int, privKey: Bytes, ids: string -> string, intn: Draws,
                    invoke: string -> nat -> Reply) returns (ok: bool, posts: seq<PostKeyInput>)
      requires recentBidKeys.Valid()
      modifies this`transactions, recentBidKeys, recentBidKeys.nodes
      ensures recentBidKeys.Valid() && (forall n :: n in recentBidKeys.nodes ==> n in old(recentBidKeys.nodes))
      ensures recentBidKeys.View() == LruSpec.GetStep(old(recentBidKeys.View()), slot)
      ensures !LruSpec.Live(old(recentBidKeys.View()), slot) ==>
                !ok && posts == [] && transactions == old(transactions) + [Transaction(ids(""), "postKey", false, 0)]
      ensures LruSpec.Live(old(recentBidKeys.View()), slot) ==>
                var recorded := RecordedFor(old(recentBidKeys.View()), slot);
                && PostsFor(posts, recorded, privKey) && NoRepeats(EventsIn(posts))
                && StoppedAt(p, invoke, EventsIn(posts), recorded.Keys, ok)
                && transactions == old(transactions) + PostLines(p, ids, invoke, EventsIn(posts))
    {
      ghost var before := recentBidKeys.View();
      var recorded := recentBidKeys.Get(slot);
      assert recorded.Some? ==> recorded.value == RecordedFor(before, slot);
      if recorded.None? {
        transactions := transactions + [Transaction(ids(""), "postKey", false, 0)];
        return false, [];
      }
      var lines;
      ghost var order;
      ok, posts, lines, order := PostEach(p, recorded.value, privKey, ids, intn, invoke);
      NoRepeatsPrefix(order, |posts|);
      transactions := transactions + lines;
    }
  }

  /** The merge itself: look the slot up, then put its map back with the bid added. */
  method MergeInto(c: Container<int, Recorded>, kv: Recent) returns (panicked: bool)
    requires c.Valid()
    modifies c, c.nodes
    ensures panicked <==> MergeStep(c.repair, old(c.View()), kv).Panic?
    ensures !panicked ==> c.Valid() && MergeStep(c.repair, old(c.View()), kv) == LruSpec.Done(c.View())
    ensures !panicked ==> forall n :: n in c.nodes ==> n in old(c.nodes) || fresh(n)
  {
    ghost var before := c.nodes;
    var oldVals := c.Get(kv.slot);
    forall j | 0 <= j < |c.nodes| ensures c.nodes[j] in before {
      assert c.nodes[j] in c.nodes;
    }
    if oldVals.None? {
      panicked := c.Put(kv.slot, map[kv.event := kv.writeKey]);
    } else {
      panicked := c.Put(kv.slot, oldVals.value[kv.event := kv.writeKey]);
    }
  }

  // ----- posting keys -----

  predicate PostsFor(posts: seq<PostKeyInput>, recorded: map<string, Key>, privKey: Bytes) {
    forall i :: 0 <= i < |posts| ==> PostFor(posts[i], recorded, privKey)
  }

  predicate AllAnswered(p: Params, invoke: string -> nat -> Reply, events: seq<string>) {
    forall e :: e in events ==> Answered(p, invoke(e))
  }

  /** Keys are posted for all the bids, or up to and including the first call that fails. */
  predicate StoppedAt(p: Params, invoke: string -> nat -> Reply, events: seq<string>, all: set<string>, ok: bool) {
    && (forall e :: e in events ==> e in all)
    && if ok then AllAnswered(p, invoke, events) && forall e :: e in all ==> e in events
       else events != [] && AllAnswered(p, invoke, events[..|events| - 1]) && !Answered(p, invoke(events[|events| - 1]))
  }

  lemma PostsNext(posts: seq<PostKeyInput>, recorded: map<string, Key>, privKey: Bytes, e: string)
    requires PostsFor(posts, recorded, privKey) && e in recorded
    ensures var posts' := posts + [PostKeyInput(recorded[e], privKey, e)];
            PostsFor(posts', recorded, privKey) && EventsIn(posts') == EventsIn(posts) + [e]
  {
  }

  lemma PostLinesNext(p: Params, ids: string -> string, invoke: string -> nat -> Reply, events: seq<string>, e: string)
    ensures PostLines(p, ids, invoke, events + [e]) == PostLines(p, ids, invoke, events) +
              AttemptLines(ids(e), "postKey", Attempts(invoke(e), 0, p.retryCount), Answered(p, invoke(e)))
  {
  }

  lemma AnsweredNext(p: Params, invoke: string -> nat -> Reply, done: seq<string>, e: string, all: set<string>)
    requires AllAnswered(p, invoke, done) && (forall d :: d in done ==> d in all) && e in all
    ensures if Answered(p, invoke(e)) then AllAnswered(p, invoke, done + [e])
            else StoppedAt(p, invoke, done + [e], all, false)
  {
    assert (done + [e])[..|done|] == done;
  }

  /** Where the walk over `order` stands after one more bid: on, if its call was answered, or at its end. */
  lemma StopsHere(p: Params, invoke: string -> nat -> Reply, order: seq<string>, i: nat, all: set<string>)
    requires i < |order| && forall e :: e in order ==> e in all
    requires AllAnswered(p, invoke, order[..i])
    ensures order[..i + 1] == order[..i] + [order[i]]
    ensures if Answered(p, invoke(order[i])) then AllAnswered(p, invoke, order[..i + 1])
            else StoppedAt(p, invoke, order[..i + 1], all, false)
  {
    assert order[..i + 1] == order[..i] + [order[i]];
    forall d | d in order[..i] ensures d in all {
      assert d in order;
    }
    assert order[i] in order;
    AnsweredNext(p, invoke, order[..i], order[i], all);
  }

  /** One key posting per recorded bid of the slot, in map order, giving up at the first that fails. */
  method PostEach(p: Params, recorded: map<string, Key>, privKey: Bytes, ids: string -> string,
                  intn: Draws, invoke: string -> nat -> Reply)
    returns (ok: bool, posts: seq<PostKeyInput>, lines: seq<Transaction>, ghost order: seq<string>)
    ensures PostsFor(posts, recorded, privKey)
    ensures NoRepeats(order) && |posts| <= |order| && EventsIn(posts) == order[..|posts|]
    ensures StoppedAt(p, invoke, EventsIn(posts), recorded.Keys, ok)
    ensures lines == PostLines(p, ids, invoke, EventsIn(posts))
  {
    posts, lines := [], [];
    var events := Enumerate(recorded.Keys);
    order := events;
    for i := 0 to |events|
      invariant |posts| == i && EventsIn(posts) == events[..i] && PostsFor(posts, recorded, privKey)
      invariant AllAnswered(p, invoke, events[..i])
      invariant lines == PostLines(p, ids, invoke, events[..i])
    {
      var e := events[i];
      assert e in events;
      StopsHere(p, invoke, events, i, recorded.Keys);
      PostsNext(posts, recorded, privKey, e);
      PostLinesNext(p, ids, invoke, events[..i], e);
      posts := posts + [PostKeyInput(recorded[e], privKey, e)];
      var more, writeKey, _ := Retry(p, ids(e), "postKey", intn, invoke(e));
      lines := lines + more;
      if writeKey.None? { return false, posts, lines, events; }
    }
    assert events[..|events|] == events;
    ok := true;
  }

  function Successes(lines: seq<Transaction>): nat {
    if lines == [] then 0 else Successes(lines[..|lines| - 1]) + if lines[|lines| - 1].success then 1 else 0
  }

  lemma {:induction false} SuccessesConcat(xs: seq<Transaction>, ys: seq<Transaction>)
    ensures Successes(xs + ys) == Successes(xs) + Successes(ys)
  {
    if ys == [] {
      assert xs + ys == xs;
    } else {
      assert (xs + ys)[..|xs + ys| - 1] == xs + ys[..|ys| - 1];
      SuccessesConcat(xs, ys[..|ys| - 1]);
    }
  }

  lemma {:induction false} AttemptSuccesses(id: string, kind: string, k: nat, success: bool)
    requires k > 0
    ensures Successes(AttemptLines(id, kind, k, success)) == if success then 1 else 0
  {
    AttemptNext(id, kind, k - 1, success);
    SuccessesConcat(AttemptLines(id, kind, k - 1, false), [Transaction(id, kind, success, k)]);
    NoSuccess(id, kind, k - 1);
    assert Successes([Transaction(id, kind, success, k)]) == Successes([]) + if success then 1 else 0;
  }

  lemma {:induction false} NoSuccess(id: string, kind: string, k: nat)
    ensures Successes(AttemptLines(id, kind, k, false)) == 0
  {
    if k > 0 {
      AttemptNext(id, kind, k - 1, false);
      SuccessesConcat(AttemptLines(id, kind, k - 1, false), [Transaction(id, kind, false, k)]);
      NoSuccess(id, kind, k - 1);
    }
  }

  predicate PostKeyLines(p: Params, lines: seq<Transaction>) {
    forall l :: l in lines ==> l.kind == "postKey" && 1 <= l.attempt <= p.retryCount + 1
  }

  lemma OneMorePosted(p: Params, ids: string -> string, invoke: string -> nat -> Reply, before: seq<string>, e: string)
    requires PostKeyLines(p, PostLines(p, ids, invoke, before))
    ensures var lines := PostLines(p, ids, invoke, before + [e]);
            PostKeyLines(p, lines)
            && Successes(lines) ==
                 Successes(PostLines(p, ids, invoke, before)) + if Answered(p, invoke(e)) then 1 else 0
  {
    var more := AttemptLines(ids(e), "postKey", Attempts(invoke(e), 0, p.retryCount), Answered(p, invoke(e)));
    PostLinesNext(p, ids, invoke, before, e);
    AttemptSuccesses(ids(e), "postKey", |more|, Answered(p, invoke(e)));
    SuccessesConcat(PostLines(p, ids, invoke, before), more);
  }

  lemma {:induction false} AllPosted(p: Params, ids: string -> string, invoke: string -> nat -> Reply,
                                     events: seq<string>)
    requires AllAnswered(p, invoke, events)
    ensures Successes(PostLines(p, ids, invoke, events)) == |events|
    ensures PostKeyLines(p, PostLines(p, ids, invoke, events))
  {
    if events != [] {
      var before, e := events[..|events| - 1], events[|events| - 1];
      assert events == before + [e] && e in events;
      AllPosted(p, ids, invoke, before);
      OneMorePosted(p, ids, invoke, before, e);
    }
  }

  /** Key postings report as many successes as keys posted: all of the calls', or all but the last. */
  lemma OneSuccessEach(p: Params, ids: string -> string, invoke: string -> nat -> Reply,
                       events: seq<string>, all: set<string>, ok: bool)
    requires StoppedAt(p, invoke, events, all, ok)
    ensures Successes(PostLines(p, ids, invoke, events)) == |events| - if ok then 0 else 1
    ensures PostKeyLines(p, PostLines(p, ids, invoke, events))
  {
    if ok {
      AllPosted(p, ids, invoke, events);
    } else {
      var before, e := events[..|events| - 1], events[|events| - 1];
      assert events == before + [e];
      AllPosted(p, ids, invoke, before);
      OneMorePosted(p, ids, invoke, before, e);
    }
  }

  function EventsIn(posts: seq<PostKeyInput>): (r: seq<string>)
    ensures |r| == |posts|
  {
    if posts == [] then [] else EventsIn(posts[..|posts| - 1]) + [posts[|posts| - 1].bidEvent]
  }
}
