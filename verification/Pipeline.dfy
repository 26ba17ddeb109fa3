/** The slot-timing pipeline as one transition system: block notifier, slot notifier, queues and
    regulator take their steps in any order. */
module Pipeline {
  import B = Broadcasting
  import opened Fanout
  import opened Options
  import opened Timing

  /** The regulator's subscriber ID. */
  const REGULATOR := -1

  /** `observed` is the history of block numbers polled.  `pending` is the slot the block notifier is
      blocked on sending to the hub, the slot notifier with its subscribers. */
  datatype State = State(observed: seq<int>, clock: Clock, pending: Option<int>, hub: B.Hub, desk: Desk)

  const START := State([], Clock(-1, -1), None, B.NEW_HUB, Desk([], [], []))

  ghost predicate Poll(p: Schedule, s: State, s': State) {
    s.pending.None? && exists block: int ::
      var (clock, sent) := Observe(p, s.clock, block);
      s' == s.(observed := s.observed + [block], clock := clock, pending := sent)
  }

  ghost predicate Receive(s: State, s': State) {
    && s.pending.Some? && B.Receive(s.hub, s.pending.value, s'.hub)
    && s' == s.(pending := None, hub := s'.hub)
  }

  ghost predicate Register(s: State, s': State) {
    (exists id, cap :: B.Register(s.hub, id, cap, s'.hub)) && s' == s.(hub := s'.hub)
  }

  /** A bidder takes a notification from its queue. */
  ghost predicate Consume(s: State, s': State) {
    (exists id :: id != REGULATOR && B.Take(s.hub, id, s'.hub)) && s' == s.(hub := s'.hub)
  }

  /** The regulator takes a notification, unless it has stopped. */
  ghost predicate TakeSlot(s: State, s': State) {
    && s.desk.dropped == [] && B.Take(s.hub, REGULATOR, s'.hub)
    && s' == s.(hub := s'.hub, desk := Dispatch(s.desk, s.hub.subs[REGULATOR].queue[0]))
  }

  ghost predicate TakeTask(s: State, s': State) {
    s.desk.tasks != [] && s' == s.(desk := Work(s.desk))
  }

  ghost predicate Step(p: Schedule, s: State, s': State) {
    Poll(p, s, s') || Receive(s, s') || Register(s, s') || Consume(s, s') || TakeSlot(s, s') || TakeTask(s, s')
  }

  ghost predicate Run(p: Schedule, run: seq<State>) {
    run != [] && run[0] == START && forall i :: 0 <= i < |run| - 1 ==> Step(p, run[i], run[i + 1])
  }

  // ----- what every step keeps -----

  function NonZero(xs: seq<int>): seq<int> {
    if xs == [] then []
    else NonZero(xs[..|xs| - 1]) + if xs[|xs| - 1] == 0 then [] else [xs[|xs| - 1]]
  }

  function Next(xs: seq<int>): (r: seq<int>)
    ensures |r| == |xs| && forall i :: 0 <= i < |r| ==> r[i] == xs[i] + 1
  {
    seq(|xs|, i requires 0 <= i < |xs| => xs[i] + 1)
  }

  /** The block notifier has sent the maxima of the slots of what it observed; all but the pending one
      have been received. */
  ghost predicate SourceInv(p: Schedule, s: State) {
    && InStep(p, s.clock, s.observed)
    && Maxima(SlotsOf(p, s.observed), -1) == s.hub.received + if s.pending.Some? then [s.pending.value] else []
  }

  /** Every notification the regulator was sent is invoked, queued as a task, dropped or still in its
      slot queue, in that order; only slot 0 is skipped. */
  ghost predicate DeskInv(s: State) {
    |s.desk.tasks| <= 100 &&
    if REGULATOR in s.hub.subs then
      NonZero(s.hub.subs[REGULATOR].delivered) ==
        Next(s.desk.invoked) + s.desk.tasks + s.desk.dropped + NonZero(s.hub.subs[REGULATOR].queue)
    else s.desk == Desk([], [], [])
  }

  ghost predicate Inv(p: Schedule, s: State) {
    SourceInv(p, s) && B.HubInv(s.hub) && DeskInv(s)
  }

  lemma {:induction false} NonZeroHead(xs: seq<int>)
    requires xs != []
    ensures NonZero(xs) == (if xs[0] == 0 then [] else [xs[0]]) + NonZero(xs[1..])
  {
    var n := |xs| - 1;
    if n > 0 {
      NonZeroHead(xs[..n]);
      assert xs[..n][1..] == xs[1..][..n - 1];
    } else {
      assert xs[..n] == [] && xs[1..] == [];
    }
  }

  lemma PollKeeps(p: Schedule, s: State, s': State)
    requires Inv(p, s) && Poll(p, s, s')
    ensures Inv(p, s')
  {
    var block: int :|
      var (clock, sent) := Observe(p, s.clock, block);
      s' == s.(observed := s.observed + [block], clock := clock, pending := sent);
    ObserveTriggersMaxima(p, s.clock, s.observed, block);
  }

  /** A broadcast extends what a subscriber was sent and what waits in its queue alike. */
  lemma DeliveredAndQueued(h: B.Hub, v: int, h': B.Hub, id: int)
    requires B.Receive(h, v, h') && id in h.subs
    ensures id in h'.subs && (h'.subs[id] == h.subs[id] || h'.subs[id] == Push(h.subs[id], v))
  {
    if v > h.lastVal {
      var got: set<int>, subs: Subs :|
        Broadcast(h.subs, v, subs, got)
        && h' == h.(received := h.received + [v], lastVal := v, subs := subs,
                    blocked := h.blocked || B.AnyFull(h.subs));
    }
  }

  lemma NonZeroNext(xs: seq<int>, x: int)
    ensures NonZero(xs + [x]) == NonZero(xs) + if x == 0 then [] else [x]
  {
  }

  lemma DeliveredToRegulator(s: State, s': State)
    requires DeskInv(s) && Receive(s, s') && (REGULATOR in s'.hub.subs ==> REGULATOR in s.hub.subs)
    ensures DeskInv(s')
  {
    var v := s.pending.value;
    if REGULATOR in s.hub.subs {
      var sub := s.hub.subs[REGULATOR];
      DeliveredAndQueued(s.hub, v, s'.hub, REGULATOR);
      NonZeroNext(sub.delivered, v);
      NonZeroNext(sub.queue, v);
      Regroup(Next(s.desk.invoked) + s.desk.tasks + s.desk.dropped, NonZero(sub.queue), if v == 0 then [] else [v]);
    }
  }

  lemma NoNewcomer(h: B.Hub, v: int, h': B.Hub)
    requires B.Receive(h, v, h')
    ensures h'.subs.Keys == h.subs.Keys
  {
  }

  lemma ReceiveKeeps(p: Schedule, s: State, s': State)
    requires Inv(p, s) && Receive(s, s')
    ensures Inv(p, s')
  {
    B.ReceiveKeeps(s.hub, s.pending.value, s'.hub);
    NoNewcomer(s.hub, s.pending.value, s'.hub);
    DeliveredToRegulator(s, s');
    assert s'.hub.received + [] == s.hub.received + [s.pending.value];
  }

  lemma RegisterKeeps(p: Schedule, s: State, s': State)
    requires Inv(p, s) && Register(s, s')
    ensures Inv(p, s')
  {
    var id, cap :| B.Register(s.hub, id, cap, s'.hub);
    B.RegisterKeeps(s.hub, id, cap, s'.hub);
  }

  lemma ConsumeKeeps(p: Schedule, s: State, s': State)
    requires Inv(p, s) && Consume(s, s')
    ensures Inv(p, s')
  {
    var id :| id != REGULATOR && B.Take(s.hub, id, s'.hub);
    B.TakeKeeps(s.hub, id, s'.hub);
  }

  /** Moving the head of the slot queue to the desk keeps the order of notifications. */
  lemma DispatchKeeps(d: Desk, q: seq<int>)
    requires q != [] && d.dropped == []
    ensures var d' := Dispatch(d, q[0]);
            Next(d'.invoked) + d'.tasks + d'.dropped + NonZero(q[1..]) ==
            Next(d.invoked) + d.tasks + d.dropped + NonZero(q)
  {
    NonZeroHead(q);
    Regroup(Next(d.invoked) + d.tasks, [q[0]], NonZero(q[1..]));
    Regroup(Next(d.invoked), d.tasks, [q[0]]);
  }

  lemma Regroup(a: seq<int>, b: seq<int>, c: seq<int>)
    ensures a + (b + c) == a + b + c
    ensures a + [] == a && [] + a == a && [] + c == c && [] + b == b
    ensures a + [] + (b + c) == a + b + c && a + b + [] + c == a + b + c
  {
  }

  lemma TakeSlotKeeps(p: Schedule, s: State, s': State)
    requires Inv(p, s) && TakeSlot(s, s')
    ensures Inv(p, s')
  {
    B.TakeKeeps(s.hub, REGULATOR, s'.hub);
    DispatchKeeps(s.desk, s.hub.subs[REGULATOR].queue);
    DropsExactly(s.desk, s.hub.subs[REGULATOR].queue[0]);
  }

  lemma WorkKeeps(d: Desk)
    requires d.tasks != []
    ensures Next(Work(d).invoked) + Work(d).tasks == Next(d.invoked) + d.tasks
  {
    assert d.tasks == [d.tasks[0]] + d.tasks[1..];
    assert Next(Work(d).invoked) == Next(d.invoked) + [d.tasks[0]];
  }

  lemma TakeTaskKeeps(p: Schedule, s: State, s': State)
    requires Inv(p, s) && TakeTask(s, s')
    ensures Inv(p, s')
  {
    WorkKeeps(s.desk);
  }

  lemma StepKeeps(p: Schedule, s: State, s': State)
    requires Inv(p, s) && Step(p, s, s')
    ensures Inv(p, s')
  {
    if Poll(p, s, s') {
      PollKeeps(p, s, s');
    } else if Receive(s, s') {
      ReceiveKeeps(p, s, s');
    } else if Register(s, s') {
      RegisterKeeps(p, s, s');
    } else if Consume(s, s') {
      ConsumeKeeps(p, s, s');
    } else if TakeSlot(s, s') {
      TakeSlotKeeps(p, s, s');
    } else {
      TakeTaskKeeps(p, s, s');
    }
  }

  /** The invariant holds in every state of every run. */
  lemma {:induction false} Reachable(p: Schedule, run: seq<State>, i: nat)
    requires Run(p, run) && i < |run|
    ensures Inv(p, run[i])
  {
    if i > 0 {
      Reachable(p, run, i - 1);
      StepKeeps(p, run[i - 1], run[i]);
    }
  }

  // ----- pipeline safety -----

  lemma {:induction false} NonZeroMembers(xs: seq<int>, x: int)
    ensures x in NonZero(xs) <==> x in xs && x != 0
  {
    if xs != [] {
      var n := |xs| - 1;
      NonZeroMembers(xs[..n], x);
      assert xs == xs[..n] + [xs[n]];
    }
  }

  lemma {:induction false} NonZeroIncreasing(xs: seq<int>)
    requires Increasing(xs)
    ensures Increasing(NonZero(xs))
  {
    if xs != [] {
      var n := |xs| - 1;
      NonZeroIncreasing(xs[..n]);
      forall i | 0 <= i < |NonZero(xs[..n])| ensures NonZero(xs[..n])[i] < xs[n] {
        NonZeroMembers(xs[..n], NonZero(xs[..n])[i]);
        var j :| 0 <= j < n && xs[..n][j] == NonZero(xs[..n])[i];
      }
    }
  }

  /** What reaches the slot notifier rises strictly. */
  lemma ReceivedIsMaxima(p: Schedule, s: State)
    requires Inv(p, s)
    ensures Maxima(s.hub.received, -1) == s.hub.received
  {
    var top := Maxima(SlotsOf(p, s.observed), -1);
    MaximaIncrease(SlotsOf(p, s.observed), -1);
    assert forall i :: 0 <= i < |s.hub.received| ==> s.hub.received[i] == top[i] && top[i] in top;
    IncreasingIsMaxima(s.hub.received);
  }

  /** A strictly increasing sequence is its own sequence of maxima. */
  lemma {:induction false} IncreasingIsMaxima(xs: seq<int>)
    requires Increasing(xs) && forall i :: 0 <= i < |xs| ==> xs[i] > -1
    ensures Maxima(xs, -1) == xs
  {
    if xs != [] {
      var n := |xs| - 1;
      IncreasingIsMaxima(xs[..n]);
      RunningMaxFrom(xs[..n], -1);
      if RunningMax(xs[..n], -1) in xs[..n] {
        var j :| 0 <= j < n && xs[..n][j] == RunningMax(xs[..n], -1);
        assert xs[j] < xs[n];
      }
      assert xs == xs[..n] + [xs[n]];
    }
  }

  /** A received slot had begun: some observed block is at or past its first. */
  lemma ReceivedBegun(p: Schedule, s: State, m: int)
    requires Inv(p, s) && m in s.hub.received && m >= 0
    ensures exists b :: b in s.observed && b >= p.start + m * p.blocksPerSlot
  {
    var slots := SlotsOf(p, s.observed);
    assert m in Maxima(slots, -1);
    MaximaExactly(slots, -1, m);
    var j :| 0 <= j < |slots| && slots[j] == m;
    SlotBegun(p, s.observed[j], m);
    assert s.observed[j] in s.observed;
  }

  /** Pipeline safety: in every run and interleaving, the slots `markEnd` is invoked for rise strictly
      (so none is ended twice), slot -1 is never among them, and slot s is ended only after a block at
      or past the start of slot s + 1 was observed. */
  lemma PipelineSafety(p: Schedule, run: seq<State>, i: nat)
    requires Run(p, run) && i < |run|
    ensures Increasing(run[i].desk.invoked)
    ensures forall k :: 0 <= k < |run[i].desk.invoked| ==>
              && run[i].desk.invoked[k] >= 0
              && exists b :: b in run[i].observed && b >= p.start + (run[i].desk.invoked[k] + 1) * p.blocksPerSlot
  {
    Reachable(p, run, i);
    InvokedIncreasing(p, run[i]);
    forall k | 0 <= k < |run[i].desk.invoked|
      ensures run[i].desk.invoked[k] >= 0
              && exists b :: b in run[i].observed && b >= p.start + (run[i].desk.invoked[k] + 1) * p.blocksPerSlot
    {
      InvokedBegun(p, run[i], k);
    }
  }

  /** The slots ended are the predecessors of a prefix of what the regulator was sent, slot 0 left out. */
  lemma InvokedPrefix(s: State, k: nat)
    requires DeskInv(s) && k < |s.desk.invoked|
    ensures REGULATOR in s.hub.subs
    ensures var d := NonZero(s.hub.subs[REGULATOR].delivered); k < |d| && d[k] == s.desk.invoked[k] + 1
  {
    assert NonZero(s.hub.subs[REGULATOR].delivered)[k] == Next(s.desk.invoked)[k];
  }

  lemma InvokedIncreasing(p: Schedule, s: State)
    requires Inv(p, s)
    ensures Increasing(s.desk.invoked)
  {
    if REGULATOR in s.hub.subs {
      B.DeliveredIncreases(s.hub, REGULATOR);
      NonZeroIncreasing(s.hub.subs[REGULATOR].delivered);
      forall k | 0 <= k < |s.desk.invoked|
        ensures k < |NonZero(s.hub.subs[REGULATOR].delivered)|
                && NonZero(s.hub.subs[REGULATOR].delivered)[k] == s.desk.invoked[k] + 1
      {
        InvokedPrefix(s, k);
      }
    }
  }

  lemma InvokedBegun(p: Schedule, s: State, k: nat)
    requires Inv(p, s) && k < |s.desk.invoked|
    ensures s.desk.invoked[k] >= 0
    ensures exists b :: b in s.observed && b >= p.start + (s.desk.invoked[k] + 1) * p.blocksPerSlot
  {
    InvokedPrefix(s, k);
    var d, m := s.hub.subs[REGULATOR].delivered, s.desk.invoked[k] + 1;
    assert m in s.hub.received && m >= 1 by {
      B.DeliveredIncreases(s.hub, REGULATOR);
      NonZeroMembers(d, m);
      assert NonZero(d)[k] in NonZero(d);
    }
    ReceivedBegun(p, s, m);
  }

  /** The regulator stops exactly when a slot other than 0 reaches it while a hundred tasks wait, which
      is as many as ever do. */
  lemma StopsExactly(p: Schedule, run: seq<State>, i: nat)
    requires Run(p, run) && i + 1 < |run| && TakeSlot(run[i], run[i + 1])
    ensures run[i + 1].desk.dropped != [] <==>
            run[i].hub.subs[REGULATOR].queue[0] != 0 && |run[i].desk.tasks| == 100
  {
    Reachable(p, run, i);
    DropsExactly(run[i].desk, run[i].hub.subs[REGULATOR].queue[0]);
  }

  // ----- every slot is ended -----

  /** A regulator registered from the start has worked off its queues, no broadcast met a full queue,
      and no task was dropped. */
  predicate Drained(s: State) {
    && s.pending.None? && !s.hub.blocked
    && REGULATOR in s.hub.subs && REGULATOR in s.hub.since && s.hub.since[REGULATOR] == 0
    && s.hub.subs[REGULATOR].queue == [] && s.desk.tasks == [] && s.desk.dropped == []
  }

  /** Conservation: once the regulator has drained its queues, `markEnd` was invoked for the
      predecessor of every triggered slot but slot 0. */
  lemma DrainedRegulator(p: Schedule, run: seq<State>, i: nat)
    requires Run(p, run) && i < |run| && Drained(run[i])
    ensures Next(run[i].desk.invoked) == NonZero(Maxima(SlotsOf(p, run[i].observed), -1))
  {
    var s := run[i];
    Reachable(p, run, i);
    ReceivedIsMaxima(p, s);
    assert B.SubInv(s.hub, REGULATOR) && s.hub.received[..0] == [];
    assert s.hub.received + [] == s.hub.received;
    assert Next(s.desk.invoked) + [] + [] + [] == Next(s.desk.invoked);
  }

  /** Then, if the observed blocks come in step, the slots ended are exactly 0, 1, 2, ... up to the
      one before the latest slot begun. */
  lemma EverySlotEnded(p: Schedule, run: seq<State>, i: nat)
    requires Run(p, run) && i < |run| && Drained(run[i])
    requires forall j :: 0 <= j < |run[i].observed| ==> InPace(p, run[i].observed, j)
    ensures var latest := RunningMax(SlotsOf(p, run[i].observed), -1);
            |run[i].desk.invoked| == if latest < 0 then 0 else latest
    ensures forall k :: 0 <= k < |run[i].desk.invoked| ==> run[i].desk.invoked[k] == k
  {
    var s := run[i];
    var top := Maxima(SlotsOf(p, s.observed), -1);
    DrainedRegulator(p, run, i);
    NoSkippedSlots(p, s.observed);
    MaximaIncrease(SlotsOf(p, s.observed), -1);
    NonZeroCount(top, |top|);
    assert top[..|top|] == top;
    forall k | 0 <= k < |s.desk.invoked| ensures s.desk.invoked[k] == k {
      assert Next(s.desk.invoked)[k] == NonZero(top)[k];
    }
  }

  lemma {:induction false} NonZeroCount(top: seq<int>, n: nat)
    requires n <= |top| && forall i :: 0 <= i < |top| ==> top[i] == i
    ensures |NonZero(top[..n])| == if n == 0 then 0 else n - 1
    ensures forall k :: 0 <= k < |NonZero(top[..n])| ==> NonZero(top[..n])[k] == k + 1
  {
    if n > 0 {
      NonZeroCount(top, n - 1);
      assert top[..n][..n - 1] == top[..n - 1];
    }
  }
}
