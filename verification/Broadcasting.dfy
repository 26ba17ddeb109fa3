/** Every run of the slot notifier: whatever the source sends, and however registrations and the
    subscribers' readings fall between its values. */
module Broadcasting {
  import opened Fanout
  import opened Timing

  /** `received` is everything the source sent.  `since` says how much of it came before a subscriber
      joined; `blocked`, whether a broadcast ever met a full queue. */
  datatype Hub = Hub(received: seq<int>, lastVal: int, subs: Subs, since: map<int, nat>, blocked: bool)

  /** Some queue has no room. */
  ghost predicate AnyFull(subs: Subs) {
    exists id :: id in subs && |subs[id].queue| >= subs[id].cap
  }

  const NEW_HUB := Hub([], -1, map[], map[], false)

  ghost predicate Receive(h: Hub, v: int, h': Hub) {
    var t := h.(received := h.received + [v]);
    if v <= h.lastVal then h' == t
    else exists got: set<int>, subs: Subs ::
      Broadcast(h.subs, v, subs, got)
      && h' == t.(lastVal := v, subs := subs, blocked := h.blocked || AnyFull(h.subs))
  }

  predicate Register(h: Hub, id: int, cap: nat, h': Hub) {
    h' == if id in h.subs then h
          else h.(subs := h.subs[id := Sub(cap, [], [])], since := h.since[id := |h.received|])
  }

  /** A subscriber takes the next notification from its queue. */
  predicate Take(h: Hub, id: int, h': Hub) {
    && id in h.subs && h.subs[id].queue != []
    && h' == h.(subs := h.subs[id := h.subs[id].(queue := h.subs[id].queue[1..])])
  }

  ghost predicate Step(h: Hub, h': Hub) {
    || (exists v :: Receive(h, v, h'))
    || (exists id, cap :: Register(h, id, cap, h'))
    || (exists id :: Take(h, id, h'))
  }

  ghost predicate Run(run: seq<Hub>) {
    run != [] && run[0] == NEW_HUB && forall i :: 0 <= i < |run| - 1 ==> Step(run[i], run[i + 1])
  }

  // ----- what every step keeps -----

  /** `xs` is what remains of `ys` when some elements are left out. */
  ghost predicate Subsequence(xs: seq<int>, ys: seq<int>) {
    xs == [] ||
    (ys != [] && (Subsequence(xs, ys[..|ys| - 1])
                  || (xs[|xs| - 1] == ys[|ys| - 1] && Subsequence(xs[..|xs| - 1], ys[..|ys| - 1]))))
  }

  /** The maxima the source reached after a subscriber joined. */
  ghost function MaximaSince(h: Hub, id: int): seq<int>
    requires id in h.since
  {
    if h.since[id] <= |h.received| && |Maxima(h.received[..h.since[id]], -1)| <= |Maxima(h.received, -1)|
    then Maxima(h.received, -1)[|Maxima(h.received[..h.since[id]], -1)|..]
    else []
  }

  ghost predicate SubInv(h: Hub, id: int)
    requires id in h.subs && id in h.since
  {
    && Subsequence(h.subs[id].delivered, Maxima(h.received, -1))
    && h.since[id] <= |h.received|
    && |Maxima(h.received[..h.since[id]], -1)| <= |Maxima(h.received, -1)|
    && (!h.blocked ==> h.subs[id].delivered == MaximaSince(h, id))
    && |h.subs[id].queue| <= h.subs[id].cap
  }

  ghost predicate HubInv(h: Hub) {
    && h.lastVal == RunningMax(h.received, -1)
    && h.since.Keys == h.subs.Keys
    && forall id :: id in h.subs ==> SubInv(h, id)
  }

  lemma SubsequenceNext(xs: seq<int>, ys: seq<int>, y: int)
    requires Subsequence(xs, ys)
    ensures Subsequence(xs, ys + [y]) && Subsequence(xs + [y], ys + [y])
  {
  }

  lemma ReceivedKeeps(h: Hub, h': Hub, v: int, got: set<int>, id: int)
    requires h.lastVal == RunningMax(h.received, -1) && h.since.Keys == h.subs.Keys
    requires id in h.subs && SubInv(h, id) && v > h.lastVal
    requires Broadcast(h.subs, v, h'.subs, got) && h'.since == h.since
    requires h'.received == h.received + [v] && h'.blocked == (h.blocked || AnyFull(h.subs))
    ensures SubInv(h', id)
  {
    var top, from := Maxima(h.received, -1), |Maxima(h.received[..h.since[id]], -1)|;
    ReachesAll(h.subs, v, h'.subs, got);
    MaximaNext(h.received, v, -1);
    SubsequenceNext(h.subs[id].delivered, top, v);
    assert h'.received[..h.since[id]] == h.received[..h.since[id]];
    assert (top + [v])[from..] == top[from..] + [v];
  }

  lemma DroppedKeeps(h: Hub, v: int, id: int)
    requires HubInv(h) && id in h.subs && v <= h.lastVal
    ensures SubInv(h.(received := h.received + [v]), id)
  {
    MaximaNext(h.received, v, -1);
    assert (h.received + [v])[..h.since[id]] == h.received[..h.since[id]];
  }

  lemma ReceiveKeeps(h: Hub, v: int, h': Hub)
    requires HubInv(h) && Receive(h, v, h')
    ensures HubInv(h')
  {
    MaximaNext(h.received, v, -1);
    if v <= h.lastVal {
      forall id | id in h'.subs ensures SubInv(h', id) {
        DroppedKeeps(h, v, id);
      }
    } else {
      var got: set<int>, subs: Subs :|
        Broadcast(h.subs, v, subs, got)
        && h' == h.(received := h.received + [v], lastVal := v, subs := subs, blocked := h.blocked || AnyFull(h.subs));
      forall id | id in h'.subs ensures SubInv(h', id) {
        ReceivedKeeps(h, h', v, got, id);
      }
    }
  }

  lemma RegisterKeeps(h: Hub, id: int, cap: nat, h': Hub)
    requires HubInv(h) && Register(h, id, cap, h')
    ensures HubInv(h')
  {
    forall other | other in h'.subs ensures SubInv(h', other) {
      assert h.received[..|h.received|] == h.received;
      assert other in h.subs ==> SubInv(h, other);
    }
  }

  lemma TakeKeeps(h: Hub, id: int, h': Hub)
    requires HubInv(h) && Take(h, id, h')
    ensures HubInv(h')
  {
    forall other | other in h'.subs ensures SubInv(h', other) {
      assert SubInv(h, other);
    }
  }

  lemma StepKeeps(h: Hub, h': Hub)
    requires HubInv(h) && Step(h, h')
    ensures HubInv(h')
  {
    if v :| Receive(h, v, h') {
      ReceiveKeeps(h, v, h');
    } else if id, cap :| Register(h, id, cap, h') {
      RegisterKeeps(h, id, cap, h');
    } else {
      var id :| Take(h, id, h');
      TakeKeeps(h, id, h');
    }
  }

  /** The invariant holds in every state of every run, for an arbitrary source. */
  lemma {:induction false} Reachable(run: seq<Hub>, i: nat)
    requires Run(run) && i < |run|
    ensures HubInv(run[i])
  {
    if i > 0 {
      Reachable(run, i - 1);
      StepKeeps(run[i - 1], run[i]);
    }
  }

  // ----- fan-out -----

  lemma {:induction false} SubsequenceMembers(xs: seq<int>, ys: seq<int>, i: nat)
    requires Subsequence(xs, ys) && i < |xs|
    ensures xs[i] in ys
    decreases |ys|
  {
    var m, n := |xs| - 1, |ys| - 1;
    assert forall y :: y in ys[..n] ==> y in ys;
    if Subsequence(xs, ys[..n]) {
      SubsequenceMembers(xs, ys[..n], i);
    } else if i < m {
      SubsequenceMembers(xs[..m], ys[..n], i);
    }
  }

  lemma {:induction false} SubsequenceIncreasing(xs: seq<int>, ys: seq<int>)
    requires Subsequence(xs, ys) && Increasing(ys)
    ensures Increasing(xs)
    decreases |ys|
  {
    if xs != [] {
      var m, n := |xs| - 1, |ys| - 1;
      if Subsequence(xs, ys[..n]) {
        SubsequenceIncreasing(xs, ys[..n]);
      } else {
        SubsequenceIncreasing(xs[..m], ys[..n]);
        forall i | 0 <= i < m ensures xs[i] < xs[m] {
          SubsequenceMembers(xs[..m], ys[..n], i);
          var j :| 0 <= j < n && ys[..n][j] == xs[..m][i];
        }
      }
    }
  }

  /** What a subscriber was sent rises strictly, comes from the source, and is never below slot 0. */
  lemma DeliveredIncreases(h: Hub, id: int)
    requires HubInv(h) && id in h.subs
    ensures Increasing(h.subs[id].delivered)
    ensures forall x :: x in h.subs[id].delivered ==> x in h.received && 0 <= x <= h.lastVal
  {
    var d, top := h.subs[id].delivered, Maxima(h.received, -1);
    assert SubInv(h, id);
    MaximaIncrease(h.received, -1);
    SubsequenceIncreasing(d, top);
    forall x | x in d ensures x in h.received && 0 <= x <= h.lastVal {
      var i :| 0 <= i < |d| && d[i] == x;
      SubsequenceMembers(d, top, i);
      MaximaExactly(h.received, -1, x);
    }
  }

  /** Fan-out, for any integers the source may send: a subscriber's history rises strictly and is a
      subsequence of the source's strict maxima, the last value is the running maximum, and if no
      broadcast ever met a full queue the history is exactly the maxima since the subscriber joined. */
  lemma FanoutExact(run: seq<Hub>, i: nat, id: int)
    requires Run(run) && i < |run| && id in run[i].subs
    ensures var h := run[i];
            && id in h.since && h.lastVal == RunningMax(h.received, -1)
            && Increasing(h.subs[id].delivered) && Subsequence(h.subs[id].delivered, Maxima(h.received, -1))
            && (!h.blocked ==> h.subs[id].delivered == MaximaSince(h, id))
            && (!h.blocked && h.since[id] == 0 ==> h.subs[id].delivered == Maxima(h.received, -1))
            && |h.subs[id].queue| <= h.subs[id].cap
  {
    var h := run[i];
    Reachable(run, i);
    DeliveredIncreases(h, id);
    assert SubInv(h, id);
    assert h.since[id] == 0 ==> h.received[..h.since[id]] == [];
  }

  /** A run is blocked exactly when, on receiving a value larger than every one before, it met a queue
      without room. */
  lemma {:induction false} BlockedExactly(run: seq<Hub>, i: nat)
    requires Run(run) && i < |run|
    ensures run[i].blocked <==>
            exists j, id :: 0 <= j < i && run[j + 1].lastVal > run[j].lastVal
                            && id in run[j].subs && |run[j].subs[id].queue| >= run[j].subs[id].cap
  {
    if i > 0 {
      BlockedExactly(run, i - 1);
      BlockedStep(run[i - 1], run[i]);
    }
  }

  lemma BlockedStep(h: Hub, h': Hub)
    requires Step(h, h')
    ensures h'.blocked <==> h.blocked || (h'.lastVal > h.lastVal && AnyFull(h.subs))
  {
  }

  // ----- a slow subscriber costs others -----

  ghost predicate Misses(h: Hub, v: int, id: int, h': Hub) {
    Receive(h, v, h') && id in h.subs && id in h'.subs && h'.subs[id] == h.subs[id]
  }

  /** A subscriber with room may miss a new value exactly when some queue is full: the walk over the
      subscribers may meet that queue first, and stops there. */
  lemma MissesExactly(h: Hub, v: int, id: int)
    requires v > h.lastVal && id in h.subs && |h.subs[id].queue| < h.subs[id].cap
    ensures (exists h' :: Misses(h, v, id, h')) <==>
            exists other :: other in h.subs && |h.subs[other].queue| >= h.subs[other].cap
  {
    if h' :| Misses(h, v, id, h') {
      var got: set<int>, subs: Subs :|
        Broadcast(h.subs, v, subs, got)
        && h' == h.(received := h.received + [v], lastVal := v, subs := subs, blocked := h.blocked || AnyFull(h.subs));
      ReachesAll(h.subs, v, subs, got);
      assert Push(h.subs[id], v).queue != h.subs[id].queue;
    }
    if AnyFull(h.subs) {
      var h' := h.(received := h.received + [v], lastVal := v, blocked := true);
      assert Broadcast(h.subs, v, h.subs, {});
      assert Misses(h, v, id, h');
    }
  }

  /** It happens: of two subscribers with one place each, the one that reads is skipped because the
      other does not. */
  lemma SlowSubscriberRun() returns (run: seq<Hub>)
    ensures Run(run) && |run| == 6 && Misses(run[4], 1, 2, run[5])
    ensures 2 in run[4].subs && |run[4].subs[2].queue| < run[4].subs[2].cap
    ensures 2 in run[5].subs && run[5].subs[2].delivered == [0] && Maxima(run[5].received, -1) == [0, 1]
  {
    var blank, full, read := Sub(1, [], []), Sub(1, [0], [0]), Sub(1, [], [0]);
    var one, two := map[1 := blank], map[1 := blank, 2 := blank];
    var since := map[1 := 0, 2 := 0];
    var joined, both := Hub([], -1, one, map[1 := 0], false), Hub([], -1, two, since, false);
    var sent := Hub([0], 0, map[1 := full, 2 := full], since, false);
    var taken := Hub([0], 0, map[1 := full, 2 := read], since, false);
    var skipped := Hub([0, 1], 1, map[1 := full, 2 := read], since, true);
    run := [NEW_HUB, joined, both, sent, taken, skipped];
    assert Step(NEW_HUB, joined) by { assert Register(NEW_HUB, 1, 1, joined); }
    assert Step(joined, both) by { assert Register(joined, 2, 1, both); }
    assert Step(both, sent) by { SlowSent(both, sent); }
    assert Step(sent, taken) by { SlowTaken(sent, taken); }
    assert Step(taken, skipped) by { SlowSkipped(taken, skipped); }
    SlowSkipped(taken, skipped);
    SlowMaxima();
  }

  lemma SlowSent(h: Hub, h': Hub)
    requires h.received == [] && h.lastVal == -1 && h.subs == map[1 := Sub(1, [], []), 2 := Sub(1, [], [])]
    requires h' == h.(received := [0], lastVal := 0, subs := map[1 := Sub(1, [0], [0]), 2 := Sub(1, [0], [0])])
    ensures Receive(h, 0, h')
  {
    assert [] + [0] == [0];
    assert Push(Sub(1, [], []), 0) == Sub(1, [0], [0]);
    assert Broadcast(h.subs, 0, h'.subs, {1, 2});
    ReachesAll(h.subs, 0, h'.subs, {1, 2});
  }

  lemma SlowTaken(h: Hub, h': Hub)
    requires h.subs == map[1 := Sub(1, [0], [0]), 2 := Sub(1, [0], [0])]
    requires h' == h.(subs := map[1 := Sub(1, [0], [0]), 2 := Sub(1, [], [0])])
    ensures Take(h, 2, h')
  {
    assert h.subs[2].queue[1..] == [];
    assert h'.subs == h.subs[2 := Sub(1, [], [0])];
  }

  lemma SlowSkipped(h: Hub, h': Hub)
    requires h.received == [0] && h.lastVal == 0 && h.subs == map[1 := Sub(1, [0], [0]), 2 := Sub(1, [], [0])]
    requires h' == h.(received := [0, 1], lastVal := 1, blocked := true)
    ensures Receive(h, 1, h') && Misses(h, 1, 2, h')
  {
    assert [0] + [1] == [0, 1] && |h.subs[1].queue| >= h.subs[1].cap;
    assert Broadcast(h.subs, 1, h.subs, {});
  }

  lemma SlowMaxima()
    ensures Maxima([0, 1], -1) == [0, 1]
  {
    MaximaNext([], 0, -1);
    MaximaNext([0], 1, -1);
    assert [] + [0] == [0] && [0] + [1] == [0, 1];
  }
}
