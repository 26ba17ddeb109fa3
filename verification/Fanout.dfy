/** The slot notifier's fan-out to bounded queues, and the regulator's two queues. */
module Fanout {
  import opened Multisets

  /** A subscriber's queue, with everything it was ever sent. */
  datatype Sub = Sub(cap: nat, queue: seq<int>, delivered: seq<int>)

  function Push(s: Sub, v: int): Sub {
    s.(queue := s.queue + [v], delivered := s.delivered + [v])
  }

  type Subs = map<int, Sub>

  /** One broadcast of `v`: the subscribers in `got` are sent it.  The walk over the subscribers stops
      at the first full queue, so the rest miss out only if some queue is full. */
  ghost predicate Broadcast(subs: Subs, v: int, subs': Subs, got: set<int>) {
    && got <= subs.Keys && subs'.Keys == subs.Keys
    && (forall id :: id in subs ==> subs'[id] == if id in got then Push(subs[id], v) else subs[id])
    && (forall id :: id in got ==> |subs[id].queue| < subs[id].cap)
    && (got == subs.Keys || exists id :: id in subs && id !in got && |subs[id].queue| >= subs[id].cap)
  }

  /** A broadcast reaches everyone exactly when every queue has room. */
  lemma ReachesAll(subs: Subs, v: int, subs': Subs, got: set<int>)
    requires Broadcast(subs, v, subs', got)
    ensures got == subs.Keys <==> forall id :: id in subs ==> |subs[id].queue| < subs[id].cap
  {
  }

  class SlotNotifier {
    var subs: Subs
    var lastVal: int

    constructor ()
      ensures subs == map[] && lastVal == -1
    {
      subs, lastVal := map[], -1;
    }

    /** A second registration of an ID is refused and leaves the first queue in place. */
    method Register(id: int, sub: Sub) returns (ok: bool)
      modifies this
      ensures ok <==> id !in old(subs)
      ensures subs == if ok then old(subs)[id := sub] else old(subs)
      ensures lastVal == old(lastVal)
    {
      if id in subs { return false; }
      subs := subs[id := sub];
      return true;
    }

    /** One value from the source: dropped unless it is larger than every one before. */
    method Receive(newVal: int) returns (ghost got: set<int>)
      modifies this
      ensures lastVal == if newVal > old(lastVal) then newVal else old(lastVal)
      ensures newVal > old(lastVal) ==> Broadcast(old(subs), newVal, subs, got)
      ensures newVal <= old(lastVal) ==> subs == old(subs)
    {
      got := {};
      if newVal > lastVal {
        lastVal := newVal;
        var order := Enumerate(subs.Keys);
        for i := 0 to |order|
          invariant got == set id | id in order[..i]
          invariant got <= old(subs).Keys && subs.Keys == old(subs).Keys && lastVal == newVal
          invariant forall id :: id in subs ==>
                      subs[id] == if id in got then Push(old(subs)[id], newVal) else old(subs)[id]
          invariant forall id :: id in got ==> |old(subs)[id].queue| < old(subs)[id].cap
        {
          var id := order[i];
          assert id in order;
          NoRepeatsPrefix(order, i + 1);
          assert order[..i + 1][..i] == order[..i] && order[..i + 1][i] == id;
          assert id !in got;
          if |subs[id].queue| >= subs[id].cap { return; }
          subs := subs[id := Push(subs[id], lastVal)];
          got := got + {id};
        }
        assert order[..|order|] == order;
      }
    }
  }

  // ----- the regulator -----

  const TASK_CAP := 100

  /** What the regulator holds besides its slot queue: tasks, the slots it invoked `markEnd` for, and
      the notification it could not queue, if that made it stop. */
  datatype Desk = Desk(tasks: seq<int>, invoked: seq<int>, dropped: seq<int>)

  function Dispatch(d: Desk, slot: int): Desk {
    if slot == 0 then d
    else if |d.tasks| < TASK_CAP then d.(tasks := d.tasks + [slot])
    else d.(dropped := d.dropped + [slot])
  }

  function Work(d: Desk): Desk
    requires d.tasks != []
  {
    d.(tasks := d.tasks[1..], invoked := d.invoked + [d.tasks[0] - 1])
  }

  /** A task is dropped exactly when a hundred are waiting. */
  lemma DropsExactly(d: Desk, slot: int)
    ensures Dispatch(d, slot).dropped != d.dropped <==> slot != 0 && |d.tasks| >= 100
    ensures |Dispatch(d, slot).tasks| <= if |d.tasks| <= 100 then 100 else |d.tasks|
  {
    assert |d.dropped + [slot]| != |d.dropped|;
  }

  class Regulator {
    var slotQueue: seq<int>
    var taskQueue: seq<int>
    var invoked: seq<int>
    var stopped: bool
    ghost var dropped: seq<int>

    ghost function View(): Desk
      reads this
    {
      Desk(taskQueue, invoked, dropped)
    }

    constructor ()
      ensures slotQueue == [] && View() == Desk([], [], []) && !stopped
    {
      slotQueue, taskQueue, invoked, stopped, dropped := [], [], [], false, [];
    }

    /** The main thread takes one notification. */
    method TakeSlot()
      requires slotQueue != [] && !stopped
      modifies this
      ensures slotQueue == old(slotQueue[1..]) && View() == Dispatch(old(View()), old(slotQueue[0]))
      ensures stopped <==> old(slotQueue[0]) != 0 && old(|taskQueue|) >= 100
      ensures taskQueue == if stopped || old(slotQueue[0]) == 0 then old(taskQueue) else old(taskQueue + [slotQueue[0]])
    {
      var slot := slotQueue[0];
      slotQueue := slotQueue[1..];
      if slot == 0 { return; }
      if |taskQueue| < TASK_CAP {
        taskQueue := taskQueue + [slot];
      } else {
        dropped := dropped + [slot];
        stopped := true;
      }
    }

    /** The worker takes one task: the notification for slot N ends slot N - 1. */
    method TakeTask() returns (affected: int)
      requires taskQueue != []
      modifies this`taskQueue, this`invoked
      ensures View() == Work(old(View())) && affected == old(taskQueue[0]) - 1
    {
      affected := taskQueue[0] - 1;
      taskQueue := taskQueue[1..];
      invoked := invoked + [affected];
    }
  }
}
