/** Block heights to slot numbers: what the block notifier triggers. */
module Timing {
  import opened Options

  // ----- strict running maxima -----

  function RunningMax(xs: seq<int>, from: int): int {
    if xs == [] then from
    else
      var m, x := RunningMax(xs[..|xs| - 1], from), xs[|xs| - 1];
      if x > m then x else m
  }

  /** The values that exceed `from` and everything before them, in order. */
  function Maxima(xs: seq<int>, from: int): seq<int> {
    if xs == [] then []
    else
      var before, x := xs[..|xs| - 1], xs[|xs| - 1];
      if x > RunningMax(before, from) then Maxima(before, from) + [x] else Maxima(before, from)
  }

  ghost predicate Increasing(xs: seq<int>) {
    forall i, j :: 0 <= i < j < |xs| ==> xs[i] < xs[j]
  }

  lemma MaximaNext(xs: seq<int>, x: int, from: int)
    ensures RunningMax(xs + [x], from) == if x > RunningMax(xs, from) then x else RunningMax(xs, from)
    ensures Maxima(xs + [x], from) == if x > RunningMax(xs, from) then Maxima(xs, from) + [x] else Maxima(xs, from)
  {
  }

  /** The maxima rise strictly, and end in the running maximum. */
  lemma {:induction false} MaximaIncrease(xs: seq<int>, from: int)
    ensures Increasing(Maxima(xs, from))
    ensures forall m :: m in Maxima(xs, from) ==> from < m <= RunningMax(xs, from)
    ensures RunningMax(xs, from) == if Maxima(xs, from) == [] then from else Maxima(xs, from)[|Maxima(xs, from)| - 1]
  {
    if xs != [] {
      var before := xs[..|xs| - 1];
      MaximaIncrease(before, from);
      RunningMaxFrom(before, from);
    }
  }

  lemma {:induction false} RunningMaxBound(xs: seq<int>, from: int, i: nat)
    requires i < |xs|
    ensures from <= RunningMax(xs, from) && xs[i] <= RunningMax(xs, from)
  {
    if i < |xs| - 1 {
      RunningMaxBound(xs[..|xs| - 1], from, i);
    } else {
      RunningMaxFrom(xs[..|xs| - 1], from);
    }
  }

  lemma {:induction false} RunningMaxFrom(xs: seq<int>, from: int)
    ensures from <= RunningMax(xs, from)
    ensures RunningMax(xs, from) == from || RunningMax(xs, from) in xs
  {
    if xs != [] { RunningMaxFrom(xs[..|xs| - 1], from); }
  }

  /** Exactly which values are triggered: those met before anything as large. */
  lemma {:induction false} MaximaExactly(xs: seq<int>, from: int, s: int)
    ensures s in Maxima(xs, from) <==>
            exists i :: 0 <= i < |xs| && xs[i] == s && s > from && forall j :: 0 <= j < i ==> xs[j] < s
  {
    if xs != [] {
      var n, before := |xs| - 1, xs[..|xs| - 1];
      MaximaExactly(before, from, s);
      RunningMaxFrom(before, from);
      if s in Maxima(xs, from) {
        if s in Maxima(before, from) {
          var i :| 0 <= i < |before| && before[i] == s && s > from && forall j :: 0 <= j < i ==> before[j] < s;
          assert xs[i] == s && forall j :: 0 <= j < i ==> xs[j] == before[j];
        } else {
          forall j | 0 <= j < n ensures xs[j] < s { RunningMaxBound(before, from, j); }
          assert xs[n] == s;
        }
      }
      if i :| 0 <= i < |xs| && xs[i] == s && s > from && forall j :: 0 <= j < i ==> xs[j] < s {
        if i < n {
          assert before[i] == s && forall j :: 0 <= j < i ==> before[j] == xs[j];
        } else {
          assert RunningMax(before, from) in before ==> RunningMax(before, from) < s;
        }
      }
    }
  }

  // ----- heights to slots -----

  type Positive = n: nat | n >= 1 witness 1

  datatype Schedule = Schedule(start: nat, blocksPerSlot: Positive)

  /** The slot a block falls in; -1 before the first. */
  function SlotOf(p: Schedule, block: int): int
  {
    if block >= p.start then (block - p.start) / p.blocksPerSlot else -1
  }

  function SlotsOf(p: Schedule, blocks: seq<int>): (s: seq<int>)
    ensures |s| == |blocks| && forall i :: 0 <= i < |s| ==> s[i] == SlotOf(p, blocks[i])
  {
    seq(|blocks|, i requires 0 <= i < |blocks| => SlotOf(p, blocks[i]))
  }

  lemma MulOrder(n: int, a: int, b: int)
    requires n >= 0 && a <= b
    ensures a * n <= b * n
  {
  }

  lemma DivMonotone(a: int, b: int, n: int)
    requires 0 <= a <= b && n >= 1
    ensures 0 <= a / n <= b / n
  {
    if a / n > b / n { MulOrder(n, b / n + 1, a / n); }
  }

  lemma SlotMonotone(p: Schedule, a: int, b: int)
    requires a <= b
    ensures SlotOf(p, a) <= SlotOf(p, b) && -1 <= SlotOf(p, a)
  {
    if a >= p.start {
      DivMonotone(a - p.start, b - p.start, p.blocksPerSlot);
    } else if b >= p.start {
      DivMonotone(0, b - p.start, p.blocksPerSlot);
    }
  }

  lemma DivAtLeast(x: int, n: int, s: int)
    requires x >= 0 && n >= 1
    ensures s <= x / n <==> s * n <= x
  {
    assert x == x / n * n + x % n;
    if s <= x / n { MulOrder(n, s, x / n); } else { MulOrder(n, x / n + 1, s); }
  }

  /** A slot has begun once its first block is there. */
  lemma SlotBegun(p: Schedule, block: int, s: int)
    requires 0 <= s
    ensures s <= SlotOf(p, block) <==> block >= p.start + s * p.blocksPerSlot
  {
    MulOrder(p.blocksPerSlot, 0, s);
    if block >= p.start { DivAtLeast(block - p.start, p.blocksPerSlot, s); }
  }

  /** The running maximum of the slots is the slot of the running maximum of the blocks. */
  lemma {:induction false} SlotOfMax(p: Schedule, blocks: seq<int>)
    ensures RunningMax(SlotsOf(p, blocks), -1) == SlotOf(p, RunningMax(blocks, -1))
  {
    if blocks != [] {
      var before, b := blocks[..|blocks| - 1], blocks[|blocks| - 1];
      SlotOfMax(p, before);
      assert SlotsOf(p, blocks)[..|before|] == SlotsOf(p, before);
      if b > RunningMax(before, -1) {
        SlotMonotone(p, RunningMax(before, -1), b);
      } else {
        SlotMonotone(p, b, RunningMax(before, -1));
      }
    }
  }

  // ----- the notifier -----

  datatype Clock = Clock(largestBlock: int, largestSlot: int)

  /** One poll: the new state, and the slot to send if one is triggered. */
  function Observe(p: Schedule, k: Clock, block: int): (Clock, Option<int>)
  {
    if block > k.largestBlock then
      if block >= p.start && SlotOf(p, block) > k.largestSlot
      then (Clock(block, SlotOf(p, block)), Some(SlotOf(p, block)))
      else (k.(largestBlock := block), None)
    else (k, None)
  }

  ghost predicate InStep(p: Schedule, k: Clock, blocks: seq<int>)
  {
    k == Clock(RunningMax(blocks, -1), RunningMax(SlotsOf(p, blocks), -1))
  }

  /** The filter on heights loses nothing: the notifier sends exactly the strict maxima of the slots. */
  lemma ObserveTriggersMaxima(p: Schedule, k: Clock, blocks: seq<int>, block: int)
    requires InStep(p, k, blocks)
    ensures var (k', sent) := Observe(p, k, block);
            && InStep(p, k', blocks + [block])
            && Maxima(SlotsOf(p, blocks + [block]), -1) ==
                 Maxima(SlotsOf(p, blocks), -1) + if sent.Some? then [sent.value] else []
  {
    assert SlotsOf(p, blocks + [block]) == SlotsOf(p, blocks) + [SlotOf(p, block)];
    MaximaNext(blocks, block, -1);
    MaximaNext(SlotsOf(p, blocks), SlotOf(p, block), -1);
    SlotOfMax(p, blocks);
    if block <= k.largestBlock {
      SlotMonotone(p, block, k.largestBlock);
    } else if block < p.start {
      RunningMaxFrom(SlotsOf(p, blocks), -1);
    }
  }

  class BlockNotifier {
    const p: Schedule
    var largestBlockNumberObserved: int
    var largestSlotNumberTriggered: int

    constructor (p: Schedule)
      ensures this.p == p && largestBlockNumberObserved == -1 && largestSlotNumberTriggered == -1
    {
      this.p := p;
      largestBlockNumberObserved, largestSlotNumberTriggered := -1, -1;
    }

    /** The polling loop, over the heights the ledger answers until the notifier is stopped; `None` is
        a failed query. */
    method Run(heights: seq<Option<nat>>) returns (sent: seq<int>, ok: bool, ghost n: nat)
      requires largestBlockNumberObserved == -1 && largestSlotNumberTriggered == -1
      modifies this
      ensures n <= |heights| && None !in heights[..n]
      ensures if ok then n == |heights| else n < |heights| && heights[n] == None
      ensures sent == Maxima(SlotsOf(p, BlocksOf(heights[..n])), -1)
      ensures InStep(p, Clock(largestBlockNumberObserved, largestSlotNumberTriggered), BlocksOf(heights[..n]))
    {
      sent := [];
      for i := 0 to |heights|
        invariant None !in heights[..i]
        invariant sent == Maxima(SlotsOf(p, BlocksOf(heights[..i])), -1)
        invariant InStep(p, Clock(largestBlockNumberObserved, largestSlotNumberTriggered), BlocksOf(heights[..i]))
      {
        if heights[i].None? { return sent, false, i; }
        var current: int := heights[i].value as int - 1;
        BlocksNext(heights, i);
        ghost var clock := Clock(largestBlockNumberObserved, largestSlotNumberTriggered);
        ghost var blocks := BlocksOf(heights[..i]);
        if current > largestBlockNumberObserved {
          largestBlockNumberObserved := current;
          if largestBlockNumberObserved >= p.start {
            var slot := (largestBlockNumberObserved - p.start) / p.blocksPerSlot;
            if slot > largestSlotNumberTriggered {
              largestSlotNumberTriggered := slot;
              sent := sent + [largestSlotNumberTriggered];
            }
          }
        }
        ObserveTriggersMaxima(p, clock, blocks, current);
      }
      assert heights[..|heights|] == heights;
      return sent, true, |heights|;
    }
  }

  /** Block numbers for the heights answered: the height counts the blocks, numbered from 0. */
  ghost function BlocksOf(heights: seq<Option<nat>>): (b: seq<int>)
    requires None !in heights
    ensures |b| == |heights|
  {
    seq(|heights|, i requires 0 <= i < |heights| => (assert heights[i] in heights; heights[i].value as int - 1))
  }

  lemma BlocksNext(heights: seq<Option<nat>>, i: nat)
    requires i < |heights| && None !in heights[..i] && heights[i].Some?
    ensures None !in heights[..i + 1]
    ensures BlocksOf(heights[..i + 1]) == BlocksOf(heights[..i]) + [heights[i].value as int - 1]
  {
  }

  // ----- no skipped slots, bounded phase lag -----

  /** The `i`-th block comes in step: the first block at or past the start falls in slot 0, and each
      later one is at most a slot's worth of blocks past the block before it. */
  ghost predicate InPace(p: Schedule, blocks: seq<int>, i: nat)
    requires i < |blocks|
  {
    if exists j :: 0 <= j < i && blocks[j] >= p.start then blocks[i] - blocks[i - 1] <= p.blocksPerSlot
    else blocks[i] < p.start + p.blocksPerSlot
  }

  /** However many blocks the ledger held before the start: if the observed blocks come in step, the
      triggered slots are 0, 1, 2, ... without a gap. */
  lemma {:induction false} NoSkippedSlots(p: Schedule, blocks: seq<int>)
    requires forall i :: 0 <= i < |blocks| ==> InPace(p, blocks, i)
    ensures forall i :: 0 <= i < |Maxima(SlotsOf(p, blocks), -1)| ==> Maxima(SlotsOf(p, blocks), -1)[i] == i
  {
    if blocks != [] {
      var n := |blocks| - 1;
      var before := blocks[..n];
      forall i | 0 <= i < n ensures InPace(p, before, i) {
        assert InPace(p, blocks, i);
      }
      NoSkippedSlots(p, before);
      assert SlotsOf(p, blocks)[..n] == SlotsOf(p, before);
      MaximaIncrease(SlotsOf(p, before), -1);
      SlotOfMax(p, before);
      NextInPace(p, blocks);
    }
  }

  /** The last block falls at most one slot past all the blocks before it. */
  lemma NextInPace(p: Schedule, blocks: seq<int>)
    requires blocks != [] && InPace(p, blocks, |blocks| - 1)
    ensures SlotOf(p, blocks[|blocks| - 1]) <= SlotOf(p, RunningMax(blocks[..|blocks| - 1], -1)) + 1
  {
    var n := |blocks| - 1;
    var before := blocks[..n];
    SlotMonotone(p, RunningMax(before, -1), RunningMax(before, -1));
    if exists j :: 0 <= j < n && blocks[j] >= p.start {
      RunningMaxBound(before, -1, n - 1);
      SlotMonotone(p, before[n - 1], RunningMax(before, -1));
      NextSlot(p, before[n - 1], blocks[n]);
    } else {
      SlotBegun(p, blocks[n], 1);
    }
  }

  lemma NextSlot(p: Schedule, a: int, b: int)
    requires b - a <= p.blocksPerSlot
    ensures SlotOf(p, b) <= SlotOf(p, a) + 1
  {
    var s := SlotOf(p, a) + 2;
    SlotMonotone(p, a, a);
    SlotBegun(p, b, s);
    SlotBegun(p, a, s - 1);
    assert s * p.blocksPerSlot == (s - 1) * p.blocksPerSlot + p.blocksPerSlot;
  }

  /** Bounded phase lag: a notifier that starts at most one slot later is behind by at most one slot. */
  lemma PhaseLag(p: Schedule, offset: nat, blocks: seq<int>)
    requires offset <= p.blocksPerSlot && RunningMax(blocks, -1) >= p.start + offset
    ensures var q := p.(start := p.start + offset);
            0 <= RunningMax(SlotsOf(p, blocks), -1) - RunningMax(SlotsOf(q, blocks), -1) <= 1
  {
    var q, top := p.(start := p.start + offset), RunningMax(blocks, -1);
    SlotOfMax(p, blocks);
    SlotOfMax(q, blocks);
    SlotBounds(p, top);
    SlotBounds(q, top);
    Lag(p.blocksPerSlot, offset, top - p.start, SlotOf(p, top), SlotOf(q, top));
  }

  lemma SlotBounds(p: Schedule, block: int)
    requires block >= p.start
    ensures SlotOf(p, block) >= 0
    ensures SlotOf(p, block) * p.blocksPerSlot <= block - p.start < (SlotOf(p, block) + 1) * p.blocksPerSlot
  {
  }

  lemma Lag(n: int, offset: int, x: int, s: int, t: int)
    requires 0 <= offset <= n
    requires s * n <= x < (s + 1) * n && t * n <= x - offset < (t + 1) * n
    ensures 0 <= s - t <= 1
  {
    if s < t { MulOrder(n, s + 1, t); }
    if s > t + 1 { MulOrder(n, t + 2, s); }
  }
}
