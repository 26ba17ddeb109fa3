/** The LRU container as a value: entries from least to most recently used, beside the length
    counter the code keeps.

    `repair` selects between the container as it is written (false) and the one whose overwriting
    `Put` first takes the replaced entry off the counter (true). */
module LruSpec {

  datatype Entry<K, V> = Entry(key: K, val: V)

  datatype Lru<K, V> = Lru(cap: int, len: int, order: seq<Entry<K, V>>)

  datatype Op<K, V> = Get(key: K) | Put(key: K, val: V) | Delete(key: K)

  /** A step either completes or dereferences a nil pointer. */
  datatype Next<K, V> = Done(state: Lru<K, V>) | Panic

  /** Position of an entry for `k`, or -1. */
  ghost function Find<K, V>(order: seq<Entry<K, V>>, k: K): (i: int)
    ensures -1 <= i < |order|
    ensures i >= 0 ==> order[i].key == k
    ensures i == -1 ==> forall j :: 0 <= j < |order| ==> order[j].key != k
  {
    if exists j :: 0 <= j < |order| && order[j].key == k then
      var j :| 0 <= j < |order| && order[j].key == k; j
    else -1
  }

  ghost predicate Live<K, V>(s: Lru<K, V>, k: K) {
    Find(s.order, k) >= 0
  }

  function Without<T>(s: seq<T>, i: int): (r: seq<T>)
    requires 0 <= i < |s|
    ensures |r| == |s| - 1
    ensures forall j {:trigger r[j]} :: 0 <= j < |r| ==> r[j] == if j < i then s[j] else s[j + 1]
  {
    seq(|s| - 1, j requires 0 <= j < |s| - 1 => if j < i then s[j] else s[j + 1])
  }

  ghost function GetStep<K, V>(s: Lru<K, V>, k: K): Lru<K, V> {
    var i := Find(s.order, k);
    if i < 0 then s else s.(order := Without(s.order, i) + [s.order[i]])
  }

  ghost function PutStep<K, V>(repair: bool, s: Lru<K, V>, k: K, v: V): Next<K, V> {
    var i := Find(s.order, k);
    if i >= 0 then
      Done(s.(order := Without(s.order, i) + [Entry(k, v)], len := if repair then s.len else s.len + 1))
    else if s.len == s.cap then
      if s.order == [] then Panic
      else Done(s.(order := Without(s.order, 0) + [Entry(k, v)]))
    else
      Done(s.(order := s.order + [Entry(k, v)], len := s.len + 1))
  }

  ghost function DeleteStep<K, V>(s: Lru<K, V>, k: K): Lru<K, V> {
    var i := Find(s.order, k);
    if i < 0 then s else s.(order := Without(s.order, i), len := s.len - 1)
  }

  ghost function Step<K, V>(repair: bool, s: Lru<K, V>, op: Op<K, V>): Next<K, V> {
    match op
    case Get(k) => Done(GetStep(s, k))
    case Put(k, v) => PutStep(repair, s, k, v)
    case Delete(k) => Done(DeleteStep(s, k))
  }

  ghost function Run<K, V>(repair: bool, s: Lru<K, V>, ops: seq<Op<K, V>>): Next<K, V> {
    if ops == [] then Done(s)
    else
      match Run(repair, s, ops[..|ops| - 1])
      case Panic => Panic
      case Done(t) => Step(repair, t, ops[|ops| - 1])
  }

  function Empty<K, V>(cap: int): Lru<K, V> {
    Lru(cap, 0, [])
  }

  /** No key is listed twice: every entry is the one found for its key. */
  ghost predicate Distinct<K, V>(order: seq<Entry<K, V>>) {
    forall i :: 0 <= i < |order| ==> Find(order, order[i].key) == i
  }

  lemma FindWithout<K, V>(order: seq<Entry<K, V>>, i: nat, k: K)
    requires Distinct(order) && i < |order|
    ensures var f := Find(order, k);
            Find(Without(order, i), k) == if f == i then -1 else if f < i then f else f - 1
  {
    var f, rest := Find(order, k), Without(order, i);
    var r := Find(rest, k);
    if r >= 0 {
      assert order[if r < i then r else r + 1].key == k;
    }
    if f >= 0 && f != i {
      assert rest[if f < i then f else f - 1].key == k;
    }
  }

  lemma FindAppend<K, V>(order: seq<Entry<K, V>>, e: Entry<K, V>, k: K)
    requires Distinct(order) && Find(order, e.key) < 0
    ensures Find(order + [e], k) == if k == e.key then |order| else Find(order, k)
  {
    var f := Find(order, k);
    if f >= 0 {
      assert (order + [e])[f].key == k;
    } else if k == e.key {
      assert (order + [e])[|order|].key == k;
    }
  }

  lemma DistinctWithout<K, V>(order: seq<Entry<K, V>>, i: nat)
    requires Distinct(order) && i < |order|
    ensures Distinct(Without(order, i)) && Find(Without(order, i), order[i].key) < 0
  {
  }

  lemma DistinctAppend<K, V>(order: seq<Entry<K, V>>, e: Entry<K, V>)
    requires Distinct(order) && Find(order, e.key) < 0
    ensures Distinct(order + [e])
  {
  }

  // ----- every run, written or repaired: no duplicates, recency order, last value -----

  /** Index of the last operation that uses `k`, or -1. */
  ghost function LastUse<K, V>(ops: seq<Op<K, V>>, k: K): (i: int)
    ensures -1 <= i < |ops|
  {
    if ops == [] then -1
    else if !ops[|ops| - 1].Delete? && ops[|ops| - 1].key == k then |ops| - 1
    else LastUse(ops[..|ops| - 1], k)
  }

  /** Index of the last `Put` of `k`, or -1. */
  ghost function LastPut<K, V>(ops: seq<Op<K, V>>, k: K): (i: int)
    ensures -1 <= i < |ops|
    ensures i >= 0 ==> ops[i].Put? && ops[i].key == k
  {
    if ops == [] then -1
    else if ops[|ops| - 1].Put? && ops[|ops| - 1].key == k then |ops| - 1
    else LastPut(ops[..|ops| - 1], k)
  }

  /** The entries are listed by their last use, and carry the value last put. */
  ghost predicate Recent<K, V>(ops: seq<Op<K, V>>, order: seq<Entry<K, V>>) {
    && (forall i, j :: 0 <= i < j < |order| ==> LastUse(ops, order[i].key) < LastUse(ops, order[j].key))
    && (forall i :: 0 <= i < |order| ==>
          LastPut(ops, order[i].key) >= 0 && ops[LastPut(ops, order[i].key)].val == order[i].val)
  }

  lemma RecentDistinct<K, V>(ops: seq<Op<K, V>>, order: seq<Entry<K, V>>)
    requires Recent(ops, order)
    ensures Distinct(order)
  {
  }

  lemma FindUnique<K, V>(order: seq<Entry<K, V>>, i: nat)
    requires Distinct(order) && i < |order|
    ensures Find(order, order[i].key) == i
  {
  }

  /** Extending the history by an operation that leaves every listed key alone. */
  lemma RecentUntouched<K, V>(ops: seq<Op<K, V>>, op: Op<K, V>, order: seq<Entry<K, V>>)
    requires Recent(ops, order)
    requires op.Delete? || Find(order, op.key) < 0
    ensures Recent(ops + [op], order)
  {
  }

  lemma RecentWithout<K, V>(ops: seq<Op<K, V>>, order: seq<Entry<K, V>>, i: nat)
    requires Recent(ops, order) && i < |order|
    ensures Recent(ops, Without(order, i)) && Find(Without(order, i), order[i].key) < 0
  {
  }

  lemma RecentAppend<K, V>(ops: seq<Op<K, V>>, op: Op<K, V>, order: seq<Entry<K, V>>, e: Entry<K, V>)
    requires Recent(ops, order) && Find(order, op.key) < 0 && e.key == op.key
    requires op.Put? ==> e.val == op.val
    requires op.Get? ==> LastPut(ops, op.key) >= 0 && ops[LastPut(ops, op.key)].val == e.val
    requires !op.Delete?
    ensures Recent(ops + [op], order + [e])
  {
  }

  lemma RecentStep<K, V>(repair: bool, ops: seq<Op<K, V>>, op: Op<K, V>, s: Lru<K, V>)
    requires Recent(ops, s.order) && Step(repair, s, op).Done?
    ensures Recent(ops + [op], Step(repair, s, op).state.order)
  {
    var i := Find(s.order, op.key);
    if i >= 0 {
      RecentWithout(ops, s.order, i);
      var rest := Without(s.order, i);
      match op
      case Get(k) => RecentAppend(ops, op, rest, s.order[i]);
      case Put(k, v) => RecentAppend(ops, op, rest, Entry(k, v));
      case Delete(k) => RecentUntouched(ops, op, rest);
    } else if op.Put? {
      if s.len == s.cap {
        RecentWithout(ops, s.order, 0);
        RecentAppend(ops, op, Without(s.order, 0), Entry(op.key, op.val));
      } else {
        RecentAppend(ops, op, s.order, Entry(op.key, op.val));
      }
    } else {
      RecentUntouched(ops, op, s.order);
    }
  }

  /** After any run that did not panic the entries are duplicate-free, listed from least to most
      recently used, and each carries the value last put under its key. */
  lemma {:induction false} RunRecent<K, V>(repair: bool, cap: int, ops: seq<Op<K, V>>)
    requires Run(repair, Empty(cap), ops).Done?
    ensures Recent(ops, Run(repair, Empty(cap), ops).state.order)
    ensures Distinct(Run(repair, Empty(cap), ops).state.order)
    ensures Run(repair, Empty(cap), ops).state.cap == cap
  {
    if ops != [] {
      var before, op := ops[..|ops| - 1], ops[|ops| - 1];
      assert before + [op] == ops;
      RunRecent(repair, cap, before);
      RecentStep(repair, before, op, Run(repair, Empty(cap), before).state);
    }
    RecentDistinct(ops, Run(repair, Empty(cap), ops).state.order);
  }

  /** Eviction: a `Put` of a new key at capacity drops exactly the key whose last use is oldest. */
  lemma EvictsLeastRecentlyUsed<K, V>(repair: bool, cap: int, ops: seq<Op<K, V>>, k: K, v: V, x: K)
    requires Run(repair, Empty(cap), ops).Done? && Run(repair, Empty(cap), ops + [Put(k, v)]).Done?
    requires var s := Run(repair, Empty(cap), ops).state; !Live(s, k) && s.len == cap && Live(s, x)
    ensures var s, t := Run(repair, Empty(cap), ops).state, Run(repair, Empty(cap), ops + [Put(k, v)]).state;
            !Live(t, x) <==> forall y :: Live(s, y) && y != x ==> LastUse(ops, x) < LastUse(ops, y)
  {
    RunRecent(repair, cap, ops);
    assert (ops + [Put(k, v)])[..|ops|] == ops;
    EvictStep(repair, ops, Run(repair, Empty(cap), ops).state, k, v, x);
  }

  lemma EvictStep<K, V>(repair: bool, ops: seq<Op<K, V>>, s: Lru<K, V>, k: K, v: V, x: K)
    requires Recent(ops, s.order) && PutStep(repair, s, k, v).Done?
    requires !Live(s, k) && s.len == s.cap && Live(s, x)
    ensures !Live(PutStep(repair, s, k, v).state, x) <==>
            forall y :: Live(s, y) && y != x ==> LastUse(ops, x) < LastUse(ops, y)
  {
    var t := PutStep(repair, s, k, v).state;
    var i := Find(s.order, x);
    if i == 0 {
      forall y | Live(s, y) && y != x ensures LastUse(ops, x) < LastUse(ops, y) {
        assert Find(s.order, y) > 0;
      }
    } else {
      assert t.order[i - 1].key == x;
      FindUnique(s.order, 0);
      assert Live(s, s.order[0].key);
    }
  }

  /** A deleted key is gone, and no other key with it. */
  lemma DeleteRemoves<K, V>(s: Lru<K, V>, k: K, x: K)
    requires Distinct(s.order)
    ensures Live(DeleteStep(s, k), x) <==> Live(s, x) && x != k
  {
    var i := Find(s.order, k);
    if i >= 0 { FindWithout(s.order, i, x); }
  }

  /** Nothing else ever drops a key except deleting it. */
  lemma OnlyEvictionDrops<K, V>(repair: bool, s: Lru<K, V>, op: Op<K, V>, x: K)
    requires Distinct(s.order) && Live(s, x) && Step(repair, s, op).Done?
    requires !(op.Put? && !Live(s, op.key) && s.len == s.cap) && !(op.Delete? && op.key == x)
    ensures Live(Step(repair, s, op).state, x)
  {
    var i, j := Find(s.order, x), Find(s.order, op.key);
    var t := Step(repair, s, op).state;
    if j < 0 {
      assert t.order[i].key == x;
    } else if i == j {
      assert t.order[|t.order| - 1].key == x;
    } else {
      assert t.order[if i < j then i else i - 1].key == x;
    }
  }

  // ----- the repaired container -----

  ghost predicate WithinCapacity<K, V>(s: Lru<K, V>) {
    s.cap >= 1 && s.len == |s.order| <= s.cap
  }

  /** With the repair no run panics, the counter is the number of entries, and the capacity holds. */
  lemma {:induction false} RepairedRun<K, V>(cap: int, ops: seq<Op<K, V>>)
    requires cap >= 1
    ensures Run(true, Empty(cap), ops).Done? && WithinCapacity(Run(true, Empty(cap), ops).state)
  {
    if ops != [] {
      RepairedRun(cap, ops[..|ops| - 1]);
    }
  }

  // ----- the container as written: drift -----

  ghost predicate IsOverwrite<K, V>(s: Lru<K, V>, op: Op<K, V>) {
    op.Put? && Live(s, op.key)
  }

  /** Overwriting `Put`s in a run. */
  ghost function Overwrites<K, V>(cap: int, ops: seq<Op<K, V>>): nat {
    if ops == [] then 0
    else
      var before := ops[..|ops| - 1];
      Overwrites(cap, before) +
      (match Run(false, Empty(cap), before)
       case Panic => 0
       case Done(s) => if IsOverwrite(s, ops[|ops| - 1]) then 1 else 0)
  }

  /** The drift: as written, the counter exceeds the number of entries by the overwriting `Put`s. */
  lemma {:induction false} Drift<K, V>(cap: int, ops: seq<Op<K, V>>)
    requires Run(false, Empty(cap), ops).Done?
    ensures var s := Run(false, Empty(cap), ops).state; s.len - |s.order| == Overwrites(cap, ops)
  {
    if ops != [] {
      Drift(cap, ops[..|ops| - 1]);
    }
  }

  /** Hence the counter is exact precisely on overwrite-free runs. */
  lemma ExactLengthIffNoOverwrite<K, V>(cap: int, ops: seq<Op<K, V>>)
    requires Run(false, Empty(cap), ops).Done?
    ensures var s := Run(false, Empty(cap), ops).state; s.len == |s.order| <==> Overwrites(cap, ops) == 0
  {
    Drift(cap, ops);
  }

  /** The counter as written, after the first `n` operations. */
  ghost function Counter<K, V>(cap: int, ops: seq<Op<K, V>>, n: nat): int
    requires n <= |ops|
  {
    match Run(false, Empty(cap), ops[..n])
    case Done(s) => s.len
    case Panic => cap
  }

  /** The run never overwrites while the counter stands at the capacity. */
  ghost predicate Calm<K, V>(cap: int, ops: seq<Op<K, V>>) {
    forall i :: 0 <= i < |ops| ==>
      match Run(false, Empty(cap), ops[..i])
      case Panic => true
      case Done(s) => !(IsOverwrite(s, ops[i]) && s.len == cap)
  }

  lemma CalmPrefix<K, V>(cap: int, ops: seq<Op<K, V>>)
    requires ops != []
    ensures var n := |ops| - 1;
            Calm(cap, ops) <==>
            Calm(cap, ops[..n]) &&
            (var t := Run(false, Empty(cap), ops[..n]);
             t.Done? ==> !(IsOverwrite(t.state, ops[n]) && t.state.len == cap))
  {
    var n := |ops| - 1;
    assert forall i :: 0 <= i < n ==> ops[..n][..i] == ops[..i] && ops[..n][i] == ops[i];
  }

  /** The counter is at most the capacity after every operation of the run. */
  ghost predicate CounterBounded<K, V>(cap: int, ops: seq<Op<K, V>>) {
    forall n :: 0 <= n <= |ops| ==> Counter(cap, ops, n) <= cap
  }

  lemma BoundedPrefix<K, V>(cap: int, ops: seq<Op<K, V>>)
    requires ops != []
    ensures CounterBounded(cap, ops) <==>
            CounterBounded(cap, ops[..|ops| - 1]) && Counter(cap, ops, |ops|) <= cap
  {
    var before := ops[..|ops| - 1];
    forall n | 0 <= n <= |before| ensures Counter(cap, ops, n) == Counter(cap, before, n) {
      assert before[..n] == ops[..n];
    }
  }

  /** The one operation that takes the counter past the capacity. */
  lemma StepsOver<K, V>(s: Lru<K, V>, op: Op<K, V>)
    requires s.len <= s.cap && Step(false, s, op).Done?
    ensures Step(false, s, op).state.len <= s.cap <==> !(IsOverwrite(s, op) && s.len == s.cap)
  {
  }

  /** The counter stays within the capacity, after every operation of a run, exactly when the run never
      overwrites while the counter stands at the capacity. */
  lemma {:induction false} CounterBoundExactly<K, V>(cap: int, ops: seq<Op<K, V>>)
    requires cap >= 1 && Run(false, Empty(cap), ops).Done?
    ensures Calm(cap, ops) <==> CounterBounded(cap, ops)
  {
    if ops == [] {
      assert ops[..0] == [];
    } else {
      var n := |ops| - 1;
      var s := Run(false, Empty(cap), ops[..n]).state;
      CounterBoundExactly(cap, ops[..n]);
      CalmPrefix(cap, ops);
      BoundedPrefix(cap, ops);
      RunRecent(false, cap, ops[..n]);
      assert ops[..n][..n] == ops[..n] && ops[..n + 1] == ops;
      assert CounterBounded(cap, ops[..n]) ==> Counter(cap, ops[..n], n) <= cap;
      if s.len <= cap { StepsOver(s, ops[n]); }
    }
  }

  /** Then every overwrite has cost one place for good. */
  lemma OverwritesCostPlaces<K, V>(cap: int, ops: seq<Op<K, V>>)
    requires cap >= 1 && Run(false, Empty(cap), ops).Done? && Calm(cap, ops)
    ensures |Run(false, Empty(cap), ops).state.order| + Overwrites(cap, ops) <= cap
  {
    CounterBoundExactly(cap, ops);
    Drift(cap, ops);
    assert Counter(cap, ops, |ops|) <= cap && ops[..|ops|] == ops;
  }

  /** The next operation panics exactly when it is a `Put` into an empty container and as many `Put`s
      overwrote before as the container has places. */
  lemma PanicsExactly<K, V>(cap: int, ops: seq<Op<K, V>>, op: Op<K, V>)
    requires Run(false, Empty(cap), ops).Done?
    ensures Run(false, Empty(cap), ops + [op]).Panic? <==>
            op.Put? && Run(false, Empty(cap), ops).state.order == [] && Overwrites(cap, ops) == cap
  {
    Drift(cap, ops);
    RunRecent(false, cap, ops);
    assert (ops + [op])[..|ops|] == ops;
  }

  // ----- the documented capacity, as written -----

  /** The entries held as written, after the first `n` operations. */
  ghost function Entries<K, V>(cap: int, ops: seq<Op<K, V>>, n: nat): int
    requires n <= |ops|
  {
    match Run(false, Empty(cap), ops[..n])
    case Done(s) => |s.order|
    case Panic => 0
  }

  /** The container carries at most `cap` entries after every operation of the run. */
  ghost predicate CapacityKept<K, V>(cap: int, ops: seq<Op<K, V>>) {
    forall n :: 0 <= n <= |ops| ==> Entries(cap, ops, n) <= cap
  }

  /** The operation enters a new key into a full container after some `Put` overwrote. */
  ghost predicate Overfills<K, V>(cap: int, before: seq<Op<K, V>>, op: Op<K, V>) {
    match Run(false, Empty(cap), before)
    case Panic => false
    case Done(s) => op.Put? && !Live(s, op.key) && |s.order| == cap && Overwrites(cap, before) > 0
  }

  ghost predicate NeverOverfills<K, V>(cap: int, ops: seq<Op<K, V>>) {
    forall i :: 0 <= i < |ops| ==> !Overfills(cap, ops[..i], ops[i])
  }

  lemma OverfillsPrefix<K, V>(cap: int, ops: seq<Op<K, V>>)
    requires ops != []
    ensures var n := |ops| - 1;
            NeverOverfills(cap, ops) <==> NeverOverfills(cap, ops[..n]) && !Overfills(cap, ops[..n], ops[n])
  {
    var n := |ops| - 1;
    assert forall i :: 0 <= i < n ==> ops[..n][..i] == ops[..i] && ops[..n][i] == ops[i];
  }

  lemma KeptPrefix<K, V>(cap: int, ops: seq<Op<K, V>>)
    requires ops != []
    ensures CapacityKept(cap, ops) <==> CapacityKept(cap, ops[..|ops| - 1]) && Entries(cap, ops, |ops|) <= cap
  {
    var before := ops[..|ops| - 1];
    forall n | 0 <= n <= |before| ensures Entries(cap, ops, n) == Entries(cap, before, n) {
      assert before[..n] == ops[..n];
    }
  }

  lemma EntryTooMany<K, V>(s: Lru<K, V>, op: Op<K, V>)
    requires |s.order| <= s.cap && Step(false, s, op).Done?
    ensures |Step(false, s, op).state.order| <= s.cap <==>
            !(op.Put? && !Live(s, op.key) && |s.order| == s.cap && s.len != s.cap)
  {
  }

  /** When the documented capacity holds: the container carries at most `cap` entries throughout a run
      exactly when the run never puts a new key into a full container after an overwriting `Put`. */
  lemma {:induction false} CapacityExactly<K, V>(cap: int, ops: seq<Op<K, V>>)
    requires cap >= 1 && Run(false, Empty(cap), ops).Done?
    ensures CapacityKept(cap, ops) <==> NeverOverfills(cap, ops)
  {
    if ops == [] {
      assert ops[..0] == [];
    } else {
      var n := |ops| - 1;
      var s := Run(false, Empty(cap), ops[..n]).state;
      CapacityExactly(cap, ops[..n]);
      OverfillsPrefix(cap, ops);
      KeptPrefix(cap, ops);
      Drift(cap, ops[..n]);
      RunRecent(false, cap, ops[..n]);
      assert ops[..n][..n] == ops[..n] && ops[..n + 1] == ops;
      assert CapacityKept(cap, ops[..n]) ==> Entries(cap, ops[..n], n) <= cap;
      if |s.order| <= cap { EntryTooMany(s, ops[n]); }
    }
  }

  lemma FindMoved<K, V>(order: seq<Entry<K, V>>, j: nat, e: Entry<K, V>, x: K)
    requires j < |order| && order[j].key == e.key
    ensures Find(Without(order, j) + [e], x) >= 0 <==> Find(order, x) >= 0
  {
    var moved := Without(order, j) + [e];
    var i := Find(order, x);
    if i >= 0 {
      assert moved[if i < j then i else if i == j then |moved| - 1 else i - 1].key == x;
    }
  }

  lemma FindAppended<K, V>(order: seq<Entry<K, V>>, e: Entry<K, V>, x: K)
    ensures Find(order + [e], x) >= 0 <==> Find(order, x) >= 0 || e.key == x
  {
    if Find(order, x) >= 0 {
      assert (order + [e])[Find(order, x)].key == x;
    } else if e.key == x {
      assert (order + [e])[|order|].key == x;
    }
  }

  lemma OverfullStep<K, V>(s: Lru<K, V>, op: Op<K, V>, x: K)
    requires s.len > s.cap && !op.Delete?
    ensures Step(false, s, op).Done? && Step(false, s, op).state.len > s.cap
    ensures Step(false, s, op).state.cap == s.cap
    ensures Live(Step(false, s, op).state, x) <==> Live(s, x) || (op.Put? && op.key == x)
  {
    var j := Find(s.order, op.key);
    if j >= 0 {
      FindMoved(s.order, j, if op.Put? then Entry(op.key, op.val) else s.order[j], x);
    } else if op.Put? {
      FindAppended(s.order, Entry(op.key, op.val), x);
    }
  }

  /** Once past the capacity the container never evicts again: until something is deleted it holds
      every key it held and every key put since, without bound. */
  lemma {:induction false} OverfullNeverEvicts<K, V>(s: Lru<K, V>, ops: seq<Op<K, V>>, x: K)
    requires s.len > s.cap && forall i :: 0 <= i < |ops| ==> !ops[i].Delete?
    ensures Run(false, s, ops).Done?
    ensures var t := Run(false, s, ops).state;
            t.cap == s.cap && t.len > s.cap && (Live(t, x) <==> Live(s, x) || LastPut(ops, x) >= 0)
  {
    if ops != [] {
      var n := |ops| - 1;
      OverfullNeverEvicts(s, ops[..n], x);
      OverfullStep(Run(false, s, ops[..n]).state, ops[n], x);
    }
  }

  /** `Put`s of the keys `from`, `from + 1`, ..., below `to`. */
  function Puts(from: nat, to: nat, v: int): (ops: seq<Op<int, int>>)
    requires from <= to
    ensures |ops| == to - from
  {
    if from == to then [] else Puts(from, to - 1, v) + [Put(to - 1, v)]
  }

  /** A run over which the entries outgrow the capacity by any amount: fill the container, overwrite
      one key, and go on putting new ones. */
  function Overgrowth(cap: nat, extra: nat, v: int): seq<Op<int, int>> {
    Puts(0, cap, v) + [Put(0, v)] + Puts(cap, cap + extra, v)
  }

  ghost predicate KeysBelow(s: Lru<int, int>, n: int) {
    forall i :: 0 <= i < |s.order| ==> 0 <= s.order[i].key < n
  }

  lemma {:induction false} Filled(cap: nat, n: nat, v: int)
    requires n <= cap
    ensures var t := Run(false, Empty(cap), Puts(0, n, v));
            t.Done? && t.state.cap == cap && t.state.len == |t.state.order| == n && KeysBelow(t.state, n)
            && (n > 0 ==> Live(t.state, 0))
  {
    if n > 0 {
      Filled(cap, n - 1, v);
      assert Puts(0, n, v)[..n - 1] == Puts(0, n - 1, v);
      var t := Run(false, Empty(cap), Puts(0, n, v)).state;
      assert t.order == Run(false, Empty(cap), Puts(0, n - 1, v)).state.order + [Entry(n - 1, v)];
      var i := if n == 1 then 0 else Find(Run(false, Empty(cap), Puts(0, n - 1, v)).state.order, 0);
      assert t.order[i].key == 0;
    }
  }

  lemma {:induction false} OvergrowthRun(cap: nat, extra: nat, v: int)
    requires cap >= 1
    ensures var t := Run(false, Empty(cap), Overgrowth(cap, extra, v));
            && t.Done? && t.state.cap == cap && |t.state.order| == cap + extra && t.state.len == cap + extra + 1
            && KeysBelow(t.state, cap + extra)
  {
    var ops := Overgrowth(cap, extra, v);
    if extra == 0 {
      Filled(cap, cap, v);
      assert ops == Puts(0, cap, v) + [Put(0, v)] && ops[..|ops| - 1] == Puts(0, cap, v);
    } else {
      OvergrowthRun(cap, extra - 1, v);
      assert ops[..|ops| - 1] == Overgrowth(cap, extra - 1, v);
      assert ops[|ops| - 1] == Put(cap + extra - 1, v);
    }
  }

  /** So as written no bound holds on the entries, whatever the capacity. */
  lemma Unbounded(cap: nat, bound: nat)
    requires cap >= 1
    ensures exists ops: seq<Op<int, int>> ::
              Run(false, Empty(cap), ops).Done? && |Run(false, Empty(cap), ops).state.order| > bound
  {
    OvergrowthRun(cap, bound, 0);
    assert Run(false, Empty(cap), Overgrowth(cap, bound, 0)).Done?;
  }

  /** The smallest panic: capacity 1, overwrite, delete, put. */
  lemma PanicWitness(v: int)
    ensures Run<int, int>(false, Empty(1), [Put(0, v), Put(0, v), Delete(0)]).Done?
    ensures Run<int, int>(false, Empty(1), [Put(0, v), Put(0, v), Delete(0), Put(1, v)]).Panic?
  {
    var s: Lru<int, int> := Empty(1);
    var a := [Put(0, v)];
    var b := [Put(0, v), Put(0, v)];
    var c := [Put(0, v), Put(0, v), Delete(0)];
    var d := [Put(0, v), Put(0, v), Delete(0), Put(1, v)];
    assert a[..0] == [] && b[..1] == a && c[..2] == b && d[..3] == c;
    assert Run(false, s, a) == Done(Lru(1, 1, [Entry(0, v)]));
    assert [Entry(0, v)][0].key == 0;
    assert Find([Entry(0, v)], 0) == 0;
    assert Without([Entry(0, v)], 0) == [];
    assert Run(false, s, b) == Done(Lru(1, 2, [Entry(0, v)]));
    assert Run(false, s, c) == Done(Lru(1, 1, []));
    assert Run(false, s, d) == Panic;
  }
}
