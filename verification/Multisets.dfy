/** Collecting what each element of a multiset yields, in no particular order. */
module Multisets {

  /** The sum of `f` over the elements of `m`. */
  ghost function Gather<A(!new), B(!new)>(m: multiset<A>, f: A -> multiset<B>): multiset<B>
    decreases |m|
  {
    if m == multiset{} then multiset{}
    else
      var a :| a in m;
      f(a) + Gather(m - multiset{a}, f)
  }

  lemma {:induction false} GatherRemove<A(!new), B(!new)>(m: multiset<A>, f: A -> multiset<B>, a: A)
    requires a in m
    ensures Gather(m, f) == f(a) + Gather(m - multiset{a}, f)
    decreases |m|
  {
    var c :| c in m && Gather(m, f) == f(c) + Gather(m - multiset{c}, f);
    if c != a {
      var rest := m - multiset{c} - multiset{a};
      assert m - multiset{a} - multiset{c} == rest;
      GatherRemove(m - multiset{c}, f, a);
      GatherRemove(m - multiset{a}, f, c);
      Commute(f(c), f(a), Gather(rest, f));
    }
  }

  lemma Commute<B>(x: multiset<B>, y: multiset<B>, z: multiset<B>)
    ensures x + (y + z) == y + (x + z)
  {
  }

  lemma MultisetExtend<T>(s: seq<T>, x: T)
    ensures multiset(s + [x]) == multiset(s) + multiset{x}
  {
  }

  /** Appending one element appends what it yields. */
  lemma GatherExtend<A(!new), B(!new)>(s: seq<A>, f: A -> multiset<B>, a: A)
    ensures Gather(multiset(s + [a]), f) == Gather(multiset(s), f) + f(a)
  {
    GatherRemove(multiset(s + [a]), f, a);
    assert multiset(s + [a]) - multiset{a} == multiset(s);
  }

  /** The values of a map, each as often as it occurs. */
  ghost function Outcomes<K(!new), V(!new)>(m: map<K, V>): multiset<V>
    decreases |m|
  {
    if m == map[] then multiset{}
    else
      var k :| k in m;
      multiset{m[k]} + Outcomes(m - {k})
  }

  lemma {:induction false} OutcomesRemove<K(!new), V(!new)>(m: map<K, V>, k: K)
    requires k in m
    ensures Outcomes(m) == multiset{m[k]} + Outcomes(m - {k})
    decreases |m|
  {
    var c :| c in m && Outcomes(m) == multiset{m[c]} + Outcomes(m - {c});
    if c != k {
      var rest := m - {c} - {k};
      assert m - {k} - {c} == rest;
      OutcomesRemove(m - {c}, k);
      OutcomesRemove(m - {k}, c);
      Commute(multiset{m[c]}, multiset{m[k]}, Outcomes(rest));
    }
  }

  lemma {:induction false} OutcomesSize<K(!new), V(!new)>(m: map<K, V>)
    ensures |Outcomes(m)| == |m|
    decreases |m|
  {
    if m != map[] {
      var k :| k in m;
      OutcomesRemove(m, k);
      OutcomesSize(m - {k});
    }
  }

  lemma {:induction false} OutcomesMember<K(!new), V(!new)>(m: map<K, V>, v: V)
    requires v in Outcomes(m)
    ensures exists k :: k in m && m[k] == v
    decreases |m|
  {
    var k :| k in m;
    OutcomesRemove(m, k);
    if m[k] != v {
      OutcomesMember(m - {k}, v);
      var l :| l in m - {k} && (m - {k})[l] == v;
      assert m[l] == v;
    }
  }

  ghost predicate NoRepeats<T>(s: seq<T>) {
    s == [] || (s[|s| - 1] !in s[..|s| - 1] && NoRepeats(s[..|s| - 1]))
  }

  lemma {:induction false} NoRepeatsPrefix<T>(s: seq<T>, n: nat)
    requires NoRepeats(s) && n <= |s|
    ensures NoRepeats(s[..n])
  {
    if n == |s| {
      assert s[..n] == s;
    } else {
      NoRepeatsPrefix(s[..|s| - 1], n);
      assert s[..|s| - 1][..n] == s[..n];
    }
  }

  /** The elements of a set in some order: how a map or an iterator yields its entries. */
  method Enumerate<T(==)>(s: set<T>) returns (order: seq<T>)
    ensures |order| == |s| && NoRepeats(order) && forall x :: x in order <==> x in s
  {
    order := [];
    var left := s;
    while left != {}
      invariant left <= s && |order| + |left| == |s| && NoRepeats(order)
      invariant forall x :: x in order <==> x in s && x !in left
    {
      var x :| x in left;
      assert (order + [x])[..|order|] == order;
      order, left := order + [x], left - {x};
    }
  }

  /** `log` lists what `m` holds at each of `order`. */
  ghost predicate LooksUp<K(!new), V(!new)>(m: map<K, V>, order: seq<K>, log: seq<V>) {
    && |log| == |order|
    && (order != [] ==>
          var n := |order| - 1;
          order[n] in m && log[n] == m[order[n]] && LooksUp(m, order[..n], log[..n]))
  }

  lemma LooksUpNext<K(!new), V(!new)>(m: map<K, V>, order: seq<K>, log: seq<V>, k: K)
    requires LooksUp(m, order, log) && k in m
    ensures LooksUp(m, order + [k], log + [m[k]])
  {
  }

  lemma {:induction false} LooksUpWithout<K(!new), V(!new)>(m: map<K, V>, order: seq<K>, log: seq<V>, k: K)
    requires LooksUp(m, order, log) && k !in order
    ensures LooksUp(m - {k}, order, log)
  {
    if order != [] {
      var n := |order| - 1;
      assert order[n] in order;
      LooksUpWithout(m, order[..n], log[..n], k);
    }
  }

  /** Looking up distinct keys one by one yields values of the map; looking up all yields all. */
  lemma {:induction false} Listed<K(!new), V(!new)>(m: map<K, V>, order: seq<K>, log: seq<V>)
    requires NoRepeats(order) && LooksUp(m, order, log)
    ensures multiset(log) <= Outcomes(m)
    ensures |order| == |m| ==> multiset(log) == Outcomes(m)
    decreases |order|
  {
    if order == [] {
      OutcomesSize(m);
    } else {
      var n := |order| - 1;
      var k, rest, before := order[n], m - {order[n]}, log[..n];
      LooksUpWithout(m, order[..n], before, k);
      Listed(rest, order[..n], before);
      SizeWithout(m, k);
      OutcomesRemove(m, k);
      assert log == before + [m[k]];
      Include(before, m[k], Outcomes(rest));
    }
  }

  lemma SizeWithout<K, V>(m: map<K, V>, k: K)
    requires k in m
    ensures |m - {k}| == |m| - 1
  {
  }

  lemma Include<T>(s: seq<T>, x: T, m: multiset<T>)
    requires multiset(s) <= m
    ensures multiset(s + [x]) <= multiset{x} + m
    ensures multiset(s) == m ==> multiset(s + [x]) == multiset{x} + m
  {
  }

  lemma ListedAll<K(!new), V(!new)>(m: map<K, V>, order: seq<K>, log: seq<V>)
    requires NoRepeats(order) && LooksUp(m, order, log) && forall k :: k in order <==> k in m
    ensures multiset(log) == Outcomes(m)
  {
    SizeOfDistinct(order, m.Keys);
    Listed(m, order, log);
  }

  lemma {:induction false} SizeOfDistinct<T>(order: seq<T>, s: set<T>)
    requires NoRepeats(order) && forall x :: x in order <==> x in s
    ensures |order| == |s|
    decreases |order|
  {
    if order != [] {
      var n := |order| - 1;
      assert order == order[..n] + [order[n]];
      SizeOfDistinct(order[..n], s - {order[n]});
    }
  }
}
