/** Grouping by key as a dict of lists does it: keys in the order they are first
    met, the things under one key in the order they came. Order gives the
    positions so grouped (provisioning/fat_cfm.py:57-69). */
module Grouping {
  import opened Layout
  import opened Numbers

  /** The keys in the order they are first met. */
  function Kinds<K(==, !new)>(keys: seq<K>): (kinds: seq<K>)
    ensures forall k :: k in kinds <==> k in keys
    ensures forall i, j :: 0 <= i < j < |kinds| ==> kinds[i] != kinds[j]
  {
    if keys == [] then []
    else
      var n := |keys| - 1;
      assert keys == keys[..n] + [keys[n]];
      var before := Kinds(keys[..n]);
      if keys[n] in before then before else before + [keys[n]]
  }

  /** The positions of a key. */
  function Of<K(==, !new)>(keys: seq<K>, key: K): (at: seq<nat>)
    ensures forall k :: 0 <= k < |at| ==> at[k] < |keys| && keys[at[k]] == key
    ensures forall i, j :: 0 <= i < j < |at| ==> at[i] < at[j]
    ensures |at| <= |keys|
  {
    if keys == [] then []
    else
      var n := |keys| - 1;
      var before := Of(keys[..n], key);
      if keys[n] == key then before + [n] else before
  }

  lemma {:induction false} OfAll<K(!new)>(keys: seq<K>, key: K, i: nat)
    requires i < |keys| && keys[i] == key
    ensures i in Of(keys, key)
  {
    if i < |keys| - 1 {
      OfAll(keys[..|keys| - 1], key, i);
    }
  }

  lemma OfNone<K(!new)>(keys: seq<K>, key: K)
    ensures key !in keys ==> Of(keys, key) == []
  {
    hide Of;
    var at := Of(keys, key);
    if at != [] {
      assert keys[at[0]] == key;
    }
  }

  function Groups<K(==, !new)>(keys: seq<K>): (groups: seq<seq<nat>>)
    ensures |groups| == |Kinds(keys)|
    ensures forall j :: 0 <= j < |groups| ==> groups[j] == Of(keys, Kinds(keys)[j])
  {
    seq(|Kinds(keys)|, j requires 0 <= j < |Kinds(keys)| => Of(keys, Kinds(keys)[j]))
  }

  function Order<K(==, !new)>(keys: seq<K>): (order: seq<nat>)
    ensures forall k :: 0 <= k < |order| ==> order[k] < |keys|
  {
    InRange(keys);
    Flat<nat>(Groups(keys))
  }

  lemma InRange<K(!new)>(keys: seq<K>)
    ensures forall k :: 0 <= k < |Flat<nat>(Groups(keys))| ==> Flat<nat>(Groups(keys))[k] < |keys|
  {
    hide Kinds, Of, Flat;
    forall k | 0 <= k < |Flat<nat>(Groups(keys))|
      ensures Flat<nat>(Groups(keys))[k] < |keys|
    {
      var j, i := FlatFind(Groups(keys), k);
      assert Flat<nat>(Groups(keys))[k] == Of(keys, Kinds(keys)[j])[i];
    }
  }

  function Pick<T>(xs: seq<T>, order: seq<nat>): (r: seq<T>)
    requires forall k :: 0 <= k < |order| ==> order[k] < |xs|
    ensures |r| == |order| && forall k :: 0 <= k < |r| ==> r[k] == xs[order[k]]
  {
    seq(|order|, k requires 0 <= k < |order| => xs[order[k]])
  }

  // -------------------------------------------------- what the order is, exactly

  /** Where a key is first met. */
  function First<K(==, !new)>(keys: seq<K>, key: K): (f: nat)
    requires key in keys
    ensures f < |keys| && keys[f] == key
    ensures forall g :: 0 <= g < f ==> keys[g] != key
  {
    if keys[0] == key then 0 else 1 + First(keys[1..], key)
  }

  /** By when the key is first met, then by position. */
  predicate Before<K(==, !new)>(keys: seq<K>, i: nat, j: nat)
    requires i < |keys| && j < |keys|
  {
    var f, g := First(keys, keys[i]), First(keys, keys[j]);
    f < g || (f == g && i < j)
  }

  lemma {:induction false} KindsByFirst<K(!new)>(keys: seq<K>, a: nat, b: nat)
    requires a < b < |Kinds(keys)|
    ensures First(keys, Kinds(keys)[a]) < First(keys, Kinds(keys)[b])
  {
    var n := |keys| - 1;
    var kinds := Kinds(keys);
    if b < |Kinds(keys[..n])| {
      KindsByFirst(keys[..n], a, b);
      FirstKept(keys, kinds[a]);
      FirstKept(keys, kinds[b]);
    } else {
      FirstKept(keys, kinds[a]);
    }
  }

  lemma FirstKept<K(!new)>(keys: seq<K>, key: K)
    requires keys != [] && key in keys[..|keys| - 1]
    ensures First(keys, key) == First(keys[..|keys| - 1], key)
  {
    hide First;
    var n := |keys| - 1;
    var f, g := First(keys, key), First(keys[..n], key);
    assert keys[..n][g] == keys[g] && (f < n ==> keys[..n][f] == keys[f]);
  }

  /** Every position is in the order, and nothing else. */
  lemma OrderComplete<K(!new)>(keys: seq<K>, i: nat)
    ensures i in Order(keys) <==> i < |keys|
  {
    hide Kinds, Of;
    if i < |keys| {
      assert keys[i] in Kinds(keys);
      var j :| 0 <= j < |Kinds(keys)| && Kinds(keys)[j] == keys[i];
      FlatPart(Groups(keys), j);
      OfAll(keys, keys[i], i);
      assert i in Groups(keys)[j];
    }
    if i in Order(keys) {
      var at :| 0 <= at < |Order(keys)| && Order(keys)[at] == i;
      var j, p := FlatFind(Groups(keys), at);
      assert i == Of(keys, Kinds(keys)[j])[p];
    }
  }

  /** The order is by when a key is first met, then by position. */
  lemma OrderSorted<K(!new)>(keys: seq<K>, k: nat, l: nat)
    requires k < l < |Order(keys)|
    ensures Before(keys, Order(keys)[k], Order(keys)[l])
  {
    hide Kinds, Of, First;
    var a, p := FlatFind(Groups(keys), k);
    var b, q := FlatFind(Groups(keys), l);
    assert Order(keys)[k] == Of(keys, Kinds(keys)[a])[p] && Order(keys)[l] == Of(keys, Kinds(keys)[b])[q];
    if a < b {
      KindsByFirst(keys, a, b);
    } else if b < a {
      StartsOrdered(Groups(keys), b + 1, a);
      FlatNext(Groups(keys), b);
      assert false;
    }
  }

  // ------------------------------------------------------- grouping what is grouped

  /** One more thing, of the last key or of a new one, goes last. */
  lemma OrderGrows<K(!new)>(keys: seq<K>, key: K)
    requires keys != [] ==> key !in keys || key == Kinds(keys)[|Kinds(keys)| - 1]
    ensures Order(keys + [key]) == Order(keys) + [|keys|]
    ensures Kinds(keys + [key])[|Kinds(keys + [key])| - 1] == key
  {
    hide Kinds, Of, Flat;
    var more := keys + [key];
    var kinds, groups := Kinds(keys), Groups(keys);
    KindsGrow(keys, key);
    var n := if key in keys then |kinds| - 1 else |kinds|;
    forall j | 0 <= j < n
      ensures Groups(more)[j] == groups[j]
    {
      OfOther(keys, key, kinds[j]);
    }
    assert Groups(more)[..n] == groups[..n];
    OfSame(keys, key);
    FlatNext(Groups(more), n);
    FlatAll(Groups(more));
    FlatAll(groups);
    if key in keys {
      FlatNext(groups, n);
    } else {
      OfNone(keys, key);
    }
  }

  lemma KindsGrow<K(!new)>(keys: seq<K>, key: K)
    ensures Kinds(keys + [key]) == if key in keys then Kinds(keys) else Kinds(keys) + [key]
  {
    assert (keys + [key])[..|keys|] == keys;
  }

  lemma OfOther<K(!new)>(keys: seq<K>, key: K, other: K)
    requires other != key
    ensures Of(keys + [key], other) == Of(keys, other)
  {
    assert (keys + [key])[..|keys|] == keys;
  }

  lemma OfSame<K(!new)>(keys: seq<K>, key: K)
    ensures Of(keys + [key], key) == Of(keys, key) + [|keys|]
  {
    assert (keys + [key])[..|keys|] == keys;
  }

  /** XS, one for each key, with those of a key brought together. */
  function Grouped<K(==, !new), T>(keys: seq<K>, xs: seq<T>): (r: seq<T>)
    requires |xs| == |keys|
    ensures |r| == |Order(keys)| && forall k :: 0 <= k < |r| ==> r[k] == xs[Order(keys)[k]]
  {
    Pick(xs, Order(keys))
  }

  function UpTo(n: nat): (r: seq<nat>)
    ensures |r| == n && forall k :: 0 <= k < n ==> r[k] == k
  {
    seq(n, k requires 0 <= k < n => k)
  }

  lemma {:induction false} GroupedPrefix<K(!new)>(keys: seq<K>, p: nat)
    requires p <= |Order(keys)|
    ensures var g := Grouped(keys, keys)[..p];
            Order(g) == UpTo(p) && (p > 0 ==> g[p - 1] == Kinds(g)[|Kinds(g)| - 1])
  {
    hide Order, Kinds, Of, Flat, First, Before;
    var all := Grouped(keys, keys);
    if p == 0 {
      OrderNone(all[..0]);
    } else {
      GroupedPrefix(keys, p - 1);
      NewOrLast(keys, p - 1);
      OrderGrows(all[..p - 1], all[p - 1]);
      assert all[..p] == all[..p - 1] + [all[p - 1]];
    }
  }

  lemma OrderNone<K(!new)>(keys: seq<K>)
    requires keys == []
    ensures Order(keys) == []
  {
  }

  /** In what is grouped a key comes right after itself or for the first time. */
  lemma NewOrLast<K(!new)>(keys: seq<K>, p: nat)
    requires p < |Order(keys)|
    ensures var g := Grouped(keys, keys); g[p] !in g[..p] || (p > 0 && g[p] == g[p - 1])
  {
    hide Order, First;
    var g, order := Grouped(keys, keys), Order(keys);
    if g[p] in g[..p] {
      var q :| 0 <= q < p && g[q] == g[p];
      OrderSorted(keys, p - 1, p);
      if q < p - 1 {
        OrderSorted(keys, q, p - 1);
      }
      assert First(keys, keys[order[q]]) == First(keys, keys[order[p]]);
      assert keys[First(keys, keys[order[p - 1]])] == g[p - 1];
    }
  }

  /** Grouping what is grouped moves nothing. */
  lemma GroupedTwice<K(!new), T>(keys: seq<K>, xs: seq<T>)
    requires |xs| == |keys|
    ensures Grouped(Grouped(keys, keys), Grouped(keys, xs)) == Grouped(keys, xs)
  {
    hide Order;
    var g := Grouped(keys, keys);
    GroupedPrefix(keys, |g|);
    assert g[..|g|] == g;
  }

  // ----------------------------------------------------------------- a permutation

  /** ORDER has every number below N once and nothing else. */
  predicate Permutes(order: seq<nat>, n: nat) {
    && (forall k :: 0 <= k < |order| ==> order[k] < n)
    && (forall i :: 0 <= i < n ==> i in order)
    && (forall k, l :: 0 <= k < l < |order| ==> order[k] != order[l])
  }

  lemma OrderPermutes<K(!new)>(keys: seq<K>)
    ensures Permutes(Order(keys), |keys|)
  {
    hide Order, First;
    forall i | 0 <= i < |keys|
      ensures i in Order(keys)
    {
      OrderComplete(keys, i);
    }
    forall k, l | 0 <= k < l < |Order(keys)|
      ensures Order(keys)[k] != Order(keys)[l]
    {
      OrderSorted(keys, k, l);
    }
  }

  lemma {:induction false} SumWithout(xs: seq<nat>, p: nat)
    requires p < |xs|
    ensures Sum(xs) == Sum(xs[..p] + xs[p + 1..]) + xs[p]
  {
    var n := |xs| - 1;
    var rest := xs[..p] + xs[p + 1..];
    if p < n {
      SumWithout(xs[..n], p);
      assert rest[..|rest| - 1] == xs[..n][..p] + xs[..n][p + 1..];
    } else {
      assert rest == xs[..n];
    }
  }

  /** Numbers taken in another order have the same sum, and are as many. */
  lemma {:induction false} SumPermuted(xs: seq<nat>, order: seq<nat>)
    requires Permutes(order, |xs|)
    ensures |order| == |xs|
    ensures Sum(Pick(xs, order)) == Sum(xs)
  {
    hide Permutes;
    NoneBelowZero(order, |xs|);
    if xs != [] {
      var n := |xs| - 1;
      var p := FindIn(order, |xs|, n);
      var rest := order[..p] + order[p + 1..];
      PermutesRest(order, n, p);
      NoneBelowZero(rest, n);
      SumPermuted(xs[..n], rest);
      SumWithout(Pick(xs, order), p);
      assert Pick(xs, order)[..p] + Pick(xs, order)[p + 1..] == Pick(xs[..n], rest);
    }
  }

  lemma NoneBelowZero(order: seq<nat>, n: nat)
    requires Permutes(order, n)
    ensures forall k :: 0 <= k < |order| ==> order[k] < n
    ensures |order| > 0 ==> n > 0
  {
    if |order| > 0 {
      assert order[0] < n;
    }
  }

  lemma FindIn(order: seq<nat>, n: nat, i: nat) returns (p: nat)
    requires Permutes(order, n) && i < n
    ensures p < |order| && order[p] == i
  {
    assert i in order;
    p :| 0 <= p < |order| && order[p] == i;
  }

  lemma PermutesRest(order: seq<nat>, n: nat, p: nat)
    requires Permutes(order, n + 1) && p < |order| && order[p] == n
    ensures Permutes(order[..p] + order[p + 1..], n)
  {
    var rest := order[..p] + order[p + 1..];
    forall i | 0 <= i < n
      ensures i in rest
    {
      assert i in order;
      var k :| 0 <= k < |order| && order[k] == i;
      assert rest[if k < p then k else k - 1] == i;
    }
  }

  lemma {:induction false} FlatSum<T>(parts: seq<seq<T>>, sizes: seq<nat>)
    requires |sizes| == |parts| && forall i :: 0 <= i < |parts| ==> sizes[i] == |parts[i]|
    ensures |Flat(parts)| == Sum(sizes)
  {
    if parts != [] {
      FlatSum(parts[..|parts| - 1], sizes[..|parts| - 1]);
    }
  }

  /** Grouping keeps the keys there are. */
  lemma {:induction false} KindsOfGrouped<K(!new)>(keys: seq<K>)
    ensures |Kinds(Grouped(keys, keys))| == |Kinds(keys)|
  {
    hide Order, Kinds;
    var g := Grouped(keys, keys);
    forall key
      ensures key in g <==> key in keys
    {
      if key in keys {
        var i :| 0 <= i < |keys| && keys[i] == key;
        OrderComplete(keys, i);
        var k :| 0 <= k < |Order(keys)| && Order(keys)[k] == i;
        assert g[k] == key;
      }
    }
    SameCount(Kinds(g), Kinds(keys));
  }

  lemma {:induction false} SameCount<K(!new)>(a: seq<K>, b: seq<K>)
    requires forall i, j :: 0 <= i < j < |a| ==> a[i] != a[j]
    requires forall i, j :: 0 <= i < j < |b| ==> b[i] != b[j]
    requires forall key :: key in a <==> key in b
    ensures |a| == |b|
  {
    CountIsLength(a);
    CountIsLength(b);
    assert (set key | key in a) == (set key | key in b);
  }

  lemma {:induction false} CountIsLength<K(!new)>(a: seq<K>)
    requires forall i, j :: 0 <= i < j < |a| ==> a[i] != a[j]
    ensures |set key | key in a| == |a|
  {
    if a != [] {
      var n := |a| - 1;
      CountIsLength(a[..n]);
      assert a == a[..n] + [a[n]];
      assert (set key | key in a) == (set key | key in a[..n]) + {a[n]};
    }
  }
}
