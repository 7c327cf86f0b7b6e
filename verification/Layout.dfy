/**
 The layout of the hash table, as a function of the registered names alone.

 A channel's id is its rank in registration order: the node allocated for it, or its index in the
 pool. `Chain(names, c, j)` lists the ids that hang off bucket `j` of a table with `c` buckets. The
 lemmas say how the chains change when a name is appended and when the capacity doubles, and what a
 walk along a chain finds.
 */
module Layout {
  import opened Names
  import opened Options

  /** The bucket index of a name: the full hash reduced modulo the capacity. */
  function Home(name: Name, capacity: nat): (j: nat)
    requires capacity > 0
    ensures j < capacity
  {
    HashOf(name) % capacity
  }

  /** The bucket is what the seeded hash leaves when whole capacities are taken off. */
  lemma HomeIsRemainder(name: Name, capacity: nat) returns (q: nat)
    requires capacity > 0
    ensures q * capacity + Home(name, capacity) == HashFrom(5381, name, true) as nat
  {
    hide HashFrom, HashOf;
    HashIsSeeded(name);
    q := Divided(HashOf(name), capacity);
  }

  lemma Divided(h: nat, capacity: nat) returns (q: nat)
    requires capacity > 0
    ensures q * capacity + h % capacity == h
  {
    q := h / capacity;
  }

  /** Of 1000 buckets, the channel "a" lives in the one numbered 604. */
  lemma HomeOfA()
    ensures Home([0x61], 1000) == 604
  {
    hide HashFrom, HashOf;
    HashNumbers();
  }

  /** The ids in bucket `j`, in chain order. */
  function Chain(names: seq<Name>, capacity: nat, j: nat): (ids: seq<nat>)
    requires capacity > 0
    ensures forall k :: 0 <= k < |ids| ==> ids[k] < |names|
    decreases |names|
  {
    if names == [] then []
    else
      var last := |names| - 1;
      var ids := Chain(names[..last], capacity, j);
      if Home(names[last], capacity) == j then ids + [last] else ids
  }

  /** The part of a chain whose names live in bucket `j` of a table with `capacity` buckets. */
  function Select(names: seq<Name>, ids: seq<nat>, capacity: nat, j: nat): (kept: seq<nat>)
    requires capacity > 0
    requires forall k :: 0 <= k < |ids| ==> ids[k] < |names|
    ensures forall k :: 0 <= k < |kept| ==> kept[k] in ids
    decreases |ids|
  {
    if ids == [] then []
    else
      var last := |ids| - 1;
      var kept := Select(names, ids[..last], capacity, j);
      if Home(names[ids[last]], capacity) == j then kept + [ids[last]] else kept
  }

  /** The first id on the chain whose stored name is `name`, as a walk from the bucket finds it. */
  function FindOn(names: seq<Name>, ids: seq<nat>, name: Name): (id: Option<nat>)
    requires forall k :: 0 <= k < |ids| ==> ids[k] < |names|
    ensures id.Some? ==> id.value < |names|
    decreases |ids|
  {
    if ids == [] then None
    else if names[ids[0]] == name then Some(ids[0])
    else FindOn(names, ids[1..], name)
  }

  /** The lookup of the code: walk the one chain that the hash selects. */
  function Lookup(names: seq<Name>, capacity: nat, name: Name): (id: Option<nat>)
    requires capacity > 0
    ensures id.Some? ==> id.value < |names|
  {
    FindOn(names, Chain(names, capacity, Home(name, capacity)), name)
  }

  ghost predicate Distinct<T>(s: seq<T>) {
    forall i, j :: 0 <= i < j < |s| ==> s[i] != s[j]
  }

  lemma DistinctAppend<T>(s: seq<T>, x: T)
    requires Distinct(s) && x !in s
    ensures Distinct(s + [x])
  {
  }

  lemma {:induction false} DistinctCardinality<T>(xs: seq<T>)
    requires Distinct(xs)
    ensures |set x | x in xs| == |xs|
    decreases |xs|
  {
    if xs == [] {
    } else {
      var last := |xs| - 1;
      DistinctCardinality(xs[..last]);
      assert xs == xs[..last] + [xs[last]];
      assert (set x | x in xs) == (set x | x in xs[..last]) + {xs[last]};
    }
  }

  ghost predicate Increasing(ids: seq<nat>) {
    forall i, j :: 0 <= i < j < |ids| ==> ids[i] < ids[j]
  }

  lemma ChainIncreasing(names: seq<Name>, capacity: nat, j: nat)
    requires capacity > 0
    ensures Increasing(Chain(names, capacity, j))
    decreases |names|
  {
    if names == [] {
    } else {
      ChainIncreasing(names[..|names| - 1], capacity, j);
    }
  }

  /** A chain holds exactly the registered names whose hash selects its bucket. */
  lemma {:induction false} ChainMembers(names: seq<Name>, capacity: nat, j: nat, id: nat)
    requires capacity > 0
    ensures id in Chain(names, capacity, j) <==> id < |names| && Home(names[id], capacity) == j
    decreases |names|
  {
    if names == [] {
    } else {
      var last := |names| - 1;
      ChainMembers(names[..last], capacity, j, id);
      assert id < last ==> names[..last][id] == names[id];
    }
  }

  lemma ChainAppend(names: seq<Name>, name: Name, capacity: nat, j: nat)
    requires capacity > 0
    ensures Chain(names + [name], capacity, j) ==
            Chain(names, capacity, j) + if Home(name, capacity) == j then [|names|] else []
  {
    assert (names + [name])[..|names|] == names;
  }

  lemma ProductLeavesWindow(c: int, d: int)
    requires c > 0 && -c < c * d < c
    ensures d == 0
  {
  }

  lemma Distribute(c: int, a: int, b: int)
    ensures c * (a - b) == c * a - c * b
    ensures c * (a + b) == c * a + c * b
  {
  }

  lemma DivModUnique(x: nat, c: nat, q: nat, r: nat)
    requires c > 0 && r < c && x == c * q + r
    ensures x % c == r
  {
    var e := x / c;
    assert x == c * e + x % c;
    Distribute(c, e, q);
    assert c * (e - q) == r - x % c;
    ProductLeavesWindow(c, e - q);
  }

  lemma DivMod(x: nat, m: nat)
    requires m > 0
    ensures x == m * (x / m) + x % m && 0 <= x / m && 0 <= x % m < m
  {
  }

  lemma TimesDouble(c: nat, m: nat, q: nat)
    requires m == c + c
    ensures m * q == c * (q + q)
  {
  }

  lemma ModOfDouble(x: nat, c: nat, m: nat)
    requires c > 0 && m == c + c
    ensures (x % m) % c == x % c
  {
    DivMod(x, m);
    TimesDouble(c, m, x / m);
    ModOfHalf(x, c, x / m + x / m, x % m);
  }

  lemma ModOfHalf(x: nat, c: nat, p: nat, r: nat)
    requires c > 0 && r < c + c && x == c * p + r
    ensures r % c == x % c
  {
    if r < c {
      DivModUnique(x, c, p, r);
      DivModUnique(r, c, 0, r);
    } else {
      Distribute(c, p, 1);
      DivModUnique(x, c, p + 1, r - c);
      DivModUnique(r, c, 1, r - c);
    }
  }

  /** The bucket in the doubled table determines the bucket in the old one. */
  lemma HomeHalves(name: Name, c: nat)
    requires c > 0
    ensures Home(name, 2 * c) % c == Home(name, c)
  {
    ModOfDouble(HashOf(name), c, 2 * c);
  }

  /**
   Doubling is an exact stable split: chain `j` of the doubled table is the subsequence of old chain
   `j % c` whose names now hash to `j`, in the old order.
   */
  lemma {:induction false} StableSplit(names: seq<Name>, c: nat, j: nat)
    requires c > 0 && j < 2 * c
    ensures Chain(names, 2 * c, j) == Select(names, Chain(names, c, j % c), 2 * c, j)
    decreases |names|
  {
    if names == [] {
    } else {
      var last := |names| - 1;
      var before := Chain(names[..last], c, j % c);
      StableSplit(names[..last], c, j);
      SelectExtends(names[..last], [names[last]], before, 2 * c, j);
      assert names[..last] + [names[last]] == names;
      HomeHalves(names[last], c);
      if Home(names[last], c) == j % c {
        SelectAppend(names, before, last, 2 * c, j);
      }
    }
  }

  lemma SelectAppend(names: seq<Name>, ids: seq<nat>, id: nat, capacity: nat, j: nat)
    requires capacity > 0 && id < |names|
    requires forall k :: 0 <= k < |ids| ==> ids[k] < |names|
    ensures Select(names, ids + [id], capacity, j) ==
            Select(names, ids, capacity, j) + if Home(names[id], capacity) == j then [id] else []
  {
    assert (ids + [id])[..|ids|] == ids;
  }

  lemma {:induction false} SelectExtends(names: seq<Name>, more: seq<Name>, ids: seq<nat>, capacity: nat, j: nat)
    requires capacity > 0
    requires forall k :: 0 <= k < |ids| ==> ids[k] < |names|
    ensures Select(names + more, ids, capacity, j) == Select(names, ids, capacity, j)
    decreases |ids|
  {
    if ids == [] {
    } else {
      SelectExtends(names, more, ids[..|ids| - 1], capacity, j);
    }
  }

  lemma {:induction false} SelectMembers(names: seq<Name>, ids: seq<nat>, capacity: nat, j: nat, id: nat)
    requires capacity > 0
    requires forall k :: 0 <= k < |ids| ==> ids[k] < |names|
    ensures id in Select(names, ids, capacity, j) <==> id in ids && Home(names[id], capacity) == j
    decreases |ids|
  {
    if ids == [] {
    } else {
      var last := |ids| - 1;
      assert ids == ids[..last] + [ids[last]];
      SelectMembers(names, ids[..last], capacity, j, id);
    }
  }

  lemma {:induction false} FindOnFinds(names: seq<Name>, ids: seq<nat>, name: Name)
    requires forall k :: 0 <= k < |ids| ==> ids[k] < |names|
    ensures var r := FindOn(names, ids, name);
            && (r.Some? ==> r.value in ids && names[r.value] == name)
            && (r.None? ==> forall id :: id in ids ==> names[id] != name)
    decreases |ids|
  {
    if ids == [] {
    } else {
      assert ids == [ids[0]] + ids[1..];
      FindOnFinds(names, ids[1..], name);
    }
  }

  /** Walking one chain answers for the whole table: the id of the name, or that it is not registered. */
  lemma LookupExact(names: seq<Name>, capacity: nat, name: Name)
    requires capacity > 0 && Distinct(names)
    ensures Lookup(names, capacity, name).None? <==> name !in names
    ensures forall id :: Lookup(names, capacity, name) == Some(id) <==> 0 <= id < |names| && names[id] == name
  {
    var ids := Chain(names, capacity, Home(name, capacity));
    FindOnFinds(names, ids, name);
    forall id | 0 <= id < |names| && names[id] == name
      ensures Lookup(names, capacity, name) == Some(id)
    {
      ChainMembers(names, capacity, Home(name, capacity), id);
    }
  }

  /** Lookups do not depend on the capacity. */
  lemma LookupIgnoresCapacity(names: seq<Name>, c: nat, d: nat, name: Name)
    requires c > 0 && d > 0 && Distinct(names)
    ensures Lookup(names, c, name) == Lookup(names, d, name)
  {
    LookupExact(names, c, name);
    LookupExact(names, d, name);
    if name in names {
      var id :| 0 <= id < |names| && names[id] == name;
    }
  }

  /** The number of nodes in the first `i` chains. */
  function CountBelow(names: seq<Name>, capacity: nat, i: nat): nat
    requires capacity > 0
  {
    if i == 0 then 0 else CountBelow(names, capacity, i - 1) + |Chain(names, capacity, i - 1)|
  }

  lemma {:induction false} CountBelowAppend(names: seq<Name>, name: Name, capacity: nat, i: nat)
    requires capacity > 0
    ensures CountBelow(names + [name], capacity, i) ==
            CountBelow(names, capacity, i) + if Home(name, capacity) < i then 1 else 0
  {
    hide Home, Chain;
    if i == 0 {
    } else {
      CountBelowAppend(names, name, capacity, i - 1);
      ChainAppend(names, name, capacity, i - 1);
    }
  }

  lemma {:induction false} CountBelowEmpty(capacity: nat, i: nat)
    requires capacity > 0
    ensures CountBelow([], capacity, i) == 0
  {
    if i == 0 {
    } else {
      CountBelowEmpty(capacity, i - 1);
    }
  }

  lemma {:induction false} CountBelowGrows(names: seq<Name>, capacity: nat, i: nat, j: nat)
    requires capacity > 0 && i <= j
    ensures CountBelow(names, capacity, i) <= CountBelow(names, capacity, j)
  {
    if i < j {
      CountBelowGrows(names, capacity, i, j - 1);
    }
  }

  /** The chains together hold every registered name once. */
  lemma {:induction false} ChainsPartition(names: seq<Name>, capacity: nat)
    requires capacity > 0
    ensures CountBelow(names, capacity, capacity) == |names|
    decreases |names|
  {
    if names == [] {
      CountBelowEmpty(capacity, capacity);
    } else {
      var last := |names| - 1;
      ChainsPartition(names[..last], capacity);
      CountBelowAppend(names[..last], names[last], capacity, capacity);
      assert names[..last] + [names[last]] == names;
    }
  }
}
