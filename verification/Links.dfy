/**
 The link structure of the table over values. Nodes are named by their ids, so the heads of the
 buckets and the `p_next` fields are sequences of optional ids, and a `hash_node_t**` is a slot:
 "bucket j" or "next of node id". The lemmas follow the two places where the code writes links: the
 insertion at the end of a chain, and the in-place rehash.
 */
module Links {
  import opened Names
  import opened Layout
  import opened Options

  type Pointer = Option<nat>

  datatype Slot = BucketSlot(j: nat) | NextSlot(id: nat)

  ghost predicate InBounds(ids: seq<nat>, n: nat) {
    forall k :: 0 <= k < |ids| ==> ids[k] < n
  }

  /** What the slot before position `k` of the chain points to. */
  function At(ids: seq<nat>, k: nat): Pointer {
    if k < |ids| then Some(ids[k]) else None
  }

  /** The slot through which a walk along the chain at bucket `j` reads position `k`. */
  function SlotAt(ids: seq<nat>, j: nat, k: nat): Slot
    requires k <= |ids|
  {
    if k == 0 then BucketSlot(j) else NextSlot(ids[k - 1])
  }

  /** The list from `head` is exactly `ids`: no node lost, added or left in a cycle. */
  ghost predicate Linked(head: Pointer, ids: seq<nat>, links: seq<Pointer>) {
    && InBounds(ids, |links|)
    && head == At(ids, 0)
    && forall k :: 0 <= k < |ids| ==> links[ids[k]] == At(ids, k + 1)
  }

  /** The heads after a write of `p` through `slot`. */
  function StoreHeads(heads: seq<Pointer>, slot: Slot, p: Pointer): (after: seq<Pointer>)
    ensures |after| == |heads|
  {
    if slot.BucketSlot? && slot.j < |heads| then heads[slot.j := p] else heads
  }

  /** The links after a write of `p` through `slot`. */
  function StoreLinks(links: seq<Pointer>, slot: Slot, p: Pointer): (after: seq<Pointer>)
    ensures |after| == |links|
  {
    if slot.NextSlot? && slot.id < |links| then links[slot.id := p] else links
  }

  /** The links after appending `id` at `slot`: the slot points to it, and it ends the list. */
  function AppendLinks(links: seq<Pointer>, slot: Slot, id: nat): seq<Pointer> {
    StoreLinks(StoreLinks(links, slot, Some(id)), NextSlot(id), None)
  }

  lemma LinkedFrame(head: Pointer, ids: seq<nat>, links: seq<Pointer>, after: seq<Pointer>)
    requires Linked(head, ids, links) && |links| <= |after|
    requires forall id :: id in ids ==> after[id] == links[id]
    ensures Linked(head, ids, after)
  {
  }

  lemma LinkedTail(head: Pointer, ids: seq<nat>, links: seq<Pointer>)
    requires Linked(head, ids, links) && ids != []
    ensures Linked(links[ids[0]], ids[1..], links)
  {
  }

  /** The link of a node on a list is the least later node of the list. */
  lemma LinkIsNext(head: Pointer, ids: seq<nat>, links: seq<Pointer>, p: nat, id: nat)
    requires Linked(head, ids, links) && Increasing(ids) && p in ids
    ensures p < |links|
    ensures links[p] == Some(id) <==> id in ids && p < id && forall q :: q in ids && p < q ==> id <= q
  {
    var k :| 0 <= k < |ids| && ids[k] == p;
    NextIsLeast(ids, k);
    hide Increasing;
    assert links[p] == At(ids, k + 1);
  }

  lemma NextIsLeast(ids: seq<nat>, k: nat)
    requires Increasing(ids) && k < |ids|
    ensures forall q :: q in ids && ids[k] < q ==> k + 1 < |ids| && ids[k + 1] <= q
    ensures k + 1 < |ids| ==> ids[k + 1] in ids && ids[k] < ids[k + 1]
  {
    forall q | q in ids && ids[k] < q ensures k + 1 < |ids| && ids[k + 1] <= q {
      var m :| 0 <= m < |ids| && ids[m] == q;
      assert m > k;
    }
  }

  /** Writing through the last slot of a chain appends to that chain. */
  lemma AppendExtends(heads: seq<Pointer>, links: seq<Pointer>, j: nat, ids: seq<nat>, id: nat)
    requires j < |heads| && Linked(heads[j], ids, links)
    requires Distinct(ids) && id !in ids && id < |links|
    ensures var slot := SlotAt(ids, j, |ids|);
            Linked(StoreHeads(heads, slot, Some(id))[j], ids + [id], AppendLinks(links, slot, id))
  {
    var longer, after := ids + [id], AppendLinks(links, SlotAt(ids, j, |ids|), id);
    forall k | 0 <= k < |longer|
      ensures after[longer[k]] == At(longer, k + 1)
    {
      if k < |ids| - 1 {
        assert ids[k] != ids[|ids| - 1];
      }
    }
  }

  /** ... and leaves every chain alone that has neither the new id nor the written node. */
  lemma AppendKeeps(heads: seq<Pointer>, links: seq<Pointer>, slot: Slot, id: nat, head: Pointer, ids: seq<nat>)
    requires Linked(head, ids, links)
    requires id !in ids && (slot.NextSlot? ==> slot.id !in ids)
    ensures Linked(head, ids, AppendLinks(links, slot, id))
  {
    LinkedFrame(head, ids, links, AppendLinks(links, slot, id));
  }

  // ---------- The table between calls ----------

  /** Every bucket holds its chain. */
  ghost predicate TableLinked(names: seq<Name>, heads: seq<Pointer>, links: seq<Pointer>) {
    && |links| == |names|
    && |heads| > 0
    && forall j :: 0 <= j < |heads| ==> Linked(heads[j], Chain(names, |heads|, j), links)
  }

  /** Registering a name writes one slot and keeps the table linked. */
  lemma InsertKeepsTable(names: seq<Name>, heads: seq<Pointer>, links: seq<Pointer>, name: Name)
    requires TableLinked(names, heads, links)
    ensures var j := Home(name, |heads|);
            var ids := Chain(names, |heads|, j);
            var slot := SlotAt(ids, j, |ids|);
            TableLinked(names + [name], StoreHeads(heads, slot, Some(|names|)),
                        AppendLinks(links + [None], slot, |names|))
  {
    var c, id := |heads|, |names|;
    var home := Home(name, c);
    var ids := Chain(names, c, home);
    var slot := SlotAt(ids, home, |ids|);
    var wider := links + [None];
    var heads', links' := StoreHeads(heads, slot, Some(id)), AppendLinks(wider, slot, id);
    forall j | 0 <= j < c
      ensures Linked(heads'[j], Chain(names + [name], c, j), links')
    {
      var chain := Chain(names, c, j);
      ChainAppend(names, name, c, j);
      LinkedFrame(heads[j], chain, links, wider);
      if j == home {
        ChainIncreasing(names, c, j);
        AppendExtends(heads, wider, j, ids, id);
      } else {
        if slot.NextSlot? {
          ChainMembers(names, c, home, slot.id);
          ChainMembers(names, c, j, slot.id);
        }
        AppendKeeps(heads, wider, slot, id, heads[j], chain);
      }
    }
  }

  // ---------- The in-place rehash ----------

  /**
   New chain `j` when the rehash has emptied the old buckets below `i` and moved the first `d` nodes
   of old bucket `i`.
   */
  function Partial(names: seq<Name>, c: nat, i: nat, d: nat, j: nat): (ids: seq<nat>)
    requires c > 0 && (i < c ==> d <= |Chain(names, c, i)|)
    ensures forall k :: 0 <= k < |ids| ==> ids[k] < |names|
  {
    if j % c < i then Select(names, Chain(names, c, j % c), 2 * c, j)
    else if j % c == i then Select(names, Chain(names, c, i)[..d], 2 * c, j)
    else []
  }

  /** The links in the middle of the rehash: `p` is the next node to move. */
  ghost predicate Rehashing(names: seq<Name>, i: nat, d: nat, heads: seq<Pointer>, p: Pointer,
                            newHeads: seq<Pointer>, links: seq<Pointer>)
  {
    var c := |heads|;
    && c > 0 && i < c && d <= |Chain(names, c, i)|
    && |newHeads| == 2 * c && |links| == |names|
    && (forall b :: i < b < c ==> Linked(heads[b], Chain(names, c, b), links))
    && Linked(p, Chain(names, c, i)[d..], links)
    && (forall j :: 0 <= j < 2 * c ==> Linked(newHeads[j], Partial(names, c, i, d, j), links))
  }

  lemma PartialStep(names: seq<Name>, c: nat, i: nat, d: nat, j: nat)
    requires c > 0 && i < c && d < |Chain(names, c, i)| && j < 2 * c
    ensures var id := Chain(names, c, i)[d];
            Partial(names, c, i, d + 1, j) ==
            Partial(names, c, i, d, j) + if Home(names[id], 2 * c) == j then [id] else []
  {
    hide Home, Chain, Select;
    var from := Chain(names, c, i);
    assert from[..d + 1] == from[..d] + [from[d]];
    SelectAppend(names, from[..d], from[d], 2 * c, j);
    HomeHalves(names[from[d]], c);
    ChainMembers(names, c, i, from[d]);
  }

  /** Ids on a partly built chain hash to it, and come from the nodes already moved. */
  lemma PartialMembers(names: seq<Name>, c: nat, i: nat, d: nat, j: nat, id: nat)
    requires c > 0 && i < c && d <= |Chain(names, c, i)| && j < 2 * c
    requires id in Partial(names, c, i, d, j)
    ensures id < |names| && Home(names[id], 2 * c) == j
    ensures Home(names[id], c) < i || id in Chain(names, c, i)[..d]
  {
    if j % c < i {
      SelectMembers(names, Chain(names, c, j % c), 2 * c, j, id);
      ChainMembers(names, c, j % c, id);
    } else {
      SelectMembers(names, Chain(names, c, i)[..d], 2 * c, j, id);
    }
  }

  lemma {:induction false} SelectIncreasing(names: seq<Name>, ids: seq<nat>, capacity: nat, j: nat)
    requires capacity > 0 && InBounds(ids, |names|) && Increasing(ids)
    ensures Increasing(Select(names, ids, capacity, j))
    decreases |ids|
  {
    if ids == [] {
    } else {
      SelectIncreasing(names, ids[..|ids| - 1], capacity, j);
    }
  }

  lemma PartialIncreasing(names: seq<Name>, c: nat, i: nat, d: nat, j: nat)
    requires c > 0 && i < c && d <= |Chain(names, c, i)|
    ensures Increasing(Partial(names, c, i, d, j))
  {
    ChainIncreasing(names, c, j % c);
    ChainIncreasing(names, c, i);
    SelectIncreasing(names, Chain(names, c, j % c), 2 * c, j);
    SelectIncreasing(names, Chain(names, c, i)[..d], 2 * c, j);
  }

  /** The node to be moved is on no new chain yet. */
  lemma NextIsUnmoved(names: seq<Name>, c: nat, i: nat, d: nat, j: nat)
    requires c > 0 && i < c && d < |Chain(names, c, i)| && j < 2 * c
    ensures Home(names[Chain(names, c, i)[d]], c) == i
    ensures Chain(names, c, i)[d] !in Partial(names, c, i, d, j)
  {
    var id := Chain(names, c, i)[d];
    ChainIncreasing(names, c, i);
    ChainMembers(names, c, i, id);
    if id in Partial(names, c, i, d, j) {
      PartialMembers(names, c, i, d, j, id);
    }
  }

  /** A node already moved is on none of the chains still to be moved. */
  lemma MovedIsGone(names: seq<Name>, c: nat, i: nat, d: nat, j: nat, id: nat)
    requires c > 0 && i < c && d < |Chain(names, c, i)| && j < 2 * c
    requires id in Partial(names, c, i, d, j)
    ensures id !in Chain(names, c, i)[d..]
    ensures forall b :: i < b < c ==> id !in Chain(names, c, b)
  {
    PartialMembers(names, c, i, d, j, id);
    ChainIncreasing(names, c, i);
    ChainMembers(names, c, i, id);
    forall b | i < b < c ensures id !in Chain(names, c, b) {
      ChainMembers(names, c, b, id);
    }
  }

  /** The chains still to be moved do not notice the move. */
  lemma MoveKeepsOld(names: seq<Name>, i: nat, d: nat, heads: seq<Pointer>, p: Pointer,
                     newHeads: seq<Pointer>, links: seq<Pointer>, home: nat, slot: Slot)
    requires Rehashing(names, i, d, heads, p, newHeads, links) && d < |Chain(names, |heads|, i)|
    requires home < 2 * |heads|
    requires slot.NextSlot? ==> slot.id in Partial(names, |heads|, i, d, home)
    ensures var id := Chain(names, |heads|, i)[d];
            var after := AppendLinks(links, slot, id);
            && (forall b :: i < b < |heads| ==> Linked(heads[b], Chain(names, |heads|, b), after))
            && Linked(links[id], Chain(names, |heads|, i)[d + 1..], after)
  {
    var c := |heads|;
    var rest := Chain(names, c, i)[d..];
    var id := rest[0];
    NextIsUnmoved(names, c, i, d, home);
    if slot.NextSlot? {
      MovedIsGone(names, c, i, d, home, slot.id);
    }
    forall b | i < b < c
      ensures Linked(heads[b], Chain(names, c, b), AppendLinks(links, slot, id))
    {
      ChainMembers(names, c, b, id);
      AppendKeeps(heads, links, slot, id, heads[b], Chain(names, c, b));
    }
    LinkedTail(p, rest, links);
    ChainIncreasing(names, c, i);
    assert rest[1..] == Chain(names, c, i)[d + 1..];
    AppendKeeps(heads, links, slot, id, links[id], rest[1..]);
  }

  /** The new chains gain exactly the moved node, at the end of its own chain. */
  lemma MoveKeepsNew(names: seq<Name>, i: nat, d: nat, heads: seq<Pointer>, p: Pointer,
                     newHeads: seq<Pointer>, links: seq<Pointer>, j: nat)
    requires Rehashing(names, i, d, heads, p, newHeads, links) && d < |Chain(names, |heads|, i)|
    requires j < 2 * |heads|
    ensures var id := Chain(names, |heads|, i)[d];
            var home := Home(names[id], 2 * |heads|);
            var ids := Partial(names, |heads|, i, d, home);
            var slot := SlotAt(ids, home, |ids|);
            Linked(StoreHeads(newHeads, slot, Some(id))[j], Partial(names, |heads|, i, d + 1, j),
                   AppendLinks(links, slot, id))
  {
    hide Home, Chain, Select, Partial, AppendLinks, Linked;
    var c := |heads|;
    var id := Chain(names, c, i)[d];
    var home := Home(names[id], 2 * c);
    var ids := Partial(names, c, i, d, home);
    var slot := SlotAt(ids, home, |ids|);
    var chain := Partial(names, c, i, d, j);
    PartialStep(names, c, i, d, j);
    NextIsUnmoved(names, c, i, d, j);
    if j == home {
      PartialIncreasing(names, c, i, d, j);
      AppendExtends(newHeads, links, j, ids, id);
    } else {
      if slot.NextSlot? && slot.id in chain {
        PartialMembers(names, c, i, d, j, slot.id);
        PartialMembers(names, c, i, d, home, slot.id);
      }
      AppendKeeps(newHeads, links, slot, id, newHeads[j], chain);
      assert chain + [] == chain;
    }
  }

  /**
   One round of the inner loop: the node is stored at the end of its new chain, its old successor
   becomes the next node to move, and its own link is cleared.
   */
  lemma MoveKeepsRehashing(names: seq<Name>, i: nat, d: nat, heads: seq<Pointer>, p: Pointer,
                           newHeads: seq<Pointer>, links: seq<Pointer>)
    requires Rehashing(names, i, d, heads, p, newHeads, links) && d < |Chain(names, |heads|, i)|
    ensures var id := Chain(names, |heads|, i)[d];
            var j := Home(names[id], 2 * |heads|);
            var ids := Partial(names, |heads|, i, d, j);
            var slot := SlotAt(ids, j, |ids|);
            && p == Some(id)
            && Linked(newHeads[j], ids, links)
            && slot != NextSlot(id)
            && Rehashing(names, i, d + 1, heads, links[id],
                         StoreHeads(newHeads, slot, Some(id)), AppendLinks(links, slot, id))
  {
    hide Home, Chain, Select, Partial;
    var id := Chain(names, |heads|, i)[d];
    var home := Home(names[id], 2 * |heads|);
    var ids := Partial(names, |heads|, i, d, home);
    NextIsUnmoved(names, |heads|, i, d, home);
    MoveKeepsOld(names, i, d, heads, p, newHeads, links, home, SlotAt(ids, home, |ids|));
    forall j | 0 <= j < 2 * |heads| {
      MoveKeepsNew(names, i, d, heads, p, newHeads, links, j);
    }
  }

  /** The rehash has moved node `x` to its new chain. */
  predicate Moved(names: seq<Name>, c: nat, i: nat, d: nat, x: nat)
    requires c > 0 && i < c && d <= |Chain(names, c, i)| && x < |names|
  {
    Home(names[x], c) < i || x in Chain(names, c, i)[..d]
  }

  /** A new chain holds exactly the moved nodes that hash to it. */
  lemma PartialHoldsMoved(names: seq<Name>, c: nat, i: nat, d: nat, j: nat, x: nat)
    requires c > 0 && i < c && d <= |Chain(names, c, i)| && j < 2 * c && x < |names|
    ensures x in Partial(names, c, i, d, j) <==> Moved(names, c, i, d, x) && Home(names[x], 2 * c) == j
  {
    hide Home, Chain, Select;
    HomeHalves(names[x], c);
    ChainMembers(names, c, i, x);
    ChainMembers(names, c, j % c, x);
    SelectMembers(names, Chain(names, c, j % c), 2 * c, j, x);
    SelectMembers(names, Chain(names, c, i)[..d], 2 * c, j, x);
  }

  /** In the middle of the rehash a node not yet moved still points to its successor in the old table. */
  lemma UnmovedLink(names: seq<Name>, i: nat, d: nat, heads: seq<Pointer>, p: Pointer,
                    newHeads: seq<Pointer>, links: seq<Pointer>, x: nat, id: nat)
    requires Rehashing(names, i, d, heads, p, newHeads, links) && x < |names| && id < |names|
    requires !Moved(names, |heads|, i, d, x)
    ensures links[x] == Some(id) <==>
            x < id && Home(names[id], |heads|) == Home(names[x], |heads|) &&
            forall q :: x < q < id ==> Home(names[q], |heads|) != Home(names[x], |heads|)
  {
    hide Home, Chain, Partial;
    var c := |heads|;
    var b := Home(names[x], c);
    var chain := Chain(names, c, b);
    ChainIncreasing(names, c, b);
    ChainHolds(names, c, b);
    if b == i {
      var rest := chain[d..];
      RestHolds(chain, d, x);
      LinkIsNext(p, rest, links, x, id);
    } else {
      LinkIsNext(heads[b], chain, links, x, id);
    }
  }

  lemma ChainHolds(names: seq<Name>, c: nat, b: nat)
    requires c > 0
    ensures forall q :: q in Chain(names, c, b) <==> 0 <= q < |names| && Home(names[q], c) == b
  {
    forall q: int ensures q in Chain(names, c, b) <==> 0 <= q < |names| && Home(names[q], c) == b {
      if q >= 0 {
        ChainMembers(names, c, b, q);
      }
    }
  }

  /** After a node of the rest of a list, the list and its rest have the same nodes. */
  lemma RestHolds(ids: seq<nat>, d: nat, x: nat)
    requires d <= |ids| && Increasing(ids) && x in ids && x !in ids[..d]
    ensures x in ids[d..] && Increasing(ids[d..]) && forall q :: x < q ==> (q in ids[d..] <==> q in ids)
  {
    assert ids == ids[..d] + ids[d..];
    forall q | x < q && q in ids ensures q in ids[d..] {
      var m :| 0 <= m < |ids[d..]| && ids[d..][m] == x;
      var k :| 0 <= k < |ids| && ids[k] == q;
      assert ids[d + m] == x;
      assert ids[d..][k - d] == q;
    }
  }

  /** ... and a moved node to the next moved node with the same new home. */
  lemma MovedLink(names: seq<Name>, i: nat, d: nat, heads: seq<Pointer>, p: Pointer,
                  newHeads: seq<Pointer>, links: seq<Pointer>, x: nat, id: nat)
    requires Rehashing(names, i, d, heads, p, newHeads, links) && x < |names| && id < |names|
    requires Moved(names, |heads|, i, d, x)
    ensures var c := |heads|;
            links[x] == Some(id) <==>
            x < id && Moved(names, c, i, d, id) && Home(names[id], 2 * c) == Home(names[x], 2 * c) &&
            forall q :: x < q < id && Moved(names, c, i, d, q) ==> Home(names[q], 2 * c) != Home(names[x], 2 * c)
  {
    hide Home, Chain, Partial, Moved;
    var c := |heads|;
    var j := Home(names[x], 2 * c);
    var ids := Partial(names, c, i, d, j);
    PartialIncreasing(names, c, i, d, j);
    forall q | 0 <= q < |names| ensures q in ids <==> Moved(names, c, i, d, q) && Home(names[q], 2 * c) == j {
      PartialHoldsMoved(names, c, i, d, j, q);
    }
    LinkIsNext(newHeads[j], ids, links, x, id);
  }

  /** The links between two rounds of the outer loop: old buckets below `i` are emptied. */
  ghost predicate RehashedBelow(names: seq<Name>, i: nat, heads: seq<Pointer>,
                                newHeads: seq<Pointer>, links: seq<Pointer>)
  {
    var c := |heads|;
    && c > 0 && i <= c && |newHeads| == 2 * c && |links| == |names|
    && (forall b :: i <= b < c ==> Linked(heads[b], Chain(names, c, b), links))
    && (forall j :: 0 <= j < 2 * c ==> Linked(newHeads[j], Partial(names, c, i, 0, j), links))
  }

  lemma RehashBegins(names: seq<Name>, heads: seq<Pointer>, newHeads: seq<Pointer>, links: seq<Pointer>)
    requires TableLinked(names, heads, links) && |newHeads| == 2 * |heads|
    requires forall j :: 0 <= j < |newHeads| ==> newHeads[j] == None
    ensures RehashedBelow(names, 0, heads, newHeads, links)
  {
    forall j | 0 <= j < 2 * |heads|
      ensures Linked(newHeads[j], Partial(names, |heads|, 0, 0, j), links)
    {
      assert Chain(names, |heads|, 0)[..0] == [];
    }
  }

  lemma RehashBucketBegins(names: seq<Name>, i: nat, heads: seq<Pointer>, newHeads: seq<Pointer>, links: seq<Pointer>)
    requires RehashedBelow(names, i, heads, newHeads, links) && i < |heads|
    ensures Rehashing(names, i, 0, heads, heads[i], newHeads, links)
  {
    assert Chain(names, |heads|, i)[0..] == Chain(names, |heads|, i);
  }

  lemma RehashBucketEnds(names: seq<Name>, i: nat, d: nat, heads: seq<Pointer>,
                         newHeads: seq<Pointer>, links: seq<Pointer>)
    requires Rehashing(names, i, d, heads, None, newHeads, links)
    ensures RehashedBelow(names, i + 1, heads, newHeads, links)
  {
    var c := |heads|;
    var chain := Chain(names, c, i);
    assert d == |chain| && chain[..d] == chain;
    forall j | 0 <= j < 2 * c
      ensures Partial(names, c, i + 1, 0, j) == Partial(names, c, i, d, j)
    {
      if i + 1 < c {
        assert Chain(names, c, i + 1)[..0] == [];
      }
    }
  }

  /** The rehash ends in the table that the doubled capacity prescribes. */
  lemma RehashEnds(names: seq<Name>, heads: seq<Pointer>, newHeads: seq<Pointer>, links: seq<Pointer>)
    requires RehashedBelow(names, |heads|, heads, newHeads, links)
    ensures TableLinked(names, newHeads, links)
  {
    forall j | 0 <= j < |newHeads|
      ensures Linked(newHeads[j], Chain(names, |newHeads|, j), links)
    {
      StableSplit(names, |heads|, j);
    }
  }
}
