/**
 The logging manager on the heap: nodes linked through `next`, a bucket array that a resize replaces,
 a preallocated pool under the fixed policy, and the list of live allocations. Each method is proved
 against the state machine of Registry.dfy, held in the ghost field `s`.
 */
module LoggingManager {
  import opened Names
  import opened Layout
  import opened Links
  import opened Options
  import opened Registry
  import opened RegistryRuns
  import opened Severity

  class Node {
    var next: Node?
    var output: nat
    var level: int
    var channel: seq<bv8>
    var channelLength: nat

    /** A block fresh from the allocator: only the size of the name buffer is known. */
    constructor ()
      ensures |channel| == CHANNEL_LEN
    {
      channel := seq(CHANNEL_LEN, _ => 0);
    }
  }

  /** A `hash_node_t**`: the address of a bucket or of the link field of a node. */
  datatype Place = BucketPlace(j: nat) | NextPlace(node: Node)

  ghost predicate Closed(ps: seq<Pointer>, n: nat) {
    forall k :: 0 <= k < |ps| ==> ps[k].Some? ==> ps[k].value < n
  }

  ghost function Deref(nodes: seq<Node>, p: Pointer): Node?
    requires p.Some? ==> p.value < |nodes|
  {
    if p.Some? then nodes[p.value] else null
  }

  /** The link fields are the pointers `links`. */
  ghost predicate HasLinks(nodes: seq<Node>, links: seq<Pointer>)
    reads (set n | n in nodes)`next
  {
    && |links| == |nodes| && Closed(links, |nodes|)
    && forall k :: 0 <= k < |nodes| ==> nodes[k].next == Deref(nodes, links[k])
  }

  /** The link fields are the pointers `links`, except perhaps that of node `id`. */
  ghost predicate HasLinksBut(nodes: seq<Node>, links: seq<Pointer>, id: nat)
    reads (set n | n in nodes)`next
  {
    && |links| == |nodes| && Closed(links, |nodes|)
    && forall k :: 0 <= k < |nodes| && k != id ==> nodes[k].next == Deref(nodes, links[k])
  }

  /** The buckets are the pointers `heads`. */
  ghost predicate HasHeads(bucket: array<Node?>, heads: seq<Pointer>, nodes: seq<Node>)
    reads bucket
  {
    && |heads| == bucket.Length && Closed(heads, |nodes|)
    && forall j :: 0 <= j < |heads| ==> bucket[j] == Deref(nodes, heads[j])
  }

  ghost predicate Denotes(place: Place, slot: Slot, nodes: seq<Node>) {
    match slot
    case BucketSlot(j) => place == BucketPlace(j)
    case NextSlot(id) => id < |nodes| && place == NextPlace(nodes[id])
  }

  /** Reads through a place. */
  function Load(bucket: array<Node?>, place: Place): Node?
    requires place.BucketPlace? ==> place.j < bucket.Length
    reads bucket, if place.NextPlace? then {place.node} else {}
  {
    match place
    case BucketPlace(j) => bucket[j]
    case NextPlace(node) => node.next
  }

  /** Writes through a place. */
  method Store(bucket: array<Node?>, place: Place, v: Node?)
    requires place.BucketPlace? ==> place.j < bucket.Length
    modifies if place.BucketPlace? then {bucket} else {}
    modifies (if place.NextPlace? then {place.node} else {})`next
    ensures place.BucketPlace? ==> bucket[..] == old(bucket[..])[place.j := v]
    ensures place.NextPlace? ==> place.node.next == v
  {
    match place
    case BucketPlace(j) => bucket[j] := v;
    case NextPlace(node) => node.next := v;
  }

  /** The walk along a chain, from slot to slot: the place where the list ends. */
  method WalkToTail(bucket: array<Node?>, j: nat, ghost ids: seq<nat>,
                    ghost nodes: seq<Node>, ghost heads: seq<Pointer>, ghost links: seq<Pointer>)
    returns (place: Place)
    requires HasHeads(bucket, heads, nodes) && HasLinks(nodes, links)
    requires j < bucket.Length && Linked(heads[j], ids, links)
    ensures Denotes(place, SlotAt(ids, j, |ids|), nodes)
  {
    place := BucketPlace(j);
    ghost var k := 0;
    while Load(bucket, place) != null
      invariant 0 <= k <= |ids| && Denotes(place, SlotAt(ids, j, k), nodes)
      invariant place.BucketPlace? ==> place.j < bucket.Length
      invariant Load(bucket, place) == Deref(nodes, At(ids, k))
      decreases |ids| - k
    {
      place := NextPlace(Load(bucket, place));
      k := k + 1;
    }
  }

  /** Appends `node` at the end of a list: store it, read its successor in the old list, cut its link. */
  method Append(bucket: array<Node?>, place: Place, node: Node, ghost slot: Slot, ghost id: nat,
                ghost nodes: seq<Node>, ghost heads: seq<Pointer>, ghost links: seq<Pointer>)
    returns (rest: Node?)
    requires HasHeads(bucket, heads, nodes) && HasLinksBut(nodes, links, id) && Distinct(nodes)
    requires Denotes(place, slot, nodes) && (slot.BucketSlot? ==> slot.j < |heads|)
    requires id < |nodes| && nodes[id] == node
    modifies bucket, (set n | n in nodes)`next
    ensures HasHeads(bucket, StoreHeads(heads, slot, Some(id)), nodes)
    ensures HasLinks(nodes, AppendLinks(links, slot, id))
    ensures slot != NextSlot(id) ==> rest == old(node.next)
  {
    Store(bucket, place, node);
    rest := node.next;
    node.next := null;
  }

  /** The name a node carries. */
  ghost predicate Carries(node: Node, name: Name)
    reads node`channel, node`channelLength
  {
    && |node.channel| == CHANNEL_LEN
    && node.channelLength == |name| < CHANNEL_LEN
    && node.channel[..|name|] == name
    && node.channel[|name|] == 0
  }

  /** Every node carries the name of its id. */
  ghost predicate HasNames(nodes: seq<Node>, names: seq<Name>)
    reads (set n | n in nodes)`channel, (set n | n in nodes)`channelLength
  {
    |nodes| == |names| && forall k :: 0 <= k < |nodes| ==> Carries(nodes[k], names[k])
  }

  /** The stored length and the hash of a requested name. */
  method KeyOf(channel: Name) returns (length: nat, hash: nat)
    ensures length <= |channel| && channel[..length] == Truncate(channel) && hash == HashOf(Truncate(channel))
  {
    length := |channel|;
    if length > CHANNEL_LEN - 1 {
      length := CHANNEL_LEN - 1;
    }
    assert channel[..length] == Truncate(channel);
    var h := HashFn(channel, length, CHAR_IS_SIGNED);
    hash := h as nat;
  }

  /** Probes the chain of `channel[..length]`: the node that carries it, or the place where the chain ends. */
  method Probe(bucket: array<Node?>, i: nat, channel: Name, length: nat,
               ghost names: seq<Name>, ghost ids: seq<nat>,
               ghost nodes: seq<Node>, ghost heads: seq<Pointer>, ghost links: seq<Pointer>)
    returns (hit: Node?, place: Place)
    requires HasHeads(bucket, heads, nodes) && HasLinks(nodes, links) && HasNames(nodes, names)
    requires i < bucket.Length && Linked(heads[i], ids, links)
    requires length <= |channel| && length < CHANNEL_LEN
    ensures hit == Deref(nodes, FindOn(names, ids, channel[..length]))
    ensures hit == null ==> Denotes(place, SlotAt(ids, i, |ids|), nodes)
  {
    ghost var key := channel[..length];
    ghost var k := 0;
    place := BucketPlace(i);
    while Load(bucket, place) != null
      invariant 0 <= k <= |ids| && Denotes(place, SlotAt(ids, i, k), nodes)
      invariant place.BucketPlace? ==> place.j < bucket.Length
      invariant Load(bucket, place) == Deref(nodes, At(ids, k))
      invariant FindOn(names, ids, key) == FindOn(names, ids[k..], key)
      decreases |ids| - k
    {
      hit := Load(bucket, place);
      assert Carries(hit, names[ids[k]]);
      if hit.channelLength == length && hit.channel[..length] == channel[..length] {
        return;
      }
      assert ids[k..][1..] == ids[k + 1..];
      place := NextPlace(hit);
      k := k + 1;
    }
    hit := null;
  }

  /** One round of the inner rehash loop. */
  method MoveNode(newBucket: array<Node?>, node: Node, ghost i: nat, ghost d: nat, ghost names: seq<Name>,
                  ghost nodes: seq<Node>, ghost heads: seq<Pointer>, ghost newHeads: seq<Pointer>,
                  ghost links: seq<Pointer>)
    returns (rest: Node?, ghost newHeads': seq<Pointer>, ghost links': seq<Pointer>)
    requires HasHeads(newBucket, newHeads, nodes) && HasLinks(nodes, links) && Distinct(nodes)
    requires i < |heads| && d < |Chain(names, |heads|, i)| && |names| == |nodes|
    requires Rehashing(names, i, d, heads, Some(Chain(names, |heads|, i)[d]), newHeads, links)
    requires node == nodes[Chain(names, |heads|, i)[d]] && Carries(node, names[Chain(names, |heads|, i)[d]])
    modifies newBucket, (set n | n in nodes)`next
    ensures HasHeads(newBucket, newHeads', nodes) && HasLinks(nodes, links')
    ensures Rehashing(names, i, d + 1, heads, At(Chain(names, |heads|, i), d + 1), newHeads', links')
    ensures rest == Deref(nodes, At(Chain(names, |heads|, i), d + 1))
  {
    ghost var id := Chain(names, |heads|, i)[d];
    var hash := HashFn(node.channel, node.channelLength, CHAR_IS_SIGNED);
    var j := hash as nat % newBucket.Length;
    assert j == Home(names[id], 2 * |heads|);
    ghost var ids := Partial(names, |heads|, i, d, j);
    ghost var slot := SlotAt(ids, j, |ids|);
    MoveKeepsRehashing(names, i, d, heads, Some(id), newHeads, links);
    var place := WalkToTail(newBucket, j, ids, nodes, newHeads, links);
    rest := Append(newBucket, place, node, slot, id, nodes, newHeads, links);
    newHeads' := StoreHeads(newHeads, slot, Some(id));
    links' := AppendLinks(links, slot, id);
  }

  /** The inner rehash loop: empties old bucket `i`; `moves` counts the nodes it relinked. */
  method MoveBucket(bucket: array<Node?>, newBucket: array<Node?>, i: nat, ghost names: seq<Name>,
                    ghost nodes: seq<Node>, ghost heads: seq<Pointer>, ghost newHeads: seq<Pointer>,
                    ghost links: seq<Pointer>)
    returns (moves: nat, ghost newHeads': seq<Pointer>, ghost links': seq<Pointer>)
    requires bucket != newBucket && i < bucket.Length && HasHeads(bucket, heads, nodes)
    requires HasHeads(newBucket, newHeads, nodes) && HasLinks(nodes, links)
    requires Distinct(nodes) && HasNames(nodes, names)
    requires RehashedBelow(names, i, heads, newHeads, links)
    modifies newBucket, (set n | n in nodes)`next
    ensures HasHeads(newBucket, newHeads', nodes) && HasLinks(nodes, links')
    ensures RehashedBelow(names, i + 1, heads, newHeads', links')
    ensures moves == |Chain(names, |heads|, i)|
  {
    newHeads', links', moves := newHeads, links, 0;
    var oldNode := bucket[i];
    RehashBucketBegins(names, i, heads, newHeads, links);
    while oldNode != null
      invariant HasHeads(newBucket, newHeads', nodes) && HasLinks(nodes, links') && HasNames(nodes, names)
      invariant moves <= |Chain(names, |heads|, i)|
      invariant Rehashing(names, i, moves, heads, At(Chain(names, |heads|, i), moves), newHeads', links')
      invariant oldNode == Deref(nodes, At(Chain(names, |heads|, i), moves))
      decreases |Chain(names, |heads|, i)| - moves
    {
      oldNode, newHeads', links' := MoveNode(newBucket, oldNode, i, moves, names, nodes, heads, newHeads', links');
      moves := moves + 1;
    }
    RehashBucketEnds(names, i, moves, heads, newHeads', links');
  }

  /** The rehash loops: relink every node from `bucket` into `newBucket`. */
  method Rehash(bucket: array<Node?>, newBucket: array<Node?>, ghost names: seq<Name>,
                ghost nodes: seq<Node>, ghost heads: seq<Pointer>, ghost links: seq<Pointer>)
    returns (moves: nat, ghost newHeads: seq<Pointer>, ghost links': seq<Pointer>)
    requires bucket != newBucket && newBucket.Length == 2 * bucket.Length
    requires HasHeads(bucket, heads, nodes) && HasLinks(nodes, links)
    requires Distinct(nodes) && HasNames(nodes, names) && TableLinked(names, heads, links)
    modifies newBucket, (set n | n in nodes)`next
    ensures HasHeads(newBucket, newHeads, nodes) && HasLinks(nodes, links')
    ensures |newHeads| == 2 * |heads| && TableLinked(names, newHeads, links')
    ensures moves == |names|
  {
    hide Chain, Home, Linked, TableLinked, RehashedBelow, HasLinks, HasNames, Carries, Distinct;
    for i := 0 to newBucket.Length
      modifies newBucket
      invariant forall k :: 0 <= k < i ==> newBucket[k] == null
    {
      newBucket[i] := null;
    }
    newHeads, links', moves := seq(newBucket.Length, _ => None), links, 0;
    RehashBegins(names, heads, newHeads, links);
    for i := 0 to bucket.Length
      invariant HasHeads(newBucket, newHeads, nodes) && HasLinks(nodes, links') && HasNames(nodes, names)
      invariant RehashedBelow(names, i, heads, newHeads, links')
      invariant moves == CountBelow(names, |heads|, i)
    {
      var m: nat;
      m, newHeads, links' := MoveBucket(bucket, newBucket, i, names, nodes, heads, newHeads, links');
      moves := moves + m;
    }
    RehashEnds(names, heads, newHeads, links');
    ChainsPartition(names, |heads|);
  }

  /** Fills a node for a new channel: level, name buffer with its terminator, length. */
  method Fill(node: Node, channel: Name, length: nat)
    requires length <= |channel| && length < CHANNEL_LEN == |node.channel|
    modifies node`level, node`channel, node`channelLength
    ensures Carries(node, channel[..length]) && node.level == LVL_DEBUG
  {
    node.level := LVL_DEBUG;
    node.channel := channel[..length] + node.channel[length..];
    node.channel := node.channel[length := 0];
    node.channelLength := length;
  }

  /** Links a new node at the place where the probe of its name ended. */
  method Insert(bucket: array<Node?>, place: Place, node: Node, ghost name: Name, ghost names: seq<Name>,
                ghost nodes: seq<Node>, ghost heads: seq<Pointer>, ghost links: seq<Pointer>)
    returns (ghost heads': seq<Pointer>, ghost links': seq<Pointer>)
    requires HasHeads(bucket, heads, nodes) && HasLinks(nodes, links) && Distinct(nodes) && node !in nodes
    requires |names| == |nodes| && TableLinked(names, heads, links)
    requires var j := Home(name, |heads|);
             var ids := Chain(names, |heads|, j);
             Denotes(place, SlotAt(ids, j, |ids|), nodes)
    modifies bucket, node`next, (set n | n in nodes)`next
    ensures HasHeads(bucket, heads', nodes + [node]) && HasLinks(nodes + [node], links')
    ensures |heads'| == |heads| && TableLinked(names + [name], heads', links')
  {
    ghost var ids := Chain(names, |heads|, Home(name, |heads|));
    ghost var slot := SlotAt(ids, Home(name, |heads|), |ids|);
    InsertKeepsTable(names, heads, links, name);
    var _ := Append(bucket, place, node, slot, |names|, nodes + [node], heads, links + [None]);
    heads', links' := StoreHeads(heads, slot, Some(|names|)), AppendLinks(links + [None], slot, |names|);
  }

  /** The blocks obtained from `malloc` and not yet given back. */
  class Allocator {
    ghost var live: set<object>

    constructor ()
      ensures live == {}
    {
      live := {};
    }

    ghost method Malloc(block: object)
      requires block !in live
      modifies this
      ensures live == old(live) + {block}
    {
      live := live + {block};
    }

    /** `free`: only a live block may be given back, so no block is freed twice. */
    ghost method Free(block: object)
      requires block in live
      modifies this
      ensures live == old(live) - {block}
    {
      live := live - {block};
    }
  }

  /** The registered nodes carry their levels and the output function of the manager. */
  ghost predicate HasLevels(nodes: seq<Node>, levels: seq<int>, output: nat)
    reads (set n | n in nodes)`level, (set n | n in nodes)`output
  {
    |nodes| == |levels| && forall k :: 0 <= k < |nodes| ==> nodes[k].level == levels[k] && nodes[k].output == output
  }

  lemma HasNamesAppend(nodes: seq<Node>, names: seq<Name>, node: Node, name: Name)
    requires HasNames(nodes, names) && Carries(node, name)
    ensures HasNames(nodes + [node], names + [name])
  {
  }

  lemma HasLevelsAppend(nodes: seq<Node>, levels: seq<int>, output: nat, node: Node)
    requires HasLevels(nodes, levels, output) && node.output == output
    ensures HasLevels(nodes + [node], levels + [node.level], output)
  {
  }

  /** Links `node` where the probe of the name ended, and fills it in. */
  method LinkAndFill(bucket: array<Node?>, place: Place, node: Node, channel: Name, length: nat, output: nat,
                     setOutput: bool,
                     ghost names: seq<Name>, ghost levels: seq<int>,
                     ghost nodes: seq<Node>, ghost heads: seq<Pointer>, ghost links: seq<Pointer>)
    returns (ghost heads': seq<Pointer>, ghost links': seq<Pointer>)
    requires HasHeads(bucket, heads, nodes) && HasLinks(nodes, links)
    requires HasNames(nodes, names) && HasLevels(nodes, levels, output)
    requires Distinct(nodes) && TableLinked(names, heads, links)
    requires length <= |channel| && length < CHANNEL_LEN
    requires node !in nodes && |node.channel| == CHANNEL_LEN && |names| == |nodes|
    requires !setOutput ==> node.output == output
    requires var j := Home(channel[..length], |heads|);
             var ids := Chain(names, |heads|, j);
             Denotes(place, SlotAt(ids, j, |ids|), nodes)
    modifies bucket, node, (set n | n in nodes)`next
    ensures HasHeads(bucket, heads', nodes + [node]) && HasLinks(nodes + [node], links')
    ensures HasNames(nodes + [node], names + [channel[..length]])
    ensures HasLevels(nodes + [node], levels + [LVL_DEBUG], output)
    ensures Distinct(nodes + [node]) && |heads'| == |heads|
    ensures TableLinked(names + [channel[..length]], heads', links')
    ensures |node.channel| == CHANNEL_LEN && node.output == output
  {
    hide Chain, Home, Linked, TableLinked, HasHeads, HasLinks, HasNames, HasLevels, Distinct;
    heads', links' := Insert(bucket, place, node, channel[..length], names, nodes, heads, links);
    if setOutput {
      node.output := output;
    }
    Fill(node, channel, length);
    HasNamesAppend(nodes, names, node, channel[..length]);
    HasLevelsAppend(nodes, levels, output, node);
    DistinctAppend(nodes, node);
  }

  /** The nodes that deinit has freed when it has emptied the buckets below `i` and `d` nodes of bucket `i`. */
  ghost function FreedNodes(nodes: seq<Node>, names: seq<Name>, c: nat, i: nat, d: nat): set<object>
    requires c > 0 && |nodes| == |names| && (i < c ==> d <= |Chain(names, c, i)|)
  {
    set id | 0 <= id < |nodes| && (Home(names[id], c) < i || (i < c && id in Chain(names, c, i)[..d])) ::
      nodes[id] as object
  }

  lemma FreedStep(nodes: seq<Node>, names: seq<Name>, c: nat, i: nat, d: nat)
    requires c > 0 && |nodes| == |names| && Distinct(nodes) && i < c && d < |Chain(names, c, i)|
    ensures var node := nodes[Chain(names, c, i)[d]];
            && node !in FreedNodes(nodes, names, c, i, d)
            && FreedNodes(nodes, names, c, i, d + 1) == FreedNodes(nodes, names, c, i, d) + {node}
  {
    hide Home, Chain;
    var ids := Chain(names, c, i);
    ChainIncreasing(names, c, i);
    ChainMembers(names, c, i, ids[d]);
    assert ids[..d + 1] == ids[..d] + [ids[d]];
  }

  lemma FreedBucket(nodes: seq<Node>, names: seq<Name>, c: nat, i: nat)
    requires c > 0 && |nodes| == |names| && i < c
    ensures FreedNodes(nodes, names, c, i, |Chain(names, c, i)|) == FreedNodes(nodes, names, c, i + 1, 0)
  {
    hide Home, Chain;
    var ids := Chain(names, c, i);
    assert ids[..|ids|] == ids;
    if i + 1 < c {
      assert Chain(names, c, i + 1)[..0] == [];
    }
    forall id | 0 <= id < |nodes|
      ensures Home(names[id], c) < i || id in ids <==> Home(names[id], c) < i + 1
    {
      ChainMembers(names, c, i, id);
    }
  }

  /** The inner loop of `lw_deinit_logging`: frees the nodes of bucket `i`. `taken` is what was live at first. */
  method FreeChain(first: Node?, heap: Allocator, ghost i: nat, ghost taken: set<object>, ghost names: seq<Name>,
                   ghost nodes: seq<Node>, ghost heads: seq<Pointer>, ghost links: seq<Pointer>)
    requires HasLinks(nodes, links) && Distinct(nodes) && |names| == |nodes| && i < |heads|
    requires Linked(heads[i], Chain(names, |heads|, i), links) && first == Deref(nodes, heads[i])
    requires (set n: object | n in nodes) <= taken
    requires heap.live == taken - FreedNodes(nodes, names, |heads|, i, 0)
    modifies heap
    ensures heap.live == taken - FreedNodes(nodes, names, |heads|, i + 1, 0)
  {
    hide Home, Chain, FreedNodes, Distinct;
    ghost var c := |heads|;
    ghost var ids := Chain(names, c, i);
    ghost var d := 0;
    var p := first;
    while p != null
      invariant 0 <= d <= |ids| && p == Deref(nodes, At(ids, d))
      invariant heap.live == taken - FreedNodes(nodes, names, c, i, d)
      decreases |ids| - d
    {
      var del := p;
      p := p.next;
      FreedStep(nodes, names, c, i, d);
      heap.Free(del);
      d := d + 1;
    }
    FreedBucket(nodes, names, c, i);
  }

  /** The loops of `lw_deinit_logging` that free the nodes of a dynamic table. */
  method FreeNodes(bucket: array<Node?>, heap: Allocator, ghost names: seq<Name>,
                   ghost nodes: seq<Node>, ghost heads: seq<Pointer>, ghost links: seq<Pointer>)
    requires HasHeads(bucket, heads, nodes) && HasLinks(nodes, links)
    requires Distinct(nodes) && |names| == |nodes| && TableLinked(names, heads, links)
    requires (set n: object | n in nodes) <= heap.live
    modifies heap
    ensures heap.live == old(heap.live) - set n: object | n in nodes
  {
    hide Home, Chain, FreedNodes, HasLinks, Distinct, Linked;
    FreedNone(nodes, names, |heads|);
    for i := 0 to bucket.Length
      invariant heap.live == old(heap.live) - FreedNodes(nodes, names, |heads|, i, 0)
    {
      FreeChain(bucket[i], heap, i, old(heap.live), names, nodes, heads, links);
    }
    FreedAll(nodes, names, |heads|);
  }

  lemma FreedNone(nodes: seq<Node>, names: seq<Name>, c: nat)
    requires c > 0 && |nodes| == |names|
    ensures FreedNodes(nodes, names, c, 0, 0) == {}
  {
  }

  lemma FreedAll(nodes: seq<Node>, names: seq<Name>, c: nat)
    requires c > 0 && |nodes| == |names|
    ensures FreedNodes(nodes, names, c, c, 0) == set n: object | n in nodes
  {
  }

  /** The logger that a registry call leads to is the only one that can be new. */
  lemma NewLogger(s: State, call: Call, nodes: seq<Node>, p: Node?)
    requires Inv(s) && Inv(Step(s, call).0) && Asked(call).Some?
    requires Distinct(nodes) && |nodes| == |Step(s, call).0.names| && |s.names| <= |nodes|
    requires var (t, reply) := Step(s, call);
             if call.SetLoggerLevel?
             then p == if t.capacity > 0 then Deref(nodes, Lookup(t.names, t.capacity, Asked(call).value)) else null
             else (reply.Logger? ==> reply.id < |nodes|) && p == if reply.Logger? then nodes[reply.id] else null
    ensures nodes == if p != null && p !in nodes[..|s.names|] then nodes[..|s.names|] + [p] else nodes[..|s.names|]
  {
    hide Step, Lookup, Asked;
    var t := Step(s, call).0;
    StepHands(s, call);
    if t.capacity > 0 {
      LookupExact(t.names, t.capacity, Asked(call).value);
    }
    if |s.names| < |nodes| {
      assert t.names[|s.names|] == Asked(call).value;
      assert p == nodes[|s.names|];
    } else {
      assert nodes[..|s.names|] == nodes;
    }
  }

  class Manager {
    var globalLevel: int
    var isImmutable: bool
    var bucket: array?<Node?>
    var size: nat
    var capacity: nat
    var pool: array?<Node>
    var rootLogger: Node?
    var policy: Policy
    const loggerFn: nat

    const heap: Allocator
    ghost var s: State
    ghost var nodes: seq<Node>
    ghost var heads: seq<Pointer>
    ghost var links: seq<Pointer>

    /** The manager block just after its scalar fields are filled in. */
    constructor (loggerFn: nat, policy: Policy, channelCount: nat, lvl: int, heap: Allocator)
      ensures this.loggerFn == loggerFn && this.heap == heap
      ensures bucket == null && pool == null && nodes == [] && heads == links == []
      ensures s == Fresh(policy, channelCount, lvl) && ValidFields()
    {
      this.loggerFn, this.heap := loggerFn, heap;
      size, capacity, globalLevel, isImmutable := 0, channelCount, lvl, false;
      bucket, pool, rootLogger := null, null, null;
      this.policy := policy;
      s := Fresh(policy, channelCount, lvl);
      nodes, heads, links := [], [], [];
    }

    /** The blocks that belong to the manager. Pool nodes are part of the pool's block. */
    ghost function Owned(): set<object>
      reads this
    {
      {this} + (if bucket == null then {} else {bucket})
             + (if pool == null then set n: object | n in nodes else {pool})
    }

    ghost predicate ValidFields()
      reads this
    {
      && capacity == s.capacity && size == |s.names|
      && globalLevel == s.globalLevel && isImmutable == s.isImmutable
      && policy == s.policy
      && |nodes| == |s.names|
      && (s.root.Some? ==> s.root.value < |nodes|)
      && rootLogger == Deref(nodes, s.root)
    }

    /** The table on the heap is the one that the registered names prescribe. */
    ghost predicate ValidTable()
      reads this, bucket, nodes
    {
      && Inv(s) && Distinct(nodes)
      && bucket != null && HasHeads(bucket, heads, nodes) && HasLinks(nodes, links)
      && HasNames(nodes, s.names) && HasLevels(nodes, s.levels, loggerFn)
      && |heads| == bucket.Length == s.capacity
      && (s.capacity > 0 ==> TableLinked(s.names, heads, links))
    }

    /** Under the fixed policy the registered nodes are exactly the first `size` pool entries. */
    ghost predicate ValidPool()
      reads this, pool, if pool != null then pool[..] else []
    {
      && (policy == FixedSize <==> pool != null)
      && (pool != null ==>
        && pool.Length == capacity && size <= capacity
        && Distinct(pool[..])
        && nodes == pool[..size]
        && forall k :: 0 <= k < pool.Length ==> |pool[k].channel| == CHANNEL_LEN && pool[k].output == loggerFn)
    }

    ghost predicate Valid()
      reads this, bucket, nodes, pool, if pool != null then pool[..] else [], heap
    {
      ValidState() && Owned() <= heap.live
    }

    /** The pointer that stands for a reply. */
    ghost function Handed(reply: Reply): Node?
      reads this
      requires reply.Logger? ==> reply.id < |nodes|
    {
      if reply.Logger? then nodes[reply.id] else null
    }

    ghost predicate ValidState()
      reads this, bucket, nodes, pool, if pool != null then pool[..] else []
    {
      ValidFields() && ValidPool() && ValidTable()
    }

    /** Relinks every node into `newBucket` and makes it the bucket array. */
    method MoveInto(newBucket: array<Node?>)
      requires ValidState() && policy == DynamicSize && capacity > 0
      requires newBucket != bucket && newBucket.Length == 2 * capacity
      modifies this`bucket, this`capacity, this`s, this`heads, this`links, newBucket, (set n | n in nodes)`next
      ensures ValidState() && s == Doubled(old(s)) && bucket == newBucket
    {
      hide Chain, Home, Lookup, Linked, TableLinked, HasHeads, HasLinks, HasNames, HasLevels, Carries, Distinct;
      var moves: nat;
      moves, heads, links := Rehash(bucket, newBucket, s.names, nodes, heads, links);
      capacity := newBucket.Length;
      bucket := newBucket;
      s := s.(capacity := newBucket.Length, doublings := s.doublings + 1, moves := s.moves + moves);
    }

    /** The resize: a bucket array twice as long, every node relinked into it, the old array freed. */
    method Grow()
      requires Valid() && policy == DynamicSize && capacity > 0
      modifies this`bucket, this`capacity, this`s, this`heads, this`links, heap, (set n | n in nodes)`next
      ensures Valid() && s == Doubled(old(s)) && fresh(bucket)
      ensures heap.live - Owned() == old(heap.live - Owned())
    {
      hide Chain, Home, Lookup, Linked, TableLinked, HasHeads, HasLinks, HasNames, HasLevels, Carries, Distinct;
      var oldBucket, newBucket := bucket, new Node?[capacity * 2];
      heap.Malloc(newBucket);
      MoveInto(newBucket);
      heap.Free(oldBucket);
    }

    /** Links `node` where the probe of the name ended, counts it, and fills it in. */
    method Register(node: Node, place: Place, channel: Name, length: nat)
      requires ValidFields() && ValidTable() && size < capacity
      requires length <= |channel| && channel[..length] == Truncate(channel) && Truncate(channel) !in s.names
      requires node !in nodes && |node.channel| == CHANNEL_LEN
      requires policy == FixedSize ==> node.output == loggerFn
      requires var j := Home(Truncate(channel), capacity);
               var ids := Chain(s.names, capacity, j);
               Denotes(place, SlotAt(ids, j, |ids|), nodes)
      modifies this`size, this`s, this`nodes, this`heads, this`links, bucket, node, (set n | n in nodes)`next
      ensures ValidFields() && ValidTable()
      ensures s == Registered(old(s), Truncate(channel)) && nodes == old(nodes) + [node]
      ensures node.output == loggerFn && |node.channel| == CHANNEL_LEN
    {
      hide Chain, Home, Lookup, Linked, TableLinked, HasHeads, HasLinks, HasNames, HasLevels, Carries, Distinct;
      heads, links := LinkAndFill(bucket, place, node, channel, length, loggerFn, policy == DynamicSize,
                                  s.names, s.levels, nodes, heads, links);
      size := size + 1;
      DistinctAppend(s.names, Truncate(channel));
      nodes := nodes + [node];
      s := Registered(s, Truncate(channel));
    }

    /** The lookup of a request: the node of its name, or the place where its chain ends. */
    method Find(channel: Name, length: nat, hash: nat) returns (hit: Node?, place: Place)
      requires ValidFields() && ValidTable() && capacity > 0
      requires length <= |channel| && channel[..length] == Truncate(channel) && hash == HashOf(Truncate(channel))
      ensures hit == Deref(nodes, Lookup(s.names, capacity, Truncate(channel)))
      ensures hit == null ==>
                var j := Home(Truncate(channel), capacity);
                var ids := Chain(s.names, capacity, j);
                Denotes(place, SlotAt(ids, j, |ids|), nodes)
    {
      hide Chain, FindOn, Linked, HasHeads, HasLinks, HasNames, HasLevels, Distinct;
      var i := hash % capacity;
      hit, place := Probe(bucket, i, channel, length, s.names, Chain(s.names, capacity, i), nodes, heads, links);
    }

    /** Allocates a node for a name that is not registered, and registers it. */
    method Create(place: Place, channel: Name, length: nat) returns (node: Node)
      requires Valid() && policy == DynamicSize && size < capacity
      requires length <= |channel| && channel[..length] == Truncate(channel) && Truncate(channel) !in s.names
      requires var j := Home(Truncate(channel), capacity);
               var ids := Chain(s.names, capacity, j);
               Denotes(place, SlotAt(ids, j, |ids|), nodes)
      modifies this`size, this`s, this`nodes, this`heads, this`links, bucket, heap, (set n | n in nodes)`next
      ensures Valid() && s == Registered(old(s), Truncate(channel)) && nodes == old(nodes) + [node]
      ensures fresh(node) && heap.live - Owned() == old(heap.live - Owned())
    {
      hide Chain, Home, Lookup, Linked, TableLinked, HasHeads, HasLinks, HasNames, HasLevels, Carries, Distinct,
           Truncate;
      node := new Node();
      heap.Malloc(node);
      Register(node, place, channel, length);
    }

    /** The section of `_get_logger_dynamic_size` under the write lock, and the retry after a resize. */
    method WriteDynamic(channel: Name, length: nat, hash: nat, mem: Memory) returns (p: Node?, ghost reply: Reply)
      requires Valid() && policy == DynamicSize
      requires length <= |channel| && channel[..length] == Truncate(channel)
      requires capacity > 0 && hash == HashOf(Truncate(channel))
      modifies this, bucket, heap, (set n | n in nodes)`next
      ensures Valid() && (s, reply) == Get(old(s), channel, mem)
      ensures (reply.Logger? ==> reply.id < |nodes|) && p == Handed(reply)
      ensures old(nodes) <= nodes && forall n :: n in nodes && n !in old(nodes) ==> fresh(n)
      ensures bucket == old(bucket) || fresh(bucket)
      ensures pool == null && heap.live - Owned() == old(heap.live - Owned())
      decreases if 0 < capacity <= size then 1 else 0, 0
    {
      hide Chain, Home, Lookup, Linked, TableLinked, HasHeads, HasLinks, HasNames, HasLevels, Carries, Distinct,
           HashOf, Truncate;
      var hit, place := Find(channel, length, hash);
      if hit != null {
        return hit, Logger(Lookup(s.names, capacity, Truncate(channel)).value);
      }
      if size >= capacity {
        if !mem.bucketsOk {
          return null, Null;
        }
        Grow();
        var trapped;
        p, trapped, reply := GetDynamic(channel, mem);
        return;
      }
      if !mem.nodeOk {
        return null, Null;
      }
      LookupExact(s.names, capacity, Truncate(channel));
      p := Create(place, channel, length);
      return p, Logger(size - 1);
    }

    /** `_get_logger_dynamic_size`. `trapped` says that the call ends in a remainder by a zero capacity. */
    method GetDynamic(channel: Name, mem: Memory) returns (p: Node?, trapped: bool, ghost reply: Reply)
      requires Valid() && policy == DynamicSize
      modifies this, bucket, heap, (set n | n in nodes)`next
      ensures Valid() && (s, reply) == Get(old(s), channel, mem)
      ensures (reply.Logger? ==> reply.id < |nodes|) && p == Handed(reply) && (trapped <==> reply == DivisionByZero)
      ensures old(nodes) <= nodes && forall n :: n in nodes && n !in old(nodes) ==> fresh(n)
      ensures bucket == old(bucket) || fresh(bucket)
      ensures pool == null && heap.live - Owned() == old(heap.live - Owned())
      decreases if 0 < capacity <= size then 1 else 0, 1
    {
      hide Chain, Home, Lookup, Linked, TableLinked, HasHeads, HasLinks, HasNames, HasLevels, Carries, Distinct,
           HashOf, Truncate;
      var length, hash := KeyOf(channel);
      if capacity == 0 {
        return null, true, DivisionByZero;
      }
      var hit, _ := Find(channel, length, hash);
      if hit != null {
        return hit, false, Logger(Lookup(s.names, capacity, Truncate(channel)).value);
      }
      p, reply := WriteDynamic(channel, length, hash, mem);
      trapped := false;
    }

    /** Takes the next pool entry for a name that is not registered, and registers it. */
    method TakeFromPool(place: Place, channel: Name, length: nat) returns (node: Node)
      requires ValidState() && policy == FixedSize && size < capacity
      requires length <= |channel| && channel[..length] == Truncate(channel) && Truncate(channel) !in s.names
      requires var j := Home(Truncate(channel), capacity);
               var ids := Chain(s.names, capacity, j);
               Denotes(place, SlotAt(ids, j, |ids|), nodes)
      modifies this`size, this`s, this`nodes, this`heads, this`links, bucket, pool[..]
      ensures ValidState() && s == Registered(old(s), Truncate(channel)) && nodes == old(nodes) + [node]
    {
      hide Chain, Home, Lookup, Linked, TableLinked, HasHeads, HasLinks, HasNames, HasLevels, Carries, Truncate;
      node := pool[size];
      Register(node, place, channel, length);
    }

    /** The section of `_get_logger_fixed_size` under the write lock. */
    method WriteFixed(channel: Name, length: nat, hash: nat, ghost mem: Memory) returns (p: Node?, ghost reply: Reply)
      requires Valid() && policy == FixedSize
      requires length <= |channel| && channel[..length] == Truncate(channel)
      requires capacity > 0 && hash == HashOf(Truncate(channel))
      modifies this`size, this`s, this`nodes, this`heads, this`links, bucket, pool[..]
      ensures Valid() && (s, reply) == Get(old(s), channel, mem)
      ensures (reply.Logger? ==> reply.id < |nodes|) && p == Handed(reply)
      ensures old(nodes) <= nodes && heap.live - Owned() == old(heap.live - Owned())
    {
      hide Chain, Home, Lookup, Linked, TableLinked, HasHeads, HasLinks, HasNames, HasLevels, Carries, Distinct,
           HashOf, Truncate;
      var hit, place := Find(channel, length, hash);
      if hit != null {
        return hit, Logger(Lookup(s.names, capacity, Truncate(channel)).value);
      }
      if size >= capacity {
        return null, Null;
      }
      if pool == null {
        return null, Null;
      }
      LookupExact(s.names, capacity, Truncate(channel));
      p := TakeFromPool(place, channel, length);
      return p, Logger(size - 1);
    }

    /** `_get_logger_fixed_size`. */
    method GetFixed(channel: Name, ghost mem: Memory) returns (p: Node?, trapped: bool, ghost reply: Reply)
      requires Valid() && policy == FixedSize
      modifies this`size, this`s, this`nodes, this`heads, this`links, bucket, pool[..]
      ensures Valid() && (s, reply) == Get(old(s), channel, mem)
      ensures (reply.Logger? ==> reply.id < |nodes|) && p == Handed(reply) && (trapped <==> reply == DivisionByZero)
      ensures old(nodes) <= nodes && heap.live - Owned() == old(heap.live - Owned())
    {
      hide Chain, Home, Lookup, Linked, TableLinked, HasHeads, HasLinks, HasNames, HasLevels, Carries, Distinct,
           HashOf, Truncate;
      var length, hash := KeyOf(channel);
      if capacity == 0 {
        return null, true, DivisionByZero;
      }
      var hit, _ := Find(channel, length, hash);
      if hit != null {
        return hit, false, Logger(Lookup(s.names, capacity, Truncate(channel)).value);
      }
      p, reply := WriteFixed(channel, length, hash, mem);
      trapped := false;
    }

    /** The nodes whose fields a registry call may write. */
    ghost function NodeObjects(): set<Node>
      reads this, pool
    {
      (set n | n in nodes) + if pool == null then {} else set n | n in pool[..]
    }

    /** `lw_get_logger`: the policy selects the function. */
    method GetLogger(channel: Name, mem: Memory) returns (p: Node?, trapped: bool, ghost reply: Reply)
      requires Valid()
      modifies this, bucket, heap, NodeObjects()
      ensures Valid() && (s, reply) == Get(old(s), channel, mem)
      ensures (reply.Logger? ==> reply.id < |nodes|) && p == Handed(reply) && (trapped <==> reply == DivisionByZero)
      ensures old(nodes) <= nodes && forall n :: n in NodeObjects() && n !in old(NodeObjects()) ==> fresh(n)
      ensures (bucket == old(bucket) || fresh(bucket)) && pool == old(pool)
      ensures heap.live - Owned() == old(heap.live - Owned())
    {
      hide Get, ValidTable, Distinct;
      if policy == DynamicSize {
        p, trapped, reply := GetDynamic(channel, mem);
      } else {
        p, trapped, reply := GetFixed(channel, mem);
      }
    }

    /** Remembers the root logger. */
    method KeepRoot(p: Node?, ghost reply: Reply)
      requires Valid() && (reply.Logger? ==> reply.id < |nodes|) && p == Handed(reply)
      modifies this`rootLogger, this`s
      ensures Valid() && Owned() == old(Owned())
      ensures s == old(s).(root := if reply.Logger? then Some(reply.id) else None)
    {
      hide Chain, Home, Lookup, Linked, TableLinked, HasHeads, HasLinks, HasNames, HasLevels, Carries, Distinct;
      rootLogger := p;
      s := s.(root := if reply.Logger? then Some(reply.id) else None);
    }

    /** Writes the level of a registered node. */
    method SetLevel(p: Node, lvl: int, ghost id: nat)
      requires Valid() && id < |nodes| && p == nodes[id]
      modifies this`s, p`level
      ensures Valid() && s == WithLevel(old(s), Logger(id), lvl)
    {
      hide Chain, Home, Lookup, Linked, TableLinked, HasHeads, HasLinks, HasNames, Carries;
      p.level := lvl;
      s := s.(levels := s.levels[id := lvl]);
    }

    /** `lw_get_logger_dfl`: the level is written without a range check. */
    method GetLoggerDfl(channel: Name, lvl: int, mem: Memory) returns (p: Node?, trapped: bool, ghost reply: Reply)
      requires Valid()
      modifies this, bucket, heap, NodeObjects()
      ensures Valid() && (s, reply) == Step(old(s), Call.GetLoggerDfl(channel, lvl, mem))
      ensures (reply.Logger? ==> reply.id < |nodes|) && p == Handed(reply) && (trapped <==> reply == DivisionByZero)
      ensures old(nodes) <= nodes && forall n :: n in NodeObjects() && n !in old(NodeObjects()) ==> fresh(n)
      ensures (bucket == old(bucket) || fresh(bucket)) && pool == old(pool)
      ensures heap.live - Owned() == old(heap.live - Owned())
    {
      hide Get, ValidTable, ValidPool, ValidFields;
      p, trapped, reply := GetLogger(channel, mem);
      if p != null {
        SetLevel(p, lvl, reply.id);
      }
    }

    /** `lw_set_logger_level`: the channel is created first, the range is checked afterwards. */
    method SetLoggerLevel(channel: Name, lvl: int, mem: Memory) returns (trapped: bool, ghost reply: Reply)
      requires Valid()
      modifies this, bucket, heap, NodeObjects()
      ensures Valid() && (s, reply) == Step(old(s), Call.SetLoggerLevel(channel, lvl, mem))
      ensures trapped <==> reply == DivisionByZero
      ensures old(nodes) <= nodes && forall n :: n in NodeObjects() && n !in old(NodeObjects()) ==> fresh(n)
      ensures (bucket == old(bucket) || fresh(bucket)) && pool == old(pool)
      ensures heap.live - Owned() == old(heap.live - Owned())
    {
      hide Get, ValidTable, ValidPool, ValidFields;
      var p: Node?;
      p, trapped, reply := GetLogger(channel, mem);
      if p != null {
        if lvl < LVL_EMERG || lvl > LVL_TRACE {
          return;
        }
        SetLevel(p, lvl, reply.id);
      }
    }

    /** `lw_set_global_level`. */
    method SetGlobalLevel(lvl: int)
      requires Valid()
      modifies this`globalLevel, this`s
      ensures Valid() && s == Step(old(s), Call.SetGlobalLevel(lvl)).0
    {
      hide Chain, Home, Lookup, Linked, TableLinked, HasHeads, HasLinks, HasNames, HasLevels, Carries, Distinct;
      if !isImmutable {
        if lvl < LVL_EMERG || lvl > LVL_TRACE {
          return;
        }
        globalLevel := lvl;
        s := s.(globalLevel := lvl);
      }
    }

    /** `lw_set_immutable_global_level`. */
    method SetImmutableGlobalLevel(lvl: int)
      requires Valid()
      modifies this`globalLevel, this`isImmutable, this`s
      ensures Valid() && s == Step(old(s), Call.SetImmutableGlobalLevel(lvl)).0
    {
      hide Chain, Home, Lookup, Linked, TableLinked, HasHeads, HasLinks, HasNames, HasLevels, Carries, Distinct;
      if !isImmutable {
        SetGlobalLevel(lvl);
        isImmutable := true;
        s := s.(isImmutable := true);
      }
    }

    /** `lw_can_log`. */
    method CanLogGlobally(lvl: int) returns (r: bool)
      requires Valid()
      ensures r <==> CanLog(s, lvl)
    {
      if lvl < 0 || lvl > LVL_TRACE {
        return false;
      }
      return globalLevel >= lvl;
    }

    /** `lw_can_channel_log`. */
    method CanLogOnChannel(p: Node?, lvl: int, ghost logger: Option<nat>) returns (r: bool)
      requires Valid() && (logger.Some? ==> logger.value < |nodes|) && p == Deref(nodes, logger)
      ensures r <==> CanChannelLog(s, logger, lvl)
    {
      if p == null {
        return false;
      }
      if lvl < 0 || lvl > LVL_TRACE {
        return false;
      }
      return p.level >= lvl;
    }

    /** The backend receives a line. */
    ghost method Emit(line: Line)
      requires Valid()
      modifies this`s
      ensures Valid() && s == old(s).(output := old(s.output) + [line])
    {
      s := s.(output := s.output + [line]);
    }

    /** The `_LOGF` macro: global filter, channel filter, output. */
    method LogLine(p: Node?, lvl: int, text: nat, ghost logger: Option<nat>) returns (emitted: bool)
      requires Valid() && (logger.Some? ==> logger.value < |nodes|) && p == Deref(nodes, logger)
      modifies this`s
      ensures Valid() && s == Step(old(s), Log(logger, lvl, text)).0
      ensures emitted <==> s.output != old(s.output)
    {
      hide Chain, Home, Lookup, Linked, TableLinked, HasHeads, HasLinks, HasNames, HasLevels, Carries, Distinct;
      emitted := CanLogGlobally(lvl);
      if emitted {
        emitted := CanLogOnChannel(p, lvl, logger);
      }
      if emitted {
        Emit(Line(logger.value, lvl, text));
      }
    }

    /** The logger of a channel, if it is registered: what a request would find, without making one. */
    method FindLogger(channel: Name) returns (p: Node?)
      requires Valid()
      ensures p == if capacity > 0 then Deref(nodes, Lookup(s.names, s.capacity, Truncate(channel))) else null
    {
      hide Chain, FindOn, Linked, HasHeads, HasLinks, HasNames, HasLevels, Distinct, Truncate, HashOf;
      if capacity == 0 {
        return null;
      }
      var length, hash := KeyOf(channel);
      var hit, _ := Find(channel, length, hash);
      p := hit;
    }

    /** One registry call of a program that holds the loggers `known`, numbered as they were registered. */
    method Request(call: Call, known: seq<Node>) returns (handles: seq<Node>, trapped: bool, ghost reply: Reply)
      requires Valid() && known == nodes && Asked(call).Some?
      modifies this, bucket, heap, NodeObjects()
      ensures Valid() && (s, reply) == Step(old(s), call) && (trapped <==> reply == DivisionByZero)
      ensures handles == nodes && old(nodes) <= nodes
      ensures forall n :: n in NodeObjects() && n !in old(NodeObjects()) ==> fresh(n)
      ensures (bucket == old(bucket) || fresh(bucket)) && pool == old(pool)
      ensures heap.live - Owned() == old(heap.live - Owned())
    {
      hide Get, Truncate, Lookup, Chain, Home, Linked, TableLinked, HasHeads, HasLinks, HasNames, HasLevels, Carries;
      ghost var before := s;
      var p: Node?;
      match call {
        case GetLogger(channel, mem) => p, trapped, reply := GetLogger(channel, mem);
        case GetLoggerDfl(channel, lvl, mem) => p, trapped, reply := GetLoggerDfl(channel, lvl, mem);
        case SetLoggerLevel(channel, lvl, mem) =>
          trapped, reply := SetLoggerLevel(channel, lvl, mem);
          p := FindLogger(channel);
      }
      NewLogger(before, call, nodes, p);
      handles := if p != null && p !in known then known + [p] else known;
    }

    /** One public call of such a program. A message to no logger of the program goes to a null logger. */
    method Perform(call: Call, known: seq<Node>) returns (handles: seq<Node>, trapped: bool, ghost reply: Reply)
      requires Valid() && known == nodes
      modifies this, bucket, heap, NodeObjects()
      ensures Valid() && (s, reply) == Step(old(s), call) && (trapped <==> reply == DivisionByZero)
      ensures handles == nodes && old(nodes) <= nodes
      ensures forall n :: n in NodeObjects() && n !in old(NodeObjects()) ==> fresh(n)
      ensures (bucket == old(bucket) || fresh(bucket)) && pool == old(pool)
      ensures heap.live - Owned() == old(heap.live - Owned())
    {
      hide Get, Truncate, Lookup, Chain, Home, Linked, TableLinked, HasHeads, HasLinks, HasNames, HasLevels, Carries;
      handles, trapped, reply := known, false, Null;
      match call {
        case SetGlobalLevel(lvl) => SetGlobalLevel(lvl);
        case SetImmutableGlobalLevel(lvl) => SetImmutableGlobalLevel(lvl);
        case Log(logger, lvl, text) =>
          var held := logger.Some? && logger.value < |known|;
          var _ := LogLine(if held then known[logger.value] else null, lvl, text, if held then logger else None);
        case _ => handles, trapped, reply := Request(call, known);
      }
    }

    /**
     Any sequence of public calls, messages included, up to the first that divides by zero and with it ends
     the program. `made` counts the calls made.
     */
    method Replay(calls: seq<Call>, known: seq<Node>)
      returns (made: nat, handles: seq<Node>, trapped: bool, ghost replies: seq<Reply>)
      requires Valid() && known == nodes
      modifies this, bucket, heap, NodeObjects()
      ensures Valid() && made <= |calls| && (s, replies) == Run(old(s), calls[..made]) && |replies| == made
      ensures trapped ==>
                made > 0 && replies[made - 1] == DivisionByZero && DivisionByZero !in replies[..made - 1]
      ensures !trapped ==> made == |calls| && DivisionByZero !in replies
      ensures handles == nodes && old(nodes) <= nodes && heap.live - Owned() == old(heap.live - Owned())
    {
      hide Get, Valid, Inv, Step;
      made, handles, trapped, replies := 0, known, false, [];
      while made < |calls| && !trapped
        invariant Valid() && made <= |calls| && (s, replies) == Run(old(s), calls[..made]) && |replies| == made
        invariant trapped ==>
                    made > 0 && replies[made - 1] == DivisionByZero && DivisionByZero !in replies[..made - 1]
        invariant !trapped ==> DivisionByZero !in replies
        invariant handles == nodes && old(nodes) <= nodes && heap.live - Owned() == old(heap.live - Owned())
        invariant bucket == old(bucket) || fresh(bucket)
        invariant forall n :: n in NodeObjects() && n !in old(NodeObjects()) ==> fresh(n)
        decreases |calls| - made
      {
        ghost var reply: Reply;
        handles, trapped, reply := Perform(calls[made], handles);
        RunSnoc(old(s), calls[..made], calls[made]);
        assert calls[..made + 1] == calls[..made] + [calls[made]];
        assert (replies + [reply])[..made] == replies;
        replies := replies + [reply];
        made := made + 1;
      }
      assert calls[..|calls|] == calls;
    }

    /** What the code relies on when it frees a manager, complete or abandoned by a failed init. */
    ghost predicate Disposable()
      reads this, bucket, nodes, heap
    {
      && Owned() <= heap.live
      && |nodes| == |s.names| && capacity == s.capacity
      && (bucket == null ==> pool == null && nodes == [])
      && (bucket != null && pool == null ==> ValidTable())
    }

    /** `lw_deinit_logging`, from the lock's destruction on: every block of the manager is freed once. */
    method Dispose()
      requires Disposable()
      modifies heap
      ensures heap.live == old(heap.live) - Owned()
    {
      hide Chain, Home, Linked, TableLinked, HasHeads, HasLinks, HasNames, HasLevels, Carries, Distinct;
      if bucket != null && pool == null && capacity > 0 {
        FreeNodes(bucket, heap, s.names, nodes, heads, links);
      }
      if pool != null {
        heap.Free(pool);
      }
      if bucket != null {
        heap.Free(bucket);
      }
      heap.Free(this);
    }
  }

  /** The pool: `count` nodes in one block, each with its output function and no successor. */
  method NewPool(count: nat, output: nat) returns (pool: array<Node>)
    ensures pool.Length == count && Distinct(pool[..]) && fresh(pool)
    ensures forall k :: 0 <= k < count ==>
            fresh(pool[k]) && |pool[k].channel| == CHANNEL_LEN && pool[k].output == output
  {
    var block: seq<Node> := [];
    for i := 0 to count
      invariant |block| == i && Distinct(block)
      invariant forall k :: 0 <= k < i ==> fresh(block[k])
      invariant forall k :: 0 <= k < i ==> |block[k].channel| == CHANNEL_LEN && block[k].output == output
    {
      var node := new Node();
      node.output := output;
      node.next := null;
      block := block + [node];
    }
    pool := new Node[count](i requires 0 <= i < |block| => block[i]);
    assert pool[..] == block;
  }

  lemma EmptyTable(heads: seq<Pointer>)
    requires |heads| > 0 && forall j :: 0 <= j < |heads| ==> heads[j] == None
    ensures TableLinked([], heads, [])
  {
  }

  /** Allocates the bucket array of a new manager. */
  method InstallBuckets(m: Manager)
    requires m.ValidFields() && m.bucket == null && m.pool == null && m.nodes == [] && m.links == []
    requires m.s.names == [] && m.s.levels == [] && m.s.root == None
    modifies m`bucket, m`heads, m.heap
    ensures m.ValidFields() && m.ValidTable() && fresh(m.bucket)
    ensures m.heap.live == old(m.heap.live) + {m.bucket}
  {
    var bucket := new Node?[m.capacity];
    m.heap.Malloc(bucket);
    for i := 0 to m.capacity
      modifies bucket
      invariant forall k :: 0 <= k < i ==> bucket[k] == null
    {
      bucket[i] := null;
    }
    m.bucket := bucket;
    m.heads := seq(m.capacity, _ => None);
    if m.capacity > 0 {
      EmptyTable(m.heads);
    }
  }

  /** Allocates the pool of a new manager. */
  method InstallPool(m: Manager)
    requires m.ValidFields() && m.ValidTable() && m.pool == null && m.nodes == [] && m.policy == FixedSize
    modifies m`pool, m.heap
    ensures m.ValidState() && fresh(m.pool) && forall k :: 0 <= k < m.pool.Length ==> fresh(m.pool[k])
    ensures m.heap.live == old(m.heap.live) + {m.pool}
  {
    hide Chain, Home, Linked, TableLinked, HasHeads, HasLinks, HasNames, HasLevels, Carries, Distinct;
    var pool := NewPool(m.capacity, m.loggerFn);
    m.heap.Malloc(pool);
    m.pool := pool;
  }

  /** Requests the root channel and keeps what the request gave. */
  method RequestRoot(m: Manager, root: Name, mem: Memory) returns (trapped: bool)
    requires m.Valid() && m.s.names == [] && m.heap.live == m.Owned()
    modifies m, m.bucket, m.heap, m.NodeObjects()
    ensures m.Valid() && m.heap.live == m.Owned() && (trapped <==> old(m.s.capacity) == 0)
    ensures var (t, reply) := Get(old(m.s), root, mem);
            m.s == t.(root := if reply.Logger? then Some(reply.id) else None)
    ensures fresh(m.bucket) || m.bucket == old(m.bucket)
    ensures forall n :: n in m.NodeObjects() && n !in old(m.NodeObjects()) ==> fresh(n)
  {
    hide Chain, Home, Linked, TableLinked, HasHeads, HasLinks, HasNames, HasLevels, Carries, Distinct;
    var p: Node?;
    ghost var reply: Reply;
    p, trapped, reply := m.GetLogger(root, mem);
    assert m.heap.live - m.Owned() == {} && m.Owned() <= m.heap.live;
    assert m.heap.live == m.Owned();
    m.KeepRoot(p, reply);
  }

  /** Which of the allocations of `lw_init_logging` succeed. */
  datatype InitMemory = InitMemory(managerOk: bool, lockOk: bool, bucketsOk: bool, poolOk: bool, root: Memory)

  /** The root logger is the only logger of a new manager. */
  lemma FirstLogger(policy: Policy, channelCount: nat, lvl: int, root: Option<Name>, mem: Memory)
    ensures var s := Initial(policy, channelCount, lvl, root, mem);
            |s.names| == (if s.root.Some? then 1 else 0) && (s.root.Some? ==> s.root.value == 0)
  {
    hide Get, Truncate;
    RegistryRuns.GetHands(Fresh(policy, channelCount, lvl), if root.Some? then root.value else [], mem);
    RegistryRuns.InitialKeepsInv(policy, channelCount, lvl, root, mem);
  }

  lemma RunOfNone(s: State, calls: seq<Call>)
    ensures Run(s, calls[..0]) == (s, [])
  {
  }

  /** Only a manager without buckets divides by zero. */
  lemma TrapsWithoutBuckets(policy: Policy, channelCount: nat, lvl: int, root: Option<Name>, mem: Memory,
                            calls: seq<Call>, made: nat)
    requires 0 < made <= |calls|
    requires var replies := Run(Initial(policy, channelCount, lvl, root, mem), calls[..made]).1;
             |replies| == made && replies[made - 1] == DivisionByZero
    ensures channelCount == 0
  {
    hide Get, Truncate, Initial, Run;
    var s := Initial(policy, channelCount, lvl, root, mem);
    InitialKeepsInv(policy, channelCount, lvl, root, mem);
    var before := Run(s, calls[..made - 1]).0;
    assert calls[..made] == calls[..made - 1] + [calls[made - 1]];
    RunSnoc(s, calls[..made - 1], calls[made - 1]);
    if channelCount > 0 {
      RunAccounts(s, calls[..made - 1], channelCount);
      RunKeepsInv(s, calls[..made - 1]);
      Pow2Positive(before.doublings);
      StepTraps(before, calls[made - 1]);
      Positive(channelCount, Pow2(before.doublings));
    }
  }

  lemma Pow2Positive(k: nat)
    ensures Pow2(k) > 0
  {
  }

  lemma Positive(a: nat, b: nat)
    requires a > 0 && b > 0
    ensures a * b > 0
  {
  }

  lemma StepTraps(s: State, call: Call)
    requires Inv(s) && s.capacity > 0
    ensures Step(s, call).1 != DivisionByZero
  {
    hide Get, Truncate;
    match call
    case GetLogger(channel, mem) => GetOutcome(s, channel, mem);
    case GetLoggerDfl(channel, _, mem) => GetOutcome(s, channel, mem);
    case SetLoggerLevel(channel, _, mem) => GetOutcome(s, channel, mem);
    case _ =>
  }

  /** The process-wide state: the one manager, and everything the library has allocated. */
  class Library {
    var manager: Manager?
    const heap: Allocator

    constructor ()
      ensures Valid() && manager == null
    {
      manager := null;
      heap := new Allocator();
    }

    ghost predicate Valid()
      reads this, heap, manager
      reads if manager == null then {} else {manager.bucket, manager.pool, manager.heap}
      reads if manager == null then {} else set n: object | n in manager.nodes
      reads if manager == null || manager.pool == null then {} else set n: object | n in manager.pool[..]
    {
      if manager == null then heap.live == {}
      else manager.heap == heap && manager.Valid() && heap.live == manager.Owned()
    }

    /** `lw_deinit_logging`. */
    method DeinitLogging() returns (r: bool)
      requires manager == null ==> heap.live == {}
      requires manager != null ==> manager.heap == heap && manager.Disposable() && heap.live == manager.Owned()
      modifies this, heap
      ensures r && manager == null && heap.live == {} && Valid()
    {
      if manager == null {
        return true;
      }
      manager.Dispose();
      manager := null;
      return true;
    }

    /** `lw_init_logging` up to the root channel: every failed allocation gives back what was taken. */
    method Allocate(loggerFn: nat, policy: Policy, channelCount: nat, lvl: int, mem: InitMemory) returns (ok: bool)
      requires Valid() && manager == null
      modifies this, heap
      ensures Valid()
      ensures ok <==> mem.managerOk && mem.lockOk && mem.bucketsOk &&
                      (policy == FixedSize ==> channelCount > 0 && mem.poolOk)
      ensures ok ==> manager != null && fresh(manager) && manager.loggerFn == loggerFn
      ensures ok ==> manager.s == Fresh(policy, channelCount, lvl)
      ensures ok ==> fresh(manager.bucket) && fresh(manager.NodeObjects())
      ensures !ok ==> manager == null && heap.live == {}
    {
      hide Chain, Home, Linked, TableLinked, HasHeads, HasLinks, HasNames, HasLevels, Carries, Distinct;
      ok := false;
      if policy == FixedSize && channelCount == 0 {
        return;
      }
      if !mem.managerOk {
        return;
      }
      var m := new Manager(loggerFn, policy, channelCount, lvl, heap);
      heap.Malloc(m);
      if !mem.lockOk {
        heap.Free(m);
        return;
      }
      manager := m;
      if !mem.bucketsOk {
        var _ := DeinitLogging();
        return;
      }
      InstallBuckets(m);
      if policy == FixedSize {
        if !mem.poolOk {
          var _ := DeinitLogging();
          return;
        }
        InstallPool(m);
      }
      ok := true;
    }

    /** `lw_init_logging`. `trapped` says that the root lookup ends in a remainder by a zero capacity. */
    method InitLogging(loggerFn: nat, policy: Policy, channelCount: nat, lvl: int, root: Option<Name>, mem: InitMemory)
      returns (ok: bool, trapped: bool)
      requires Valid() && manager == null
      modifies this, heap
      ensures Valid()
      ensures ok <==> mem.managerOk && mem.lockOk && mem.bucketsOk &&
                      (policy == FixedSize ==> channelCount > 0 && mem.poolOk)
      ensures ok ==> manager != null && fresh(manager) && manager.loggerFn == loggerFn
      ensures ok ==> manager.s == Initial(policy, channelCount, lvl, root, mem.root)
      ensures ok ==> fresh(manager.bucket) && fresh(manager.NodeObjects())
      ensures !ok ==> manager == null && heap.live == {}
      ensures trapped <==> ok && root.Some? && channelCount == 0
    {
      ok := Allocate(loggerFn, policy, channelCount, lvl, mem);
      trapped := false;
      if ok && root.Some? {
        trapped := RequestRoot(manager, root.value, mem.root);
      }
    }

    /**
     A whole life of the library: init, any calls, deinit. `last` is the state just before the deinit. A
     division by zero, in the init or in a call, ends the program before the deinit.
     */
    method Session(loggerFn: nat, policy: Policy, channelCount: nat, lvl: int, root: Option<Name>, mem: InitMemory,
                   calls: seq<Call>)
      returns (ok: bool, trapped: bool, made: nat, ghost last: State, ghost replies: seq<Reply>)
      requires Valid() && manager == null
      modifies this, heap
      ensures ok <==> mem.managerOk && mem.lockOk && mem.bucketsOk &&
                      (policy == FixedSize ==> channelCount > 0 && mem.poolOk)
      ensures ok ==>
                && made <= |calls| && |replies| == made
                && (last, replies) == Run(Initial(policy, channelCount, lvl, root, mem.root), calls[..made])
                && (!trapped ==> made == |calls| && DivisionByZero !in replies)
      ensures policy == FixedSize ==> !trapped && (ok ==> channelCount > 0)
      ensures trapped ==> ok && channelCount == 0 && (root.Some? || (made > 0 && replies[made - 1] == DivisionByZero))
      ensures !trapped ==> Valid() && manager == null && heap.live == {}
    {
      hide Initial, Run;
      ok, trapped := InitLogging(loggerFn, policy, channelCount, lvl, root, mem);
      made, last, replies := 0, Initial(policy, channelCount, lvl, root, mem.root), [];
      RunOfNone(last, calls);
      if !ok || trapped {
        return;
      }
      var known := if manager.rootLogger == null then [] else [manager.rootLogger];
      FirstLogger(policy, channelCount, lvl, root, mem.root);
      made, known, trapped, replies := manager.Replay(calls, known);
      last := manager.s;
      if trapped {
        TrapsWithoutBuckets(policy, channelCount, lvl, root, mem.root, calls, made);
        return;
      }
      assert manager.heap.live - manager.Owned() == {} && manager.Owned() <= manager.heap.live;
      var _ := DeinitLogging();
    }
  }
}
