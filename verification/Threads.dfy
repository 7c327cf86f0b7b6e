/**
 Get-or-create under interleaving: the steps, and the invariant that every schedule keeps. Any number
 of threads run `_get_logger_dynamic_size` or `_get_logger_fixed_size`: a read section that follows the
 links node by node, a gap without lock, a write section with the double check, a resize that relinks
 node by node and one store at a time, a restart, and the read of `*p_node` after the write lock is
 released. A schedule is any sequence of actions; an action that its thread cannot take does nothing.
 */
module Threads {
  import opened Names
  import opened Layout
  import opened Links
  import opened Options
  import Registry
  import RegistryRuns

  type Tid = nat

  /**
   The memory that the lock protects: the bucket array, the link fields and the stored names by id.
   `generation` numbers the bucket array in use: a resize frees one and installs the next. `restarts`
   and `moves` count the retries of all threads and the relinked nodes.
   */
  datatype Shared = Shared(
    policy: Registry.Policy,
    names: seq<Name>,
    heads: seq<Pointer>,
    links: seq<Pointer>,
    generation: nat,
    restarts: nat,
    moves: nat)

  /**
   Where a thread stands in its call for the stored name `name`, with its local variables: the node of
   a walk; in a resize the old bucket `i`, the node `p` to move next, the new array, and how many nodes
   of the bucket have been moved; between the two stores of a move, the slot just written.
   */
  datatype Point =
    | AtStart(name: Name)
    | Reading(name: Name, p: Pointer)
    | AtGap(name: Name)
    | Writing(name: Name)
    | Moving(name: Name, i: nat, d: nat, p: Pointer, newHeads: seq<Pointer>)
    | Cutting(name: Name, i: nat, d: nat, id: nat, slot: Slot, newHeads: seq<Pointer>)
    | AtReturn(name: Name, id: nat, slot: Slot, generation: nat)

  /** What a call returns; `Broken` is a pointer that is not the address of any logger. */
  datatype Result = NoLogger | Logger(id: nat) | Broken

  /** A finished call: its thread, the stored name it asked for, and what it returned. */
  datatype Entry = Entry(t: Tid, name: Name, result: Result)

  datatype System = System(sh: Shared, threads: map<Tid, Point>, log: seq<Entry>)

  datatype Action =
    | Call(t: Tid, channel: Name)
    | EnterRead(t: Tid)
    | ReadNode(t: Tid)
    | EnterWrite(t: Tid)
    | WriteSection(t: Tid, mem: Registry.Memory)
    | MoveNode(t: Tid)
    | CutNode(t: Tid)
    | Return(t: Tid)

  /** The thread holds the write lock. */
  predicate InWrite(p: Point) {
    p.Writing? || p.Moving? || p.Cutting?
  }

  /** The thread is relinking the table. */
  predicate InResize(p: Point) {
    p.Moving? || p.Cutting?
  }

  /** How many nodes of the old bucket have been linked into new chains. */
  function Reached(m: Point): nat
    requires InResize(m)
  {
    if m.Cutting? then m.d + 1 else m.d
  }

  // ---------- Memory ----------

  /** The end of the chain of `name`, where the probe of a missing name stops. */
  function TailSlot(sh: Shared, name: Name): Slot
    requires |sh.heads| > 0
  {
    var j := Home(name, |sh.heads|);
    var ids := Chain(sh.names, |sh.heads|, j);
    SlotAt(ids, j, |ids|)
  }

  /** The end of the partly built chain that the node `id` is moved to. */
  function NewTail(sh: Shared, i: nat, d: nat, id: nat): Slot
    requires |sh.heads| > 0 && id < |sh.names| && i < |sh.heads| && d <= |Chain(sh.names, |sh.heads|, i)|
  {
    var j := Home(sh.names[id], 2 * |sh.heads|);
    var ids := Partial(sh.names, |sh.heads|, i, d, j);
    SlotAt(ids, j, |ids|)
  }

  /** What a slot of bucket array `generation` holds; a slot of a freed array holds nothing. */
  function Content(sh: Shared, slot: Slot, generation: nat): Pointer {
    match slot
    case BucketSlot(j) => if generation == sh.generation && j < |sh.heads| then sh.heads[j] else None
    case NextSlot(p) => if p < |sh.links| then sh.links[p] else None
  }

  /** The last statement of the call: the address of the logger in `*p_node`, read without the lock. */
  function Reread(sh: Shared, slot: Slot, generation: nat): (r: Result)
    ensures !r.NoLogger? && (r.Logger? ==> r.id < |sh.names|)
  {
    var p := Content(sh, slot, generation);
    if p.Some? && p.value < |sh.names| then Logger(p.value) else Broken
  }

  // ---------- Steps ----------

  function Goto(s: System, t: Tid, p: Point): System {
    s.(threads := s.threads[t := p])
  }

  function Finish(s: System, t: Tid, name: Name, result: Result): System {
    s.(threads := s.threads - {t}, log := s.log + [Entry(t, name, result)])
  }

  predicate NoneWriting(threads: map<Tid, Point>) {
    forall t :: t in threads ==> !InWrite(threads[t])
  }

  predicate NoneInside(threads: map<Tid, Point>) {
    forall t :: t in threads ==> !InWrite(threads[t]) && !threads[t].Reading?
  }

  predicate Enabled(s: System, a: Action) {
    && |s.sh.heads| > 0
    && match a
       case Call(t, _) => t !in s.threads
       case EnterRead(t) => t in s.threads && s.threads[t].AtStart? && NoneWriting(s.threads)
       case ReadNode(t) => t in s.threads && s.threads[t].Reading?
       case EnterWrite(t) => t in s.threads && s.threads[t].AtGap? && NoneInside(s.threads)
       case WriteSection(t, _) => t in s.threads && s.threads[t].Writing?
       case MoveNode(t) => t in s.threads && s.threads[t].Moving?
       case CutNode(t) => t in s.threads && s.threads[t].Cutting?
       case Return(t) => t in s.threads && s.threads[t].AtReturn?
  }

  /** One node of the walk in the read section, or its end. */
  function Hop(s: System, t: Tid, name: Name, p: Pointer): System {
    if p.None? then Goto(s, t, AtGap(name))
    else if p.value < |s.sh.names| && s.sh.names[p.value] == name then Finish(s, t, name, Logger(p.value))
    else Goto(s, t, Reading(name, Content(s.sh, NextSlot(p.value), s.sh.generation)))
  }

  /** The table with `name` linked in at the end of its chain. */
  function WithChannel(sh: Shared, name: Name): Shared
    requires |sh.heads| > 0
  {
    var id, slot := |sh.names|, TailSlot(sh, name);
    sh.(names := sh.names + [name],
        heads := StoreHeads(sh.heads, slot, Some(id)),
        links := AppendLinks(sh.links + [None], slot, id))
  }

  /** The write section: the double check, then a failure, an insertion, or the start of a resize. */
  function Write(s: System, t: Tid, name: Name, mem: Registry.Memory): System
    requires |s.sh.heads| > 0
  {
    var found := Lookup(s.sh.names, |s.sh.heads|, name);
    if found.Some? then Finish(s, t, name, Logger(found.value))
    else if |s.sh.names| >= |s.sh.heads| then
      if s.sh.policy == Registry.FixedSize || !mem.bucketsOk then Finish(s, t, name, NoLogger)
      else Goto(s, t, Moving(name, 0, 0, s.sh.heads[0], seq(2 * |s.sh.heads|, _ => None)))
    else if s.sh.policy == Registry.DynamicSize && !mem.nodeOk then Finish(s, t, name, NoLogger)
    else
      Goto(s.(sh := WithChannel(s.sh, name)), t,
           AtReturn(name, |s.sh.names|, TailSlot(s.sh, name), s.sh.generation))
  }

  /** The new array replaces the old one, which is freed; the lock is released and the call starts over. */
  function Publish(s: System, t: Tid, name: Name, newHeads: seq<Pointer>): System {
    Goto(s.(sh := s.sh.(heads := newHeads, generation := s.sh.generation + 1, restarts := s.sh.restarts + 1)),
         t, AtStart(name))
  }

  /** The first store of a move, or the end of an old bucket. */
  function Move(s: System, t: Tid, name: Name, i: nat, d: nat, p: Pointer, newHeads: seq<Pointer>): System
    requires |s.sh.heads| > 0
  {
    if p.None? then
      if i + 1 < |s.sh.heads| then Goto(s, t, Moving(name, i + 1, 0, s.sh.heads[i + 1], newHeads))
      else Publish(s, t, name, newHeads)
    else if i < |s.sh.heads| && d <= |Chain(s.sh.names, |s.sh.heads|, i)| && p.value < |s.sh.names| then
      var slot := NewTail(s.sh, i, d, p.value);
      Goto(s.(sh := s.sh.(links := StoreLinks(s.sh.links, slot, Some(p.value)), moves := s.sh.moves + 1)), t,
           Cutting(name, i, d, p.value, slot, StoreHeads(newHeads, slot, Some(p.value))))
    else s
  }

  /** The second store of a move: the moved node ends its new chain; its old successor is next. */
  function Cut(s: System, t: Tid, name: Name, i: nat, d: nat, id: nat, newHeads: seq<Pointer>): System {
    Goto(s.(sh := s.sh.(links := StoreLinks(s.sh.links, NextSlot(id), None))), t,
         Moving(name, i, d + 1, Content(s.sh, NextSlot(id), s.sh.generation), newHeads))
  }

  function Step(s: System, a: Action): System {
    if !Enabled(s, a) then s
    else
      match a
      case Call(t, channel) => Goto(s, t, AtStart(Truncate(channel)))
      case EnterRead(t) =>
        var name := s.threads[t].name;
        Goto(s, t, Reading(name, s.sh.heads[Home(name, |s.sh.heads|)]))
      case ReadNode(t) => Hop(s, t, s.threads[t].name, s.threads[t].p)
      case EnterWrite(t) => Goto(s, t, Writing(s.threads[t].name))
      case WriteSection(t, mem) => Write(s, t, s.threads[t].name, mem)
      case MoveNode(t) =>
        var m := s.threads[t];
        Move(s, t, m.name, m.i, m.d, m.p, m.newHeads)
      case CutNode(t) =>
        var m := s.threads[t];
        Cut(s, t, m.name, m.i, m.d, m.id, m.newHeads)
      case Return(t) =>
        var p := s.threads[t];
        Finish(s, t, p.name, Reread(s.sh, p.slot, p.generation))
  }

  function Run(s: System, schedule: seq<Action>): System
    decreases |schedule|
  {
    if schedule == [] then s else Run(Step(s, schedule[0]), schedule[1..])
  }

  /** No thread inside, an empty table of `c0` buckets. */
  function Start(policy: Registry.Policy, c0: nat): System {
    System(Shared(policy, [], seq(c0, _ => None), [], 0, 0, 0), map[], [])
  }

  // ---------- The invariant ----------

  /** Names and counters. */
  ghost predicate CountsInv(sh: Shared, c0: nat) {
    var c := |sh.heads|;
    && Distinct(sh.names) && |sh.links| == |sh.names| <= c && c > 0 && c0 > 0
    && c == c0 * RegistryRuns.Pow2(sh.generation)
    && sh.restarts == sh.generation
    && (sh.generation > 0 ==> c <= 2 * |sh.names|)
    && (sh.policy == Registry.FixedSize ==> sh.generation == 0)
  }

  /** The memory in the middle of a resize by the thread at `m`. */
  ghost predicate ResizeInv(sh: Shared, m: Point, c0: nat)
    requires InResize(m) && |sh.heads| > 0
  {
    var c := |sh.heads|;
    && sh.policy == Registry.DynamicSize && |sh.names| == c && m.i < c && m.name !in sh.names
    && (forall b :: 0 <= b < c ==> sh.heads[b] == At(Chain(sh.names, c, b), 0))
    && match m
       case Moving(_, i, d, p, newHeads) =>
         && Rehashing(sh.names, i, d, sh.heads, p, newHeads, sh.links)
         && sh.moves + c0 == c + CountBelow(sh.names, c, i) + d
       case Cutting(_, i, d, id, slot, newHeads) =>
         var heads0, links0 := StoreHeads(newHeads, slot, None), StoreLinks(sh.links, slot, None);
         && d < |Chain(sh.names, c, i)| && id == Chain(sh.names, c, i)[d]
         && slot == NewTail(sh, i, d, id)
         && Rehashing(sh.names, i, d, sh.heads, Some(id), heads0, links0)
         && newHeads == StoreHeads(heads0, slot, Some(id)) && sh.links == StoreLinks(links0, slot, Some(id))
         && sh.moves + c0 == c + CountBelow(sh.names, c, i) + d + 1
  }

  /** The memory when no resize is under way. */
  ghost predicate QuietInv(sh: Shared, c0: nat) {
    TableLinked(sh.names, sh.heads, sh.links) && sh.moves + c0 == |sh.heads|
  }

  predicate NoResize(threads: map<Tid, Point>) {
    forall t :: t in threads ==> !InResize(threads[t])
  }

  /** The slot of a pending return still speaks of the inserted node. */
  ghost predicate Remembers(sh: Shared, id: nat, slot: Slot, generation: nat)
    requires |sh.heads| > 0 && id < |sh.names|
  {
    var c := |sh.heads|;
    match slot
    case BucketSlot(j) =>
      generation == sh.generation ==>
        j < c && Home(sh.names[id], c) == j && forall q :: 0 <= q < id ==> Home(sh.names[q], c) != j
    case NextSlot(p) =>
      && p < id
      && (generation == sh.generation ==> Home(sh.names[p], c) == Home(sh.names[id], c))
      && forall q :: p < q < id ==> Home(sh.names[q], c) != Home(sh.names[p], c)
  }

  ghost predicate PointInv(sh: Shared, p: Point)
    requires |sh.heads| > 0
  {
    match p
    case Reading(name, node) =>
      var ids := Chain(sh.names, |sh.heads|, Home(name, |sh.heads|));
      exists k :: 0 <= k <= |ids| && node == At(ids, k)
    case AtReturn(name, id, slot, generation) =>
      && id < |sh.names| && sh.names[id] == name && generation <= sh.generation
      && Remembers(sh, id, slot, generation)
    case _ => true
  }

  /** At most one writer, and no reader beside it. */
  ghost predicate Exclusive(threads: map<Tid, Point>) {
    forall t, u :: t in threads && u in threads && t != u && InWrite(threads[t]) ==>
      !InWrite(threads[u]) && !threads[u].Reading?
  }

  ghost predicate Inv(s: System, c0: nat) {
    && CountsInv(s.sh, c0)
    && Exclusive(s.threads)
    && (NoResize(s.threads) ==> QuietInv(s.sh, c0))
    && (forall t :: t in s.threads && InResize(s.threads[t]) ==> ResizeInv(s.sh, s.threads[t], c0))
    && (forall t :: t in s.threads ==> PointInv(s.sh, s.threads[t]))
    && forall k :: 0 <= k < |s.log| && s.log[k].result.Logger? ==> s.log[k].result.id < |s.sh.names|
  }

  // ---------- Small facts ----------

  lemma Basics(s: System, c0: nat)
    requires Inv(s, c0)
    ensures |s.sh.heads| > 0 && |s.sh.links| == |s.sh.names| && Distinct(s.sh.names)
  {
  }

  /** The end of a list holds no pointer, so a store there can be taken back. */
  lemma StoreAtTail(heads: seq<Pointer>, links: seq<Pointer>, j: nat, ids: seq<nat>, p: Pointer)
    requires j < |heads| && Linked(heads[j], ids, links)
    ensures var slot := SlotAt(ids, j, |ids|);
            && StoreHeads(StoreHeads(heads, slot, p), slot, None) == heads
            && StoreLinks(StoreLinks(links, slot, p), slot, None) == links
  {
  }

  /** What a pending return remembers does not depend on the links. */
  lemma ReturnIgnoresLinks(sh: Shared, after: Shared, p: Point)
    requires |sh.heads| > 0 && p.AtReturn? && PointInv(sh, p)
    requires after.names == sh.names && |after.heads| == |sh.heads| && after.generation == sh.generation
    ensures PointInv(after, p)
  {
  }

  // ---------- Readers ----------

  lemma EnterReadKeepsInv(s: System, t: Tid, c0: nat)
    requires Inv(s, c0) && t in s.threads && s.threads[t].AtStart? && NoneWriting(s.threads)
    ensures |s.sh.heads| > 0
    ensures var name := s.threads[t].name;
            Inv(Goto(s, t, Reading(name, s.sh.heads[Home(name, |s.sh.heads|)])), c0)
  {
    hide Home, Chain, CountsInv, ResizeInv, Remembers;
    Basics(s, c0);
    var name := s.threads[t].name;
    var j := Home(name, |s.sh.heads|);
    assert Linked(s.sh.heads[j], Chain(s.sh.names, |s.sh.heads|, j), s.sh.links);
    assert PointInv(s.sh, Reading(name, s.sh.heads[j]));
  }

  /** A reader is never beside a writer, so it walks a table at rest. */
  lemma HopKeepsInv(s: System, t: Tid, c0: nat)
    requires Inv(s, c0) && t in s.threads && s.threads[t].Reading?
    ensures Inv(Hop(s, t, s.threads[t].name, s.threads[t].p), c0)
  {
    hide Home, Chain, CountsInv, ResizeInv, Remembers, QuietInv;
    Basics(s, c0);
    var name, p := s.threads[t].name, s.threads[t].p;
    assert NoResize(s.threads);
    var sh := s.sh;
    if p.Some? {
      ReaderAdvances(sh, name, p, c0);
    }
  }

  lemma ReaderAdvances(sh: Shared, name: Name, p: Pointer, c0: nat)
    requires |sh.heads| > 0 && |sh.links| == |sh.names| && QuietInv(sh, c0) && p.Some? && PointInv(sh, Reading(name, p))
    ensures p.value < |sh.names| && PointInv(sh, Reading(name, Content(sh, NextSlot(p.value), sh.generation)))
  {
    hide Home, Chain;
    var j := Home(name, |sh.heads|);
    var ids := Chain(sh.names, |sh.heads|, j);
    var k :| 0 <= k <= |ids| && p == At(ids, k);
    assert Linked(sh.heads[j], ids, sh.links);
    assert sh.links[ids[k]] == At(ids, k + 1);
  }

  // ---------- The write section ----------

  lemma Pow2Step(k: nat)
    ensures RegistryRuns.Pow2(k + 1) == 2 * RegistryRuns.Pow2(k)
  {
  }

  lemma TailRemembers(sh: Shared, name: Name)
    requires |sh.heads| > 0
    ensures var after := WithChannel(sh, name);
            |after.heads| == |sh.heads| && Remembers(after, |sh.names|, TailSlot(sh, name), sh.generation)
  {
    hide Home, Chain;
    var c, id := |sh.heads|, |sh.names|;
    var j := Home(name, c);
    var ids := Chain(sh.names, c, j);
    ChainIncreasing(sh.names, c, j);
    forall q | 0 <= q < id && Home(sh.names[q], c) == j
      ensures ids != [] && q <= ids[|ids| - 1]
    {
      ChainMembers(sh.names, c, j, q);
    }
    if ids != [] {
      ChainMembers(sh.names, c, j, ids[|ids| - 1]);
    }
  }

  lemma InsertKeepsReturn(sh: Shared, name: Name, p: Point)
    requires |sh.heads| > 0 && p.AtReturn? && PointInv(sh, p)
    ensures PointInv(WithChannel(sh, name), p)
  {
    hide Home, Chain;
  }

  lemma InsertKeepsMemory(sh: Shared, name: Name, c0: nat)
    requires CountsInv(sh, c0) && QuietInv(sh, c0) && |sh.names| < |sh.heads| && name !in sh.names
    ensures CountsInv(WithChannel(sh, name), c0) && QuietInv(WithChannel(sh, name), c0)
  {
    hide Home, Chain, RegistryRuns.Pow2, TableLinked;
    InsertKeepsTable(sh.names, sh.heads, sh.links, name);
    DistinctAppend(sh.names, name);
  }

  lemma InsertKeepsInv(s: System, t: Tid, c0: nat)
    requires Inv(s, c0) && t in s.threads && s.threads[t].Writing?
    requires |s.sh.names| < |s.sh.heads| && s.threads[t].name !in s.sh.names
    ensures var name := s.threads[t].name;
            Inv(Goto(s.(sh := WithChannel(s.sh, name)), t,
                     AtReturn(name, |s.sh.names|, TailSlot(s.sh, name), s.sh.generation)), c0)
  {
    hide Home, Chain, CountsInv, QuietInv, ResizeInv, Remembers, TailSlot;
    var name := s.threads[t].name;
    assert NoResize(s.threads);
    InsertKeepsMemory(s.sh, name, c0);
    TailRemembers(s.sh, name);
    forall u | u in s.threads && u != t
      ensures PointInv(WithChannel(s.sh, name), s.threads[u])
    {
      assert PointInv(s.sh, s.threads[u]);
      if s.threads[u].AtReturn? {
        InsertKeepsReturn(s.sh, name, s.threads[u]);
      }
    }
  }

  lemma ResizeBegins(sh: Shared, name: Name, c0: nat)
    requires CountsInv(sh, c0) && QuietInv(sh, c0) && |sh.names| == |sh.heads| && sh.policy == Registry.DynamicSize
    requires name !in sh.names
    ensures ResizeInv(sh, Moving(name, 0, 0, sh.heads[0], seq(2 * |sh.heads|, _ => None)), c0)
  {
    hide Home, Chain, RegistryRuns.Pow2, RehashedBelow, Rehashing;
    var cleared := seq(2 * |sh.heads|, _ => None);
    RehashBegins(sh.names, sh.heads, cleared, sh.links);
    RehashBucketBegins(sh.names, 0, sh.heads, cleared, sh.links);
    forall b | 0 <= b < |sh.heads| ensures sh.heads[b] == At(Chain(sh.names, |sh.heads|, b), 0) {
      assert Linked(sh.heads[b], Chain(sh.names, |sh.heads|, b), sh.links);
    }
  }

  lemma WriteKeepsInv(s: System, t: Tid, mem: Registry.Memory, c0: nat)
    requires Inv(s, c0) && t in s.threads && s.threads[t].Writing?
    ensures |s.sh.heads| > 0 && Inv(Write(s, t, s.threads[t].name, mem), c0)
  {
    hide Home, Chain, CountsInv, QuietInv, ResizeInv, Remembers, WithChannel, TailSlot, Lookup;
    var name := s.threads[t].name;
    Basics(s, c0);
    CountsFit(s.sh, c0);
    assert NoResize(s.threads);
    LookupExact(s.sh.names, |s.sh.heads|, name);
    if name !in s.sh.names {
      if |s.sh.names| < |s.sh.heads| {
        InsertKeepsInv(s, t, c0);
      } else if s.sh.policy == Registry.DynamicSize {
        ResizeBegins(s.sh, name, c0);
      }
    }
  }

  lemma CountsFit(sh: Shared, c0: nat)
    requires CountsInv(sh, c0)
    ensures |sh.names| <= |sh.heads|
  {
  }

  // ---------- The resize, store by store ----------

  lemma FirstStoreKeepsResize(sh: Shared, m: Point, c0: nat)
    requires |sh.heads| > 0 && m.Moving? && m.p.Some? && ResizeInv(sh, m, c0)
    ensures m.i < |sh.heads| && m.d <= |Chain(sh.names, |sh.heads|, m.i)| && m.p.value < |sh.names|
    ensures var slot := NewTail(sh, m.i, m.d, m.p.value);
            ResizeInv(sh.(links := StoreLinks(sh.links, slot, m.p), moves := sh.moves + 1),
                      Cutting(m.name, m.i, m.d, m.p.value, slot, StoreHeads(m.newHeads, slot, m.p)), c0)
  {
    hide Home, Chain, Partial;
    var c := |sh.heads|;
    var id := m.p.value;
    assert Linked(m.p, Chain(sh.names, c, m.i)[m.d..], sh.links);
    assert m.d < |Chain(sh.names, c, m.i)| && id == Chain(sh.names, c, m.i)[m.d];
    MoveKeepsRehashing(sh.names, m.i, m.d, sh.heads, m.p, m.newHeads, sh.links);
    var j := Home(sh.names[id], 2 * c);
    StoreAtTail(m.newHeads, sh.links, j, Partial(sh.names, c, m.i, m.d, j), Some(id));
  }

  lemma SecondStoreKeepsResize(sh: Shared, m: Point, c0: nat)
    requires |sh.heads| > 0 && m.Cutting? && ResizeInv(sh, m, c0)
    ensures ResizeInv(sh.(links := StoreLinks(sh.links, NextSlot(m.id), None)),
                      Moving(m.name, m.i, m.d + 1, Content(sh, NextSlot(m.id), sh.generation), m.newHeads), c0)
  {
    hide Home, Chain, Partial, Linked;
    var heads0, links0 := StoreHeads(m.newHeads, m.slot, None), StoreLinks(sh.links, m.slot, None);
    MoveKeepsRehashing(sh.names, m.i, m.d, sh.heads, Some(m.id), heads0, links0);
  }

  lemma NextBucketKeepsResize(sh: Shared, m: Point, c0: nat)
    requires |sh.heads| > 0 && m.Moving? && m.p.None? && ResizeInv(sh, m, c0) && m.i + 1 < |sh.heads|
    ensures ResizeInv(sh, Moving(m.name, m.i + 1, 0, sh.heads[m.i + 1], m.newHeads), c0)
  {
    hide Home, Chain, RehashedBelow, Rehashing;
    BucketDone(sh, m, c0);
    RehashBucketEnds(sh.names, m.i, m.d, sh.heads, m.newHeads, sh.links);
    RehashBucketBegins(sh.names, m.i + 1, sh.heads, m.newHeads, sh.links);
  }

  lemma BucketDone(sh: Shared, m: Point, c0: nat)
    requires |sh.heads| > 0 && m.Moving? && m.p.None? && ResizeInv(sh, m, c0)
    ensures m.d == |Chain(sh.names, |sh.heads|, m.i)|
  {
    hide Home, Chain;
    assert Linked(m.p, Chain(sh.names, |sh.heads|, m.i)[m.d..], sh.links);
  }

  /** The table after the resize, before the lock is released. */
  function Published(sh: Shared, newHeads: seq<Pointer>): Shared {
    sh.(heads := newHeads, generation := sh.generation + 1, restarts := sh.restarts + 1)
  }

  lemma PublishKeepsMemory(sh: Shared, m: Point, c0: nat)
    requires CountsInv(sh, c0) && m.Moving? && m.p.None? && ResizeInv(sh, m, c0) && m.i + 1 == |sh.heads|
    ensures CountsInv(Published(sh, m.newHeads), c0) && QuietInv(Published(sh, m.newHeads), c0)
    ensures |m.newHeads| == 2 * |sh.heads|
  {
    hide Home, Chain, RegistryRuns.Pow2, TableLinked, RehashedBelow, Linked, Partial;
    BucketDone(sh, m, c0);
    RehashBucketEnds(sh.names, m.i, m.d, sh.heads, m.newHeads, sh.links);
    RehashEnds(sh.names, sh.heads, m.newHeads, sh.links);
    ChainsPartition(sh.names, |sh.heads|);
    Pow2Step(sh.generation);
    assert c0 * (2 * RegistryRuns.Pow2(sh.generation)) == 2 * (c0 * RegistryRuns.Pow2(sh.generation));
  }

  lemma PublishKeepsReturn(sh: Shared, newHeads: seq<Pointer>, p: Point)
    requires |sh.heads| > 0 && |newHeads| == 2 * |sh.heads| && p.AtReturn? && PointInv(sh, p)
    ensures PointInv(Published(sh, newHeads), p)
  {
    hide Home, Chain;
    forall q | 0 <= q < |sh.names|
      ensures Home(sh.names[q], 2 * |sh.heads|) % |sh.heads| == Home(sh.names[q], |sh.heads|)
    {
      HomeHalves(sh.names[q], |sh.heads|);
    }
  }

  /** A step of a resize changes links and the writer's own point only. */
  lemma ResizeStepKeepsInv(s: System, t: Tid, after: Shared, m: Point, c0: nat)
    requires Inv(s, c0) && t in s.threads && InResize(s.threads[t]) && InResize(m)
    requires after == s.sh.(links := after.links, moves := after.moves) && |after.links| == |s.sh.links|
    requires |s.sh.heads| > 0 && ResizeInv(after, m, c0)
    ensures Inv(Goto(s.(sh := after), t, m), c0)
  {
    hide ResizeInv, QuietInv, Home, Chain, RegistryRuns.Pow2, Remembers;
    forall u | u in s.threads && u != t
      ensures PointInv(after, s.threads[u]) && !InResize(s.threads[u])
    {
      assert PointInv(s.sh, s.threads[u]) && !s.threads[u].Reading?;
      if s.threads[u].AtReturn? {
        ReturnIgnoresLinks(s.sh, after, s.threads[u]);
      }
    }
    assert Goto(s.(sh := after), t, m).threads[t] == m;
  }

  lemma PublishKeepsInv(s: System, t: Tid, c0: nat)
    requires Inv(s, c0) && t in s.threads && s.threads[t].Moving? && s.threads[t].p.None?
    requires s.threads[t].i + 1 == |s.sh.heads|
    ensures Inv(Publish(s, t, s.threads[t].name, s.threads[t].newHeads), c0)
  {
    hide ResizeInv, QuietInv, Home, Chain, CountsInv, Remembers;
    var m := s.threads[t];
    Basics(s, c0);
    PublishKeepsMemory(s.sh, m, c0);
    var after := Published(s.sh, m.newHeads);
    forall u | u in s.threads && u != t
      ensures PointInv(after, s.threads[u]) && !InResize(s.threads[u])
    {
      assert PointInv(s.sh, s.threads[u]) && !s.threads[u].Reading?;
      if s.threads[u].AtReturn? {
        PublishKeepsReturn(s.sh, m.newHeads, s.threads[u]);
      }
    }
  }

  lemma FirstStoreKeepsInv(s: System, t: Tid, c0: nat)
    requires Inv(s, c0) && t in s.threads && s.threads[t].Moving? && s.threads[t].p.Some?
    ensures |s.sh.heads| > 0
    ensures var m := s.threads[t]; Inv(Move(s, t, m.name, m.i, m.d, m.p, m.newHeads), c0)
  {
    hide Inv, ResizeInv, Home, Chain, NewTail, StoreHeads, StoreLinks, Move;
    var m := s.threads[t];
    WriterInv(s, t, c0);
    FirstStoreKeepsResize(s.sh, m, c0);
    var slot := NewTail(s.sh, m.i, m.d, m.p.value);
    var after := s.sh.(links := StoreLinks(s.sh.links, slot, m.p), moves := s.sh.moves + 1);
    var cutting := Cutting(m.name, m.i, m.d, m.p.value, slot, StoreHeads(m.newHeads, slot, m.p));
    ResizeStepKeepsInv(s, t, after, cutting, c0);
    FirstStore(s, t, m);
  }

  lemma FirstStore(s: System, t: Tid, m: Point)
    requires m.Moving? && m.p.Some? && m.i < |s.sh.heads|
    requires m.d <= |Chain(s.sh.names, |s.sh.heads|, m.i)| && m.p.value < |s.sh.names|
    ensures var slot := NewTail(s.sh, m.i, m.d, m.p.value);
            Move(s, t, m.name, m.i, m.d, m.p, m.newHeads) ==
            Goto(s.(sh := s.sh.(links := StoreLinks(s.sh.links, slot, m.p), moves := s.sh.moves + 1)), t,
                 Cutting(m.name, m.i, m.d, m.p.value, slot, StoreHeads(m.newHeads, slot, m.p)))
  {
    hide Home, Chain, NewTail, StoreHeads, StoreLinks;
  }

  /** What the invariant says of a writer in a resize. */
  lemma WriterInv(s: System, t: Tid, c0: nat)
    requires Inv(s, c0) && t in s.threads && InResize(s.threads[t])
    ensures |s.sh.heads| > 0 && |s.sh.links| == |s.sh.names| && Distinct(s.sh.names)
    ensures ResizeInv(s.sh, s.threads[t], c0) && s.threads[t].i < |s.sh.heads|
  {
    hide Home, Chain, Rehashing;
  }

  lemma PublishedLength(s: System, t: Tid, c0: nat)
    requires Inv(s, c0) && t in s.threads && s.threads[t].Moving?
    ensures |s.threads[t].newHeads| == 2 * |s.sh.heads|
  {
    hide Home, Chain, Linked, Partial;
    WriterInv(s, t, c0);
  }

  lemma MoveKeepsInv(s: System, t: Tid, c0: nat)
    requires Inv(s, c0) && t in s.threads && s.threads[t].Moving?
    ensures |s.sh.heads| > 0
    ensures var m := s.threads[t]; Inv(Move(s, t, m.name, m.i, m.d, m.p, m.newHeads), c0)
  {
    hide Inv, ResizeInv, Home, Chain;
    var m := s.threads[t];
    WriterInv(s, t, c0);
    if m.p.Some? {
      FirstStoreKeepsInv(s, t, c0);
    } else if m.i + 1 < |s.sh.heads| {
      NextBucketKeepsResize(s.sh, m, c0);
      ResizeStepKeepsInv(s, t, s.sh, Moving(m.name, m.i + 1, 0, s.sh.heads[m.i + 1], m.newHeads), c0);
    } else {
      PublishKeepsInv(s, t, c0);
    }
  }

  lemma CutKeepsInv(s: System, t: Tid, c0: nat)
    requires Inv(s, c0) && t in s.threads && s.threads[t].Cutting?
    ensures var m := s.threads[t]; Inv(Cut(s, t, m.name, m.i, m.d, m.id, m.newHeads), c0)
  {
    hide Inv, ResizeInv, Home, Chain, NewTail;
    var m := s.threads[t];
    WriterInv(s, t, c0);
    SecondStoreKeepsResize(s.sh, m, c0);
    ResizeStepKeepsInv(s, t, s.sh.(links := StoreLinks(s.sh.links, NextSlot(m.id), None)),
                       Moving(m.name, m.i, m.d + 1, Content(s.sh, NextSlot(m.id), s.sh.generation), m.newHeads), c0);
  }

  // ---------- Every step keeps the invariant ----------

  lemma ReturnKeepsInv(s: System, t: Tid, c0: nat)
    requires Inv(s, c0) && t in s.threads && s.threads[t].AtReturn?
    ensures var p := s.threads[t]; Inv(Finish(s, t, p.name, Reread(s.sh, p.slot, p.generation)), c0)
  {
    hide Home, Chain, CountsInv, ResizeInv, QuietInv, Remembers;
    Basics(s, c0);
    var p := s.threads[t];
    var u := Finish(s, t, p.name, Reread(s.sh, p.slot, p.generation));
    forall w | w in s.threads && w != t ensures w in u.threads && u.threads[w] == s.threads[w] {}
  }

  lemma StayOutside(s: System, t: Tid, p: Point, c0: nat)
    requires Inv(s, c0) && !InWrite(p) && !p.Reading? && !p.AtReturn?
    requires t in s.threads ==> !InResize(s.threads[t])
    ensures Inv(Goto(s, t, p), c0)
  {
    hide Home, Chain, CountsInv, ResizeInv, QuietInv, Remembers;
    Basics(s, c0);
    var u := Goto(s, t, p);
    forall w | w in s.threads && w != t ensures w in u.threads && u.threads[w] == s.threads[w] {}
  }

  lemma EnterWriteKeepsInv(s: System, t: Tid, c0: nat)
    requires Inv(s, c0) && t in s.threads && s.threads[t].AtGap? && NoneInside(s.threads)
    ensures Inv(Goto(s, t, Writing(s.threads[t].name)), c0)
  {
    hide Home, Chain, CountsInv, ResizeInv, QuietInv, Remembers;
    Basics(s, c0);
  }

  lemma StepKeepsInv(s: System, a: Action, c0: nat)
    requires Inv(s, c0)
    ensures Inv(Step(s, a), c0)
  {
    hide Inv, Home, Chain, Truncate, Reread, Hop, Write, Move, Cut;
    if Enabled(s, a) {
      match a
      case Call(t, channel) => StayOutside(s, t, AtStart(Truncate(channel)), c0);
      case EnterRead(t) => EnterReadKeepsInv(s, t, c0);
      case ReadNode(t) => HopKeepsInv(s, t, c0);
      case EnterWrite(t) => EnterWriteKeepsInv(s, t, c0);
      case WriteSection(t, mem) => WriteKeepsInv(s, t, mem, c0);
      case MoveNode(t) => MoveKeepsInv(s, t, c0);
      case CutNode(t) => CutKeepsInv(s, t, c0);
      case Return(t) => ReturnKeepsInv(s, t, c0);
    }
  }

  lemma {:induction false} RunKeepsInv(s: System, schedule: seq<Action>, c0: nat)
    requires Inv(s, c0)
    ensures Inv(Run(s, schedule), c0)
    decreases |schedule|
  {
    hide Inv, Step;
    if schedule == [] {
    } else {
      StepKeepsInv(s, schedule[0], c0);
      RunKeepsInv(Step(s, schedule[0]), schedule[1..], c0);
    }
  }

  lemma StartInv(policy: Registry.Policy, c0: nat)
    requires c0 > 0
    ensures Inv(Start(policy, c0), c0)
  {
    assert c0 * RegistryRuns.Pow2(0) == c0;
  }

  lemma StepKeepsPolicy(s: System, a: Action)
    ensures Step(s, a).sh.policy == s.sh.policy && s.sh.names <= Step(s, a).sh.names
    ensures s.log <= Step(s, a).log
  {
    hide Home, Chain, Lookup, TailSlot, NewTail, Truncate, Reread, StoreHeads, StoreLinks;
  }

  lemma {:induction false} RunKeepsPolicy(s: System, schedule: seq<Action>)
    ensures Run(s, schedule).sh.policy == s.sh.policy
    decreases |schedule|
  {
    hide Step;
    if schedule == [] {
    } else {
      StepKeepsPolicy(s, schedule[0]);
      RunKeepsPolicy(Step(s, schedule[0]), schedule[1..]);
    }
  }

  /**
   Whatever the schedule, no stored name is registered twice, the channels fit, the capacity is the
   initial one doubled once per retry, and retries are bounded by the number of channels. Whenever no
   resize is under way, every bucket holds its chain and nothing else, and the nodes relinked so far
   are the buckets gained.
   */
  lemma TableInEveryRun(policy: Registry.Policy, c0: nat, schedule: seq<Action>)
    requires c0 > 0
    ensures var s := Run(Start(policy, c0), schedule);
            var sh, c := s.sh, |s.sh.heads|;
            && Distinct(sh.names) && |sh.names| <= c
            && c == c0 * RegistryRuns.Pow2(sh.restarts)
            && (sh.restarts > 0 ==> c <= 2 * |sh.names|)
            && (policy == Registry.FixedSize ==> sh.restarts == 0)
            && sh.moves <= 2 * |sh.names|
            && (NoResize(s.threads) ==> TableLinked(sh.names, sh.heads, sh.links) && sh.moves == c - c0)
  {
    hide RegistryRuns.Pow2, TableLinked, ResizeInv, PointInv, Run;
    StartInv(policy, c0);
    RunKeepsInv(Start(policy, c0), schedule, c0);
    RunKeepsPolicy(Start(policy, c0), schedule);
    MovesAreFew(Run(Start(policy, c0), schedule), c0);
  }

  /** Also in the middle of a resize no more nodes have been moved in all than twice the channels. */
  lemma MovesAreFew(s: System, c0: nat)
    requires Inv(s, c0)
    ensures s.sh.moves <= 2 * |s.sh.names|
  {
    hide RegistryRuns.Pow2, QuietInv, ResizeInv, PointInv;
    if NoResize(s.threads) {
      QuietMoves(s.sh, c0);
    } else {
      var w :| w in s.threads && InResize(s.threads[w]);
      WriterInv(s, w, c0);
      ResizeMoves(s.sh, s.threads[w], c0);
    }
  }

  lemma QuietMoves(sh: Shared, c0: nat)
    requires CountsInv(sh, c0) && QuietInv(sh, c0)
    ensures sh.moves <= 2 * |sh.names|
  {
    hide TableLinked, RegistryRuns.Pow2, Distinct;
    PowZero(c0);
  }

  lemma ReachedFits(sh: Shared, m: Point, c0: nat)
    requires |sh.heads| > 0 && InResize(m) && ResizeInv(sh, m, c0)
    ensures m.i < |sh.heads| && Reached(m) <= |Chain(sh.names, |sh.heads|, m.i)|
  {
    hide Linked, Home, Chain, StoreHeads, StoreLinks;
  }

  lemma ResizeMoves(sh: Shared, m: Point, c0: nat)
    requires |sh.heads| > 0 && InResize(m) && ResizeInv(sh, m, c0)
    ensures sh.moves <= 2 * |sh.names|
  {
    hide Rehashing, Home, Chain, StoreHeads, StoreLinks;
    ReachedFits(sh, m, c0);
    CountBelowGrows(sh.names, |sh.heads|, m.i + 1, |sh.heads|);
    ChainsPartition(sh.names, |sh.heads|);
  }

  lemma PowZero(c0: nat)
    ensures c0 * RegistryRuns.Pow2(0) == c0
  {
  }

  // ---------- Progress, and the sequential registry ----------

  /** Some thread can always take a step: the locks never block every thread at once. */
  lemma NoDeadlock(s: System, c0: nat)
    requires Inv(s, c0) && s.threads != map[]
    ensures exists a :: Enabled(s, a) && !a.Call?
  {
    hide CountsInv, PointInv, QuietInv, ResizeInv;
    Basics(s, c0);
    if t :| t in s.threads && InWrite(s.threads[t]) {
      match s.threads[t]
      case Writing(_) => assert Enabled(s, WriteSection(t, Registry.Memory(true, true)));
      case Moving(_, _, _, _, _) => assert Enabled(s, MoveNode(t));
      case Cutting(_, _, _, _, _, _) => assert Enabled(s, CutNode(t));
    } else if t :| t in s.threads && s.threads[t].Reading? {
      assert Enabled(s, ReadNode(t));
    } else {
      var t :| t in s.threads;
      match s.threads[t]
      case AtStart(_) => assert Enabled(s, EnterRead(t));
      case AtGap(_) => assert Enabled(s, EnterWrite(t));
      case AtReturn(_, _, _, _) => assert Enabled(s, Return(t));
      case _ =>
    }
  }

  lemma NoDeadlockInAnyRun(policy: Registry.Policy, c0: nat, schedule: seq<Action>)
    requires c0 > 0
    ensures var s := Run(Start(policy, c0), schedule);
            s.threads != map[] ==> exists a :: Enabled(s, a) && !a.Call?
  {
    hide Inv, Run;
    StartInv(policy, c0);
    RunKeepsInv(Start(policy, c0), schedule, c0);
    if Run(Start(policy, c0), schedule).threads != map[] {
      NoDeadlock(Run(Start(policy, c0), schedule), c0);
    }
  }

  /** A write section alone is the sequential registry: the answer of the call, or the start of the one resize. */
  lemma WriteIsSequentialGet(r: Registry.State, s: System, t: Tid, channel: Name, mem: Registry.Memory)
    requires Registry.Inv(r) && r.capacity > 0 && t in s.threads
    requires s.sh.policy == r.policy && |s.sh.heads| == r.capacity && s.sh.names == r.names
    ensures var name := Truncate(channel);
            var u := Write(s, t, name, mem);
            var (after, reply) := Registry.Get(r, channel, mem);
            if t in u.threads && u.threads[t].Moving?
            then u.sh == s.sh && (after, reply) == Registry.Get(Registry.Doubled(r), channel, mem)
            else
              && u.sh.names == after.names && |u.sh.heads| == after.capacity
              && match reply
                 case Logger(id) =>
                   if name in r.names then u == Finish(s, t, name, Logger(id))
                   else
                     && u.log == s.log
                     && u.threads == s.threads[t := AtReturn(name, id, TailSlot(s.sh, name), s.sh.generation)]
                 case Null => u == Finish(s, t, name, NoLogger)
                 case DivisionByZero => false
  {
    hide Home, Chain, Lookup, TailSlot, Truncate, StoreHeads, StoreLinks, AppendLinks;
    LookupExact(r.names, r.capacity, Truncate(channel));
  }
}
