/**
 The read of `*p_node` after the write lock is released: in every state that Threads.dfy can reach,
 what it gives, when it is right, and what that means for the results of a run.
 */
module LateReads {
  import opened Names
  import opened Layout
  import opened Links
  import opened Options
  import opened Threads
  import Registry
  import RegistryRuns

  // ---------- What a slot holds ----------

  ghost predicate HasMoved(sh: Shared, i: nat, d: nat, x: nat) {
    && i < |sh.heads| && d <= |Chain(sh.names, |sh.heads|, i)| && x < |sh.names|
    && Moved(sh.names, |sh.heads|, i, d, x)
  }

  /** The resize under way has cut node `x` from its old successor. */
  ghost predicate CutOff(s: System, x: nat) {
    exists w :: w in s.threads && InResize(s.threads[w]) && HasMoved(s.sh, s.threads[w].i, s.threads[w].d, x)
  }

  /** The resize under way has linked node `x` into its new chain. */
  ghost predicate Relinked(s: System, x: nat) {
    exists w :: w in s.threads && InResize(s.threads[w]) && HasMoved(s.sh, s.threads[w].i, Reached(s.threads[w]), x)
  }

  /**
   When the slot of a pending return leads to the node that the thread inserted: a bucket, while its
   array is in use; a link field, while its node and the inserted one are on the same chain, new or old.
   */
  ghost predicate Stable(s: System, p: Point)
    requires p.AtReturn?
  {
    var sh, c := s.sh, |s.sh.heads|;
    match p.slot
    case BucketSlot(_) => p.generation == sh.generation
    case NextSlot(q) =>
      && c > 0 && q < |sh.names|
      && if CutOff(s, q) then Relinked(s, p.id) && Home(sh.names[q], 2 * c) == Home(p.name, 2 * c)
         else Home(sh.names[q], c) == Home(p.name, c)
  }

  lemma BucketReread(sh: Shared, p: Point)
    requires |sh.heads| > 0 && p.AtReturn? && PointInv(sh, p) && p.slot.BucketSlot?
    requires forall b :: 0 <= b < |sh.heads| ==> sh.heads[b] == At(Chain(sh.names, |sh.heads|, b), 0)
    ensures Content(sh, p.slot, p.generation) == Some(p.id) <==> p.generation == sh.generation
  {
    hide Home, Chain;
    if p.generation == sh.generation {
      var ids := Chain(sh.names, |sh.heads|, p.slot.j);
      ChainIncreasing(sh.names, |sh.heads|, p.slot.j);
      ChainHolds(sh.names, |sh.heads|, p.slot.j);
      assert p.id in ids && ids[0] in ids;
    }
  }

  lemma QuietReread(sh: Shared, p: Point, c0: nat)
    requires |sh.heads| > 0 && p.AtReturn? && PointInv(sh, p) && p.slot.NextSlot? && QuietInv(sh, c0)
    ensures var q := p.slot.id;
            q < |sh.names| && (Content(sh, p.slot, p.generation) == Some(p.id) <==>
                               Home(sh.names[q], |sh.heads|) == Home(p.name, |sh.heads|))
  {
    hide Home, Chain;
    var q, c := p.slot.id, |sh.heads|;
    var j := Home(sh.names[q], c);
    ChainIncreasing(sh.names, c, j);
    ChainHolds(sh.names, c, j);
    LinkIsNext(sh.heads[j], Chain(sh.names, c, j), sh.links, q, p.id);
  }

  /** A link field not yet touched by the resize still leads through the old chain. */
  lemma UnmovedReread(sh: Shared, i: nat, d: nat, node: Pointer, newHeads: seq<Pointer>, links: seq<Pointer>, p: Point)
    requires |sh.heads| > 0 && p.AtReturn? && PointInv(sh, p) && p.slot.NextSlot?
    requires Rehashing(sh.names, i, d, sh.heads, node, newHeads, links)
    ensures !HasMoved(sh, i, d, p.slot.id) ==>
              (links[p.slot.id] == Some(p.id) <==> Home(sh.names[p.slot.id], |sh.heads|) == Home(p.name, |sh.heads|))
  {
    hide Home, Chain, Moved, Partial, Linked;
    if !HasMoved(sh, i, d, p.slot.id) {
      UnmovedLink(sh.names, i, d, sh.heads, node, newHeads, links, p.slot.id, p.id);
    }
  }

  /** ... and a moved one leads through the new chain, as far as that chain has been built. */
  lemma MovedReread(sh: Shared, i: nat, d: nat, node: Pointer, newHeads: seq<Pointer>, links: seq<Pointer>, p: Point)
    requires |sh.heads| > 0 && p.AtReturn? && PointInv(sh, p) && p.slot.NextSlot?
    requires Rehashing(sh.names, i, d, sh.heads, node, newHeads, links)
    ensures HasMoved(sh, i, d, p.slot.id) ==>
              (links[p.slot.id] == Some(p.id) <==>
               HasMoved(sh, i, d, p.id) && Home(sh.names[p.slot.id], 2 * |sh.heads|) == Home(p.name, 2 * |sh.heads|))
  {
    hide Home, Chain, Moved, Partial, Linked;
    var q, c := p.slot.id, |sh.heads|;
    if HasMoved(sh, i, d, q) {
      MovedLink(sh.names, i, d, sh.heads, node, newHeads, links, q, p.id);
      forall x | 0 <= x < |sh.names| ensures Home(sh.names[x], 2 * c) % c == Home(sh.names[x], c) {
        HomeHalves(sh.names[x], c);
      }
    }
  }

  lemma CutReread(sh: Shared, m: Point, p: Point, c0: nat)
    requires |sh.heads| > 0 && p.AtReturn? && PointInv(sh, p) && p.slot.NextSlot?
    requires m.Cutting? && ResizeInv(sh, m, c0)
    ensures var q, c := p.slot.id, |sh.heads|;
            q < |sh.names| && (sh.links[q] == Some(p.id) <==>
                               if HasMoved(sh, m.i, m.d, q)
                               then HasMoved(sh, m.i, m.d + 1, p.id) && Home(sh.names[q], 2 * c) == Home(p.name, 2 * c)
                               else Home(sh.names[q], c) == Home(p.name, c))
  {
    hide Home, Chain, Partial, Linked;
    var q, c := p.slot.id, |sh.heads|;
    assert q < |sh.names|;
    hide Remembers;
    var heads0, links0 := StoreHeads(m.newHeads, m.slot, None), StoreLinks(sh.links, m.slot, None);
    MoveKeepsRehashing(sh.names, m.i, m.d, sh.heads, Some(m.id), heads0, links0);
    SlotIsMoved(sh, m.i, m.d, m.id);
    UnmovedReread(sh, m.i, m.d, Some(m.id), heads0, links0, p);
    MovedReread(sh, m.i, m.d + 1, links0[m.id], m.newHeads, AppendLinks(links0, m.slot, m.id), p);
    assert Chain(sh.names, c, m.i)[..m.d + 1] == Chain(sh.names, c, m.i)[..m.d] + [m.id];
    NextIsUnmoved(sh.names, c, m.i, m.d, 0);
  }

  lemma SlotIsMoved(sh: Shared, i: nat, d: nat, id: nat)
    requires |sh.heads| > 0 && id < |sh.names| && i < |sh.heads| && d < |Chain(sh.names, |sh.heads|, i)|
    requires id == Chain(sh.names, |sh.heads|, i)[d]
    ensures !HasMoved(sh, i, d, id)
    ensures NewTail(sh, i, d, id).NextSlot? ==> HasMoved(sh, i, d, NewTail(sh, i, d, id).id)
  {
    hide Home, Chain, Partial;
    var c := |sh.heads|;
    var j := Home(sh.names[id], 2 * c);
    var ids := Partial(sh.names, c, i, d, j);
    NextIsUnmoved(sh.names, c, i, d, j);
    ChainIncreasing(sh.names, c, i);
    if ids != [] {
      PartialHoldsMoved(sh.names, c, i, d, j, ids[|ids| - 1]);
    }
  }

  lemma ResizeReread(sh: Shared, m: Point, p: Point, c0: nat)
    requires |sh.heads| > 0 && |sh.links| == |sh.names| && p.AtReturn? && PointInv(sh, p) && p.slot.NextSlot?
    requires InResize(m) && ResizeInv(sh, m, c0)
    ensures var q, c := p.slot.id, |sh.heads|;
            q < |sh.names| && (Content(sh, p.slot, p.generation) == Some(p.id) <==>
                               if HasMoved(sh, m.i, m.d, q)
                               then
                                 && HasMoved(sh, m.i, Reached(m), p.id)
                                 && Home(sh.names[q], 2 * c) == Home(p.name, 2 * c)
                               else Home(sh.names[q], c) == Home(p.name, c))
  {
    hide Home, Chain, Moved, Partial, Rehashing, StoreHeads, StoreLinks;
    var q := p.slot.id;
    match m
    case Moving(_, i, d, node, newHeads) =>
      UnmovedReread(sh, i, d, node, newHeads, sh.links, p);
      MovedReread(sh, i, d, node, newHeads, sh.links, p);
    case Cutting(_, i, d, id, slot, newHeads) =>
      CutReread(sh, m, p, c0);
  }

  /** The writer in a resize is the one that CutOff and Relinked speak of. */
  lemma OneWriter(s: System, w: Tid, x: nat)
    requires Exclusive(s.threads) && w in s.threads && InResize(s.threads[w])
    ensures CutOff(s, x) <==> HasMoved(s.sh, s.threads[w].i, s.threads[w].d, x)
    ensures Relinked(s, x) <==> HasMoved(s.sh, s.threads[w].i, Reached(s.threads[w]), x)
  {
    hide HasMoved;
  }

  /** What the invariant gives for a pending return, without the points of the other threads. */
  lemma ReturnInv(s: System, t: Tid, c0: nat)
    requires Inv(s, c0) && t in s.threads && s.threads[t].AtReturn?
    ensures |s.sh.heads| > 0 && |s.sh.links| == |s.sh.names| && Distinct(s.sh.names) && Exclusive(s.threads)
    ensures PointInv(s.sh, s.threads[t]) && s.threads[t].id < |s.sh.names|
    ensures s.sh.names[s.threads[t].id] == s.threads[t].name
    ensures NoResize(s.threads) ==> QuietInv(s.sh, c0)
    ensures forall b :: 0 <= b < |s.sh.heads| ==> s.sh.heads[b] == At(Chain(s.sh.names, |s.sh.heads|, b), 0)
  {
    hide Home, Chain, Rehashing, Distinct, RegistryRuns.Pow2, Remembers, StoreHeads, StoreLinks;
    if NoResize(s.threads) {
      forall b | 0 <= b < |s.sh.heads| ensures s.sh.heads[b] == At(Chain(s.sh.names, |s.sh.heads|, b), 0) {
        assert Linked(s.sh.heads[b], Chain(s.sh.names, |s.sh.heads|, b), s.sh.links);
      }
    } else {
      var w :| w in s.threads && InResize(s.threads[w]);
      assert ResizeInv(s.sh, s.threads[w], c0);
    }
  }

  /**
   The read of `*p_node` after the unlock, in every reachable state, also between the two stores of a
   move: it gives the inserted logger exactly when the slot is stable.
   */
  lemma RereadExact(s: System, t: Tid, c0: nat)
    requires Inv(s, c0) && t in s.threads && s.threads[t].AtReturn?
    ensures var p := s.threads[t];
            Reread(s.sh, p.slot, p.generation) == Logger(p.id) <==> Stable(s, p)
  {
    hide QuietInv, ResizeInv, Home, Chain, Remembers, HasMoved;
    var p := s.threads[t];
    ReturnInv(s, t, c0);
    if p.slot.BucketSlot? {
      BucketReread(s.sh, p);
    } else if NoResize(s.threads) {
      QuietReread(s.sh, p, c0);
    } else {
      var w :| w in s.threads && InResize(s.threads[w]);
      OneWriter(s, w, p.slot.id);
      OneWriter(s, w, p.id);
      ResizeReread(s.sh, s.threads[w], p, c0);
    }
  }

  lemma RereadInEveryRun(policy: Registry.Policy, c0: nat, schedule: seq<Action>, t: Tid)
    requires c0 > 0
    ensures var s := Run(Start(policy, c0), schedule);
            t in s.threads && s.threads[t].AtReturn? ==>
              var p := s.threads[t];
              Reread(s.sh, p.slot, p.generation) == Logger(p.id) <==> Stable(s, p)
  {
    hide Inv, Run, Reread, Stable;
    StartInv(policy, c0);
    RunKeepsInv(Start(policy, c0), schedule, c0);
    var s := Run(Start(policy, c0), schedule);
    if t in s.threads && s.threads[t].AtReturn? {
      RereadExact(s, t, c0);
    }
  }

  // ---------- The results ----------

  /** The entry tells the truth: the call failed, or its logger carries the requested name. */
  predicate Truthful(names: seq<Name>, e: Entry) {
    !e.result.Broken? && (e.result.Logger? ==> e.result.id < |names| && names[e.result.id] == e.name)
  }

  ghost predicate AllTruthful(s: System) {
    forall k :: 0 <= k < |s.log| ==> Truthful(s.sh.names, s.log[k])
  }

  /** The step is not a read of a slot that has moved on. */
  ghost predicate CleanStep(s: System, a: Action) {
    a.Return? && Enabled(s, a) ==> Stable(s, s.threads[a.t])
  }

  ghost predicate CleanRun(s: System, schedule: seq<Action>)
    decreases |schedule|
  {
    schedule == [] || (CleanStep(s, schedule[0]) && CleanRun(Step(s, schedule[0]), schedule[1..]))
  }

  /** The entries that a step adds are truthful exactly when the step is clean. */
  lemma StepTruth(s: System, a: Action, c0: nat)
    requires Inv(s, c0)
    ensures s.log <= Step(s, a).log
    ensures (forall k :: |s.log| <= k < |Step(s, a).log| ==> Truthful(Step(s, a).sh.names, Step(s, a).log[k])) <==>
            CleanStep(s, a)
  {
    hide Inv, Home, Chain, Lookup, Stable, Truncate, Reread, Move, Cut, WithChannel;
    if Enabled(s, a) {
      match a
      case WriteSection(t, mem) => WriteTruth(s, t, mem, c0);
      case MoveNode(t) => MoveKeepsLog(s, t);
      case CutNode(t) => CutKeepsLog(s, t);
      case Return(t) =>
        ReturnTruth(s, t, c0);
        var p := s.threads[t];
        assert Step(s, a).log[|s.log|] == Entry(t, p.name, Reread(s.sh, p.slot, p.generation));
      case _ =>
    }
  }

  lemma MoveKeepsLog(s: System, t: Tid)
    requires |s.sh.heads| > 0 && t in s.threads && s.threads[t].Moving?
    ensures var m := s.threads[t]; Move(s, t, m.name, m.i, m.d, m.p, m.newHeads).log == s.log
  {
    hide Home, Chain, NewTail, StoreHeads, StoreLinks;
  }

  lemma CutKeepsLog(s: System, t: Tid)
    requires t in s.threads && s.threads[t].Cutting?
    ensures var m := s.threads[t]; Cut(s, t, m.name, m.i, m.d, m.id, m.newHeads).log == s.log
  {
  }

  lemma WriteTruth(s: System, t: Tid, mem: Registry.Memory, c0: nat)
    requires Inv(s, c0) && |s.sh.heads| > 0 && t in s.threads && s.threads[t].Writing?
    ensures var u := Write(s, t, s.threads[t].name, mem);
            s.log <= u.log && forall k :: |s.log| <= k < |u.log| ==> Truthful(u.sh.names, u.log[k])
  {
    hide Home, Chain, Lookup, WithChannel, TailSlot, ResizeInv, QuietInv, Remembers;
    Basics(s, c0);
    LookupExact(s.sh.names, |s.sh.heads|, s.threads[t].name);
  }

  lemma ReturnTruth(s: System, t: Tid, c0: nat)
    requires Inv(s, c0) && t in s.threads && s.threads[t].AtReturn?
    ensures var p := s.threads[t];
            Truthful(s.sh.names, Entry(t, p.name, Reread(s.sh, p.slot, p.generation))) <==> Stable(s, p)
  {
    hide Inv, Home, Chain, Stable, Reread, Remembers;
    ReturnInv(s, t, c0);
    RereadExact(s, t, c0);
  }

  lemma TruthLasts(s: System, t: System)
    requires s.sh.names <= t.sh.names && s.log <= t.log
    requires forall k :: 0 <= k < |s.log| && s.log[k].result.Logger? ==> s.log[k].result.id < |s.sh.names|
    ensures AllTruthful(t) <==> AllTruthful(s) && forall k :: |s.log| <= k < |t.log| ==> Truthful(t.sh.names, t.log[k])
  {
    forall k | 0 <= k < |s.log|
      ensures Truthful(s.sh.names, s.log[k]) <==> Truthful(t.sh.names, t.log[k])
    {
      assert t.log[k] == s.log[k];
    }
  }

  lemma InvLog(s: System, c0: nat)
    requires Inv(s, c0)
    ensures Distinct(s.sh.names)
    ensures forall k :: 0 <= k < |s.log| && s.log[k].result.Logger? ==> s.log[k].result.id < |s.sh.names|
  {
    hide ResizeInv, QuietInv, PointInv;
  }

  /**
   All results of a run are right (no dangling pointer, and every logger carries the name that was
   asked for) exactly when every read after an unlock found its slot stable.
   */
  lemma {:induction false} ResultsRightIffClean(s: System, schedule: seq<Action>, c0: nat)
    requires Inv(s, c0)
    ensures AllTruthful(Run(s, schedule)) <==> AllTruthful(s) && CleanRun(s, schedule)
    decreases |schedule|
  {
    hide Inv, Step, AllTruthful, CleanStep;
    if schedule == [] {
    } else {
      var t := Step(s, schedule[0]);
      StepKeepsInv(s, schedule[0], c0);
      StepKeepsPolicy(s, schedule[0]);
      StepTruth(s, schedule[0], c0);
      InvLog(s, c0);
      TruthLasts(s, t);
      ResultsRightIffClean(t, schedule[1..], c0);
    }
  }

  /** Two calls that were answered with loggers asked for one stored name exactly when they got the same logger. */
  lemma SameNameSameLogger(s: System, schedule: seq<Action>, c0: nat, i: nat, j: nat)
    requires Inv(s, c0) && AllTruthful(s) && CleanRun(s, schedule)
    requires i < |Run(s, schedule).log| && j < |Run(s, schedule).log|
    requires Run(s, schedule).log[i].result.Logger? && Run(s, schedule).log[j].result.Logger?
    ensures Run(s, schedule).log[i].name == Run(s, schedule).log[j].name <==>
            Run(s, schedule).log[i].result == Run(s, schedule).log[j].result
  {
    hide Inv, Step, Run, CleanRun;
    var t := Run(s, schedule);
    ResultsRightIffClean(s, schedule, c0);
    RunKeepsInv(s, schedule, c0);
    InvLog(t, c0);
    assert Truthful(t.sh.names, t.log[i]) && Truthful(t.sh.names, t.log[j]);
  }

  /**
   What a late return gives once the table is at rest again, when its slot is a link field: the next
   channel registered after the holder of the slot in the holder's bucket, whatever its name.
   */
  lemma LateReturnGives(s: System, t: Tid, c0: nat, k: nat)
    requires Inv(s, c0) && NoResize(s.threads) && t in s.threads
    requires s.threads[t].AtReturn? && s.threads[t].slot.NextSlot? && k < |s.sh.names|
    ensures var p, names, c := s.threads[t], s.sh.names, |s.sh.heads|;
            var q := p.slot.id;
            && c > 0 && q < |names|
            && (Reread(s.sh, p.slot, p.generation) == Logger(k) <==>
                && q < k && Home(names[k], c) == Home(names[q], c)
                && forall x :: q < x < k ==> Home(names[x], c) != Home(names[q], c))
  {
    hide Inv, Home, Chain, Linked;
    ReturnInv(s, t, c0);
    var q, c := s.threads[t].slot.id, |s.sh.heads|;
    var j := Home(s.sh.names[q], c);
    ChainIncreasing(s.sh.names, c, j);
    ChainHolds(s.sh.names, c, j);
    LinkIsNext(s.sh.heads[j], Chain(s.sh.names, c, j), s.sh.links, q, k);
  }

  /** Dynamic policy: a return before the next resize begins is clean. */
  lemma ReturnBeforeResizeIsClean(s: System, t: Tid, c0: nat)
    requires Inv(s, c0) && t in s.threads && s.threads[t].AtReturn?
    requires s.threads[t].generation == s.sh.generation && NoResize(s.threads)
    ensures CleanStep(s, Return(t))
  {
    hide Inv, Home, Chain, QuietInv;
    ReturnInv(s, t, c0);
  }

  /** Thread 0 has registered the only channel `x` and not yet returned. */
  function Suspended(x: Name): System {
    var parked := map[0 := AtReturn(x, 0, BucketSlot(0), 0)];
    System(Shared(Registry.DynamicSize, [x], [Some(0)], [None], 0, 0, 0), parked, [])
  }

  lemma FirstChannelSuspends(a: Name)
    ensures var ok := Registry.Memory(true, true);
            var s1 := Step(Start(Registry.DynamicSize, 1), Call(0, a));
            Step(Step(Step(Step(s1, EnterRead(0)), ReadNode(0)), EnterWrite(0)), WriteSection(0, ok)) ==
            Suspended(Truncate(a))
  {
    hide Truncate, HashOf;
    var x := Truncate(a);
    var s2 := Step(Step(Start(Registry.DynamicSize, 1), Call(0, a)), EnterRead(0));
    assert s2.threads == map[0 := Reading(x, None)];
    var s4 := Step(Step(s2, ReadNode(0)), EnterWrite(0));
    assert s4.threads == map[0 := Writing(x)];
    var s5 := Step(s4, WriteSection(0, Registry.Memory(true, true)));
    assert s5.threads == Suspended(x).threads;
    assert s5.sh.heads == [Some(0)] && s5.sh.links == [None] && s5.sh.names == [x];
  }

  lemma SecondChannelMisses(x: Name, b: Name)
    requires x != Truncate(b)
    ensures var s2 := Step(Step(Suspended(x), Call(1, b)), EnterRead(1));
            Step(Step(Step(s2, ReadNode(1)), ReadNode(1)), EnterWrite(1)) ==
            Suspended(x).(threads := Suspended(x).threads[1 := Writing(Truncate(b))])
  {
    hide Truncate, HashOf, Chain;
    var y := Truncate(b);
    var s2 := Step(Step(Suspended(x), Call(1, b)), EnterRead(1));
    assert s2.threads == Suspended(x).threads[1 := Reading(y, Some(0))];
    var s3 := Step(s2, ReadNode(1));
    assert s3.threads == Suspended(x).threads[1 := Reading(y, None)];
    var s5 := Step(Step(s3, ReadNode(1)), EnterWrite(1));
    assert s5.threads == Suspended(x).threads[1 := Writing(y)];
  }

  lemma OneChannelOneBucket(x: Name)
    ensures Chain([x], 1, 0) == [0]
  {
    hide HashOf;
    ChainAppend([], x, 1, 0);
    assert [] + [x] == [x];
  }

  lemma SecondChannelDoubles(x: Name, y: Name)
    requires x != y
    ensures var s5 := Suspended(x).(threads := Suspended(x).threads[1 := Writing(y)]);
            var s8 := Step(Step(Step(s5, WriteSection(1, Registry.Memory(true, true))), MoveNode(1)), CutNode(1));
            var s9 := Step(s8, MoveNode(1));
            s9.sh.generation == 1 && s9.threads == Suspended(x).threads[1 := AtStart(y)] && s9.log == []
            && |s9.sh.heads| == 2
  {
    hide HashOf, Chain, Lookup, Select;
    var s5 := Suspended(x).(threads := Suspended(x).threads[1 := Writing(y)]);
    LookupExact([x], 1, y);
    OneChannelOneBucket(x);
    var s6 := Step(s5, WriteSection(1, Registry.Memory(true, true)));
    assert s6.threads[1].Moving? && s6.threads[1].newHeads == [None, None];
    assert s6.threads == Suspended(x).threads[1 := Moving(y, 0, 0, Some(0), [None, None])];
    var slot := NewTail(s6.sh, 0, 0, 0);
    assert Partial([x], 1, 0, 0, Home(x, 2)) == [] by {
      assert Chain([x], 1, 0)[..0] == [];
      EmptySelect([x], 2, Home(x, 2));
    }
    var s7 := Step(s6, MoveNode(1));
    assert s7.threads == Suspended(x).threads[1 := Cutting(y, 0, 0, 0, slot, StoreHeads([None, None], slot, Some(0)))];
    var s8 := Step(s7, CutNode(1));
    assert s8.threads == Suspended(x).threads[1 := Moving(y, 0, 1, None, StoreHeads([None, None], slot, Some(0)))];
    var s9 := Step(s8, MoveNode(1));
    assert s9.threads == Suspended(x).threads[1 := AtStart(y)];
  }

  lemma EmptySelect(names: seq<Name>, c: nat, j: nat)
    requires c > 0
    ensures Select(names, [], c, j) == []
  {
  }

  /**
   Other schedules exist: thread 0 registers the first channel and is suspended before it returns;
   thread 1 asks for another channel and doubles the table; thread 0 then reads a freed bucket.
   */
  lemma LateReturnIsWrong(a: Name, b: Name)
    requires Truncate(a) != Truncate(b)
    ensures var ok := Registry.Memory(true, true);
            var s1 := Step(Start(Registry.DynamicSize, 1), Call(0, a));
            var s5 := Step(Step(Step(Step(s1, EnterRead(0)), ReadNode(0)), EnterWrite(0)), WriteSection(0, ok));
            var s7 := Step(Step(s5, Call(1, b)), EnterRead(1));
            var s10 := Step(Step(Step(s7, ReadNode(1)), ReadNode(1)), EnterWrite(1));
            var s14 := Step(Step(Step(Step(s10, WriteSection(1, ok)), MoveNode(1)), CutNode(1)), MoveNode(1));
            Step(s14, Return(0)).log == [Entry(0, Truncate(a), Broken)]
  {
    hide Truncate, HashOf, WithChannel, Write, Move, Cut, Hop, Home, Chain;
    FirstChannelSuspends(a);
    SecondChannelMisses(Truncate(a), b);
    SecondChannelDoubles(Truncate(a), Truncate(b));
  }

  // ---------- The fixed policy ----------

  /** Without resizes there is one generation for ever. */
  lemma FixedInv(s: System, c0: nat)
    requires Inv(s, c0) && s.sh.policy == Registry.FixedSize
    ensures s.sh.generation == 0 && NoResize(s.threads) && QuietInv(s.sh, c0) && |s.sh.heads| > 0
    ensures forall t :: t in s.threads && s.threads[t].AtReturn? ==> s.threads[t].generation == 0
  {
    hide Home, Chain, Rehashing, Remembers;
  }

  /** Under the fixed policy no slot ever moves on, so every run is clean. */
  lemma {:induction false} FixedRunsAreClean(s: System, schedule: seq<Action>, c0: nat)
    requires Inv(s, c0) && s.sh.policy == Registry.FixedSize
    ensures CleanRun(s, schedule)
    decreases |schedule|
  {
    hide Inv, Step, Stable, QuietInv;
    if schedule == [] {
    } else {
      var a := schedule[0];
      FixedInv(s, c0);
      if a.Return? && Enabled(s, a) {
        ReturnBeforeResizeIsClean(s, a.t, c0);
      }
      StepKeepsInv(s, a, c0);
      StepKeepsPolicy(s, a);
      FixedRunsAreClean(Step(s, a), schedule[1..], c0);
    }
  }

  /** Fixed policy: in every interleaving every result is right, and one name means one logger. */
  lemma FixedResults(c0: nat, schedule: seq<Action>, i: nat, j: nat)
    requires c0 > 0
    requires i < |Run(Start(Registry.FixedSize, c0), schedule).log|
            && j < |Run(Start(Registry.FixedSize, c0), schedule).log|
    ensures var s := Run(Start(Registry.FixedSize, c0), schedule);
            && AllTruthful(s)
            && (s.log[i].result.Logger? && s.log[j].result.Logger? ==>
                  (s.log[i].name == s.log[j].name <==> s.log[i].result == s.log[j].result))
  {
    var s := Start(Registry.FixedSize, c0);
    hide Step, Run, CleanRun, Inv;
    StartInv(Registry.FixedSize, c0);
    FixedRunsAreClean(s, schedule, c0);
    ResultsRightIffClean(s, schedule, c0);
    if Run(s, schedule).log[i].result.Logger? && Run(s, schedule).log[j].result.Logger? {
      SameNameSameLogger(s, schedule, c0, i, j);
    }
  }

  /** An insertion writes one slot that held nothing, and the link of the new node. */
  lemma InsertWritesFreeSlot(sh: Shared, name: Name, slot: Slot, c0: nat)
    requires |sh.heads| > 0 && QuietInv(sh, c0) && Content(sh, slot, sh.generation).Some?
    ensures Content(WithChannel(sh, name), slot, sh.generation) == Content(sh, slot, sh.generation)
  {
    hide Home, Chain;
    var j := Home(name, |sh.heads|);
    assert Linked(sh.heads[j], Chain(sh.names, |sh.heads|, j), sh.links);
  }

  lemma FixedStepWritesOnce(s: System, a: Action, c0: nat, slot: Slot)
    requires Inv(s, c0) && s.sh.policy == Registry.FixedSize && Content(s.sh, slot, 0).Some?
    ensures Content(Step(s, a).sh, slot, 0) == Content(s.sh, slot, 0)
  {
    hide Inv, Home, Chain, Lookup, WithChannel, TailSlot, Truncate, Reread, Move, Cut, QuietInv, Content;
    FixedInv(s, c0);
    InsertWritesFreeSlot(s.sh, if a.WriteSection? && Enabled(s, a) then s.threads[a.t].name else [], slot, c0);
  }

  /** Under the fixed policy a slot is written once: what it points to, it points to for ever. */
  lemma {:induction false} FixedSlotsAreWrittenOnce(s: System, schedule: seq<Action>, c0: nat, slot: Slot)
    requires Inv(s, c0) && s.sh.policy == Registry.FixedSize && Content(s.sh, slot, 0).Some?
    ensures Content(Run(s, schedule).sh, slot, 0) == Content(s.sh, slot, 0)
    decreases |schedule|
  {
    hide Inv, Step, Content;
    if schedule == [] {
    } else {
      FixedStepWritesOnce(s, schedule[0], c0, slot);
      StepKeepsInv(s, schedule[0], c0);
      StepKeepsPolicy(s, schedule[0]);
      FixedSlotsAreWrittenOnce(Step(s, schedule[0]), schedule[1..], c0, slot);
    }
  }

  lemma FixedSlotsInEveryRun(c0: nat, first: seq<Action>, rest: seq<Action>, slot: Slot)
    requires c0 > 0
    ensures var s := Run(Start(Registry.FixedSize, c0), first);
            Content(s.sh, slot, 0).Some? ==> Content(Run(s, rest).sh, slot, 0) == Content(s.sh, slot, 0)
  {
    hide Inv, Run, Content;
    StartInv(Registry.FixedSize, c0);
    RunKeepsInv(Start(Registry.FixedSize, c0), first, c0);
    RunKeepsPolicy(Start(Registry.FixedSize, c0), first);
    var s := Run(Start(Registry.FixedSize, c0), first);
    if Content(s.sh, slot, 0).Some? {
      FixedSlotsAreWrittenOnce(s, rest, c0, slot);
    }
  }
}
