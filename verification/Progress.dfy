/**
 Concurrent get-or-create makes progress: a schedule can take only so many steps for its calls, resizes
 and restarts included, and as long as a call is unfinished some thread can take one.
 */
module Progress {
  import opened Layout
  import opened Links
  import opened Names
  import opened Threads
  import Registry
  import RegistryRuns

  // ---------- Sums over threads ----------

  ghost function Sum(m: map<Tid, nat>): nat
    decreases |m.Keys|
  {
    if m == map[] then 0
    else
      var t :| t in m;
      assert (m - {t}).Keys == m.Keys - {t};
      m[t] + Sum(m - {t})
  }

  lemma {:induction false} SumTakes(m: map<Tid, nat>, t: Tid)
    requires t in m
    ensures Sum(m) == m[t] + Sum(m - {t})
    decreases |m.Keys|
  {
    var u :| u in m && Sum(m) == m[u] + Sum(m - {u});
    if u != t {
      assert (m - {u}).Keys == m.Keys - {u} && (m - {t}).Keys == m.Keys - {t};
      SumTakes(m - {u}, t);
      SumTakes(m - {t}, u);
      assert m - {u} - {t} == m - {t} - {u};
    }
  }

  function Weights(threads: map<Tid, Point>, weight: Point -> nat): map<Tid, nat> {
    map t | t in threads :: weight(threads[t])
  }

  /** The weight of all threads together. */
  ghost function Total(threads: map<Tid, Point>, weight: Point -> nat): nat {
    Sum(Weights(threads, weight))
  }

  function WeightOf(threads: map<Tid, Point>, t: Tid, weight: Point -> nat): nat {
    if t in threads then weight(threads[t]) else 0
  }

  lemma TotalWithout(threads: map<Tid, Point>, t: Tid, weight: Point -> nat)
    ensures Total(threads, weight) == Total(threads - {t}, weight) + WeightOf(threads, t, weight)
  {
    if t in threads {
      SumTakes(Weights(threads, weight), t);
      assert Weights(threads, weight) - {t} == Weights(threads - {t}, weight);
    } else {
      assert threads - {t} == threads;
    }
  }

  // ---------- The steps that are left ----------

  /**
   A bound on the steps that a thread still takes up to its next resize or its end, if there are never
   more than `n` names: a walk visits each node once, and a resize counts its buckets.
   */
  function Weight(p: Point, n: nat): nat {
    match p
    case AtStart(_) => 2 * n + 7
    case Reading(_, node) => n + 6 + if node.Some? && node.value <= n then n - node.value else 0
    case AtGap(_) => n + 5
    case Writing(_) => n + 4
    case Moving(_, i, _, _, _) => 2 + if i <= n then n - i else 0
    case Cutting(_, i, _, _, _, _) => 3 + if i <= n then n - i else 0
    case AtReturn(_, _, _, _) => 1
  }

  function WeightIn(n: nat): Point -> nat {
    p => Weight(p, n)
  }

  /** The nodes still to be moved in all resizes, and the restarts still to come, at their cost. */
  function Budget(sh: Shared, n: nat): nat
    requires sh.moves <= 2 * n && sh.generation <= 2 * n
  {
    2 * (2 * n - sh.moves) + (2 * n + 7) * (2 * n - sh.generation)
  }

  ghost predicate Affordable(sh: Shared, n: nat) {
    |sh.names| <= n && sh.moves <= 2 * n && sh.generation <= 2 * n
  }

  ghost function Potential(s: System, n: nat): nat
    requires Affordable(s.sh, n)
  {
    Total(s.threads, WeightIn(n)) + Budget(s.sh, n)
  }

  lemma Pow2IsLarge(k: nat)
    ensures RegistryRuns.Pow2(k) >= k + 1
  {
  }

  lemma Times(a: nat, b: nat)
    requires a > 0
    ensures a * b >= b
  {
  }

  /** There are never more resizes than twice the names. */
  lemma InvIsAffordable(s: System, c0: nat, n: nat)
    requires Inv(s, c0) && |s.sh.names| <= n
    ensures Affordable(s.sh, n)
  {
    hide PointInv, QuietInv, ResizeInv, RegistryRuns.Pow2;
    MovesAreFew(s, c0);
    Pow2IsLarge(s.sh.generation);
    Times(c0, RegistryRuns.Pow2(s.sh.generation));
  }

  lemma OneLess(k: nat, x: nat)
    requires x > 0
    ensures k * x == k * (x - 1) + k
  {
  }

  /** What a move or a restart costs. */
  lemma BudgetFalls(sh: Shared, after: Shared, n: nat)
    requires Affordable(sh, n) && Affordable(after, n)
    ensures after.moves == sh.moves && after.generation == sh.generation ==> Budget(after, n) == Budget(sh, n)
    ensures after.moves == sh.moves + 1 && after.generation == sh.generation ==> Budget(after, n) + 2 == Budget(sh, n)
    ensures after.moves == sh.moves && after.generation == sh.generation + 1 ==>
              Budget(after, n) + 2 * n + 7 == Budget(sh, n)
  {
    if after.generation == sh.generation + 1 {
      OneLess(2 * n + 7, 2 * n - sh.generation);
    }
  }

  /** A step that a thread can take, other than a call. */
  predicate Works(s: System, a: Action) {
    Enabled(s, a) && !a.Call?
  }

  lemma OthersStay(s: System, a: Action)
    ensures Step(s, a).threads - {a.t} == s.threads - {a.t}
  {
    hide Home, Chain, Lookup, TailSlot, NewTail, Truncate, Reread, StoreHeads, StoreLinks;
  }

  /** Where a reader is on the chain of its name. */
  lemma ReaderPlace(s: System, t: Tid, c0: nat) returns (j: nat, k: nat)
    requires Inv(s, c0) && t in s.threads && s.threads[t].Reading? && s.threads[t].p.Some?
    ensures |s.sh.links| == |s.sh.names| && j < |s.sh.heads|
    ensures var ids := Chain(s.sh.names, |s.sh.heads|, j);
            Linked(s.sh.heads[j], ids, s.sh.links) && k < |ids| && s.threads[t].p == At(ids, k)
  {
    hide Home, Chain, CountsInv, ResizeInv, Remembers, Linked;
    Basics(s, c0);
    assert NoResize(s.threads);
    var name := s.threads[t].name;
    j := Home(name, |s.sh.heads|);
    var ids := Chain(s.sh.names, |s.sh.heads|, j);
    assert Linked(s.sh.heads[j], ids, s.sh.links);
    assert PointInv(s.sh, s.threads[t]);
    k :| 0 <= k <= |ids| && s.threads[t].p == At(ids, k);
  }

  /** A walk goes to later and later nodes. */
  lemma ReaderGoesOn(s: System, t: Tid, c0: nat)
    requires Inv(s, c0) && t in s.threads && s.threads[t].Reading? && s.threads[t].p.Some?
    ensures var v := s.threads[t].p.value;
            && v < |s.sh.names|
            && var next := Content(s.sh, NextSlot(v), s.sh.generation);
               next.Some? ==> v < next.value < |s.sh.names|
  {
    hide Inv, Home, Chain;
    var j, k := ReaderPlace(s, t, c0);
    var ids := Chain(s.sh.names, |s.sh.heads|, j);
    ChainIncreasing(s.sh.names, |s.sh.heads|, j);
    assert s.sh.links[ids[k]] == At(ids, k + 1);
  }

  /** The weight that the thread of a step has afterwards. */
  function WeightAfter(s: System, a: Action, n: nat): nat {
    WeightOf(Step(s, a).threads, a.t, WeightIn(n))
  }

  lemma ReadCosts(s: System, t: Tid, c0: nat, n: nat)
    requires Inv(s, c0) && |s.sh.heads| > 0 && |s.sh.names| <= n && t in s.threads && s.threads[t].Reading?
    ensures WeightAfter(s, ReadNode(t), n) + 1 <= Weight(s.threads[t], n) && Step(s, ReadNode(t)).sh == s.sh
  {
    hide Inv, Home, Chain, Content;
    if s.threads[t].p.Some? {
      ReaderGoesOn(s, t, c0);
    }
  }

  lemma EnterCosts(s: System, t: Tid, c0: nat, n: nat)
    requires Inv(s, c0) && |s.sh.names| <= n && Enabled(s, EnterRead(t))
    ensures WeightAfter(s, EnterRead(t), n) + 1 <= Weight(s.threads[t], n) && Step(s, EnterRead(t)).sh == s.sh
  {
    hide Inv, Home, Chain;
  }

  lemma WriteCosts(s: System, t: Tid, mem: Registry.Memory, n: nat)
    requires Enabled(s, WriteSection(t, mem))
    ensures var u := Step(s, WriteSection(t, mem));
            && WeightAfter(s, WriteSection(t, mem), n) + 1 <= Weight(s.threads[t], n)
            && u.sh.moves == s.sh.moves && u.sh.generation == s.sh.generation
  {
    hide Home, Chain, Lookup, TailSlot, StoreHeads, StoreLinks;
  }

  lemma MoveCosts(s: System, t: Tid, c0: nat, n: nat)
    requires Inv(s, c0) && |s.sh.heads| > 0 && t in s.threads && s.threads[t].Moving?
    requires Affordable(s.sh, n) && Affordable(Step(s, MoveNode(t)).sh, n)
    ensures WeightAfter(s, MoveNode(t), n) + Budget(Step(s, MoveNode(t)).sh, n) + 1 <=
            Weight(s.threads[t], n) + Budget(s.sh, n)
  {
    hide Inv, Home, Chain, NewTail, StoreHeads, StoreLinks, Budget, ResizeInv;
    var m := s.threads[t];
    WriterInv(s, t, c0);
    FullInResize(s, t, c0);
    BudgetFalls(s.sh, Step(s, MoveNode(t)).sh, n);
    if m.p.Some? {
      FirstStoreKeepsResize(s.sh, m, c0);
    }
  }

  lemma FullInResize(s: System, t: Tid, c0: nat)
    requires Inv(s, c0) && t in s.threads && InResize(s.threads[t])
    ensures |s.sh.names| == |s.sh.heads|
  {
    hide Rehashing, Home, Chain, PointInv, StoreHeads, StoreLinks;
    assert ResizeInv(s.sh, s.threads[t], c0);
  }

  lemma CutCosts(s: System, t: Tid, n: nat)
    requires |s.sh.heads| > 0 && t in s.threads && s.threads[t].Cutting?
    ensures var u := Step(s, CutNode(t));
            && WeightAfter(s, CutNode(t), n) + 1 <= Weight(s.threads[t], n)
            && u.sh.moves == s.sh.moves && u.sh.generation == s.sh.generation
  {
    hide StoreLinks, Content;
  }

  /** A step uses up potential: its thread has less to do, or moves are fewer, or restarts are. */
  lemma StepCosts(s: System, a: Action, c0: nat, n: nat)
    requires Inv(s, c0) && Works(s, a) && Affordable(s.sh, n) && Affordable(Step(s, a).sh, n)
    ensures WeightAfter(s, a, n) + Budget(Step(s, a).sh, n) + 1 <= Weight(s.threads[a.t], n) + Budget(s.sh, n)
  {
    hide Inv, Home, Chain, Write, Move, Cut, Hop, Budget, Reread;
    BudgetFalls(s.sh, Step(s, a).sh, n);
    match a
    case EnterRead(t) => EnterCosts(s, t, c0, n);
    case ReadNode(t) => ReadCosts(s, t, c0, n);
    case WriteSection(t, mem) => WriteCosts(s, t, mem, n);
    case MoveNode(t) => MoveCosts(s, t, c0, n);
    case CutNode(t) => CutCosts(s, t, n);
    case _ =>
  }

  lemma StepLowersPotential(s: System, a: Action, c0: nat, n: nat)
    requires Inv(s, c0) && Affordable(s.sh, n) && Affordable(Step(s, a).sh, n)
    ensures Works(s, a) ==> Potential(Step(s, a), n) + 1 <= Potential(s, n)
    ensures Enabled(s, a) && a.Call? ==> Potential(Step(s, a), n) == Potential(s, n) + 2 * n + 7
    ensures !Enabled(s, a) ==> Potential(Step(s, a), n) == Potential(s, n)
  {
    hide Inv, Budget, Total, Truncate;
    var weight := WeightIn(n);
    OthersStay(s, a);
    TotalWithout(s.threads, a.t, weight);
    TotalWithout(Step(s, a).threads, a.t, weight);
    if Works(s, a) {
      StepCosts(s, a, c0, n);
    }
  }

  // ---------- The names that can come ----------

  function Open(): Point -> nat {
    (p: Point) => if p.AtReturn? then 0 else 1
  }

  /** The names registered, and those that the calls under way may add. */
  ghost function NamesToCome(s: System): nat {
    |s.sh.names| + Total(s.threads, Open())
  }

  lemma StepOpens(s: System, a: Action)
    ensures |Step(s, a).sh.names| + WeightOf(Step(s, a).threads, a.t, Open()) <=
            |s.sh.names| + WeightOf(s.threads, a.t, Open()) + if Enabled(s, a) && a.Call? then 1 else 0
  {
    hide Home, Chain, Lookup, TailSlot, NewTail, Truncate, Reread, StoreHeads, StoreLinks;
  }

  lemma StepKeepsNames(s: System, a: Action)
    ensures NamesToCome(Step(s, a)) <= NamesToCome(s) + if Enabled(s, a) && a.Call? then 1 else 0
  {
    hide Step, Total, Open, Enabled;
    OthersStay(s, a);
    TotalWithout(s.threads, a.t, Open());
    TotalWithout(Step(s, a).threads, a.t, Open());
    StepOpens(s, a);
  }

  // ---------- Schedules ----------

  /** The calls that a schedule makes. */
  function CallsMade(s: System, schedule: seq<Action>): nat
    decreases |schedule|
  {
    if schedule == [] then 0
    else
      (if Enabled(s, schedule[0]) && schedule[0].Call? then 1 else 0) + CallsMade(Step(s, schedule[0]), schedule[1..])
  }

  /** The steps that a schedule takes for them. */
  function StepsTaken(s: System, schedule: seq<Action>): nat
    decreases |schedule|
  {
    if schedule == [] then 0
    else (if Works(s, schedule[0]) then 1 else 0) + StepsTaken(Step(s, schedule[0]), schedule[1..])
  }

  lemma NamesFit(s: System, c0: nat, n: nat)
    requires Inv(s, c0) && NamesToCome(s) <= n
    ensures Affordable(s.sh, n)
  {
    hide Inv, Total;
    InvIsAffordable(s, c0, n);
  }

  lemma {:induction false} StepsAreBounded(s: System, schedule: seq<Action>, c0: nat, n: nat)
    requires Inv(s, c0) && NamesToCome(s) + CallsMade(s, schedule) <= n
    ensures Affordable(s.sh, n) && Affordable(Run(s, schedule).sh, n)
    ensures StepsTaken(s, schedule) + Potential(Run(s, schedule), n) <=
            Potential(s, n) + CallsMade(s, schedule) * (2 * n + 7)
    decreases |schedule|
  {
    hide Inv, Step, NamesToCome, Potential, Affordable, Works, Enabled;
    NamesFit(s, c0, n);
    if schedule == [] {
    } else {
      var a, u := schedule[0], Step(s, schedule[0]);
      StepKeepsInv(s, a, c0);
      StepKeepsNames(s, a);
      StepsAreBounded(u, schedule[1..], c0, n);
      StepLowersPotential(s, a, c0, n);
      assert Works(s, a) <==> Enabled(s, a) && !a.Call? by { WorksIs(s, a); }
      OneMore(CallsMade(u, schedule[1..]), 2 * n + 7);
    }
  }

  lemma WorksIs(s: System, a: Action)
    ensures Works(s, a) <==> Enabled(s, a) && !a.Call?
  {
  }

  lemma OneMore(x: nat, k: nat)
    ensures (1 + x) * k == k + x * k
  {
  }

  /** Not a new call; every allocation is as `mem` says. */
  predicate Continues(a: Action, mem: Registry.Memory) {
    !a.Call? && (a.WriteSection? ==> a.mem == mem)
  }

  /** From every state, the calls under way can be brought to their end without another call, whatever the memory. */
  lemma FinishAll(s: System, c0: nat, n: nat, mem: Registry.Memory) returns (schedule: seq<Action>)
    requires Inv(s, c0) && NamesToCome(s) <= n && Affordable(s.sh, n)
    ensures Run(s, schedule).threads == map[] && forall k :: 0 <= k < |schedule| ==> Continues(schedule[k], mem)
    decreases Potential(s, n)
  {
    hide Inv, Step, NamesToCome, Potential, Affordable, Enabled;
    if s.threads == map[] {
      schedule := [];
    } else {
      NoDeadlock(s, c0);
      var any :| Enabled(s, any) && !any.Call?;
      var a := if any.WriteSection? then WriteSection(any.t, mem) else any;
      if any.WriteSection? {
        MemoryIsFree(s, any, mem);
      }
      WorksIs(s, a);
      StepKeepsInv(s, a, c0);
      StepKeepsNames(s, a);
      NamesFit(Step(s, a), c0, n);
      StepLowersPotential(s, a, c0, n);
      var rest := FinishAll(Step(s, a), c0, n, mem);
      schedule := [a] + rest;
      assert schedule[1..] == rest;
    }
  }

  lemma MemoryIsFree(s: System, a: Action, mem: Registry.Memory)
    requires Enabled(s, a) && a.WriteSection?
    ensures Enabled(s, WriteSection(a.t, mem))
  {
  }

  lemma NothingToDo(s: System, c0: nat)
    requires Inv(s, c0)
    ensures (forall a :: !Works(s, a)) <==> s.threads == map[]
  {
    hide Inv;
    if s.threads != map[] {
      NoDeadlock(s, c0);
      var a :| Enabled(s, a) && !a.Call?;
      assert Works(s, a);
    }
  }

  /** A step that a thread can take changes the state. */
  lemma WorkChanges(s: System, a: Action, c0: nat)
    requires Inv(s, c0) && Works(s, a)
    ensures Step(s, a) != s
  {
    hide Inv, Step, NamesToCome, Potential, Affordable, Works;
    WorksIs(s, a);
    StepKeepsInv(s, a, c0);
    StepKeepsNames(s, a);
    NamesFit(s, c0, NamesToCome(s));
    NamesFit(Step(s, a), c0, NamesToCome(s));
    StepLowersPotential(s, a, c0, NamesToCome(s));
  }

  /**
   Who waits: a thread before its read section if and only if another is in a write section, and a thread
   before its write section if and only if another is in a section of either kind. No other thread waits.
   */
  lemma WaitsIff(s: System, t: Tid, c0: nat)
    requires Inv(s, c0) && t in s.threads
    ensures (forall a: Action :: a.t == t ==> Step(s, a) == s) <==>
            exists u :: u in s.threads &&
              var p := s.threads[u];
              || (s.threads[t].AtStart? && (p.Writing? || p.Moving? || p.Cutting?))
              || (s.threads[t].AtGap? && (p.Reading? || p.Writing? || p.Moving? || p.Cutting?))
  {
    hide Inv, Step;
    Basics(s, c0);
    if Works(s, NextAction(s, t)) {
      WorkChanges(s, NextAction(s, t), c0);
    } else {
      forall a: Action | a.t == t ensures Step(s, a) == s {
        CannotStep(s, a);
      }
    }
  }

  /** The one action that a thread inside can try. */
  function NextAction(s: System, t: Tid): Action
    requires t in s.threads
  {
    match s.threads[t]
    case AtStart(_) => EnterRead(t)
    case Reading(_, _) => ReadNode(t)
    case AtGap(_) => EnterWrite(t)
    case Writing(_) => WriteSection(t, Registry.Memory(true, true))
    case Moving(_, _, _, _, _) => MoveNode(t)
    case Cutting(_, _, _, _, _, _) => CutNode(t)
    case AtReturn(_, _, _, _) => Return(t)
  }

  lemma CannotStep(s: System, a: Action)
    requires a.t in s.threads && !Works(s, NextAction(s, a.t))
    ensures Step(s, a) == s
  {
  }

  lemma StartPotential(policy: Registry.Policy, c0: nat, n: nat)
    ensures NamesToCome(Start(policy, c0)) == 0 && Affordable(Start(policy, c0).sh, n)
    ensures Potential(Start(policy, c0), n) == 4 * n + (2 * n + 7) * (2 * n)
  {
    assert Weights(map[], WeightIn(n)) == map[] && Weights(map[], Open()) == map[];
  }

  /**
   A schedule that makes `n` calls takes at most 6n^2 + 25n steps for them. It can go on until every call
   is answered and without making another, and it must: a step is left as long as a call is unfinished.
   */
  lemma CallsEnd(policy: Registry.Policy, c0: nat, schedule: seq<Action>)
    requires c0 > 0
    ensures var n := CallsMade(Start(policy, c0), schedule);
            StepsTaken(Start(policy, c0), schedule) <= 6 * n * n + 25 * n
    ensures var s := Run(Start(policy, c0), schedule);
            && ((forall a :: !Works(s, a)) <==> s.threads == map[])
            && exists rest: seq<Action> ::
                 (forall k :: 0 <= k < |rest| ==> !rest[k].Call?) && Run(s, rest).threads == map[]
  {
    hide Inv, Step, Run, NamesToCome, Potential, Affordable, Works, CallsMade, StepsTaken;
    var start := Start(policy, c0);
    var n := CallsMade(start, schedule);
    StartInv(policy, c0);
    StartPotential(policy, c0, n);
    StepsAreBounded(start, schedule, c0, n);
    assert 4 * n + (2 * n + 7) * (2 * n) + n * (2 * n + 7) == 6 * n * n + 25 * n;
    RunKeepsInv(start, schedule, c0);
    var s := Run(start, schedule);
    NothingToDo(s, c0);
    NamesFit(s, c0, NamesToCome(s));
    var rest := FinishAll(s, c0, NamesToCome(s), Registry.Memory(true, true));
  }
}
