/**
 Enough buckets make the dynamic policy right: a table with a bucket for every name asked for never
 resizes, so no late read goes wrong.
 */
module EnoughBuckets {
  import opened LateReads
  import opened Layout
  import opened Links
  import opened Names
  import opened Options
  import opened Threads
  import Registry
  import RegistryRuns

  /** The stored names that the calls of a schedule ask for. */
  function NamesCalled(schedule: seq<Action>): set<Name>
    decreases |schedule|
  {
    if schedule == [] then {}
    else (if schedule[0].Call? then {Truncate(schedule[0].channel)} else {}) + NamesCalled(schedule[1..])
  }

  lemma RunConcat(s: System, first: seq<Action>, rest: seq<Action>)
    ensures Run(s, first + rest) == Run(Run(s, first), rest)
    decreases |first|
  {
    hide Step;
    if first == [] {
      assert first + rest == rest;
    } else {
      assert (first + rest)[1..] == first[1..] + rest;
      RunConcat(Step(s, first[0]), first[1..], rest);
    }
  }

  lemma NamesCalledConcat(first: seq<Action>, rest: seq<Action>)
    ensures NamesCalled(first + rest) == NamesCalled(first) + NamesCalled(rest)
    decreases |first|
  {
    if first == [] {
      assert first + rest == rest;
    } else {
      assert (first + rest)[1..] == first[1..] + rest;
      NamesCalledConcat(first[1..], rest);
    }
  }

  /** One more step at the end of a schedule. */
  lemma Then(s: System, first: seq<Action>, a: Action)
    ensures Run(s, first + [a]) == Step(Run(s, first), a)
    ensures NamesCalled(first + [a]) == NamesCalled(first) + if a.Call? then {Truncate(a.channel)} else {}
  {
    hide Step;
    RunConcat(s, first, [a]);
    NamesCalledConcat(first, [a]);
    assert [a][1..] == [];
  }

  // ---------- Managers before any call ----------

  /** The manager as init leaves it with a root channel. */
  function StartWithRoot(policy: Registry.Policy, c0: nat, root: Name): System
    requires c0 > 0
  {
    Start(policy, c0).(sh := WithChannel(Start(policy, c0).sh, Truncate(root)))
  }

  lemma StartWithRootInv(policy: Registry.Policy, c0: nat, root: Name)
    requires c0 > 0
    ensures var s := StartWithRoot(policy, c0, root);
            && Inv(s, c0) && s.sh.names == [Truncate(root)] && |s.sh.heads| == c0
            && s.sh.policy == policy && s.sh.generation == 0
  {
    hide Home, Chain, CountsInv, QuietInv, TailSlot;
    StartInv(policy, c0);
    InsertKeepsMemory(Start(policy, c0).sh, Truncate(root), c0);
    assert [] + [Truncate(root)] == [Truncate(root)];
  }

  /** It has the table of the sequential manager after its init. */
  lemma StartWithRootIsInitial(policy: Registry.Policy, c0: nat, lvl: int, root: Name)
    requires c0 > 0
    ensures var s := StartWithRoot(policy, c0, root).sh;
            var r := Registry.Initial(policy, c0, lvl, Some(root), Registry.Memory(true, true));
            s.policy == r.policy && s.names == r.names && |s.heads| == r.capacity
  {
    hide Registry.Get, Truncate, WithChannel;
    StartWithRootInv(policy, c0, root);
    RegistryRuns.GetOutcome(Registry.Fresh(policy, c0, lvl), root, Registry.Memory(true, true));
    assert [] + [Truncate(root)] == [Truncate(root)];
  }

  // ---------- No resize, no wrong answer ----------

  ghost predicate AsksWithin(s: System, asked: set<Name>) {
    && (forall n :: n in s.sh.names ==> n in asked)
    && forall t :: t in s.threads ==> s.threads[t].name in asked
  }

  /** There is a bucket for every name that is ever asked for, and every return speaks of the array in use. */
  ghost predicate Roomy(s: System, asked: set<Name>, g: nat) {
    && |asked| <= |s.sh.heads| && s.sh.generation == g && NoResize(s.threads) && AsksWithin(s, asked)
    && forall t :: t in s.threads && s.threads[t].AtReturn? ==> s.threads[t].generation == g
  }

  /** The table is full, twice its buckets are enough, and nobody waits to return. */
  ghost predicate Crowded(s: System, asked: set<Name>, g: nat) {
    && |s.sh.names| == |s.sh.heads| && |asked| <= 2 * |s.sh.heads| && s.sh.generation == g && AsksWithin(s, asked)
    && forall t :: t in s.threads ==> !s.threads[t].AtReturn?
  }

  /** A name that is not registered leaves room for itself. */
  lemma RoomForOneMore(names: seq<Name>, name: Name, asked: set<Name>)
    requires Distinct(names) && name !in names && name in asked && forall n :: n in names ==> n in asked
    ensures |names| < |asked|
  {
    var registered := set n | n in names;
    DistinctCardinality(names);
    SubsetSize(registered, asked - {name});
  }

  lemma SubsetSize(a: set<Name>, b: set<Name>)
    requires a <= b
    ensures |a| <= |b|
  {
    if a == {} {
    } else {
      var x :| x in a;
      SubsetSize(a - {x}, b - {x});
    }
  }

  lemma WriteKeepsRoomy(s: System, t: Tid, mem: Registry.Memory, c0: nat, asked: set<Name>, g: nat)
    requires Inv(s, c0) && Roomy(s, asked, g) && |s.sh.heads| > 0 && t in s.threads && s.threads[t].Writing?
    ensures Roomy(Write(s, t, s.threads[t].name, mem), asked, g)
  {
    hide Home, Chain, Lookup, TailSlot, StoreHeads, StoreLinks, AppendLinks, PointInv, ResizeInv, QuietInv;
    var name := s.threads[t].name;
    LookupExact(s.sh.names, |s.sh.heads|, name);
    if name !in s.sh.names {
      RoomForOneMore(s.sh.names, name, asked);
    }
  }

  lemma StepKeepsRoomy(s: System, a: Action, c0: nat, asked: set<Name>, g: nat)
    requires Inv(s, c0) && Roomy(s, asked, g) && (a.Call? ==> Truncate(a.channel) in asked)
    ensures Roomy(Step(s, a), asked, g)
  {
    hide Inv, Home, Chain, Write, Truncate, Reread, Move, Cut;
    if a.WriteSection? && Enabled(s, a) {
      WriteKeepsRoomy(s, a.t, a.mem, c0, asked, g);
    }
  }

  lemma WriteKeepsCrowded(s: System, t: Tid, mem: Registry.Memory, c0: nat, asked: set<Name>, g: nat)
    requires Inv(s, c0) && Crowded(s, asked, g) && |s.sh.heads| > 0 && t in s.threads && s.threads[t].Writing?
    ensures Crowded(Write(s, t, s.threads[t].name, mem), asked, g)
  {
    hide Home, Chain, Lookup, TailSlot, StoreHeads, StoreLinks, AppendLinks, PointInv, ResizeInv, QuietInv;
  }

  /** The end of the resize leaves enough buckets. */
  lemma MoveKeepsCrowded(s: System, t: Tid, c0: nat, asked: set<Name>, g: nat)
    requires Inv(s, c0) && Crowded(s, asked, g) && t in s.threads && s.threads[t].Moving?
    ensures var u := Step(s, MoveNode(t)); Crowded(u, asked, g) || Roomy(u, asked, g + 1)
  {
    hide Inv, Home, Chain, NewTail, StoreHeads, StoreLinks;
    PublishedLength(s, t, c0);
    WriterInv(s, t, c0);
    OnlyWriter(s, t, c0);
  }

  lemma OnlyWriter(s: System, t: Tid, c0: nat)
    requires Inv(s, c0) && t in s.threads && InWrite(s.threads[t])
    ensures forall w :: w in s.threads && w != t ==> !InWrite(s.threads[w])
  {
    hide CountsInv, PointInv, QuietInv, ResizeInv;
  }

  lemma StepKeepsCrowded(s: System, a: Action, c0: nat, asked: set<Name>, g: nat)
    requires Inv(s, c0) && Crowded(s, asked, g) && (a.Call? ==> Truncate(a.channel) in asked)
    ensures Crowded(Step(s, a), asked, g) || Roomy(Step(s, a), asked, g + 1)
  {
    hide Inv, Home, Chain, Write, Truncate, Reread, Move, Cut, Roomy;
    if Enabled(s, a) {
      match a
      case WriteSection(t, mem) => WriteKeepsCrowded(s, t, mem, c0, asked, g);
      case MoveNode(t) => MoveKeepsCrowded(s, t, c0, asked, g);
      case CutNode(t) => CutKeepsCrowded(s, t, asked, g);
      case _ =>
    }
  }

  lemma CutKeepsCrowded(s: System, t: Tid, asked: set<Name>, g: nat)
    requires Crowded(s, asked, g) && |s.sh.heads| > 0 && t in s.threads && s.threads[t].Cutting?
    ensures Crowded(Step(s, CutNode(t)), asked, g)
  {
    hide StoreLinks, Content;
  }

  lemma {:induction false} RoomyRunsAreClean(s: System, schedule: seq<Action>, c0: nat, asked: set<Name>, g: nat)
    requires Inv(s, c0) && Roomy(s, asked, g) && NamesCalled(schedule) <= asked
    ensures CleanRun(s, schedule) && Roomy(Run(s, schedule), asked, g)
    decreases |schedule|
  {
    hide Inv, Step, Stable, Truncate, PointInv;
    if schedule == [] {
    } else {
      var a := schedule[0];
      if a.Return? && Enabled(s, a) {
        ReturnBeforeResizeIsClean(s, a.t, c0);
      }
      StepKeepsInv(s, a, c0);
      StepKeepsRoomy(s, a, c0, asked, g);
      RoomyRunsAreClean(Step(s, a), schedule[1..], c0, asked, g);
    }
  }

  lemma {:induction false} CrowdedRunsAreClean(s: System, schedule: seq<Action>, c0: nat, asked: set<Name>, g: nat)
    requires Inv(s, c0) && Crowded(s, asked, g) && NamesCalled(schedule) <= asked
    ensures CleanRun(s, schedule)
    decreases |schedule|
  {
    hide Inv, Step, Stable, Truncate, PointInv, Roomy;
    if schedule == [] {
    } else {
      var a := schedule[0];
      StepKeepsInv(s, a, c0);
      StepKeepsCrowded(s, a, c0, asked, g);
      if Crowded(Step(s, a), asked, g) {
        CrowdedRunsAreClean(Step(s, a), schedule[1..], c0, asked, g);
      } else {
        RoomyRunsAreClean(Step(s, a), schedule[1..], c0, asked, g + 1);
      }
    }
  }

  /**
   Dynamic policy: a table created with a bucket for every name that the threads ask for never resizes,
   and then every interleaving answers right.
   */
  lemma EnoughBucketsAreSafe(c0: nat, schedule: seq<Action>)
    requires c0 > 0 && |NamesCalled(schedule)| <= c0
    ensures var s := Run(Start(Registry.DynamicSize, c0), schedule);
            && s.sh.restarts == 0 && |s.sh.heads| == c0 && AllTruthful(s)
            && CleanRun(Start(Registry.DynamicSize, c0), schedule)
  {
    hide Run, CleanRun, NamesCalled, RegistryRuns.Pow2;
    var start := Start(Registry.DynamicSize, c0);
    StartInv(Registry.DynamicSize, c0);
    RoomyRunsAreClean(start, schedule, c0, NamesCalled(schedule), 0);
    ResultsRightIffClean(start, schedule, c0);
    TableInEveryRun(Registry.DynamicSize, c0, schedule);
    RunKeepsInv(start, schedule, c0);
    RestartsAreGenerations(Run(start, schedule), c0);
    PowZero(c0);
  }

  lemma RestartsAreGenerations(s: System, c0: nat)
    requires Inv(s, c0)
    ensures s.sh.restarts == s.sh.generation
  {
    hide PointInv, QuietInv, ResizeInv;
  }

  /** The larger of the two: a root channel alone fills a table of one bucket, whose first resize meets no return. */
  function AtLeastTwo(c0: nat): nat {
    if c0 < 2 then 2 else c0
  }

  /** The same for a manager with a root channel, which is one of the names. */
  lemma EnoughBucketsWithRoot(c0: nat, root: Name, asked: set<Name>, schedule: seq<Action>)
    requires c0 > 0 && NamesCalled(schedule) <= asked && |asked + {Truncate(root)}| <= AtLeastTwo(c0)
    ensures CleanRun(StartWithRoot(Registry.DynamicSize, c0, root), schedule)
    ensures AllTruthful(Run(StartWithRoot(Registry.DynamicSize, c0, root), schedule))
  {
    hide Run, CleanRun, NamesCalled, Truncate, Inv;
    var start := StartWithRoot(Registry.DynamicSize, c0, root);
    var all := asked + {Truncate(root)};
    StartWithRootInv(Registry.DynamicSize, c0, root);
    if |all| <= c0 {
      RoomyRunsAreClean(start, schedule, c0, all, 0);
    } else {
      CrowdedRunsAreClean(start, schedule, c0, all, 0);
    }
    ResultsRightIffClean(start, schedule, c0);
  }
}
