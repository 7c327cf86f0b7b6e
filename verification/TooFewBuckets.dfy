/**
 Too few buckets make the dynamic policy wrong: a first registration is suspended before its return,
 other names fill the table, and the resize for one more name strands the suspended return. Its slot is
 a bucket of an array that the resize frees, or the link of a node that the resize cuts.
 */
module TooFewBuckets {
  import opened EnoughBuckets
  import opened LateReads
  import opened Layout
  import opened Links
  import opened Names
  import opened Options
  import opened Threads
  import Registry

  // ---------- One call, alone inside ----------

  lemma GotoTwice(s: System, t: Tid, p: Point, q: Point)
    ensures Goto(Goto(s, t, p), t, q) == Goto(s, t, q)
  {
    assert s.threads[t := p][t := q] == s.threads[t := q];
  }

  /** A reader of an unregistered name moves one node on, or leaves the read section. */
  lemma HopOn(s: System, t: Tid, name: Name, k: nat, c0: nat)
    requires Inv(s, c0) && t in s.threads && |s.sh.heads| > 0 && name !in s.sh.names
    requires var ids := Chain(s.sh.names, |s.sh.heads|, Home(name, |s.sh.heads|));
             k <= |ids| && s.threads[t] == Reading(name, At(ids, k))
    ensures var ids := Chain(s.sh.names, |s.sh.heads|, Home(name, |s.sh.heads|));
            Step(s, ReadNode(t)) == Goto(s, t, if k == |ids| then AtGap(name) else Reading(name, At(ids, k + 1)))
  {
    hide Home, Chain, CountsInv, ResizeInv, Remembers;
    Basics(s, c0);
    var j := Home(name, |s.sh.heads|);
    assert NoResize(s.threads);
    assert Linked(s.sh.heads[j], Chain(s.sh.names, |s.sh.heads|, j), s.sh.links);
  }

  lemma WalkOff(s: System, t: Tid, name: Name, k: nat, c0: nat) returns (walk: seq<Action>)
    requires Inv(s, c0) && t in s.threads && |s.sh.heads| > 0 && name !in s.sh.names
    requires var ids := Chain(s.sh.names, |s.sh.heads|, Home(name, |s.sh.heads|));
             k <= |ids| && s.threads[t] == Reading(name, At(ids, k))
    ensures NamesCalled(walk) == {} && Run(s, walk) == Goto(s, t, AtGap(name))
    decreases |Chain(s.sh.names, |s.sh.heads|, Home(name, |s.sh.heads|))| - k
  {
    hide Home, Chain, Inv, Step;
    var ids := Chain(s.sh.names, |s.sh.heads|, Home(name, |s.sh.heads|));
    HopOn(s, t, name, k, c0);
    Then(s, [], ReadNode(t));
    assert [] + [ReadNode(t)] == [ReadNode(t)];
    if k == |ids| {
      walk := [ReadNode(t)];
    } else {
      var u := Step(s, ReadNode(t));
      StepKeepsInv(s, ReadNode(t), c0);
      var rest := WalkOff(u, t, name, k + 1, c0);
      walk := [ReadNode(t)] + rest;
      RunConcat(s, [ReadNode(t)], rest);
      NamesCalledConcat([ReadNode(t)], rest);
      GotoTwice(s, t, Reading(name, At(ids, k + 1)), AtGap(name));
    }
  }

  /** With nobody inside, a call for an unregistered name can run on to its write section. */
  lemma Miss(s: System, t: Tid, name: Name, c0: nat) returns (schedule: seq<Action>)
    requires Inv(s, c0) && t in s.threads && s.threads[t] == AtStart(name) && NoneInside(s.threads)
    requires name !in s.sh.names
    ensures NamesCalled(schedule) == {} && Run(s, schedule) == Goto(s, t, Writing(name))
  {
    hide Home, Chain, Inv, Truncate, QuietInv, ResizeInv, CountsInv, PointInv;
    Basics(s, c0);
    var s2 := Step(s, EnterRead(t));
    StepKeepsInv(s, EnterRead(t), c0);
    Then(s, [], EnterRead(t));
    assert [] + [EnterRead(t)] == [EnterRead(t)];
    HeadsAtRest(s, c0);
    var walk := WalkOff(s2, t, name, 0, c0);
    RunConcat(s, [EnterRead(t)], walk);
    NamesCalledConcat([EnterRead(t)], walk);
    GotoTwice(s, t, s2.threads[t], AtGap(name));
    Then(s, [EnterRead(t)] + walk, EnterWrite(t));
    GotoTwice(s, t, AtGap(name), Writing(name));
    schedule := [EnterRead(t)] + walk + [EnterWrite(t)];
  }

  lemma HeadsAtRest(s: System, c0: nat)
    requires Inv(s, c0) && NoneInside(s.threads)
    ensures |s.sh.heads| > 0
    ensures forall j :: 0 <= j < |s.sh.heads| ==> s.sh.heads[j] == At(Chain(s.sh.names, |s.sh.heads|, j), 0)
  {
    hide Home, Chain, PointInv, ResizeInv;
    assert NoResize(s.threads);
    forall j | 0 <= j < |s.sh.heads| ensures s.sh.heads[j] == At(Chain(s.sh.names, |s.sh.heads|, j), 0) {
      assert Linked(s.sh.heads[j], Chain(s.sh.names, |s.sh.heads|, j), s.sh.links);
    }
  }

  /** ... and where there is a bucket to spare, it registers the name and waits to return. */
  lemma Register(s: System, t: Tid, name: Name, c0: nat) returns (schedule: seq<Action>)
    requires Inv(s, c0) && t in s.threads && s.threads[t] == AtStart(name) && NoneInside(s.threads)
    requires name !in s.sh.names && |s.sh.names| < |s.sh.heads|
    ensures NamesCalled(schedule) == {}
    ensures Run(s, schedule) == Goto(s.(sh := WithChannel(s.sh, name)), t,
                                     AtReturn(name, |s.sh.names|, TailSlot(s.sh, name), s.sh.generation))
  {
    hide Home, Chain, Inv, TailSlot, WithChannel, Lookup;
    var miss := Miss(s, t, name, c0);
    var a := WriteSection(t, Registry.Memory(true, true));
    Then(s, miss, a);
    LookupExact(s.sh.names, |s.sh.heads|, name) by { Basics(s, c0); }
    var p := AtReturn(name, |s.sh.names|, TailSlot(s.sh, name), s.sh.generation);
    GotoTwice(s.(sh := WithChannel(s.sh, name)), t, Writing(name), p);
    schedule := miss + [a];
  }

  /** In a full table it starts a resize. */
  lemma StartResize(s: System, t: Tid, name: Name, c0: nat) returns (schedule: seq<Action>)
    requires Inv(s, c0) && t in s.threads && s.threads[t] == AtStart(name) && NoneInside(s.threads)
    requires name !in s.sh.names && |s.sh.names| >= |s.sh.heads| && s.sh.policy == Registry.DynamicSize
    ensures |s.sh.heads| > 0 && NamesCalled(schedule) == {}
    ensures Run(s, schedule) ==
            Goto(s, t, Moving(name, 0, 0, s.sh.heads[0], seq(2 * |s.sh.heads|, _ => None)))
  {
    hide Home, Chain, Inv, Lookup;
    Basics(s, c0);
    var miss := Miss(s, t, name, c0);
    var a := WriteSection(t, Registry.Memory(true, true));
    Then(s, miss, a);
    LookupExact(s.sh.names, |s.sh.heads|, name);
    GotoTwice(s, t, Writing(name), Moving(name, 0, 0, s.sh.heads[0], seq(2 * |s.sh.heads|, _ => None)));
    schedule := miss + [a];
  }

  // ---------- A resize, alone ----------

  /** The resize of one thread has gone on to `u`, and so far nobody else has moved. */
  ghost predicate Later(s: System, t: Tid, u: System) {
    && u.threads.Keys == s.threads.Keys && u.log == s.log && u.sh.names == s.sh.names && u.sh.policy == s.sh.policy
    && forall w :: w in s.threads && w != t ==> u.threads[w] == s.threads[w]
  }

  function ResizeAction(m: Point, t: Tid): Action {
    if m.Moving? then MoveNode(t) else CutNode(t)
  }

  /** A step of the resize goes on in it, with less of it left, or ends it. */
  lemma ResizeStep(s: System, t: Tid, c0: nat)
    requires Inv(s, c0) && t in s.threads && InResize(s.threads[t])
    ensures var m, u := s.threads[t], Step(s, ResizeAction(s.threads[t], t));
            && Inv(u, c0) && Later(s, t, u) && |s.sh.heads| > 0
            && if InResize(u.threads[t])
               then
                 && u.sh.generation == s.sh.generation && |u.sh.heads| == |s.sh.heads|
                 && m.i < |s.sh.heads| && m.d <= |Chain(s.sh.names, |s.sh.heads|, m.i)|
                 && (u.threads[t].i == m.i ==>
                       && (m.Cutting? ==> m.d < |Chain(s.sh.names, |s.sh.heads|, m.i)|)
                       && if m.Moving? then u.threads[t].Cutting? && u.threads[t].d == m.d
                          else u.threads[t].Moving? && u.threads[t].d == m.d + 1)
                 && (u.threads[t].i == m.i || u.threads[t].i == m.i + 1)
               else
                 && u.sh.generation == s.sh.generation + 1 && |u.sh.heads| == 2 * |s.sh.heads|
                 && u.threads[t] == AtStart(m.name)
  {
    hide Home, Chain, Inv, NewTail, StoreLinks, StoreHeads, ResizeInv;
    var m := s.threads[t];
    WriterInv(s, t, c0);
    ReachedFits(s.sh, m, c0);
    StepKeepsInv(s, ResizeAction(m, t), c0);
    if m.Moving? {
      PublishedLength(s, t, c0);
      if m.p.Some? {
        FirstStoreKeepsResize(s.sh, m, c0);
      }
    }
  }

  /** A resize that runs alone ends, with a new array in use, and its call starts over. */
  lemma FinishResize(s: System, t: Tid, c0: nat) returns (schedule: seq<Action>)
    requires Inv(s, c0) && t in s.threads && InResize(s.threads[t])
    ensures NamesCalled(schedule) == {} && Later(s, t, Run(s, schedule)) && Inv(Run(s, schedule), c0)
    ensures var u := Run(s, schedule);
            && u.sh.generation == s.sh.generation + 1 && |u.sh.heads| == 2 * |s.sh.heads|
            && u.threads[t] == AtStart(s.threads[t].name)
    decreases |s.sh.heads| - s.threads[t].i,
              if |s.sh.heads| > 0 then |Chain(s.sh.names, |s.sh.heads|, s.threads[t].i)| - s.threads[t].d else 0,
              if s.threads[t].Moving? then 1 else 0
  {
    hide Home, Chain, Inv, Step;
    var a := ResizeAction(s.threads[t], t);
    var u := Step(s, a);
    ResizeStep(s, t, c0);
    Then(s, [], a);
    assert [] + [a] == [a];
    if InResize(u.threads[t]) {
      ResizeKeepsName(s, t);
      var rest := FinishResize(u, t, c0);
      schedule := [a] + rest;
      RunConcat(s, [a], rest);
      NamesCalledConcat([a], rest);
    } else {
      schedule := [a];
    }
  }

  lemma ResizeKeepsName(s: System, t: Tid)
    requires t in s.threads && InResize(s.threads[t])
    ensures var u := Step(s, ResizeAction(s.threads[t], t)); t in u.threads && u.threads[t].name == s.threads[t].name
  {
    hide Home, Chain, NewTail, StoreLinks, StoreHeads;
  }

  /** A step of the resize leaves a node unmoved, or it is the cut of that node. */
  lemma ResizeStepOnNode(s: System, t: Tid, q: nat, c0: nat)
    requires Inv(s, c0) && t in s.threads && InResize(s.threads[t]) && q < |s.sh.names|
    requires !HasMoved(s.sh, s.threads[t].i, s.threads[t].d, q)
    ensures var m, u := s.threads[t], Step(s, ResizeAction(s.threads[t], t));
            && t in u.threads && InResize(u.threads[t]) && u.sh.names == s.sh.names && |u.sh.heads| == |s.sh.heads|
            && (HasMoved(u.sh, u.threads[t].i, u.threads[t].d, q) ==>
                  && m.Cutting? && u.threads[t].Moving? && u.threads[t].i == m.i && u.threads[t].d == m.d + 1
                  && m.i < |s.sh.heads| && m.d < |Chain(s.sh.names, |s.sh.heads|, m.i)|
                  && Chain(s.sh.names, |s.sh.heads|, m.i)[m.d] == q)
  {
    hide Home, Chain, Inv, NewTail, StoreLinks, StoreHeads, ResizeInv;
    var m := s.threads[t];
    var sh, c := s.sh, |s.sh.heads|;
    WriterInv(s, t, c0);
    ReachedFits(sh, m, c0);
    var chain := Chain(sh.names, c, m.i);
    ChainMembers(sh.names, c, m.i, q);
    if m.Cutting? {
      CuttingFits(sh, m, c0);
      assert chain[..m.d + 1] == chain[..m.d] + [chain[m.d]];
    } else if m.p.Some? {
      FirstStoreKeepsResize(sh, m, c0);
    } else {
      BucketDone(sh, m, c0);
      assert chain[..m.d] == chain;
    }
  }

  lemma CuttingFits(sh: Shared, m: Point, c0: nat)
    requires |sh.heads| > 0 && m.Cutting? && ResizeInv(sh, m, c0)
    ensures m.d < |Chain(sh.names, |sh.heads|, m.i)|
  {
    hide Rehashing, StoreHeads, StoreLinks;
  }

  /** A resize can be stopped just after it has cut node `q`. */
  lemma RunToCut(s: System, t: Tid, q: nat, c0: nat) returns (schedule: seq<Action>)
    requires Inv(s, c0) && t in s.threads && InResize(s.threads[t]) && q < |s.sh.names|
    requires !HasMoved(s.sh, s.threads[t].i, s.threads[t].d, q)
    ensures NamesCalled(schedule) == {} && Later(s, t, Run(s, schedule)) && Inv(Run(s, schedule), c0)
    ensures var u := Run(s, schedule);
            && t in u.threads && u.threads[t].Moving? && |u.sh.heads| == |s.sh.heads|
            && u.sh.generation == s.sh.generation
            && HasMoved(u.sh, u.threads[t].i, u.threads[t].d, q)
            && u.threads[t].d > 0 && Chain(u.sh.names, |u.sh.heads|, u.threads[t].i)[u.threads[t].d - 1] == q
    decreases |s.sh.heads| - s.threads[t].i,
              if |s.sh.heads| > 0 then |Chain(s.sh.names, |s.sh.heads|, s.threads[t].i)| - s.threads[t].d else 0,
              if s.threads[t].Moving? then 1 else 0
  {
    hide Home, Chain, Inv, Step, Moved;
    var a := ResizeAction(s.threads[t], t);
    var u := Step(s, a);
    ResizeStep(s, t, c0);
    ResizeStepOnNode(s, t, q, c0);
    Then(s, [], a);
    assert [] + [a] == [a];
    if HasMoved(u.sh, u.threads[t].i, u.threads[t].d, q) {
      schedule := [a];
    } else {
      var rest := RunToCut(u, t, q, c0);
      schedule := [a] + rest;
      RunConcat(s, [a], rest);
      NamesCalledConcat([a], rest);
    }
  }

  // ---------- The suspended return ----------

  ghost predicate NoEntryOf(log: seq<Entry>, t: Tid) {
    forall k :: 0 <= k < |log| ==> log[k].t != t
  }

  /** Only thread 0 is inside: it has registered its name in the array in use, its first call has not returned. */
  ghost predicate Parked(s: System, c0: nat) {
    && Inv(s, c0) && s.sh.policy == Registry.DynamicSize
    && s.threads.Keys == {0} && s.threads[0].AtReturn? && s.threads[0].generation == s.sh.generation
    && NoEntryOf(s.log, 0)
  }

  /** The first call of thread 0 can be suspended there, if it finds a free bucket ... */
  lemma Park(s: System, name: Name, c0: nat) returns (schedule: seq<Action>)
    requires Inv(s, c0) && s.sh.policy == Registry.DynamicSize && NoEntryOf(s.log, 0)
    requires s.threads == map[0 := AtStart(name)] && name !in s.sh.names && |s.sh.names| < |s.sh.heads|
    ensures var u := Run(s, schedule);
            && NamesCalled(schedule) == {} && Parked(u, c0)
            && u.sh.names == s.sh.names + [name] && |u.sh.heads| == |s.sh.heads|
  {
    hide Home, Chain, Inv, TailSlot, Run;
    schedule := Register(s, 0, name, c0);
    RunKeepsInv(s, schedule, c0);
  }

  /** ... and also if it has to make one. */
  lemma ParkAfterResize(s: System, name: Name, c0: nat) returns (schedule: seq<Action>)
    requires Inv(s, c0) && s.sh.policy == Registry.DynamicSize && NoEntryOf(s.log, 0)
    requires s.threads == map[0 := AtStart(name)] && name !in s.sh.names && |s.sh.names| == |s.sh.heads|
    ensures var u := Run(s, schedule);
            && NamesCalled(schedule) == {} && Parked(u, c0)
            && u.sh.names == s.sh.names + [name] && |u.sh.heads| == 2 * |s.sh.heads|
  {
    hide Home, Chain, Inv, Run;
    Basics(s, c0);
    var first := StartResize(s, 0, name, c0);
    RunKeepsInv(s, first, c0);
    var u := Run(s, first);
    var resize := FinishResize(u, 0, c0);
    var v := Run(u, resize);
    assert v.threads == map[0 := AtStart(name)];
    var last := Park(v, name, c0);
    RunConcat(s, first, resize);
    NamesCalledConcat(first, resize);
    RunConcat(s, first + resize, last);
    NamesCalledConcat(first + resize, last);
    schedule := first + resize + last;
  }

  /** While buckets are left, another thread can register a name and return, past the suspended one. */
  lemma Fill(s: System, name: Name, c0: nat) returns (schedule: seq<Action>)
    requires Parked(s, c0) && |s.sh.names| < |s.sh.heads| && Truncate(name) == name && name !in s.sh.names
    ensures var u := Run(s, schedule);
            && NamesCalled(schedule) == {name} && Parked(u, c0)
            && u.sh.names == s.sh.names + [name] && |u.sh.heads| == |s.sh.heads|
  {
    hide Home, Chain, Inv, Truncate, TailSlot, Reread;
    var s1 := Step(s, Call(1, name));
    Then(s, [], Call(1, name));
    assert [] + [Call(1, name)] == [Call(1, name)];
    CallIsCall(s, 1, name, c0);
    var rest := Register(s1, 1, name, c0);
    Then(s1, rest, Return(1));
    RunConcat(s, [Call(1, name)], rest + [Return(1)]);
    NamesCalledConcat([Call(1, name)], rest + [Return(1)]);
    schedule := [Call(1, name)] + (rest + [Return(1)]);
    RunKeepsInv(s, schedule, c0);
  }

  lemma CallIsCall(s: System, t: Tid, name: Name, c0: nat)
    requires Inv(s, c0) && t !in s.threads && Truncate(name) == name
    ensures Step(s, Call(t, name)) == Goto(s, t, AtStart(name)) && Inv(Step(s, Call(t, name)), c0)
  {
    hide Inv, Truncate;
    Basics(s, c0);
    StepKeepsInv(s, Call(t, name), c0);
  }

  /** The suspended return of thread 0 is not stable. */
  ghost predicate Stranded(s: System, c0: nat) {
    && Inv(s, c0) && NoEntryOf(s.log, 0)
    && 0 in s.threads && s.threads[0].AtReturn? && !Stable(s, s.threads[0])
  }

  /** A resize that has just begun can run to where the suspended return is not stable. */
  lemma StrandInResize(s: System, c0: nat) returns (schedule: seq<Action>)
    requires Inv(s, c0) && NoEntryOf(s.log, 0) && 0 in s.threads && 1 in s.threads
    requires s.threads[0].AtReturn? && s.threads[0].generation == s.sh.generation
    requires s.threads[1].Moving? && s.threads[1].i == 0 && s.threads[1].d == 0
    ensures NamesCalled(schedule) == {} && Stranded(Run(s, schedule), c0)
  {
    hide Home, Chain, Inv, Run, Stable, HasMoved;
    Basics(s, c0);
    if s.threads[0].slot.BucketSlot? {
      schedule := FinishResize(s, 1, c0);
      OldBucketIsUnstable(Run(s, schedule), s.threads[0]);
    } else {
      var q := s.threads[0].slot.id;
      ParkedSlot(s, c0);
      NothingMoved(s.sh, q);
      schedule := RunToCut(s, 1, q, c0);
      Basics(Run(s, schedule), c0);
      CutIsUnstable(Run(s, schedule), c0);
    }
  }

  /** In a full table, a call of thread 1 for one more name begins a resize. */
  lemma CallAndResize(s: System, name: Name, c0: nat) returns (schedule: seq<Action>)
    requires Parked(s, c0) && |s.sh.names| >= |s.sh.heads| && Truncate(name) == name && name !in s.sh.names
    ensures |s.sh.heads| > 0 && NamesCalled(schedule) == {name}
    ensures Run(s, schedule) == Goto(s, 1, Moving(name, 0, 0, s.sh.heads[0], seq(2 * |s.sh.heads|, _ => None)))
  {
    assert Run(s, []) == s;
    hide Home, Chain, Inv, Truncate, Run;
    var s1 := Step(s, Call(1, name));
    Then(s, [], Call(1, name));
    assert [] + [Call(1, name)] == [Call(1, name)];
    CallIsCall(s, 1, name, c0);
    var first := StartResize(s1, 1, name, c0);
    RunConcat(s, [Call(1, name)], first);
    NamesCalledConcat([Call(1, name)], first);
    GotoTwice(s, 1, AtStart(name), Moving(name, 0, 0, s.sh.heads[0], seq(2 * |s.sh.heads|, _ => None)));
    schedule := [Call(1, name)] + first;
  }

  /** In a full table, the resize for one more name strands the suspended return. */
  lemma Strand(s: System, name: Name, c0: nat) returns (schedule: seq<Action>)
    requires Parked(s, c0) && |s.sh.names| >= |s.sh.heads| && Truncate(name) == name && name !in s.sh.names
    ensures NamesCalled(schedule) == {name} && Stranded(Run(s, schedule), c0)
  {
    hide Inv, Truncate, Run, Stranded;
    var first := CallAndResize(s, name, c0);
    RunKeepsInv(s, first, c0);
    var rest := StrandInResize(Run(s, first), c0);
    RunConcat(s, first, rest);
    NamesCalledConcat(first, rest);
    schedule := first + rest;
  }

  lemma OldBucketIsUnstable(s: System, p: Point)
    requires p.AtReturn? && p.slot.BucketSlot? && p.generation != s.sh.generation
    ensures !Stable(s, p)
  {
  }

  lemma ParkedSlot(s: System, c0: nat)
    requires Inv(s, c0) && 0 in s.threads && s.threads[0].AtReturn? && s.threads[0].slot.NextSlot?
    ensures s.threads[0].slot.id < |s.sh.names|
  {
    hide Home, Chain, CountsInv, QuietInv, ResizeInv;
    Basics(s, c0);
    assert PointInv(s.sh, s.threads[0]);
  }

  lemma NothingMoved(sh: Shared, q: nat)
    requires |sh.heads| > 0
    ensures !HasMoved(sh, 0, 0, q)
  {
    hide Home;
  }

  /** A link just cut does not yet lead to the next node of its old chain. */
  lemma CutIsUnstable(s: System, c0: nat)
    requires Inv(s, c0) && 0 in s.threads && 1 in s.threads && s.threads[1].Moving? && |s.sh.heads| > 0
    requires s.threads[0].AtReturn? && s.threads[0].slot.NextSlot? && s.threads[0].generation == s.sh.generation
    requires var m := s.threads[1];
             && HasMoved(s.sh, m.i, m.d, s.threads[0].slot.id)
             && m.d > 0 && Chain(s.sh.names, |s.sh.heads|, m.i)[m.d - 1] == s.threads[0].slot.id
    ensures !Stable(s, s.threads[0])
  {
    hide Home, Chain, CountsInv, QuietInv, ResizeInv;
    var sh, c, m, p := s.sh, |s.sh.heads|, s.threads[1], s.threads[0];
    var q := p.slot.id;
    assert PointInv(sh, p) && q < p.id;
    var chain := Chain(sh.names, c, m.i);
    ChainMembers(sh.names, c, m.i, q);
    ChainIncreasing(sh.names, c, m.i);
    assert !HasMoved(sh, m.i, m.d, p.id);
    OneWriter(s, 1, q);
    OneWriter(s, 1, p.id);
  }

  lemma NotYetRegistered(names: seq<Name>, asked: set<Name>) returns (name: Name)
    requires |names| < |asked|
    ensures name in asked && name !in names
  {
    var registered := set n | n in names;
    ListSize(names);
    if asked <= registered {
      SubsetSize(asked, registered);
    }
    name :| name in asked && name !in registered;
  }

  lemma {:induction false} ListSize(names: seq<Name>)
    ensures |set n | n in names| <= |names|
  {
    if names == [] {
    } else {
      var last := |names| - 1;
      ListSize(names[..last]);
      assert names == names[..last] + [names[last]];
      assert (set n | n in names) == (set n | n in names[..last]) + {names[last]};
    }
  }

  lemma FillAndStrand(s: System, c0: nat, asked: set<Name>, all: set<Name>) returns (schedule: seq<Action>)
    requires Parked(s, c0) && |s.sh.names| <= |s.sh.heads| < |all|
    requires forall n :: n in all && n !in s.sh.names ==> n in asked && Truncate(n) == n
    ensures NamesCalled(schedule) <= asked && Stranded(Run(s, schedule), c0)
    decreases |s.sh.heads| - |s.sh.names|
  {
    hide Parked, Stranded, Run, NamesCalled, Truncate;
    var name := NotYetRegistered(s.sh.names, all);
    if |s.sh.names| == |s.sh.heads| {
      schedule := Strand(s, name, c0);
    } else {
      var first := Fill(s, name, c0);
      var rest := FillAndStrand(Run(s, first), c0, asked, all);
      schedule := first + rest;
      RunConcat(s, first, rest);
      NamesCalledConcat(first, rest);
    }
  }

  // ---------- From the creation of the manager ----------

  /** Thread 0 makes the first call, and `middle` then leads to where its return is not stable. */
  ghost predicate StrandedBy(start: System, c0: nat, name: Name, middle: seq<Action>, asked: set<Name>) {
    && 0 !in start.threads && Truncate(name) == name && name in asked && NamesCalled(middle) <= asked
    && Stranded(Run(Step(start, Call(0, name)), middle), c0)
  }

  /** A new manager, with or without channels. */
  ghost predicate New(start: System, c0: nat) {
    && Inv(start, c0) && start.sh.policy == Registry.DynamicSize && start.threads == map[] && start.log == []
  }

  lemma FirstCall(start: System, c0: nat, name: Name)
    requires New(start, c0) && Truncate(name) == name
    ensures var s := Step(start, Call(0, name));
            && Inv(s, c0) && s.threads == map[0 := AtStart(name)] && s.log == [] && s.sh == start.sh
  {
    hide Inv, Truncate;
    CallIsCall(start, 0, name, c0);
  }

  /** More names than buckets, counted when the first call has found a free one. */
  lemma StrandAtOnce(start: System, c0: nat, name: Name, asked: set<Name>, all: set<Name>)
    returns (middle: seq<Action>)
    requires New(start, c0) && |start.sh.names| < |start.sh.heads| < |all|
    requires name in asked && name !in start.sh.names
    requires forall n :: n in asked ==> Truncate(n) == n
    requires forall n :: n in all && n !in start.sh.names ==> n in asked
    ensures StrandedBy(start, c0, name, middle, asked)
  {
    hide Inv, Truncate, NamesCalled, Run, Parked, Step;
    FirstCall(start, c0, name);
    var s := Step(start, Call(0, name));
    var first := Park(s, name, c0);
    var rest := FillAndStrand(Run(s, first), c0, asked, all);
    RunConcat(s, first, rest);
    NamesCalledConcat(first, rest);
    middle := first + rest;
  }

  /** The same when the first call has to make room: the table is full, and twice its buckets are too few. */
  lemma StrandAfterResize(start: System, c0: nat, name: Name, asked: set<Name>, all: set<Name>)
    returns (middle: seq<Action>)
    requires New(start, c0) && |start.sh.names| == |start.sh.heads| && 2 * |start.sh.heads| < |all|
    requires name in asked && name !in start.sh.names
    requires forall n :: n in asked ==> Truncate(n) == n
    requires forall n :: n in all && n !in start.sh.names ==> n in asked
    ensures StrandedBy(start, c0, name, middle, asked)
  {
    hide Inv, Truncate, NamesCalled, Run, Parked, Step;
    FirstCall(start, c0, name);
    var s := Step(start, Call(0, name));
    assert |start.sh.heads| > 0 by { Basics(start, c0); }
    var first := ParkAfterResize(s, name, c0);
    var rest := FillAndStrand(Run(s, first), c0, asked, all);
    RunConcat(s, first, rest);
    NamesCalledConcat(first, rest);
    middle := first + rest;
  }

  lemma StrandWithoutRoot(c0: nat, asked: set<Name>) returns (name: Name, middle: seq<Action>)
    requires 0 < c0 < |asked| && forall n :: n in asked ==> Truncate(n) == n
    ensures StrandedBy(Start(Registry.DynamicSize, c0), c0, name, middle, asked)
  {
    hide Inv, Truncate, StrandedBy;
    StartInv(Registry.DynamicSize, c0);
    name := NotYetRegistered([], asked);
    middle := StrandAtOnce(Start(Registry.DynamicSize, c0), c0, name, asked, asked);
  }

  lemma StrandWithRoot(c0: nat, root: Name, asked: set<Name>) returns (name: Name, middle: seq<Action>)
    requires c0 > 0 && AtLeastTwo(c0) < |asked + {Truncate(root)}| && forall n :: n in asked ==> Truncate(n) == n
    ensures StrandedBy(StartWithRoot(Registry.DynamicSize, c0, root), c0, name, middle, asked)
  {
    hide Inv, Truncate, StrandedBy, StartWithRoot;
    var start := StartWithRoot(Registry.DynamicSize, c0, root);
    var all := asked + {Truncate(root)};
    StartWithRootInv(Registry.DynamicSize, c0, root);
    StartWithRootNew(c0, root);
    name := NotYetRegistered([Truncate(root)], all);
    if c0 == 1 {
      middle := StrandAfterResize(start, c0, name, asked, all);
    } else {
      middle := StrandAtOnce(start, c0, name, asked, all);
    }
  }

  lemma StartWithRootNew(c0: nat, root: Name)
    requires c0 > 0
    ensures New(StartWithRoot(Registry.DynamicSize, c0, root), c0)
  {
    hide Inv;
    StartWithRootInv(Registry.DynamicSize, c0, root);
  }
}
