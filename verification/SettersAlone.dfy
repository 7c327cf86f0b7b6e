/**
 A setter whose steps run alone, from a manager at rest: whatever the order of its moves, it leaves what
 one call on the sequential registry of Registry.dfy leaves, and it can always be brought to its end.
 */
module SettersAlone {
  import opened LateReads
  import opened Layout
  import opened Linearization
  import opened Links
  import opened Names
  import opened Progress
  import opened Setters
  import opened Threads
  import Registry
  import RegistryRuns

  // ---------- The get-or-create alone ----------

  /**
   A call of thread `t` for the stored name `name`, its allocations as `mem` says, made when `log` was the
   log; the sequential registry gives `goal` for it.
   */
  datatype Job = Job(
    t: Tid,
    name: Name,
    mem: Registry.Memory,
    log: seq<Entry>,
    goal: (Registry.State, Registry.Reply))

  /** The thread has not registered its name; from the table as it is, the registry would give the goal. */
  ghost predicate Asking(s: System, k: Job, q: Registry.State) {
    && Matches(q, s) && s.threads.Keys == {k.t} && Truncate(k.name) == k.name
    && s.threads[k.t].name == k.name && !s.threads[k.t].AtReturn?
    && Registry.Get(q, k.name, k.mem) == k.goal
    && (InResize(s.threads[k.t]) ==> k.mem.bucketsOk)
  }

  /** It has registered its name, and no resize has come since. */
  ghost predicate Returning(s: System, k: Job) {
    && Matches(k.goal.0, s) && s.threads.Keys == {k.t}
    && s.threads[k.t].AtReturn? && s.threads[k.t].name == k.name && s.threads[k.t].generation == s.sh.generation
    && k.goal.1 == Registry.Logger(s.threads[k.t].id)
  }

  ghost predicate Inside(s: System, k: Job, q: Registry.State) {
    (Asking(s, k, q) || Returning(s, k)) && s.log == k.log
  }

  ghost predicate Answered(s: System, k: Job) {
    Matches(k.goal.0, s) && s.threads == map[] && s.log == k.log + [Entry(k.t, k.name, ResultOf(k.goal.1))]
  }

  lemma AskingReads(s: System, k: Job, q: Registry.State, c0: nat)
    requires Inv(s, c0) && Asking(s, k, q) && s.log == k.log && s.threads[k.t].Reading?
    ensures Inside(Step(s, ReadNode(k.t)), k, q) || Answered(Step(s, ReadNode(k.t)), k)
  {
    hide Truncate, Registry.Get, Home, Chain, Inv, Registry.Inv;
    RegistryRuns.GetOutcome(q, k.name, k.mem);
    Basics(s, c0);
    var p := s.threads[k.t];
    if Hits(s, p) {
      assert k.goal == (q, Registry.Logger(p.p.value));
      assert s.threads - {k.t} == map[];
    }
  }

  /** A write section starts a resize, registers, or answers, as the sequential get-or-create says. */
  lemma WriteAlone(q: Registry.State, s: System, t: Tid, name: Name, mem: Registry.Memory, c0: nat)
    requires Inv(s, c0) && Matches(q, s) && t in s.threads && Truncate(name) == name
    ensures |s.sh.heads| > 0
    ensures var u := Write(s, t, name, mem);
            var (after, reply) := Registry.Get(q, name, mem);
            if StartsResize(s, name, mem) then
              && t in u.threads && u.threads[t].Moving? && u.threads[t].name == name
              && u.threads == s.threads[t := u.threads[t]] && u.log == s.log
            else if reply.Logger? && name !in s.sh.names then
              && u.threads == s.threads[t := AtReturn(name, reply.id, TailSlot(s.sh, name), s.sh.generation)]
              && u.sh.generation == s.sh.generation && u.log == s.log
            else u == Finish(s, t, name, ResultOf(reply))
  {
    hide Truncate, Registry.Get, Home, Chain, Inv, Lookup, TailSlot;
    Basics(s, c0);
    LookupExact(s.sh.names, |s.sh.heads|, name);
    RegistryRuns.GetOutcome(q, name, mem);
  }

  lemma AskingWrites(s: System, k: Job, q: Registry.State, c0: nat)
    requires Inv(s, c0) && Asking(s, k, q) && s.log == k.log && s.threads[k.t].Writing?
    ensures var u := Step(s, WriteSection(k.t, k.mem)); Inside(u, k, q) || Answered(u, k)
  {
    hide Truncate, Registry.Get, Home, Chain, Inv, Lookup, TailSlot, WithChannel, Matches;
    Basics(s, c0);
    WriteMatches(q, s, k.t, k.mem, c0);
    WriteAlone(q, s, k.t, k.name, k.mem, c0);
    assert s.threads - {k.t} == map[];
    var u := Write(s, k.t, k.name, k.mem);
    if k.t in u.threads && u.threads[k.t].AtReturn? {
      assert u.threads.Keys == {k.t};
    }
  }

  /** The thread of a resize stays inside, in the resize or at the start of its call. */
  lemma MoveAlone(s: System, t: Tid, c0: nat)
    requires Inv(s, c0) && t in s.threads && s.threads[t].Moving?
    ensures var u := Step(s, MoveNode(t));
            && t in u.threads && u.threads == s.threads[t := u.threads[t]] && u.log == s.log
            && u.threads[t].name == s.threads[t].name && (InResize(u.threads[t]) || u.threads[t].AtStart?)
  {
    hide Truncate, Home, Chain, Inv, NewTail, StoreHeads, StoreLinks, ResizeInv;
    WriterInv(s, t, c0);
  }

  /** A get-or-create on a full dynamic table is one on the doubled table. */
  lemma DoublingIsPart(q: Registry.State, s: System, t: Tid, mem: Registry.Memory, c0: nat)
    requires Inv(s, c0) && Matches(q, s) && mem.bucketsOk
    requires t in s.threads && Truncate(s.threads[t].name) == s.threads[t].name && s.threads[t].Moving?
    ensures Registry.Get(q, s.threads[t].name, mem) == Registry.Get(Registry.Doubled(q), s.threads[t].name, mem)
  {
    hide Truncate, Home, Chain, Rehashing, Remembers, Lookup;
    assert InResize(s.threads[t]) && ResizeInv(s.sh, s.threads[t], c0);
    LookupExact(q.names, q.capacity, s.threads[t].name);
  }

  lemma AskingMoves(s: System, k: Job, q: Registry.State, c0: nat) returns (after: Registry.State)
    requires Inv(s, c0) && Asking(s, k, q) && s.log == k.log && s.threads[k.t].Moving?
    ensures Inside(Step(s, MoveNode(k.t)), k, after)
  {
    hide Truncate, Registry.Get, Home, Chain, Inv, NewTail, StoreHeads, StoreLinks, Matches;
    Basics(s, c0);
    MoveMatches(q, s, k.t, c0);
    MoveAlone(s, k.t, c0);
    if Effect(s, MoveNode(k.t)) == [] {
      after := q;
    } else {
      PublishIsSequential(q, s, k.t, c0);
      RunOfOne(q, Registry.GetLogger(k.name, Registry.Memory(true, false)));
      after := Registry.Doubled(q);
      DoublingIsPart(q, s, k.t, k.mem, c0);
    }
  }

  lemma AskingCuts(s: System, k: Job, q: Registry.State)
    requires Asking(s, k, q) && s.log == k.log && s.threads[k.t].Cutting?
    ensures Inside(Step(s, CutNode(k.t)), k, q)
  {
    hide Truncate, Registry.Get, Home, Chain, StoreLinks;
  }

  lemma AskingEnters(s: System, k: Job, q: Registry.State, a: Action)
    requires Asking(s, k, q) && s.log == k.log && (a == EnterRead(k.t) || a == EnterWrite(k.t))
    ensures Inside(Step(s, a), k, q)
  {
    hide Truncate, Registry.Get, Home, Chain;
  }

  lemma Returns(s: System, k: Job, c0: nat)
    requires Inv(s, c0) && Returning(s, k) && s.log == k.log
    ensures Answered(Step(s, Return(k.t)), k)
  {
    hide Inv, Stable, Reread;
    ReturnBeforeResizeIsClean(s, k.t, c0);
    RereadExact(s, k.t, c0);
    ReturnInv(s, k.t, c0);
    assert s.threads - {k.t} == map[];
  }

  /** What a thread cannot do leaves everything as it is. */
  lemma Waits(s: System, a: Action)
    requires !Enabled(s, a)
    ensures Step(s, a) == s
  {
  }

  /** A thread outside can only call, and a thread at the end of its call only return. */
  lemma OnlyInside(s: System, a: Action)
    requires Enabled(s, a) && !a.Call?
    ensures a.t in s.threads && (s.threads[a.t].AtReturn? <==> a.Return?)
  {
  }

  /** Each step keeps a thread that is alone on its way to the sequential answer. */
  lemma InsideStep(s: System, k: Job, q: Registry.State, a: Action, c0: nat) returns (after: Registry.State)
    requires Inv(s, c0) && Inside(s, k, q) && Continues(a, k.mem)
    ensures Inside(Step(s, a), k, after) || Answered(Step(s, a), k)
  {
    hide Inv, Step, Matches, Registry.Get, Truncate, NoneInside, NoneWriting;
    after := q;
    if !Enabled(s, a) {
      Waits(s, a);
    } else {
      OnlyInside(s, a);
      match a
      case EnterRead(_) => AskingEnters(s, k, q, a);
      case EnterWrite(_) => AskingEnters(s, k, q, a);
      case ReadNode(_) => AskingReads(s, k, q, c0);
      case WriteSection(_, _) => AskingWrites(s, k, q, c0);
      case MoveNode(_) => after := AskingMoves(s, k, q, c0);
      case CutNode(_) => AskingCuts(s, k, q);
      case Return(_) => Returns(s, k, c0);
    }
  }

  // ---------- The setter alone ----------

  /** The moves that go on with a setter alone: no further call. */
  predicate Alone(moves: seq<Move>, mem: Registry.Memory) {
    forall i :: 0 <= i < |moves| ==> !moves[i].CallSet? && (moves[i].Get? ==> Continues(moves[i].a, mem))
  }

  /** Nobody is inside, no write is due, and the table and the levels are those of the sequential state. */
  ghost predicate AtRest(m: Manager, r: Registry.State) {
    && Matches(r, m.base) && m.levels == r.levels
    && m.base.threads == map[] && m.wants == map[] && m.stores == map[]
  }

  /** The setter is inside its get-or-create; new channels are at debug. */
  ghost predicate Setting(m: Manager, k: Job, want: Want, levels: seq<int>, q: Registry.State) {
    && Inside(m.base, k, q) && k.goal.1 != Registry.DivisionByZero && |levels| <= |m.base.sh.names|
    && k.goal.0.levels == Grown(levels, |k.goal.0.names|) && m.levels == Grown(levels, |m.base.sh.names|)
    && m.wants == map[k.t := want] && m.stores == map[]
  }

  /** It has its logger, and its write is due if there is one. */
  ghost predicate Got(m: Manager, k: Job, want: Want) {
    && Answered(m.base, k) && m.wants == map[] && m.levels == k.goal.0.levels
    && m.stores == (if Writes(want) && k.goal.1 != Registry.Null
                    then map[k.t := Store(k.name, ResultOf(k.goal.1), want.lvl)] else map[])
  }

  ghost predicate Done(m: Manager, k: Job, want: Want) {
    && Answered(m.base, k) && m.wants == map[] && m.stores == map[]
    && m.levels == (if Writes(want) then Registry.WithLevel(k.goal.0, k.goal.1, want.lvl) else k.goal.0).levels
  }

  ghost predicate Underway(m: Manager, k: Job, want: Want, levels: seq<int>, q: Registry.State) {
    Setting(m, k, want, levels, q) || Got(m, k, want) || Done(m, k, want)
  }

  lemma GetIgnoresTail(r: Registry.State, channel: Name, mem: Registry.Memory)
    requires Registry.Inv(r) && r.capacity > 0
    ensures Truncate(Truncate(channel)) == Truncate(channel)
    ensures Registry.Get(r, Truncate(channel), mem) == Registry.Get(r, channel, mem)
  {
    hide Registry.Get;
    RegistryRuns.GetOutcome(r, channel, mem);
    RegistryRuns.GetOutcome(r, Truncate(channel), mem);
  }

  lemma GrownTwice(levels: seq<int>, n: nat, size: nat)
    requires |levels| <= n <= size
    ensures Grown(Grown(levels, n), size) == Grown(levels, size)
  {
  }

  lemma SettingStarts(m: Manager, r: Registry.State, t: Tid, channel: Name, want: Want, mem: Registry.Memory)
    requires AtRest(m, r)
    ensures var k := Job(t, Truncate(channel), mem, m.base.log, Registry.Get(r, channel, mem));
            Setting(Next(m, CallSet(t, channel, want.lvl, want.checked)), k, want, r.levels, r)
  {
    hide Truncate, Registry.Get;
    GetIgnoresTail(r, channel, mem);
    RegistryRuns.GetOutcome(r, channel, mem);
  }

  lemma SettingStep(m: Manager, k: Job, want: Want, levels: seq<int>, q: Registry.State, a: Action, c0: nat)
    returns (after: Registry.State)
    requires Inv(m.base, c0) && Setting(m, k, want, levels, q) && Continues(a, k.mem)
    ensures Underway(Next(m, Get(a)), k, want, levels, after)
  {
    hide Inv, Step, Registry.Get, Truncate, Registry.Inv;
    after := InsideStep(m.base, k, q, a, c0);
    StepKeepsPolicy(m.base, a);
    StepKeepsThreads(m.base, a);
    GrownTwice(levels, |m.base.sh.names|, |Step(m.base, a).sh.names|);
    var base := Step(m.base, a);
    if Answered(base, k) {
      assert m.wants - {a.t} == map[];
      assert base.log[|base.log| - 1] == Entry(k.t, k.name, ResultOf(k.goal.1));
    }
  }

  lemma GotStep(m: Manager, k: Job, want: Want, move: Move)
    requires Got(m, k, want) && Alone([move], k.mem)
    ensures Got(Next(m, move), k, want) || Done(Next(m, move), k, want)
  {
    hide Truncate, Registry.Get;
    assert [move][0] == move;
  }

  lemma DoneStep(m: Manager, k: Job, want: Want, move: Move)
    requires Done(m, k, want) && Alone([move], k.mem)
    ensures Next(m, move) == m
  {
    hide Truncate, Registry.Get;
    assert [move][0] == move;
  }

  lemma UnderwayStep(m: Manager, k: Job, want: Want, levels: seq<int>, q: Registry.State, move: Move, c0: nat)
    returns (after: Registry.State)
    requires Inv(m.base, c0) && Underway(m, k, want, levels, q) && Alone([move], k.mem)
    ensures Underway(Next(m, move), k, want, levels, after) && Inv(Next(m, move).base, c0)
  {
    hide Inv, Next, Setting, Got, Done, Part, Step;
    assert [move][0] == move;
    after := q;
    NextBase(m, move);
    if Part(m, move).Some? {
      StepKeepsInv(m.base, Part(m, move).value, c0);
    }
    if Done(m, k, want) {
      DoneStep(m, k, want, move);
    } else if Got(m, k, want) {
      GotStep(m, k, want, move);
    } else if move.Get? {
      after := SettingStep(m, k, want, levels, q, move.a, c0);
    } else {
      NoWriteDue(m, k, want, levels, q, move);
    }
  }

  lemma NoWriteDue(m: Manager, k: Job, want: Want, levels: seq<int>, q: Registry.State, move: Move)
    requires Setting(m, k, want, levels, q) && move.WriteLevel?
    ensures Next(m, move) == m
  {
  }

  lemma {:induction false} UnderwayRun(m: Manager, k: Job, want: Want, levels: seq<int>, q: Registry.State,
                                       moves: seq<Move>, c0: nat) returns (after: Registry.State)
    requires Inv(m.base, c0) && Underway(m, k, want, levels, q) && Alone(moves, k.mem)
    ensures Underway(Moves(m, moves), k, want, levels, after) && Inv(Moves(m, moves).base, c0)
    decreases |moves|
  {
    hide Inv, Next, Underway;
    if moves == [] {
      after := q;
    } else {
      assert Alone([moves[0]], k.mem) && Alone(moves[1..], k.mem);
      var p := UnderwayStep(m, k, want, levels, q, moves[0], c0);
      after := UnderwayRun(Next(m, moves[0]), k, want, levels, p, moves[1..], c0);
    }
  }

  /** The call on the sequential registry that a setter is. */
  function SetterCall(channel: Name, lvl: int, checked: bool, mem: Registry.Memory): Registry.Call {
    if checked then Registry.SetLoggerLevel(channel, lvl, mem) else Registry.GetLoggerDfl(channel, lvl, mem)
  }

  lemma DoneIsCall(m: Manager, r: Registry.State, t: Tid, channel: Name, want: Want, mem: Registry.Memory,
                   log: seq<Entry>)
    requires Registry.Inv(r) && r.capacity > 0
    requires Done(m, Job(t, Truncate(channel), mem, log, Registry.Get(r, channel, mem)), want)
    ensures var (after, reply) := Registry.Step(r, SetterCall(channel, want.lvl, want.checked, mem));
            AtRest(m, after) && m.base.log == log + [Entry(t, Truncate(channel), ResultOf(reply))]
  {
    hide Truncate, Registry.Get;
    RegistryRuns.GetOutcome(r, channel, mem);
  }

  /**
   A setter that runs alone from rest, in whatever order its moves are tried: once it has ended, the
   names, the capacity and the levels are those that one call on the sequential registry leaves, and its
   get-or-create has answered as that call does.
   */
  lemma SetterAlone(m: Manager, r: Registry.State, t: Tid, channel: Name, lvl: int, checked: bool,
                    mem: Registry.Memory, rest: seq<Move>, c0: nat)
    requires Inv(m.base, c0) && AtRest(m, r) && Alone(rest, mem)
    ensures var n := Moves(m, [CallSet(t, channel, lvl, checked)] + rest);
            var (after, reply) := Registry.Step(r, SetterCall(channel, lvl, checked, mem));
            t !in n.base.threads && t !in n.stores ==>
              AtRest(n, after) && n.base.log == m.base.log + [Entry(t, Truncate(channel), ResultOf(reply))]
  {
    hide Inv, Next, Part, Registry.Get, Registry.Step, Truncate, Registry.Inv;
    var first, want := CallSet(t, channel, lvl, checked), Want(lvl, checked);
    var k := Job(t, Truncate(channel), mem, m.base.log, Registry.Get(r, channel, mem));
    SettingStarts(m, r, t, channel, want, mem);
    CallKeepsInv(m, first, c0);
    var q := UnderwayRun(Next(m, first), k, want, r.levels, r, rest, c0);
    MovesConcat(m, [first], rest);
    OneMove(m, first);
    var n := Moves(m, [first] + rest);
    if t !in n.base.threads && t !in n.stores {
      NothingDue(n, k, want, r.levels, q);
      DoneIsCall(n, r, t, channel, want, mem, m.base.log);
    }
  }

  lemma CallKeepsInv(m: Manager, move: Move, c0: nat)
    requires Inv(m.base, c0)
    ensures Inv(Next(m, move).base, c0)
  {
    hide Inv, Next, Step, Part;
    NextBase(m, move);
    if Part(m, move).Some? {
      StepKeepsInv(m.base, Part(m, move).value, c0);
    }
  }

  /** A setter that is outside with no write due is done. */
  lemma NothingDue(n: Manager, k: Job, want: Want, levels: seq<int>, q: Registry.State)
    requires Underway(n, k, want, levels, q) && k.t !in n.base.threads && k.t !in n.stores
    ensures Done(n, k, want)
  {
  }

  // ---------- It can always be ended ----------

  /** A thread whose write is due is outside. */
  predicate DueOutside(m: Manager) {
    forall t :: t in m.stores ==> t !in m.base.threads
  }

  lemma GetFollowsBase(m: Manager, a: Action)
    requires DueOutside(m) && !a.Call?
    ensures DueOutside(Next(m, Get(a))) && Next(m, Get(a)).base == Step(m.base, a)
  {
    hide Step;
    StepKeepsThreads(m.base, a);
    if a.t !in m.base.threads {
      Waits(m.base, a);
    }
  }

  lemma {:induction false} GetsFollowBase(m: Manager, schedule: seq<Action>)
    requires DueOutside(m) && forall i :: 0 <= i < |schedule| ==> !schedule[i].Call?
    ensures Moves(m, Gets(schedule)).base == Run(m.base, schedule)
    decreases |schedule|
  {
    hide Step, Next, DueOutside;
    if schedule == [] {
    } else {
      GetsStep(schedule);
      GetFollowsBase(m, schedule[0]);
      GetsFollowBase(Next(m, Get(schedule[0])), schedule[1..]);
    }
  }

  lemma UnderwayIsOutside(m: Manager, k: Job, want: Want, levels: seq<int>, q: Registry.State)
    requires Underway(m, k, want, levels, q)
    ensures DueOutside(m)
  {
  }

  /** Wherever a setter alone has got to, moves of its own bring it to its end. */
  lemma SetterAloneEnds(m: Manager, r: Registry.State, t: Tid, channel: Name, lvl: int, checked: bool,
                        mem: Registry.Memory, rest: seq<Move>, c0: nat) returns (more: seq<Move>)
    requires Inv(m.base, c0) && AtRest(m, r) && Alone(rest, mem)
    ensures Alone(more, mem)
    ensures var n := Moves(m, [CallSet(t, channel, lvl, checked)] + rest + more);
            t !in n.base.threads && t !in n.stores
  {
    hide Inv, Next, Part, Registry.Get, Truncate, Setting, Got, Done, NamesToCome, Affordable, Run;
    var first, want := CallSet(t, channel, lvl, checked), Want(lvl, checked);
    var k := Job(t, Truncate(channel), mem, m.base.log, Registry.Get(r, channel, mem));
    SettingStarts(m, r, t, channel, want, mem);
    CallKeepsInv(m, first, c0);
    var p := Next(m, first);
    var q := UnderwayRun(p, k, want, r.levels, r, rest, c0);
    var n := Moves(p, rest);
    NamesFit(n.base, c0, NamesToCome(n.base));
    var schedule := FinishAll(n.base, c0, NamesToCome(n.base), mem);
    UnderwayIsOutside(n, k, want, r.levels, q);
    GetsFollowBase(n, schedule);
    more := Gets(schedule) + [WriteLevel(t)];
    var o := Moves(n, Gets(schedule));
    MovesConcat(m, [first], rest);
    MovesConcat(m, [first] + rest, more);
    MovesConcat(n, Gets(schedule), [WriteLevel(t)]);
    OneMove(m, first);
    OneMove(o, WriteLevel(t));
    WriteEnds(o, t);
  }

  lemma WriteEnds(m: Manager, t: Tid)
    ensures t !in Next(m, WriteLevel(t)).stores && Next(m, WriteLevel(t)).base == m.base
  {
  }
}
