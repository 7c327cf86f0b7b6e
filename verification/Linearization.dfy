/**
 Every interleaving of Threads.dfy is the sequential registry of Registry.dfy: each call takes effect
 at one step of its own thread, as a get-or-create on the state that the steps before it have left.
 */
module Linearization {
  import opened Names
  import opened Layout
  import opened Links
  import opened LateReads
  import opened Options
  import opened Threads
  import Registry
  import RegistryRuns

  /** The shared table is the table of the sequential state. */
  ghost predicate Matches(r: Registry.State, s: System) {
    && Registry.Inv(r) && r.capacity > 0
    && r.policy == s.sh.policy && r.names == s.sh.names && r.capacity == |s.sh.heads|
  }

  /** Threads ask for names in their stored form. */
  ghost predicate AsksStored(s: System) {
    forall t :: t in s.threads ==> Truncate(s.threads[t].name) == s.threads[t].name
  }

  /** The probe of the read section is at the node of its name. */
  predicate Hits(s: System, p: Point) {
    p.Reading? && p.p.Some? && p.p.value < |s.sh.names| && s.sh.names[p.p.value] == p.name
  }

  /** The write section starts a resize instead of answering. */
  predicate StartsResize(s: System, name: Name, mem: Registry.Memory) {
    && name !in s.sh.names && |s.sh.names| >= |s.sh.heads|
    && s.sh.policy == Registry.DynamicSize && mem.bucketsOk
  }

  /** The sequential request with which a step answers its call, if it does. */
  function Answering(s: System, a: Action): Option<Registry.Call> {
    if !Enabled(s, a) then None
    else
      match a
      case ReadNode(t) =>
        if Hits(s, s.threads[t]) then Some(Registry.GetLogger(s.threads[t].name, Registry.Memory(true, true))) else None
      case WriteSection(t, mem) =>
        if StartsResize(s, s.threads[t].name, mem) then None else Some(Registry.GetLogger(s.threads[t].name, mem))
      case _ => None
  }

  /**
   The sequential requests that a step amounts to: the answer, or for the end of a resize a request
   that doubled the table and then found no memory for its node.
   */
  function Effect(s: System, a: Action): seq<Registry.Call> {
    if Answering(s, a).Some? then [Answering(s, a).value]
    else if a.MoveNode? && Enabled(s, a) && s.threads[a.t].p.None? && s.threads[a.t].i + 1 >= |s.sh.heads|
    then [Registry.GetLogger(s.threads[a.t].name, Registry.Memory(true, false))]
    else []
  }

  function ResultOf(reply: Registry.Reply): Result {
    match reply
    case Logger(id) => Logger(id)
    case Null => NoLogger
    case DivisionByZero => Broken
  }

  /** What the sequential registry answers to the call that the step answers. */
  function StepAnswers(r: Registry.State, s: System, a: Action): seq<Entry> {
    var request := Answering(s, a);
    if request.None? || !request.value.GetLogger? then []
    else [Entry(a.t, request.value.channel, ResultOf(Registry.Step(r, request.value).1))]
  }

  /** The sequential history of a schedule, and what it answers. */
  function History(s: System, schedule: seq<Action>): seq<Registry.Call>
    decreases |schedule|
  {
    if schedule == [] then [] else Effect(s, schedule[0]) + History(Step(s, schedule[0]), schedule[1..])
  }

  function Answers(r: Registry.State, s: System, schedule: seq<Action>): seq<Entry>
    decreases |schedule|
  {
    if schedule == [] then []
    else
      StepAnswers(r, s, schedule[0]) +
      Answers(RegistryRuns.Run(r, Effect(s, schedule[0])).0, Step(s, schedule[0]), schedule[1..])
  }

  // ---------- The table ----------

  lemma RunOfOne(r: Registry.State, call: Registry.Call)
    ensures RegistryRuns.Run(r, [call]).0 == Registry.Step(r, call).0
  {
    assert [call][1..] == [];
  }

  lemma StepKeepsStored(s: System, a: Action)
    requires AsksStored(s)
    ensures AsksStored(Step(s, a))
  {
    hide Home, Chain, Lookup, TailSlot, NewTail, Reread, StoreHeads, StoreLinks, AppendLinks;
  }

  lemma HitIsSequential(r: Registry.State, s: System, t: Tid, c0: nat)
    requires Matches(r, s) && AsksStored(s) && Inv(s, c0) && t in s.threads && Hits(s, s.threads[t])
    ensures Registry.Get(r, s.threads[t].name, Registry.Memory(true, true)) ==
            (r, Registry.Logger(s.threads[t].p.value))
  {
    hide Truncate, Inv, Registry.Get;
    RegistryRuns.GetOutcome(r, s.threads[t].name, Registry.Memory(true, true));
  }

  lemma PublishIsSequential(r: Registry.State, s: System, t: Tid, c0: nat)
    requires Matches(r, s) && AsksStored(s) && Inv(s, c0) && t in s.threads && s.threads[t].Moving?
    ensures Registry.Get(r, s.threads[t].name, Registry.Memory(true, false)) == (Registry.Doubled(r), Registry.Null)
  {
    hide Truncate, Registry.Get, Home, Chain, Rehashing, Remembers;
    assert InResize(s.threads[t]) && ResizeInv(s.sh, s.threads[t], c0);
    RegistryRuns.GetOutcome(r, s.threads[t].name, Registry.Memory(true, false));
  }

  lemma WriteMatches(r: Registry.State, s: System, t: Tid, mem: Registry.Memory, c0: nat)
    requires Matches(r, s) && AsksStored(s) && Inv(s, c0) && t in s.threads && s.threads[t].Writing?
    ensures var name := s.threads[t].name;
            if StartsResize(s, name, mem) then Matches(r, Write(s, t, name, mem))
            else Matches(Registry.Get(r, name, mem).0, Write(s, t, name, mem))
  {
    hide Truncate, Registry.Get, Home, Chain, Inv, Lookup, TailSlot, WithChannel;
    var name := s.threads[t].name;
    WriteIsSequentialGet(r, s, t, name, mem);
    RegistryRuns.GetOutcome(r, name, mem);
    RegistryRuns.GetKeepsInv(r, name, mem);
    WriteKeepsPolicy(s, t, name, mem);
    LookupExact(s.sh.names, |s.sh.heads|, name);
  }

  lemma WriteKeepsPolicy(s: System, t: Tid, name: Name, mem: Registry.Memory)
    requires |s.sh.heads| > 0
    ensures Write(s, t, name, mem).sh.policy == s.sh.policy
  {
    hide Home, Chain, Lookup, TailSlot;
  }

  lemma MoveMatches(r: Registry.State, s: System, t: Tid, c0: nat)
    requires Matches(r, s) && AsksStored(s) && Inv(s, c0) && t in s.threads && s.threads[t].Moving?
    ensures Matches(RegistryRuns.Run(r, Effect(s, MoveNode(t))).0, Step(s, MoveNode(t)))
  {
    hide Truncate, Registry.Get, Home, Chain, Inv, NewTail, StoreLinks, StoreHeads, ResizeInv;
    var m := s.threads[t];
    if m.p.None? && m.i + 1 >= |s.sh.heads| {
      PublishIsSequential(r, s, t, c0);
      RunOfOne(r, Registry.GetLogger(m.name, Registry.Memory(true, false)));
      RegistryRuns.GetKeepsInv(r, m.name, Registry.Memory(true, false));
      WriterInv(s, t, c0);
      PublishedLength(s, t, c0);
    }
  }

  /** Each step does to the table what its sequential requests do to the sequential state. */
  lemma StepMatches(r: Registry.State, s: System, a: Action, c0: nat)
    requires Matches(r, s) && AsksStored(s) && Inv(s, c0)
    ensures Matches(RegistryRuns.Run(r, Effect(s, a)).0, Step(s, a))
  {
    hide Truncate, Registry.Get, Home, Chain, Inv, Write, Move, Reread, StoreLinks, StartsResize;
    if Enabled(s, a) {
      match a
      case ReadNode(t) =>
        if Hits(s, s.threads[t]) {
          HitIsSequential(r, s, t, c0);
          RunOfOne(r, Answering(s, a).value);
        }
      case WriteSection(t, mem) =>
        WriteMatches(r, s, t, mem, c0);
        if !StartsResize(s, s.threads[t].name, mem) {
          RunOfOne(r, Answering(s, a).value);
        }
      case MoveNode(t) => MoveMatches(r, s, t, c0);
      case _ =>
    }
  }

  /** In every interleaving the table is the one that the sequential history leaves. */
  lemma {:induction false} RunMatches(r: Registry.State, s: System, schedule: seq<Action>, c0: nat)
    requires Matches(r, s) && AsksStored(s) && Inv(s, c0)
    ensures Matches(RegistryRuns.Run(r, History(s, schedule)).0, Run(s, schedule))
    decreases |schedule|
  {
    hide Matches, AsksStored, Inv, Step, Effect, Registry.Step;
    if schedule == [] {
    } else {
      var t := Step(s, schedule[0]);
      StepMatches(r, s, schedule[0], c0);
      StepKeepsStored(s, schedule[0]);
      StepKeepsInv(s, schedule[0], c0);
      RegistryRuns.RunConcat(r, Effect(s, schedule[0]), History(t, schedule[1..]));
      RunMatches(RegistryRuns.Run(r, Effect(s, schedule[0])).0, t, schedule[1..], c0);
    }
  }

  // ---------- The answers ----------

  /** The entries of one thread, in order. */
  function Of(log: seq<Entry>, t: Tid): seq<Entry>
    decreases |log|
  {
    if log == [] then []
    else
      var last := |log| - 1;
      Of(log[..last], t) + if log[last].t == t then [log[last]] else []
  }

  lemma OfSnoc(log: seq<Entry>, e: Entry, t: Tid)
    ensures Of(log + [e], t) == Of(log, t) + if e.t == t then [e] else []
  {
    assert (log + [e])[..|log|] == log;
  }

  lemma {:induction false} OfConcat(first: seq<Entry>, rest: seq<Entry>, t: Tid)
    ensures Of(first + rest, t) == Of(first, t) + Of(rest, t)
    decreases |rest|
  {
    if rest == [] {
      assert first + rest == first;
    } else {
      var last := |rest| - 1;
      assert (first + rest)[..|first| + last] == first + rest[..last];
      OfConcat(first, rest[..last], t);
    }
  }

  /** What a thread will return that has registered its name and not yet returned. */
  function Due(s: System, t: Tid): seq<Entry> {
    if t in s.threads && s.threads[t].AtReturn?
    then [Entry(t, s.threads[t].name, Result.Logger(s.threads[t].id))]
    else []
  }

  /** The results that thread `t` has got for its calls, in order, the one that is due last. */
  function Given(s: System, t: Tid): seq<Entry> {
    Of(s.log, t) + Due(s, t)
  }

  lemma GotoGives(s: System, w: Tid, p: Point, t: Tid)
    requires w in s.threads ==> !s.threads[w].AtReturn?
    ensures Given(Goto(s, w, p), t) ==
            Given(s, t) + if w == t && p.AtReturn? then [Entry(t, p.name, Result.Logger(p.id))] else []
  {
    hide Of;
  }

  lemma FinishGives(s: System, w: Tid, name: Name, result: Result, t: Tid)
    requires w in s.threads
    requires s.threads[w].AtReturn? ==> Due(s, w) == [Entry(w, name, result)]
    ensures Given(Finish(s, w, name, result), t) ==
            Given(s, t) + if w == t && !s.threads[w].AtReturn? then [Entry(t, name, result)] else []
  {
    hide Of;
    OfSnoc(s.log, Entry(w, name, result), t);
  }

  lemma MemoryGives(s: System, sh: Shared, t: Tid)
    ensures Given(s.(sh := sh), t) == Given(s, t)
  {
  }

  lemma OneAnswerOf(e: Entry, t: Tid)
    ensures Of([e], t) == if e.t == t then [e] else []
  {
    assert [e][..0] == [];
  }

  lemma WriteGives(r: Registry.State, s: System, w: Tid, mem: Registry.Memory, c0: nat, t: Tid)
    requires Matches(r, s) && AsksStored(s) && Inv(s, c0) && w in s.threads && s.threads[w].Writing?
    ensures Given(Write(s, w, s.threads[w].name, mem), t) ==
            Given(s, t) + Of(StepAnswers(r, s, WriteSection(w, mem)), t)
  {
    hide Truncate, Registry.Get, Home, Chain, Inv, Lookup, TailSlot, WithChannel, Given, Of;
    var name := s.threads[w].name;
    LookupExact(s.sh.names, |s.sh.heads|, name);
    RegistryRuns.GetOutcome(r, name, mem);
    OneAnswerOf(Entry(w, name, ResultOf(Registry.Get(r, name, mem).1)), t);
    NoAnswerOf(t);
    if name in s.sh.names {
      var id := Registry.Get(r, name, mem).1.id;
      FinishGives(s, w, name, Result.Logger(id), t);
    } else if |s.sh.names| >= |s.sh.heads| {
      FinishGives(s, w, name, NoLogger, t);
      GotoGives(s, w, Moving(name, 0, 0, s.sh.heads[0], seq(2 * |s.sh.heads|, _ => None)), t);
    } else {
      FinishGives(s, w, name, NoLogger, t);
      MemoryGives(s, WithChannel(s.sh, name), t);
      GotoGives(s.(sh := WithChannel(s.sh, name)), w,
                AtReturn(name, |s.sh.names|, TailSlot(s.sh, name), s.sh.generation), t);
    }
  }

  lemma NoAnswerOf(t: Tid)
    ensures Of([], t) == []
  {
  }

  lemma ReadGives(r: Registry.State, s: System, w: Tid, c0: nat, t: Tid)
    requires Matches(r, s) && AsksStored(s) && Inv(s, c0) && w in s.threads && s.threads[w].Reading?
    ensures Given(Step(s, ReadNode(w)), t) == Given(s, t) + Of(StepAnswers(r, s, ReadNode(w)), t)
  {
    hide Truncate, Registry.Get, Home, Chain, Inv, Given, Of;
    var p := s.threads[w];
    NoAnswerOf(t);
    if Hits(s, p) {
      HitIsSequential(r, s, w, c0);
      OneAnswerOf(Entry(w, p.name, Result.Logger(p.p.value)), t);
      FinishGives(s, w, p.name, Result.Logger(p.p.value), t);
    } else if p.p.None? {
      GotoGives(s, w, AtGap(p.name), t);
    } else {
      GotoGives(s, w, Reading(p.name, Content(s.sh, NextSlot(p.p.value), s.sh.generation)), t);
    }
  }

  lemma MoveGives(s: System, w: Tid, t: Tid)
    requires |s.sh.heads| > 0 && w in s.threads && InResize(s.threads[w])
    ensures s.threads[w].Moving? ==> Given(Step(s, MoveNode(w)), t) == Given(s, t)
    ensures s.threads[w].Cutting? ==> Given(Step(s, CutNode(w)), t) == Given(s, t)
  {
    hide Home, Chain, NewTail, StoreHeads, StoreLinks, Of;
  }

  /** A clean step gives exactly what the sequential registry answers at that point, to the thread that asked. */
  lemma StepGives(r: Registry.State, s: System, a: Action, c0: nat, t: Tid)
    requires Matches(r, s) && AsksStored(s) && Inv(s, c0) && CleanStep(s, a)
    ensures Given(Step(s, a), t) == Given(s, t) + Of(StepAnswers(r, s, a), t)
  {
    hide Truncate, Registry.Get, Home, Chain, Inv, Given, Write, Move, Cut, Hop, Stable, Reread, Of;
    NoAnswerOf(t);
    if Enabled(s, a) {
      match a
      case Call(w, channel) => GotoGives(s, w, AtStart(Truncate(channel)), t);
      case EnterRead(w) =>
        var name := s.threads[w].name;
        GotoGives(s, w, Reading(name, s.sh.heads[Home(name, |s.sh.heads|)]), t);
      case ReadNode(w) => ReadGives(r, s, w, c0, t);
      case EnterWrite(w) => GotoGives(s, w, Writing(s.threads[w].name), t);
      case WriteSection(w, mem) => WriteGives(r, s, w, mem, c0, t);
      case MoveNode(w) => MoveGives(s, w, t);
      case CutNode(w) => MoveGives(s, w, t);
      case Return(w) =>
        RereadExact(s, w, c0);
        var p := s.threads[w];
        FinishGives(s, w, p.name, Reread(s.sh, p.slot, p.generation), t);
    }
  }

  lemma {:induction false} RunGives(r: Registry.State, s: System, schedule: seq<Action>, c0: nat, t: Tid)
    requires Matches(r, s) && AsksStored(s) && Inv(s, c0) && CleanRun(s, schedule)
    ensures Given(Run(s, schedule), t) == Given(s, t) + Of(Answers(r, s, schedule), t)
    decreases |schedule|
  {
    hide Matches, AsksStored, Inv, Step, Effect, StepAnswers, CleanStep, Given;
    if schedule == [] {
    } else {
      var a, u := schedule[0], Step(s, schedule[0]);
      var q := RegistryRuns.Run(r, Effect(s, a)).0;
      StepGives(r, s, a, c0, t);
      StepMatches(r, s, a, c0);
      StepKeepsStored(s, a);
      StepKeepsInv(s, a, c0);
      RunGives(q, u, schedule[1..], c0, t);
      OfConcat(StepAnswers(r, s, a), Answers(q, u, schedule[1..]), t);
    }
  }

  /**
   Linearization. From an empty table, any schedule leaves the names and the capacity that its
   sequential history leaves. Under the fixed policy, and under the dynamic one when every late read is
   clean, each thread gets the answers of that history to its own calls, in the order of those calls;
   the last one may be due. Once the thread is outside, they are the results returned to it.
   */
  lemma EveryRunIsSequential(policy: Registry.Policy, c0: nat, lvl: int, schedule: seq<Action>, t: Tid)
    requires c0 > 0
    ensures var first := Registry.Fresh(policy, c0, lvl);
            var s := Run(Start(policy, c0), schedule);
            var r := RegistryRuns.Run(first, History(Start(policy, c0), schedule)).0;
            && s.sh.names == r.names && |s.sh.heads| == r.capacity
            && (policy == Registry.FixedSize || CleanRun(Start(policy, c0), schedule) ==>
                 && Given(s, t) == Of(Answers(first, Start(policy, c0), schedule), t)
                 && (t !in s.threads ==> Of(s.log, t) == Of(Answers(first, Start(policy, c0), schedule), t)))
  {
    hide Run, History, Answers, CleanRun;
    var first := Registry.Fresh(policy, c0, lvl);
    StartInv(policy, c0);
    RunMatches(first, Start(policy, c0), schedule, c0);
    if policy == Registry.FixedSize {
      FixedRunsAreClean(Start(policy, c0), schedule, c0);
    }
    if CleanRun(Start(policy, c0), schedule) {
      RunGives(first, Start(policy, c0), schedule, c0, t);
    }
  }
}
