/**
 Every interleaving is its own calls, each once, on a plain map: no resize and no restart is seen in
 their answers.
 */
module CallsAlone {
  import opened LateReads
  import opened Layout
  import opened Linearization
  import opened Links
  import opened Names
  import opened Threads
  import NameMap
  import Registry
  import RegistryRuns
  import Severity

  // ---------- Calls on a map ----------

  /** An answered call: its thread, the name it asked for, and whether the allocation it needed, if any, was made. */
  datatype Ask = Ask(t: Tid, name: Name, gotMemory: bool)

  /** The memory that the write section answers with: a bucket array where the table is full, else a node. */
  predicate Allocated(s: System, mem: Registry.Memory) {
    if |s.sh.names| >= |s.sh.heads| then mem.bucketsOk else mem.nodeOk
  }

  function StepAsk(s: System, a: Action): seq<Ask> {
    var request := Answering(s, a);
    if request.None? || !request.value.GetLogger? then []
    else [Ask(a.t, request.value.channel, Allocated(s, request.value.mem))]
  }

  /** The calls that a schedule answers, in the order in which they take effect. */
  function Asks(s: System, schedule: seq<Action>): seq<Ask>
    decreases |schedule|
  {
    if schedule == [] then [] else StepAsk(s, schedule[0]) + Asks(Step(s, schedule[0]), schedule[1..])
  }

  /** When a new name finds room: in a pool that is not full, or in memory. */
  predicate Room(policy: Registry.Policy, c0: nat, size: nat, ask: Ask) {
    match policy
    case FixedSize => size < c0
    case DynamicSize => ask.gotMemory
  }

  /** The same calls on a map, which is all that is kept between them. */
  function MapAnswers(policy: Registry.Policy, c0: nat, m: map<Name, NameMap.Channel>, asks: seq<Ask>)
    : (map<Name, NameMap.Channel>, seq<Entry>)
    decreases |asks|
  {
    if asks == [] then (m, [])
    else
      var (n, reply) := NameMap.MapGet(m, asks[0].name, Room(policy, c0, |m|, asks[0]));
      var (o, rest) := MapAnswers(policy, c0, n, asks[1..]);
      (o, [Entry(asks[0].t, asks[0].name, ResultOf(reply))] + rest)
  }

  /** The map of a list of registered names. */
  ghost function MapOf(names: seq<Name>): map<Name, NameMap.Channel>
    requires Distinct(names)
  {
    map id | 0 <= id < |names| :: names[id] := NameMap.Channel(id, Severity.LVL_DEBUG)
  }

  lemma MapOfFinds(names: seq<Name>, id: nat)
    requires Distinct(names) && id < |names|
    ensures names[id] in MapOf(names) && MapOf(names)[names[id]].id == id
  {
    assert MapOf(names)[names[id]] == NameMap.Channel(id, Severity.LVL_DEBUG);
  }

  lemma MapOfSize(names: seq<Name>)
    requires Distinct(names)
    ensures |MapOf(names)| == |names|
  {
    assert MapOf(names).Keys == set n | n in names;
    DistinctCardinality(names);
  }

  lemma MapOfGrows(names: seq<Name>, name: Name)
    requires Distinct(names) && name !in names && Distinct(names + [name])
    ensures MapOf(names + [name]) == MapOf(names)[name := NameMap.Channel(|names|, Severity.LVL_DEBUG)]
  {
    hide Distinct;
    var longer := names + [name];
    assert longer[|names|] == name;
    forall id | 0 <= id < |names| ensures longer[id] == names[id] {}
  }

  lemma MapGetMatches(r: Registry.State, name: Name, mem: Registry.Memory)
    requires Registry.Inv(r) && r.capacity > 0 && Truncate(name) == name
    ensures var (t, reply) := Registry.Get(r, name, mem);
            && Distinct(t.names)
            && (MapOf(t.names), reply) == NameMap.MapGet(MapOf(r.names), name, RegistryRuns.HasRoom(r, mem))
  {
    hide Truncate, Registry.Get, MapOf;
    RegistryRuns.GetOutcome(r, name, mem);
    if name in r.names {
      MapOfFinds(r.names, Registry.Get(r, name, mem).1.id);
    } else {
      MapOfMisses(r.names, name);
      MapOfSize(r.names);
      DistinctAppend(r.names, name);
      MapOfGrows(r.names, name);
    }
  }

  lemma MapOfMisses(names: seq<Name>, name: Name)
    requires Distinct(names) && name !in names
    ensures name !in MapOf(names)
  {
  }

  /** Each step answers on the map what it answers on the sequential state. */
  lemma StepOnMap(r: Registry.State, s: System, a: Action, c0: nat)
    requires Matches(r, s) && AsksStored(s) && Inv(s, c0)
    ensures Distinct(s.sh.names) && Distinct(Step(s, a).sh.names)
    ensures MapAnswers(s.sh.policy, c0, MapOf(s.sh.names), StepAsk(s, a)) ==
            (MapOf(Step(s, a).sh.names), StepAnswers(r, s, a))
  {
    hide Truncate, Registry.Get, Home, Chain, Inv, Write, Move, Reread, StoreLinks, MapOf, StepAnswers, StepAsk, Step;
    StepMatches(r, s, a, c0);
    Basics(s, c0);
    var request := Answering(s, a);
    if request.Some? {
      AnsweringIsGet(s, a);
      MapGetMatches(r, request.value.channel, request.value.mem);
      MapOfSize(s.sh.names);
      OneAsk(r, s, a);
      RoomIsRoom(r, s, a, c0);
      if request.value.channel in s.sh.names {
        RoomForKnown(s.sh.names, request.value.channel);
      }
      OneAnswer(s.sh.policy, c0, MapOf(s.sh.names), StepAsk(s, a)[0]);
    } else {
      NoAsk(r, s, a, c0);
    }
  }

  lemma RoomForKnown(names: seq<Name>, name: Name)
    requires Distinct(names) && name in names
    ensures forall x, y :: NameMap.MapGet(MapOf(names), name, x) == NameMap.MapGet(MapOf(names), name, y)
  {
    var id :| 0 <= id < |names| && names[id] == name;
    MapOfFinds(names, id);
  }

  lemma OneAnswer(policy: Registry.Policy, c0: nat, m: map<Name, NameMap.Channel>, ask: Ask)
    ensures var (n, reply) := NameMap.MapGet(m, ask.name, Room(policy, c0, |m|, ask));
            MapAnswers(policy, c0, m, [ask]) == (n, [Entry(ask.t, ask.name, ResultOf(reply))])
  {
    var (n, reply) := NameMap.MapGet(m, ask.name, Room(policy, c0, |m|, ask));
    assert [ask][1..] == [] && MapAnswers(policy, c0, n, []) == (n, []);
    assert [Entry(ask.t, ask.name, ResultOf(reply))] + [] == [Entry(ask.t, ask.name, ResultOf(reply))];
  }

  lemma AnsweringIsGet(s: System, a: Action)
    requires AsksStored(s) && Answering(s, a).Some?
    ensures Answering(s, a).value.GetLogger? && Truncate(Answering(s, a).value.channel) == Answering(s, a).value.channel
  {
    hide Truncate;
  }

  /** The fixed table never changes its capacity. */
  lemma FixedCapacity(s: System, c0: nat)
    requires Inv(s, c0) && s.sh.policy == Registry.FixedSize
    ensures |s.sh.heads| == c0
  {
    hide PointInv, QuietInv, ResizeInv;
    PowZero(c0);
  }

  lemma RoomIsRoom(r: Registry.State, s: System, a: Action, c0: nat)
    requires Matches(r, s) && AsksStored(s) && Inv(s, c0) && Answering(s, a).Some? && Answering(s, a).value.GetLogger?
    ensures var request := Answering(s, a).value;
            var ask := Ask(a.t, request.channel, Allocated(s, request.mem));
            request.channel in s.sh.names ||
            RegistryRuns.HasRoom(r, request.mem) == Room(s.sh.policy, c0, |s.sh.names|, ask)
  {
    hide Truncate, Inv;
    if s.sh.policy == Registry.FixedSize {
      FixedCapacity(s, c0);
    }
  }

  /** An answering step is one request, on the state and on the map. */
  lemma OneAsk(r: Registry.State, s: System, a: Action)
    requires Answering(s, a).Some? && Answering(s, a).value.GetLogger?
    ensures var request := Answering(s, a).value;
            && RegistryRuns.Run(r, Effect(s, a)).0 == Registry.Get(r, request.channel, request.mem).0
            && StepAsk(s, a) == [Ask(a.t, request.channel, Allocated(s, request.mem))]
            && StepAnswers(r, s, a) ==
               [Entry(a.t, request.channel, ResultOf(Registry.Get(r, request.channel, request.mem).1))]
  {
    hide Answering, Registry.Get;
    RunOfOne(r, Answering(s, a).value);
  }

  /** Any other step leaves the names as they are. */
  lemma NoAsk(r: Registry.State, s: System, a: Action, c0: nat)
    requires Matches(r, s) && AsksStored(s) && Inv(s, c0) && Answering(s, a).None?
    ensures Step(s, a).sh.names == s.sh.names && StepAsk(s, a) == [] && StepAnswers(r, s, a) == []
  {
    hide Truncate, Home, Chain, Lookup, TailSlot, NewTail, Reread, StoreHeads, StoreLinks, AppendLinks, Inv;
    Basics(s, c0);
    LookupExact(s.sh.names, |s.sh.heads|, if a.WriteSection? && Enabled(s, a) then s.threads[a.t].name else []);
  }

  lemma {:induction false} MapAnswersConcat(policy: Registry.Policy, c0: nat, m: map<Name, NameMap.Channel>,
                                            first: seq<Ask>, rest: seq<Ask>)
    ensures var (n, entries) := MapAnswers(policy, c0, m, first);
            var (o, others) := MapAnswers(policy, c0, n, rest);
            MapAnswers(policy, c0, m, first + rest) == (o, entries + others)
    decreases |first|
  {
    if first == [] {
      assert first + rest == rest;
      assert [] + MapAnswers(policy, c0, m, rest).1 == MapAnswers(policy, c0, m, rest).1;
    } else {
      assert (first + rest)[1..] == first[1..] + rest;
      var (n, reply) := NameMap.MapGet(m, first[0].name, Room(policy, c0, |m|, first[0]));
      MapAnswersConcat(policy, c0, n, first[1..], rest);
      var entry := Entry(first[0].t, first[0].name, ResultOf(reply));
      var (o, entries) := MapAnswers(policy, c0, n, first[1..]);
      var others := MapAnswers(policy, c0, o, rest).1;
      assert [entry] + (entries + others) == ([entry] + entries) + others;
    }
  }

  lemma NoAnswers(policy: Registry.Policy, c0: nat, m: map<Name, NameMap.Channel>)
    ensures MapAnswers(policy, c0, m, []) == (m, [])
  {
  }

  lemma {:induction false} RunOnMap(r: Registry.State, s: System, schedule: seq<Action>, c0: nat)
    requires Matches(r, s) && AsksStored(s) && Inv(s, c0)
    ensures Distinct(s.sh.names) && Distinct(Run(s, schedule).sh.names)
    ensures MapAnswers(s.sh.policy, c0, MapOf(s.sh.names), Asks(s, schedule)) ==
            (MapOf(Run(s, schedule).sh.names), Answers(r, s, schedule))
    decreases |schedule|
  {
    hide Matches, AsksStored, Inv, Step, Effect, StepAnswers, StepAsk, MapOf, MapAnswers;
    InvLog(s, c0);
    if schedule == [] {
      NoAnswers(s.sh.policy, c0, MapOf(s.sh.names));
    } else {
      var a, u := schedule[0], Step(s, schedule[0]);
      StepOnMap(r, s, a, c0);
      StepMatches(r, s, a, c0);
      StepKeepsStored(s, a);
      StepKeepsInv(s, a, c0);
      StepKeepsPolicy(s, a);
      RunOnMap(RegistryRuns.Run(r, Effect(s, a)).0, u, schedule[1..], c0);
      MapAnswersConcat(s.sh.policy, c0, MapOf(s.sh.names), StepAsk(s, a), Asks(u, schedule[1..]));
    }
  }

  /** Every allocation of a schedule is made. */
  predicate MemoryOk(schedule: seq<Action>) {
    forall k :: 0 <= k < |schedule| && schedule[k].WriteSection? ==> schedule[k].mem == Registry.Memory(true, true)
  }

  /** With memory to spare, a new name always finds room under the dynamic policy. */
  lemma {:induction false} AllMemory(s: System, schedule: seq<Action>)
    requires MemoryOk(schedule)
    ensures forall k :: 0 <= k < |Asks(s, schedule)| ==> Asks(s, schedule)[k].gotMemory
    decreases |schedule|
  {
    hide Step;
    if schedule == [] {
    } else {
      AllMemory(Step(s, schedule[0]), schedule[1..]);
    }
  }

  // ---------- Each call is answered once, in order ----------

  /** The names that thread `t` asks for, by its calls. */
  function Made(s: System, schedule: seq<Action>, t: Tid): seq<Name>
    decreases |schedule|
  {
    if schedule == [] then []
    else
      var a := schedule[0];
      (if a.Call? && a.t == t && Enabled(s, a) then [Truncate(a.channel)] else []) + Made(Step(s, a), schedule[1..], t)
  }

  /** The names that thread `t` is answered for. */
  function NamesOf(asks: seq<Ask>, t: Tid): seq<Name>
    decreases |asks|
  {
    if asks == [] then [] else (if asks[0].t == t then [asks[0].name] else []) + NamesOf(asks[1..], t)
  }

  /** The call of thread `t` that waits for its answer. */
  function Unanswered(s: System, t: Tid): seq<Name> {
    if t in s.threads && !s.threads[t].AtReturn? then [s.threads[t].name] else []
  }

  lemma WriteAnswersOnce(s: System, w: Tid, mem: Registry.Memory, c0: nat, t: Tid)
    requires Inv(s, c0) && |s.sh.heads| > 0 && w in s.threads && s.threads[w].Writing?
    ensures Unanswered(s, t) ==
            NamesOf(StepAsk(s, WriteSection(w, mem)), t) + Unanswered(Write(s, w, s.threads[w].name, mem), t)
  {
    hide Truncate, Home, Chain, Inv, Lookup, TailSlot, WithChannel;
    Basics(s, c0);
    LookupExact(s.sh.names, |s.sh.heads|, s.threads[w].name);
  }

  lemma ResizeAnswersNone(s: System, w: Tid, t: Tid)
    requires |s.sh.heads| > 0 && w in s.threads && InResize(s.threads[w])
    ensures s.threads[w].Moving? ==> Unanswered(Step(s, MoveNode(w)), t) == Unanswered(s, t)
    ensures s.threads[w].Cutting? ==> Unanswered(Step(s, CutNode(w)), t) == Unanswered(s, t)
  {
    hide Home, Chain, NewTail, StoreHeads, StoreLinks;
  }

  lemma StepAnswersOnce(s: System, a: Action, c0: nat, t: Tid)
    requires Inv(s, c0)
    ensures Unanswered(s, t) + Made(s, [a], t) == NamesOf(StepAsk(s, a), t) + Unanswered(Step(s, a), t)
  {
    hide Truncate, Home, Chain, Inv, Write, Move, Cut, Reread;
    assert [a][1..] == [];
    if Enabled(s, a) {
      match a
      case WriteSection(w, mem) => WriteAnswersOnce(s, w, mem, c0, t);
      case MoveNode(w) => ResizeAnswersNone(s, w, t);
      case CutNode(w) => ResizeAnswersNone(s, w, t);
      case _ =>
    }
  }

  lemma NamesOfConcat(first: seq<Ask>, rest: seq<Ask>, t: Tid)
    requires |first| <= 1
    ensures NamesOf(first + rest, t) == NamesOf(first, t) + NamesOf(rest, t)
  {
    if first == [] {
      assert first + rest == rest;
    } else {
      assert (first + rest)[1..] == rest && first[1..] == [];
    }
  }

  lemma AtMostOneAsk(s: System, a: Action)
    ensures |StepAsk(s, a)| <= 1
  {
  }

  /** The calls of a thread are answered once each, in their order; the last one may still wait. */
  lemma {:induction false} EachCallOnce(s: System, schedule: seq<Action>, c0: nat, t: Tid)
    requires Inv(s, c0)
    ensures Unanswered(s, t) + Made(s, schedule, t) ==
            NamesOf(Asks(s, schedule), t) + Unanswered(Run(s, schedule), t)
    decreases |schedule|
  {
    hide Inv, Step, StepAsk, Unanswered, Truncate;
    if schedule == [] {
    } else {
      var a, u := schedule[0], Step(s, schedule[0]);
      assert [a][1..] == [];
      StepKeepsInv(s, a, c0);
      StepAnswersOnce(s, a, c0, t);
      EachCallOnce(u, schedule[1..], c0, t);
      AtMostOneAsk(s, a);
      NamesOfConcat(StepAsk(s, a), Asks(u, schedule[1..]), t);
      MadeStep(s, schedule, t);
      Regroup(Unanswered(s, t), Made(s, [a], t), Made(u, schedule[1..], t));
      Regroup(NamesOf(StepAsk(s, a), t), Unanswered(u, t), Made(u, schedule[1..], t));
      Regroup(NamesOf(StepAsk(s, a), t), NamesOf(Asks(u, schedule[1..]), t), Unanswered(Run(u, schedule[1..]), t));
    }
  }

  lemma Regroup(a: seq<Name>, b: seq<Name>, c: seq<Name>)
    ensures (a + b) + c == a + (b + c)
  {
  }

  lemma MadeStep(s: System, schedule: seq<Action>, t: Tid)
    requires schedule != []
    ensures Made(s, schedule, t) == Made(s, [schedule[0]], t) + Made(Step(s, schedule[0]), schedule[1..], t)
  {
    hide Step;
    assert [schedule[0]][1..] == [];
  }

  /**
   The calls of a schedule alone, each once, on a plain map that keeps nothing of the table: they leave
   the registered names, and each thread gets the answers to its own calls in their order, under the
   fixed policy always and under the dynamic one when every late read is clean. With memory to spare no
   call of the dynamic policy is refused.
   */
  lemma EveryRunIsItsCallsOnAMap(policy: Registry.Policy, c0: nat, schedule: seq<Action>, t: Tid)
    requires c0 > 0
    ensures var start := Start(policy, c0);
            var s, asks := Run(start, schedule), Asks(start, schedule);
            var (m, answers) := MapAnswers(policy, c0, map[], asks);
            && Distinct(s.sh.names) && m == MapOf(s.sh.names)
            && Made(start, schedule, t) == NamesOf(asks, t) + Unanswered(s, t)
            && (MemoryOk(schedule) ==> forall k :: 0 <= k < |asks| ==> asks[k].gotMemory)
            && (policy == Registry.FixedSize || CleanRun(start, schedule) ==>
                  && Given(s, t) == Of(answers, t)
                  && (t !in s.threads ==> Of(s.log, t) == Of(answers, t)))
  {
    hide Run, Asks, Answers, CleanRun, MapAnswers, Made, Registry.Fresh, Of, MemoryOk;
    var start := Start(policy, c0);
    var first := Registry.Fresh(policy, c0, 0);
    StartInv(policy, c0);
    StartMatches(policy, c0);
    RunOnMap(first, start, schedule, c0);
    assert MapOf(start.sh.names) == map[];
    EachCallOnce(start, schedule, c0, t);
    EveryRunIsSequential(policy, c0, 0, schedule, t);
    if MemoryOk(schedule) {
      AllMemory(start, schedule);
    }
  }

  lemma StartMatches(policy: Registry.Policy, c0: nat)
    requires c0 > 0
    ensures Matches(Registry.Fresh(policy, c0, 0), Start(policy, c0)) && AsksStored(Start(policy, c0))
  {
  }
}
