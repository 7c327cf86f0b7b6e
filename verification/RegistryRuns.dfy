/** What holds of the registry over every sequence of calls. */
module RegistryRuns {
  import opened Names
  import opened Layout
  import opened Options
  import opened Registry
  import opened Severity

  function Run(s: State, calls: seq<Call>): (State, seq<Reply>)
    decreases |calls|
  {
    if calls == [] then (s, [])
    else
      var (t, reply) := Step(s, calls[0]);
      var (u, replies) := Run(t, calls[1..]);
      (u, [reply] + replies)
  }

  // ---------- One registry call ----------

  /** Whether a request for a new name finds memory: a pool entry, or the allocations it needs. */
  predicate HasRoom(s: State, mem: Memory) {
    match s.policy
    case FixedSize => |s.names| < s.capacity
    case DynamicSize => mem.nodeOk && (|s.names| < s.capacity || mem.bucketsOk)
  }

  /** Everything a get-or-create does, in one step: at most one resize, at most one registration. */
  lemma GetOutcome(s: State, channel: Name, mem: Memory)
    requires Inv(s) && s.capacity > 0
    ensures var (t, reply) := Get(s, channel, mem);
            var name := Truncate(channel);
            var grown := if name !in s.names && s.policy == DynamicSize && |s.names| == s.capacity && mem.bucketsOk
                         then Doubled(s) else s;
            && (name in s.names ==> t == s && reply.Logger? && reply.id < |s.names| && s.names[reply.id] == name)
            && (name !in s.names && HasRoom(s, mem) ==> t == Registered(grown, name) && reply == Logger(|s.names|))
            && (name !in s.names && !HasRoom(s, mem) ==> t == grown && reply == Null)
  {
    hide Lookup, Truncate;
    var name := Truncate(channel);
    LookupExact(s.names, s.capacity, name);
    LookupExact(s.names, 2 * s.capacity, name);
  }

  lemma GetKeepsInv(s: State, channel: Name, mem: Memory)
    requires Inv(s)
    ensures Inv(Get(s, channel, mem).0)
  {
    if s.capacity > 0 {
      GetOutcome(s, channel, mem);
    }
  }

  lemma StepKeepsInv(s: State, call: Call)
    requires Inv(s)
    ensures Inv(Step(s, call).0)
  {
    hide Get, Truncate;
    match call
    case GetLogger(channel, mem) => GetKeepsInv(s, channel, mem);
    case GetLoggerDfl(channel, _, mem) => GetKeepsInv(s, channel, mem);
    case SetLoggerLevel(channel, _, mem) => GetKeepsInv(s, channel, mem);
    case _ =>
  }

  lemma {:induction false} RunKeepsInv(s: State, calls: seq<Call>)
    requires Inv(s)
    ensures Inv(Run(s, calls).0)
    decreases |calls|
  {
    if calls == [] {
    } else {
      StepKeepsInv(s, calls[0]);
      RunKeepsInv(Step(s, calls[0]).0, calls[1..]);
    }
  }

  lemma {:induction false} RunConcat(s: State, first: seq<Call>, rest: seq<Call>)
    ensures Run(s, first + rest).0 == Run(Run(s, first).0, rest).0
    decreases |first|
  {
    if first == [] {
      assert first + rest == rest;
    } else {
      assert (first + rest)[1..] == first[1..] + rest;
      RunConcat(Step(s, first[0]).0, first[1..], rest);
    }
  }

  /** One more call at the end of a run. */
  lemma {:induction false} RunSnoc(s: State, calls: seq<Call>, call: Call)
    ensures |Run(s, calls).1| == |calls|
    ensures Run(s, calls + [call]).0 == Step(Run(s, calls).0, call).0
    ensures Run(s, calls + [call]).1 == Run(s, calls).1 + [Step(Run(s, calls).0, call).1]
    decreases |calls|
  {
    hide Step;
    if calls == [] {
      assert [] + [call] == [call] && [call][1..] == [];
    } else {
      assert (calls + [call])[1..] == calls[1..] + [call];
      RunSnoc(Step(s, calls[0]).0, calls[1..], call);
    }
  }

  /** A registry call divides by zero exactly when the manager was created with no buckets. */
  lemma {:induction false} TrapsExactlyWithoutBuckets(s: State, calls: seq<Call>, channel: Name, mem: Memory)
    requires Inv(s)
    ensures Get(Run(s, calls).0, channel, mem).1 == DivisionByZero <==> s.capacity == 0
    decreases |calls|
  {
    if calls == [] {
      if s.capacity > 0 {
        GetOutcome(s, channel, mem);
      }
    } else {
      StepKeepsInv(s, calls[0]);
      StepKeepsZero(s, calls[0]);
      TrapsExactlyWithoutBuckets(Step(s, calls[0]).0, calls[1..], channel, mem);
    }
  }

  lemma StepKeepsZero(s: State, call: Call)
    requires Inv(s)
    ensures Step(s, call).0.capacity == 0 <==> s.capacity == 0
  {
    hide Get, Truncate;
    if s.capacity == 0 {
      StepWithoutBuckets(s, call);
    } else {
      match call
      case GetLogger(channel, mem) => GetOutcome(s, channel, mem);
      case GetLoggerDfl(channel, _, mem) => GetOutcome(s, channel, mem);
      case SetLoggerLevel(channel, _, mem) => GetOutcome(s, channel, mem);
      case _ =>
    }
  }

  lemma StepWithoutBuckets(s: State, call: Call)
    requires s.capacity == 0
    ensures var t := Step(s, call).0;
            && t.capacity == 0 && t.names == s.names && t.doublings == s.doublings && t.moves == s.moves
            && t.policy == s.policy && t.root == s.root
  {
  }

  // ---------- Capacity and relinking ----------

  function Pow2(k: nat): nat {
    if k == 0 then 1 else 2 * Pow2(k - 1)
  }

  /** The capacity is the initial one doubled, and every doubling relinked as many nodes as it added buckets. */
  ghost predicate Accounts(s: State, c0: nat) {
    && s.capacity == c0 * Pow2(s.doublings)
    && s.moves + c0 == s.capacity
    && (s.doublings > 0 ==> s.capacity <= 2 * |s.names|)
    && (s.policy == FixedSize ==> s.doublings == 0)
  }

  lemma DoublingKeepsAccounts(s: State, c0: nat)
    requires Accounts(s, c0) && |s.names| == s.capacity && s.policy == DynamicSize
    ensures Accounts(Doubled(s), c0)
  {
    assert Pow2(s.doublings + 1) == 2 * Pow2(s.doublings);
    assert c0 * (2 * Pow2(s.doublings)) == 2 * (c0 * Pow2(s.doublings));
  }

  lemma GetKeepsAccounts(s: State, channel: Name, mem: Memory, c0: nat)
    requires Inv(s) && Accounts(s, c0)
    ensures var t := Get(s, channel, mem).0;
            Accounts(t, c0) && |t.names| >= |s.names| && s.doublings <= t.doublings <= s.doublings + 1
  {
    hide Get, Truncate, Pow2;
    if s.capacity == 0 {
      ZeroTraps(s, channel, mem);
    } else {
      if |s.names| == s.capacity && s.policy == DynamicSize {
        DoublingKeepsAccounts(s, c0);
      }
      GetOutcome(s, channel, mem);
    }
  }

  lemma StepKeepsAccounts(s: State, call: Call, c0: nat)
    requires Inv(s) && Accounts(s, c0)
    ensures Accounts(Step(s, call).0, c0) && |Step(s, call).0.names| >= |s.names|
    ensures s.doublings <= Step(s, call).0.doublings <= s.doublings + 1
  {
    hide Get, Truncate, Pow2;
    match call
    case GetLogger(channel, mem) => GetKeepsAccounts(s, channel, mem, c0);
    case GetLoggerDfl(channel, _, mem) => GetKeepsAccounts(s, channel, mem, c0);
    case SetLoggerLevel(channel, _, mem) => GetKeepsAccounts(s, channel, mem, c0);
    case _ =>
  }

  /**
   In every run the channels fit the table, the capacity is the initial one times a power of two, it
   is the initial one or at most twice the number of channels, and the nodes relinked by all the
   resizes together are exactly the buckets gained. No call resizes twice.
   */
  lemma {:induction false} RunAccounts(s: State, calls: seq<Call>, c0: nat)
    requires Inv(s) && Accounts(s, c0)
    ensures var t := Run(s, calls).0;
            && |t.names| <= t.capacity == c0 * Pow2(t.doublings)
            && t.moves == t.capacity - c0
            && (t.capacity == c0 || t.moves <= t.capacity <= 2 * |t.names|)
            && t.doublings <= s.doublings + |calls|
            && Accounts(t, c0)
    decreases |calls|
  {
    if calls == [] {
    } else {
      StepKeepsInv(s, calls[0]);
      StepKeepsAccounts(s, calls[0], c0);
      RunAccounts(Step(s, calls[0]).0, calls[1..], c0);
    }
  }

  // ---------- Handles ----------

  lemma GetKeepsHandles(s: State, channel: Name, mem: Memory)
    requires Inv(s)
    ensures var t := Get(s, channel, mem).0;
            s.names <= t.names && t.policy == s.policy && t.root == s.root
  {
    hide Get, Truncate;
    if s.capacity == 0 {
      ZeroTraps(s, channel, mem);
    } else {
      GetOutcome(s, channel, mem);
    }
  }

  lemma StepKeepsHandles(s: State, call: Call)
    requires Inv(s)
    ensures s.names <= Step(s, call).0.names && Step(s, call).0.policy == s.policy
    ensures Step(s, call).0.root == s.root
  {
    hide Get, Truncate;
    match call
    case GetLogger(channel, mem) => GetKeepsHandles(s, channel, mem);
    case GetLoggerDfl(channel, _, mem) => GetKeepsHandles(s, channel, mem);
    case SetLoggerLevel(channel, _, mem) => GetKeepsHandles(s, channel, mem);
    case _ =>
  }

  lemma {:induction false} RunKeepsHandles(s: State, calls: seq<Call>)
    requires Inv(s)
    ensures s.names <= Run(s, calls).0.names && Run(s, calls).0.policy == s.policy && Run(s, calls).0.root == s.root
    decreases |calls|
  {
    if calls == [] {
    } else {
      StepKeepsInv(s, calls[0]);
      StepKeepsHandles(s, calls[0]);
      RunKeepsHandles(Step(s, calls[0]).0, calls[1..]);
    }
  }

  /** The channel that a call asks for. */
  function Asked(call: Call): Option<Name> {
    match call
    case GetLogger(channel, _) => Some(Truncate(channel))
    case GetLoggerDfl(channel, _, _) => Some(Truncate(channel))
    case SetLoggerLevel(channel, _, _) => Some(Truncate(channel))
    case _ => None
  }

  /** A call registers at most the name it asks for, and answers with the number of the new logger. */
  lemma StepHands(s: State, call: Call)
    requires Inv(s)
    ensures var (t, reply) := Step(s, call);
            var registers := Asked(call).Some? && reply == Logger(|s.names|);
            t.names == if registers then s.names + [Asked(call).value] else s.names
  {
    hide Get, Truncate;
    match call
    case GetLogger(channel, mem) => GetHands(s, channel, mem);
    case GetLoggerDfl(channel, _, mem) => GetHands(s, channel, mem);
    case SetLoggerLevel(channel, _, mem) => GetHands(s, channel, mem);
    case _ =>
  }

  lemma GetHands(s: State, channel: Name, mem: Memory)
    requires Inv(s)
    ensures var (t, reply) := Get(s, channel, mem);
            t.names == if reply == Logger(|s.names|) then s.names + [Truncate(channel)] else s.names
  {
    hide Get, Truncate;
    if s.capacity == 0 {
      ZeroTraps(s, channel, mem);
    } else {
      GetOutcome(s, channel, mem);
    }
  }

  /** A logger given out keeps its name for ever, and every later request for that name gives the same logger. */
  lemma HandlesAreStable(s: State, channel: Name, mem: Memory, calls: seq<Call>, again: Name, mem': Memory)
    requires Inv(s) && Get(s, channel, mem).1.Logger? && Truncate(again) == Truncate(channel)
    ensures var (t, reply) := Get(s, channel, mem);
            var u := Run(t, calls).0;
            && reply.id < |u.names| && u.names[reply.id] == Truncate(channel)
            && Get(u, again, mem') == (u, reply)
  {
    hide Get, Truncate, Run;
    var (t, reply) := Get(s, channel, mem);
    if s.capacity > 0 {
      GetOutcome(s, channel, mem);
    } else {
      assert false by { ZeroTraps(s, channel, mem); }
    }
    GetKeepsInv(s, channel, mem);
    RunKeepsHandles(t, calls);
    RunKeepsInv(t, calls);
    var u := Run(t, calls).0;
    assert u.names[reply.id] == t.names[reply.id];
    GetOutcome(u, again, mem');
  }

  lemma ZeroTraps(s: State, channel: Name, mem: Memory)
    requires s.capacity == 0
    ensures Get(s, channel, mem) == (s, DivisionByZero)
  {
  }

  lemma InitialKeepsInv(policy: Policy, channelCount: nat, lvl: int, root: Option<Name>, mem: Memory)
    ensures var s := Initial(policy, channelCount, lvl, root, mem);
            && Inv(s) && Accounts(s, channelCount) && s.policy == policy && s.doublings == 0
            && (s.root.Some? ==>
                  root.Some? && s.root.value < |s.names| && s.names[s.root.value] == Truncate(root.value))
  {
    hide Get, Truncate;
    var s := Fresh(policy, channelCount, lvl);
    assert channelCount * Pow2(0) == channelCount;
    if root.Some? && channelCount > 0 {
      GetOutcome(s, root.value, mem);
    } else if root.Some? {
      ZeroTraps(s, root.value, mem);
    }
  }

  /** The accounts of a manager from its init on. */
  lemma AccountsSinceInit(policy: Policy, channelCount: nat, lvl: int, root: Option<Name>, mem: Memory,
                          calls: seq<Call>)
    ensures var t := Run(Initial(policy, channelCount, lvl, root, mem), calls).0;
            && |t.names| <= t.capacity == channelCount * Pow2(t.doublings)
            && t.moves == t.capacity - channelCount
            && (t.capacity == channelCount || t.moves <= t.capacity <= 2 * |t.names|)
            && t.doublings <= |calls|
  {
    hide Initial, Run, Pow2;
    InitialKeepsInv(policy, channelCount, lvl, root, mem);
    RunAccounts(Initial(policy, channelCount, lvl, root, mem), calls, channelCount);
  }

  /** The handles of a manager from its init on. */
  lemma HandlesSinceInit(policy: Policy, channelCount: nat, lvl: int, root: Option<Name>, mem: Memory,
                         before: seq<Call>, channel: Name, mem': Memory, after: seq<Call>, again: Name, mem'': Memory)
    ensures var (t, reply) := Get(Run(Initial(policy, channelCount, lvl, root, mem), before).0, channel, mem');
            var u := Run(t, after).0;
            reply.Logger? && Truncate(again) == Truncate(channel) ==>
              && reply.id < |u.names| && u.names[reply.id] == Truncate(channel)
              && Get(u, again, mem'') == (u, reply)
  {
    hide Initial, Run, Get, Truncate;
    InitialKeepsInv(policy, channelCount, lvl, root, mem);
    RunKeepsInv(Initial(policy, channelCount, lvl, root, mem), before);
    var s := Run(Initial(policy, channelCount, lvl, root, mem), before).0;
    if Get(s, channel, mem').1.Logger? && Truncate(again) == Truncate(channel) {
      HandlesAreStable(s, channel, mem', after, again, mem'');
    }
  }

  /**
   Which requests share a channel: from init on, and whatever is called before and between, two requests
   that are granted give the same logger if and only if the names are equal or agree in their first 15
   bytes. The channel of the first carries those bytes.
   */
  lemma SameLoggerIff(policy: Policy, channelCount: nat, lvl: int, root: Option<Name>, mem: Memory,
                      before: seq<Call>, a: Name, memA: Memory, between: seq<Call>, b: Name, memB: Memory)
    ensures var (s, first) := Get(Run(Initial(policy, channelCount, lvl, root, mem), before).0, a, memA);
            var (t, second) := Get(Run(s, between).0, b, memB);
            first.Logger? && second.Logger? ==>
              && first.id < |t.names| && t.names[first.id] == (if |a| < 15 then a else a[..15])
              && (first == second <==> a == b || (|a| >= 15 && |b| >= 15 && a[..15] == b[..15]))
  {
    hide Initial, Run, Get, Truncate;
    InitialKeepsInv(policy, channelCount, lvl, root, mem);
    RunKeepsInv(Initial(policy, channelCount, lvl, root, mem), before);
    var r := Run(Initial(policy, channelCount, lvl, root, mem), before).0;
    var (s, first) := Get(r, a, memA);
    var u := Run(s, between).0;
    var (t, second) := Get(u, b, memB);
    if first.Logger? && second.Logger? {
      HandlesAreStable(r, a, memA, between, a, memA);
      GetKeepsInv(r, a, memA);
      RunKeepsInv(s, between);
      GetNames(u, b, memB);
      StoredName(a);
      SameStoredName(a, b);
    }
  }

  /** A granted request: the logger carries the stored name, and no other channel does. */
  lemma GetNames(s: State, channel: Name, mem: Memory)
    requires Inv(s) && Get(s, channel, mem).1.Logger?
    ensures var (t, reply) := Get(s, channel, mem);
            && s.names <= t.names && Distinct(t.names)
            && reply.id < |t.names| && t.names[reply.id] == Truncate(channel)
  {
    hide Get, Truncate;
    GetKeepsInv(s, channel, mem);
    if s.capacity == 0 {
      ZeroTraps(s, channel, mem);
    } else {
      GetOutcome(s, channel, mem);
    }
  }

  /**
   What init leaves, by its arguments: the level as given, no freeze and no output; the root channel as
   the only one, at debug, if one is asked for and memory and buckets allow it.
   */
  lemma InitialOutcome(policy: Policy, channelCount: nat, lvl: int, root: Option<Name>, mem: Memory)
    ensures var s := Initial(policy, channelCount, lvl, root, mem);
            var granted := root.Some? && channelCount > 0 && (policy == DynamicSize ==> mem.nodeOk);
            && s.policy == policy && s.capacity == channelCount && s.doublings == 0 && s.moves == 0
            && s.globalLevel == lvl && !s.isImmutable && s.output == []
            && (if granted then
                  s.names == [if |root.value| < 15 then root.value else root.value[..15]] &&
                  s.levels == [7] && s.root == Some(0)
                else s.names == [] && s.levels == [] && s.root == None)
  {
    hide Get, Truncate;
    var s := Fresh(policy, channelCount, lvl);
    if root.Some? {
      StoredName(root.value);
      if channelCount > 0 {
        GetOutcome(s, root.value, mem);
      } else {
        ZeroTraps(s, root.value, mem);
      }
    }
  }

  /** The root logger, when there is one, is what every later request for the root channel gives. */
  lemma RootIsItsChannel(policy: Policy, channelCount: nat, lvl: int, root: Name, mem: Memory,
                         calls: seq<Call>, mem': Memory)
    ensures var s := Run(Initial(policy, channelCount, lvl, Some(root), mem), calls).0;
            s.root.Some? ==> Get(s, root, mem') == (s, Logger(s.root.value))
  {
    hide Get, Truncate, Run, Initial, Fresh;
    var s := Initial(policy, channelCount, lvl, Some(root), mem);
    InitialKeepsInv(policy, channelCount, lvl, Some(root), mem);
    RunKeepsInv(s, calls);
    RunKeepsHandles(s, calls);
    var t := Run(s, calls).0;
    if t.root.Some? {
      assert t.names[t.root.value] == s.names[t.root.value];
      GetOutcome(t, root, mem');
    }
  }

  // ---------- The freeze, call by call ----------

  /** After `lw_set_immutable_global_level`, even with a level it ignores, no run of calls changes the global level. */
  lemma {:induction false} FreezeIsFinal(s: State, lvl: int, calls: seq<Call>)
    ensures var t := Step(s, SetImmutableGlobalLevel(lvl)).0;
            && t.isImmutable
            && t.globalLevel == (if s.isImmutable || !InRange(lvl) then s.globalLevel else lvl)
            && Run(t, calls).0.globalLevel == t.globalLevel && Run(t, calls).0.isImmutable
    decreases |calls|
  {
    FrozenStaysFrozen(Step(s, SetImmutableGlobalLevel(lvl)).0, calls);
  }

  lemma GetKeepsGlobal(s: State, channel: Name, mem: Memory)
    ensures Get(s, channel, mem).0.globalLevel == s.globalLevel && Get(s, channel, mem).0.isImmutable == s.isImmutable
    decreases if |s.names| >= s.capacity then |s.names| - s.capacity + 1 else 0
  {
    if 0 < s.capacity <= |s.names| {
      GetKeepsGlobal(Doubled(s), channel, mem);
    }
  }

  lemma {:induction false} FrozenStaysFrozen(s: State, calls: seq<Call>)
    requires s.isImmutable
    ensures Run(s, calls).0.globalLevel == s.globalLevel && Run(s, calls).0.isImmutable
    decreases |calls|
  {
    hide Get, Truncate;
    if calls == [] {
    } else {
      match calls[0] {
        case GetLogger(channel, mem) => GetKeepsGlobal(s, channel, mem);
        case GetLoggerDfl(channel, _, mem) => GetKeepsGlobal(s, channel, mem);
        case SetLoggerLevel(channel, _, mem) => GetKeepsGlobal(s, channel, mem);
        case _ =>
      }
      FrozenStaysFrozen(Step(s, calls[0]).0, calls[1..]);
    }
  }
}
