/**
 The registry of src/libs/loggingf_wrapper/details/manager.c as a state machine over values: one
 state per manager, one transition per public call. The class in Manager.dfy implements it on the
 heap; RegistryRuns.dfy proves what holds over every sequence of calls.
 */
module Registry {
  import opened Names
  import opened Layout
  import opened Options
  import opened Severity

  datatype Policy = DynamicSize | FixedSize

  /** One message handed to the output function of a channel. */
  datatype Line = Line(id: nat, level: int, text: nat)

  /**
   The manager. `names[id]` and `levels[id]` belong to the channel registered as number `id`.
   `doublings` and `moves` are accounts of the resizes done so far and of the nodes they relinked.
   */
  datatype State = State(
    policy: Policy,
    capacity: nat,
    names: seq<Name>,
    levels: seq<int>,
    globalLevel: int,
    isImmutable: bool,
    root: Option<nat>,
    output: seq<Line>,
    doublings: nat,
    moves: nat)

  /** Whether the bucket array of a resize and the node of an insertion can be allocated. */
  datatype Memory = Memory(bucketsOk: bool, nodeOk: bool)

  /** What a registry call gives: a remainder by a zero capacity, a null pointer, or a logger. */
  datatype Reply = DivisionByZero | Null | Logger(id: nat)

  datatype Call =
    | GetLogger(channel: Name, mem: Memory)
    | GetLoggerDfl(channel: Name, lvl: int, mem: Memory)
    | SetLoggerLevel(channel: Name, lvl: int, mem: Memory)
    | SetGlobalLevel(lvl: int)
    | SetImmutableGlobalLevel(lvl: int)
    | Log(logger: Option<nat>, lvl: int, text: nat)

  ghost predicate Inv(s: State) {
    && Distinct(s.names)
    && |s.levels| == |s.names| <= s.capacity
    && (s.root.Some? ==> s.root.value < |s.names|)
  }

  /** A new manager, before the root channel is requested. */
  function Fresh(policy: Policy, channelCount: nat, lvl: int): State {
    State(policy, channelCount, [], [], lvl, false, None, [], 0, 0)
  }

  function Doubled(s: State): State {
    s.(capacity := 2 * s.capacity, doublings := s.doublings + 1, moves := s.moves + |s.names|)
  }

  function Registered(s: State, name: Name): State {
    s.(names := s.names + [name], levels := s.levels + [LVL_DEBUG])
  }

  /** Get-or-create. */
  function Get(s: State, channel: Name, mem: Memory): (State, Reply)
    decreases if |s.names| >= s.capacity then |s.names| - s.capacity + 1 else 0
  {
    if s.capacity == 0 then (s, DivisionByZero)
    else
      var name := Truncate(channel);
      var found := Lookup(s.names, s.capacity, name);
      if found.Some? then (s, Logger(found.value))
      else if |s.names| >= s.capacity then
        if s.policy == FixedSize || !mem.bucketsOk then (s, Null) else Get(Doubled(s), channel, mem)
      else if s.policy == DynamicSize && !mem.nodeOk then (s, Null)
      else (Registered(s, name), Logger(|s.names|))
  }

  /** The manager that a successful `lw_init_logging` leaves. */
  function Initial(policy: Policy, channelCount: nat, lvl: int, root: Option<Name>, mem: Memory): State {
    var s := Fresh(policy, channelCount, lvl);
    if root.None? then s
    else
      var (t, reply) := Get(s, root.value, mem);
      t.(root := if reply.Logger? then Some(reply.id) else None)
  }

  function WithLevel(s: State, reply: Reply, lvl: int): State {
    if reply.Logger? && reply.id < |s.levels| then s.(levels := s.levels[reply.id := lvl]) else s
  }

  function SetGlobal(s: State, lvl: int): State {
    if !s.isImmutable && InRange(lvl) then s.(globalLevel := lvl) else s
  }

  predicate CanLog(s: State, lvl: int) {
    InRange(lvl) && s.globalLevel >= lvl
  }

  predicate CanChannelLog(s: State, logger: Option<nat>, lvl: int) {
    && logger.Some? && logger.value < |s.levels|
    && InRange(lvl) && s.levels[logger.value] >= lvl
  }

  function Step(s: State, call: Call): (State, Reply) {
    match call
    case GetLogger(channel, mem) => Get(s, channel, mem)
    case GetLoggerDfl(channel, lvl, mem) =>
      var (t, reply) := Get(s, channel, mem);
      (WithLevel(t, reply, lvl), reply)
    case SetLoggerLevel(channel, lvl, mem) =>
      var (t, reply) := Get(s, channel, mem);
      (if InRange(lvl) then WithLevel(t, reply, lvl) else t, reply)
    case SetGlobalLevel(lvl) => (SetGlobal(s, lvl), Null)
    case SetImmutableGlobalLevel(lvl) =>
      (if s.isImmutable then s else SetGlobal(s, lvl).(isImmutable := true), Null)
    case Log(logger, lvl, text) =>
      (if CanLog(s, lvl) && CanChannelLog(s, logger, lvl)
       then s.(output := s.output + [Line(logger.value, lvl, text)]) else s,
       Null)
  }
}
