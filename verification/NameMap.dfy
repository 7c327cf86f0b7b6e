/**
 The registry as its users see it: a map from stored names to loggers. The map runs alone; all it keeps
 of the hash table is the account of the capacity, which decides whether a new name finds room.
 */
module NameMap {
  import opened Layout
  import opened Names
  import opened Options
  import opened Registry
  import opened RegistryRuns
  import opened Severity

  datatype Channel = Channel(id: nat, level: int)

  datatype Table = Table(policy: Policy, capacity: nat, channels: map<Name, Channel>)

  ghost function View(s: State): Table
    requires Inv(s)
  {
    Table(s.policy, s.capacity, map id | 0 <= id < |s.names| :: s.names[id] := Channel(id, s.levels[id]))
  }

  /** Get-or-create on a map. `room` says whether a new name can be registered. */
  function MapGet(m: map<Name, Channel>, name: Name, room: bool): (map<Name, Channel>, Reply) {
    if name in m then (m, Logger(m[name].id))
    else if room then (m[name := Channel(|m|, LVL_DEBUG)], Logger(|m|))
    else (m, Null)
  }

  function MapSetLevel(m: map<Name, Channel>, name: Name, lvl: int): map<Name, Channel> {
    if name in m then m[name := m[name].(level := lvl)] else m
  }

  /** Get-or-create with the account: a new name that finds the table full asks for twice the capacity. */
  function TableGet(t: Table, name: Name, mem: Memory): (Table, Reply) {
    var grows := name !in t.channels && |t.channels| >= t.capacity && t.policy == DynamicSize && mem.bucketsOk;
    var capacity := if grows then 2 * t.capacity else t.capacity;
    var room := |t.channels| < capacity && (t.policy == DynamicSize ==> mem.nodeOk);
    var (channels, reply) := MapGet(t.channels, name, room);
    (t.(capacity := capacity, channels := channels), reply)
  }

  function TableSetLevel(t: Table, name: Name, lvl: int): Table {
    t.(channels := MapSetLevel(t.channels, name, lvl))
  }

  /** A public call on a map. */
  function MapStep(t: Table, call: Call): (Table, Reply) {
    match call
    case GetLogger(channel, mem) => TableGet(t, Truncate(channel), mem)
    case GetLoggerDfl(channel, lvl, mem) =>
      var (u, reply) := TableGet(t, Truncate(channel), mem);
      (TableSetLevel(u, Truncate(channel), lvl), reply)
    case SetLoggerLevel(channel, lvl, mem) =>
      var (u, reply) := TableGet(t, Truncate(channel), mem);
      (if InRange(lvl) then TableSetLevel(u, Truncate(channel), lvl) else u, reply)
    case _ => (t, Null)
  }

  function MapRun(t: Table, calls: seq<Call>): (Table, seq<Reply>)
    decreases |calls|
  {
    if calls == [] then (t, [])
    else
      var (u, reply) := MapStep(t, calls[0]);
      var (v, replies) := MapRun(u, calls[1..]);
      (v, [reply] + replies)
  }

  lemma ViewSize(s: State)
    requires Inv(s)
    ensures |View(s).channels| == |s.names|
  {
    assert View(s).channels.Keys == set n | n in s.names;
    DistinctCardinality(s.names);
  }

  lemma ViewRegistered(s: State, t: State, name: Name)
    requires Inv(s) && Inv(t) && t.names == s.names + [name] && t.levels == s.levels + [LVL_DEBUG]
    ensures View(t).channels == View(s).channels[name := Channel(|s.names|, LVL_DEBUG)]
  {
    assert t.names[|s.names|] == name;
    forall id | 0 <= id < |s.names| ensures t.names[id] == s.names[id] && t.levels[id] == s.levels[id] {}
  }

  lemma GetRefinesMap(s: State, channel: Name, mem: Memory)
    requires Inv(s) && s.capacity > 0
    ensures var (t, reply) := Get(s, channel, mem);
            && Inv(t) && (View(t), reply) == TableGet(View(s), Truncate(channel), mem)
            && (reply.Logger? ==> reply.id < |t.names| && t.names[reply.id] == Truncate(channel))
            && (reply == Null ==> Truncate(channel) !in t.names) && reply != DivisionByZero
  {
    hide Get, Truncate, View;
    var (t, reply) := Get(s, channel, mem);
    var name := Truncate(channel);
    GetOutcome(s, channel, mem);
    GetKeepsInv(s, channel, mem);
    ViewSize(s);
    ViewFinds(s, name);
    if name in s.names {
      ViewHolds(s, reply.id);
    } else if HasRoom(s, mem) {
      ViewRegistered(s, t, name);
    } else {
      ViewSameNames(s, t);
    }
    ViewAccounts(s);
    ViewAccounts(t);
  }

  lemma ViewFinds(s: State, name: Name)
    requires Inv(s)
    ensures name in View(s).channels <==> name in s.names
  {
  }

  lemma ViewHolds(s: State, id: nat)
    requires Inv(s) && id < |s.names|
    ensures s.names[id] in View(s).channels && View(s).channels[s.names[id]] == Channel(id, s.levels[id])
  {
  }

  lemma ViewSameNames(s: State, t: State)
    requires Inv(s) && Inv(t) && t.names == s.names && t.levels == s.levels
    ensures View(t).channels == View(s).channels
  {
  }

  lemma ViewAccounts(s: State)
    requires Inv(s)
    ensures View(s).policy == s.policy && View(s).capacity == s.capacity
  {
  }

  lemma WithLevelRefinesMap(s: State, reply: Reply, name: Name, lvl: int)
    requires Inv(s)
    requires reply.Logger? ==> reply.id < |s.names| && s.names[reply.id] == name
    requires !reply.Logger? ==> name !in s.names
    ensures Inv(WithLevel(s, reply, lvl)) && View(WithLevel(s, reply, lvl)) == TableSetLevel(View(s), name, lvl)
  {
  }

  lemma StepRefinesMap(s: State, call: Call)
    requires Inv(s) && s.capacity > 0
    ensures var (t, reply) := Step(s, call);
            Inv(t) && t.capacity > 0 && (View(t), reply) == MapStep(View(s), call)
  {
    hide Get, Truncate, View, TableGet, TableSetLevel, WithLevel;
    StepKeepsInv(s, call);
    StepKeepsZero(s, call);
    match call
    case GetLogger(channel, mem) => GetRefinesMap(s, channel, mem);
    case GetLoggerDfl(channel, lvl, mem) =>
      GetRefinesMap(s, channel, mem);
      var (t, reply) := Get(s, channel, mem);
      WithLevelRefinesMap(t, reply, Truncate(channel), lvl);
    case SetLoggerLevel(channel, lvl, mem) =>
      GetRefinesMap(s, channel, mem);
      var (t, reply) := Get(s, channel, mem);
      WithLevelRefinesMap(t, reply, Truncate(channel), lvl);
    case SetGlobalLevel(_) => ViewOfSame(s, Step(s, call).0);
    case SetImmutableGlobalLevel(_) => ViewOfSame(s, Step(s, call).0);
    case Log(_, _, _) => ViewOfSame(s, Step(s, call).0);
  }

  lemma ViewOfSame(s: State, t: State)
    requires Inv(s) && Inv(t) && s.names == t.names && s.levels == t.levels
    requires s.policy == t.policy && s.capacity == t.capacity
    ensures View(s) == View(t)
  {
  }

  /**
   The hash table is a map: over every run, whatever is resized in between, states and replies are
   those of the map from truncated names to loggers, and a request that finds no memory changes nothing.
   */
  lemma {:induction false} RunRefinesMap(s: State, calls: seq<Call>)
    requires Inv(s) && s.capacity > 0
    ensures Inv(Run(s, calls).0)
    ensures (View(Run(s, calls).0), Run(s, calls).1) == MapRun(View(s), calls)
    decreases |calls|
  {
    hide View, MapStep, Step;
    if calls == [] {
    } else {
      StepRefinesMap(s, calls[0]);
      RunRefinesMap(Step(s, calls[0]).0, calls[1..]);
    }
  }

  // ---------- Channel isolation ----------

  /** The level of the channel `name`, if it is registered. */
  ghost function LevelOf(s: State, name: Name): Option<int>
    requires Inv(s)
  {
    if name in View(s).channels then Some(View(s).channels[name].level) else None
  }

  /** What one call does to the channel `name`, judged by the call and its reply alone. */
  function Touch(name: Name, level: Option<int>, call: Call, reply: Reply): Option<int> {
    var created := if level.Some? then level else Some(LVL_DEBUG);
    match call
    case GetLogger(channel, _) => if Truncate(channel) == name && reply.Logger? then created else level
    case GetLoggerDfl(channel, lvl, _) => if Truncate(channel) == name && reply.Logger? then Some(lvl) else level
    case SetLoggerLevel(channel, lvl, _) =>
      if Truncate(channel) == name && reply.Logger? then if InRange(lvl) then Some(lvl) else created else level
    case _ => level
  }

  /** The last accepted write to the channel `name`, or debug if it was only created. */
  function LastWrite(name: Name, level: Option<int>, calls: seq<Call>, replies: seq<Reply>): Option<int>
    requires |replies| == |calls|
    decreases |calls|
  {
    if calls == [] then level
    else LastWrite(name, Touch(name, level, calls[0], replies[0]), calls[1..], replies[1..])
  }

  lemma StepTouches(s: State, call: Call, name: Name)
    requires Inv(s) && s.capacity > 0
    ensures Inv(Step(s, call).0)
    ensures LevelOf(Step(s, call).0, name) == Touch(name, LevelOf(s, name), call, Step(s, call).1)
  {
    hide View, Step, Truncate;
    StepRefinesMap(s, call);
  }

  /**
   A channel's level is the last accepted write to a name with the same stored prefix, whatever was
   done to other channels, to the global level or to the capacity in between.
   */
  lemma {:induction false} ChannelsAreIsolated(s: State, calls: seq<Call>, name: Name)
    requires Inv(s) && s.capacity > 0
    ensures |Run(s, calls).1| == |calls| && Inv(Run(s, calls).0)
    ensures LevelOf(Run(s, calls).0, name) == LastWrite(name, LevelOf(s, name), calls, Run(s, calls).1)
    decreases |calls|
  {
    hide View, Step, Touch, LevelOf;
    if calls == [] {
    } else {
      StepRefinesMap(s, calls[0]);
      StepTouches(s, calls[0], name);
      ChannelsAreIsolated(Step(s, calls[0]).0, calls[1..], name);
    }
  }
}
