/**
 Which messages reach the output: exactly those within both thresholds, message by message through a
 run, and what raising thresholds does to the output.
 */
module Filtering {
  import opened Layout
  import opened NameMap
  import opened Names
  import opened Options
  import opened Registry
  import opened RegistryRuns
  import opened Severity

  // ---------- The messages of a run ----------

  /** A message passes exactly when its level is valid and within both thresholds. */
  lemma MessagePassesIff(s: State, id: nat, lvl: int, text: nat)
    requires Inv(s) && id < |s.names|
    ensures var threshold := if s.globalLevel <= s.levels[id] then s.globalLevel else s.levels[id];
            Step(s, Log(Some(id), lvl, text)).0.output ==
            s.output + if LVL_EMERG <= lvl <= LVL_TRACE && lvl <= threshold then [Line(id, lvl, text)] else []
  {
  }

  /** The last accepted global level, the freezing one included; later ones do not count. */
  function LastGlobal(level: int, frozen: bool, calls: seq<Call>): int
    decreases |calls|
  {
    if calls == [] || frozen then level
    else
      match calls[0]
      case SetGlobalLevel(lvl) => LastGlobal(if InRange(lvl) then lvl else level, false, calls[1..])
      case SetImmutableGlobalLevel(lvl) => if InRange(lvl) then lvl else level
      case _ => LastGlobal(level, false, calls[1..])
  }

  lemma StepKeepsGlobal(s: State, call: Call)
    requires !call.SetGlobalLevel? && !call.SetImmutableGlobalLevel?
    ensures Step(s, call).0.globalLevel == s.globalLevel && Step(s, call).0.isImmutable == s.isImmutable
  {
    hide Get, Truncate;
    match call
    case GetLogger(channel, mem) => GetKeepsGlobal(s, channel, mem);
    case GetLoggerDfl(channel, _, mem) => GetKeepsGlobal(s, channel, mem);
    case SetLoggerLevel(channel, _, mem) => GetKeepsGlobal(s, channel, mem);
    case _ =>
  }

  /** The global level after a run is the last accepted one before the freeze. */
  lemma {:induction false} GlobalIsLast(s: State, calls: seq<Call>)
    ensures Run(s, calls).0.globalLevel == LastGlobal(s.globalLevel, s.isImmutable, calls)
    decreases |calls|
  {
    hide Get, Truncate;
    if calls == [] {
    } else if s.isImmutable {
      FrozenStaysFrozen(s, calls);
    } else {
      if !calls[0].SetGlobalLevel? && !calls[0].SetImmutableGlobalLevel? {
        hide Step;
        StepKeepsGlobal(s, calls[0]);
      }
      GlobalIsLast(Step(s, calls[0]).0, calls[1..]);
    }
  }

  /** The names behind the loggers, judged by the replies: a logger with a new number is the one asked for. */
  function Handed(names: seq<Name>, calls: seq<Call>, replies: seq<Reply>): seq<Name>
    requires |replies| == |calls|
    decreases |calls|
  {
    if calls == [] then names
    else
      var last := |calls| - 1;
      var before := Handed(names, calls[..last], replies[..last]);
      var name := Asked(calls[last]);
      if name.Some? && replies[last] == Logger(|before|) then before + [name.value] else before
  }

  lemma {:induction false} RunKeepsBuckets(s: State, calls: seq<Call>)
    requires Inv(s) && s.capacity > 0
    ensures Inv(Run(s, calls).0) && Run(s, calls).0.capacity > 0
    decreases |calls|
  {
    hide Step;
    if calls == [] {
    } else {
      StepKeepsInv(s, calls[0]);
      StepKeepsZero(s, calls[0]);
      RunKeepsBuckets(Step(s, calls[0]).0, calls[1..]);
    }
  }

  /** Split off the last call of a run. */
  lemma RunLast(s: State, calls: seq<Call>)
    requires calls != []
    ensures var last := |calls| - 1;
            var (t, replies) := Run(s, calls);
            var before := Run(s, calls[..last]);
            && |replies| == |calls| && |before.1| == last && replies[..last] == before.1
            && (t, replies[last]) == Step(before.0, calls[last])
  {
    hide Run, Step;
    var last := |calls| - 1;
    assert calls == calls[..last] + [calls[last]];
    RunSnoc(s, calls[..last], calls[last]);
  }

  lemma {:induction false} HandedAreNames(s: State, calls: seq<Call>)
    requires Inv(s) && s.capacity > 0
    ensures |Run(s, calls).1| == |calls| && Run(s, calls).0.names == Handed(s.names, calls, Run(s, calls).1)
    decreases |calls|
  {
    hide Step, Asked;
    if calls == [] {
    } else {
      hide Run;
      var last := |calls| - 1;
      HandedAreNames(s, calls[..last]);
      RunKeepsBuckets(s, calls[..last]);
      RunLast(s, calls);
      StepHands(Run(s, calls[..last]).0, calls[last]);
    }
  }

  /**
   A message passes, judged by the calls before it and their replies alone: its logger has been handed
   out, and its level is valid, at most the last accepted global level before the freeze, and at most
   the last write to its channel.
   */
  ghost predicate Passes(s: State, calls: seq<Call>, replies: seq<Reply>, logger: Option<nat>, lvl: int)
    requires Inv(s) && |replies| == |calls|
  {
    var names := Handed(s.names, calls, replies);
    && logger.Some? && logger.value < |names|
    && InRange(lvl) && lvl <= LastGlobal(s.globalLevel, s.isImmutable, calls)
    && var name := names[logger.value];
       var level := LastWrite(name, LevelOf(s, name), calls, replies);
       level.Some? && lvl <= level.value
  }

  lemma MessageOfRun(s: State, calls: seq<Call>, logger: Option<nat>, lvl: int, text: nat)
    requires Inv(s) && s.capacity > 0
    ensures |Run(s, calls).1| == |calls|
    ensures var (t, replies) := Run(s, calls);
            Step(t, Log(logger, lvl, text)).0.output ==
            t.output + if Passes(s, calls, replies, logger, lvl) then [Line(logger.value, lvl, text)] else []
  {
    hide Run, Handed, LastGlobal, LastWrite;
    GlobalIsLast(s, calls);
    HandedAreNames(s, calls);
    RunKeepsBuckets(s, calls);
    var t := Run(s, calls).0;
    if logger.Some? && logger.value < |t.names| {
      ChannelsAreIsolated(s, calls, t.names[logger.value]);
      LevelOfRegistered(t, logger.value);
      MessagePassesIff(t, logger.value, lvl, text);
    }
  }

  lemma LevelOfRegistered(s: State, id: nat)
    requires Inv(s) && id < |s.names|
    ensures LevelOf(s, s.names[id]) == Some(s.levels[id])
  {
    ViewHolds(s, id);
  }

  /** The messages of a run that pass, in order. */
  ghost function Lines(s: State, calls: seq<Call>, replies: seq<Reply>): seq<Line>
    requires Inv(s) && |replies| == |calls|
    decreases |calls|
  {
    if calls == [] then []
    else
      var last := |calls| - 1;
      var before := Lines(s, calls[..last], replies[..last]);
      match calls[last]
      case Log(logger, lvl, text) =>
        if Passes(s, calls[..last], replies[..last], logger, lvl)
        then before + [Line(logger.value, lvl, text)]
        else before
      case _ => before
  }

  lemma StepKeepsOutput(s: State, call: Call)
    requires Inv(s) && s.capacity > 0 && !call.Log?
    ensures Step(s, call).0.output == s.output
  {
    hide Get, Truncate;
    match call
    case GetLogger(channel, mem) => GetOutcome(s, channel, mem);
    case GetLoggerDfl(channel, _, mem) => GetOutcome(s, channel, mem);
    case SetLoggerLevel(channel, _, mem) => GetOutcome(s, channel, mem);
    case _ =>
  }

  /** The output of a run is exactly its messages that pass, in order. */
  lemma {:induction false} OutputOfRun(s: State, calls: seq<Call>)
    requires Inv(s) && s.capacity > 0
    ensures |Run(s, calls).1| == |calls|
    ensures Run(s, calls).0.output == s.output + Lines(s, calls, Run(s, calls).1)
    decreases |calls|
  {
    hide Step, Passes;
    if calls == [] {
    } else {
      hide Run;
      var last := |calls| - 1;
      var t := Run(s, calls[..last]).0;
      OutputOfRun(s, calls[..last]);
      RunLast(s, calls);
      RunKeepsBuckets(s, calls[..last]);
      if calls[last].Log? {
        MessageOfRun(s, calls[..last], calls[last].logger, calls[last].lvl, calls[last].text);
      } else {
        StepKeepsOutput(t, calls[last]);
      }
    }
  }

  // ---------- Raising thresholds ----------

  /** `a` can be obtained from `b` by dropping lines. */
  ghost predicate Subsequence(a: seq<Line>, b: seq<Line>)
    decreases |b|
  {
    if b == [] then a == []
    else
      || Subsequence(a, b[..|b| - 1])
      || (a != [] && a[|a| - 1] == b[|b| - 1] && Subsequence(a[..|a| - 1], b[..|b| - 1]))
  }

  lemma SubsequenceSame(a: seq<Line>, b: seq<Line>, line: Line)
    requires Subsequence(a, b)
    ensures Subsequence(a + [line], b + [line]) && Subsequence(a, b + [line])
  {
    assert (b + [line])[..|b|] == b && (a + [line])[..|a|] == a;
  }

  lemma {:induction false} SubsequenceReflexive(a: seq<Line>)
    ensures Subsequence(a, a)
    decreases |a|
  {
    if a == [] {
    } else {
      SubsequenceReflexive(a[..|a| - 1]);
    }
  }

  /** The threshold `high` lets through what `low` does: no level is below emerg, none above trace. */
  predicate Wider(low: int, high: int) {
    low < LVL_EMERG || low <= high || high >= LVL_TRACE
  }

  lemma WiderExact(low: int, high: int)
    ensures Wider(low, high) <==> forall lvl :: InRange(lvl) && lvl <= low ==> lvl <= high
  {
    if !Wider(low, high) {
      assert InRange(Lost(low)) && Lost(low) <= low && Lost(low) > high;
    }
  }

  /** The most detailed level that a threshold lets through. */
  function Lost(low: int): int {
    if low <= LVL_TRACE then low else LVL_TRACE
  }

  /** Thresholds of `t` let through what those of `s` do; everything else that matters is equal. */
  ghost predicate Raised(s: State, t: State) {
    && Inv(s) && Inv(t)
    && s.policy == t.policy && s.capacity == t.capacity && s.names == t.names
    && s.isImmutable == t.isImmutable && Wider(s.globalLevel, t.globalLevel)
    && (forall id :: 0 <= id < |s.levels| ==> Wider(s.levels[id], t.levels[id]))
    && Subsequence(s.output, t.output)
  }

  /**
   Replacing one checked level by another loses nothing: both are accepted and the second is as high, or
   both are ignored, or the second is accepted and lets everything through.
   */
  predicate RaisedCheck(low: int, high: int) {
    || high == LVL_TRACE
    || (InRange(low) && InRange(high) && low <= high)
    || (!InRange(low) && !InRange(high))
  }

  /** The same call, perhaps with another level. */
  predicate SameButLevel(a: Call, b: Call) {
    match a
    case GetLoggerDfl(channel, _, mem) => b.GetLoggerDfl? && b.channel == channel && b.mem == mem
    case SetLoggerLevel(channel, _, mem) => b.SetLoggerLevel? && b.channel == channel && b.mem == mem
    case SetGlobalLevel(_) => b.SetGlobalLevel?
    case SetImmutableGlobalLevel(_) => b.SetImmutableGlobalLevel?
    case _ => a == b
  }

  /** The same call with its level raised, where the level of a default is not checked and the others are. */
  predicate RaisedCall(a: Call, b: Call) {
    && SameButLevel(a, b)
    && match a
       case GetLoggerDfl(_, lvl, _) => Wider(lvl, b.lvl)
       case SetLoggerLevel(_, lvl, _) => RaisedCheck(lvl, b.lvl)
       case SetGlobalLevel(lvl) => RaisedCheck(lvl, b.lvl)
       case SetImmutableGlobalLevel(lvl) => RaisedCheck(lvl, b.lvl)
       case _ => true
  }

  lemma GetKeepsRaised(s: State, t: State, channel: Name, mem: Memory)
    requires Raised(s, t)
    ensures Raised(Get(s, channel, mem).0, Get(t, channel, mem).0) && Get(s, channel, mem).1 == Get(t, channel, mem).1
  {
    hide Truncate, Lookup, Get, Subsequence;
    GetKeepsInv(s, channel, mem);
    GetKeepsInv(t, channel, mem);
    if s.capacity == 0 {
      ZeroTraps(s, channel, mem);
      ZeroTraps(t, channel, mem);
    } else {
      GetOutcome(s, channel, mem);
      GetOutcome(t, channel, mem);
    }
  }

  lemma WithLevelKeepsRaised(s: State, t: State, reply: Reply, low: int, high: int)
    requires Raised(s, t)
    ensures Wider(low, high) ==> Raised(WithLevel(s, reply, low), WithLevel(t, reply, high))
    ensures high >= LVL_TRACE ==> Raised(s, WithLevel(t, reply, high))
  {
    hide Subsequence;
  }

  lemma ChannelStepKeepsRaised(s: State, t: State, a: Call, b: Call)
    requires Raised(s, t) && RaisedCall(a, b) && (a.GetLogger? || a.GetLoggerDfl? || a.SetLoggerLevel?)
    ensures Raised(Step(s, a).0, Step(t, b).0)
  {
    hide Get, Truncate, WithLevel, Raised;
    GetKeepsRaised(s, t, a.channel, a.mem);
    var ((s', r), t') := (Get(s, a.channel, a.mem), Get(t, a.channel, a.mem).0);
    if !a.GetLogger? {
      WithLevelKeepsRaised(s', t', r, a.lvl, b.lvl);
    }
  }

  lemma GlobalStepKeepsRaised(s: State, t: State, a: Call, b: Call)
    requires Raised(s, t) && RaisedCall(a, b) && (a.SetGlobalLevel? || a.SetImmutableGlobalLevel?)
    ensures Raised(Step(s, a).0, Step(t, b).0)
  {
    hide Subsequence;
  }

  lemma LogKeepsRaised(s: State, t: State, logger: Option<nat>, lvl: int, text: nat)
    requires Raised(s, t)
    ensures Raised(Step(s, Log(logger, lvl, text)).0, Step(t, Log(logger, lvl, text)).0)
  {
    hide Subsequence;
    if logger.Some? {
      SubsequenceSame(s.output, t.output, Line(logger.value, lvl, text));
    }
  }

  lemma StepKeepsRaised(s: State, t: State, a: Call, b: Call)
    requires Raised(s, t) && RaisedCall(a, b)
    ensures Raised(Step(s, a).0, Step(t, b).0)
  {
    hide Step, Raised;
    match a
    case SetGlobalLevel(_) => GlobalStepKeepsRaised(s, t, a, b);
    case SetImmutableGlobalLevel(_) => GlobalStepKeepsRaised(s, t, a, b);
    case Log(logger, lvl, text) => LogKeepsRaised(s, t, logger, lvl, text);
    case _ => ChannelStepKeepsRaised(s, t, a, b);
  }

  /** Raising thresholds anywhere in a run only adds messages: the original output is a subsequence of the new one. */
  lemma {:induction false} RaisingAddsMessages(s: State, t: State, low: seq<Call>, high: seq<Call>)
    requires Raised(s, t) && |low| == |high| && forall k :: 0 <= k < |low| ==> RaisedCall(low[k], high[k])
    ensures Subsequence(Run(s, low).0.output, Run(t, high).0.output)
    decreases |low|
  {
    hide Step, Subsequence;
    if low == [] {
    } else {
      StepKeepsRaised(s, t, low[0], high[0]);
      RaisingAddsMessages(Step(s, low[0]).0, Step(t, high[0]).0, low[1..], high[1..]);
    }
  }

  /** Whatever the state, the next message after `b` is output if it is output after `a`. */
  ghost predicate NeverLoses(a: Call, b: Call) {
    forall s, logger, lvl, text | Inv(s) ::
      Subsequence(AfterCall(s, a, logger, lvl, text), AfterCall(s, b, logger, lvl, text))
  }

  /** The output after a call and a message. */
  function AfterCall(s: State, call: Call, logger: Option<nat>, lvl: int, text: nat): seq<Line> {
    Run(s, [call, Log(logger, lvl, text)]).0.output
  }

  lemma AfterCallSteps(s: State, call: Call, logger: Option<nat>, lvl: int, text: nat)
    ensures AfterCall(s, call, logger, lvl, text) == Step(Step(s, call).0, Log(logger, lvl, text)).0.output
  {
    hide Step;
    var message := Log(logger, lvl, text);
    assert [call, message] == [call] + [message];
    RunSnoc(s, [call], message);
    RunSnoc(s, [], call);
    assert [] + [call] == [call];
  }

  lemma RaisedSame(s: State)
    requires Inv(s)
    ensures Raised(s, s)
  {
    SubsequenceReflexive(s.output);
  }

  /** A manager with one channel and these thresholds: init, and one logger with a default level. */
  function OneChannel(channel: Name, globalLevel: int, level: int): State {
    var ok := Memory(true, true);
    Run(Initial(DynamicSize, 1, globalLevel, Some(channel), ok), [GetLoggerDfl(channel, level, ok)]).0
  }

  lemma OneChannelIs(channel: Name, globalLevel: int, level: int)
    ensures OneChannel(channel, globalLevel, level) ==
            State(DynamicSize, 1, [Truncate(channel)], [level], globalLevel, false, Some(0), [], 0, 0)
    ensures Inv(OneChannel(channel, globalLevel, level))
  {
    hide Truncate, Get;
    var ok := Memory(true, true);
    GetOutcome(Fresh(DynamicSize, 1, globalLevel), channel, ok);
    var s := Initial(DynamicSize, 1, globalLevel, Some(channel), ok);
    assert s == State(DynamicSize, 1, [Truncate(channel)], [LVL_DEBUG], globalLevel, false, Some(0), [], 0, 0);
    GetOutcome(s, channel, ok);
    RunSnoc(s, [], GetLoggerDfl(channel, level, ok));
    assert [] + [GetLoggerDfl(channel, level, ok)] == [GetLoggerDfl(channel, level, ok)];
  }

  /** The level of a message that a replaced level loses. */
  function Witness(low: int): int {
    if InRange(low) then low else LVL_TRACE
  }

  /** The thresholds at which a replaced level loses a message. */
  function Exposed(low: int): int {
    if InRange(low) then -1 else LVL_TRACE
  }

  /** In state `s`, a message passes after `a` and is lost after `b`. */
  predicate LosesFrom(s: State, a: Call, b: Call, lvl: int) {
    AfterCall(s, a, Some(0), lvl, 0) == [Line(0, lvl, 0)] && AfterCall(s, b, Some(0), lvl, 0) == []
  }

  lemma GlobalLoses(a: Call, b: Call, channel: Name)
    requires SameButLevel(a, b) && (a.SetGlobalLevel? || a.SetImmutableGlobalLevel?) && !RaisedCheck(a.lvl, b.lvl)
    ensures LosesFrom(OneChannel(channel, Exposed(a.lvl), LVL_TRACE), a, b, Witness(a.lvl))
  {
    hide AfterCall, OneChannel, Truncate;
    var s := OneChannel(channel, Exposed(a.lvl), LVL_TRACE);
    var lvl := Witness(a.lvl);
    OneChannelIs(channel, Exposed(a.lvl), LVL_TRACE);
    AfterCallSteps(s, a, Some(0), lvl, 0);
    AfterCallSteps(s, b, Some(0), lvl, 0);
  }

  lemma ChannelLoses(a: Call, b: Call)
    requires SameButLevel(a, b) && a.SetLoggerLevel? && !RaisedCheck(a.lvl, b.lvl)
    ensures LosesFrom(OneChannel(a.channel, LVL_TRACE, Exposed(a.lvl)), a, b, Witness(a.lvl))
  {
    hide AfterCall, Get, Truncate, OneChannel;
    var s := OneChannel(a.channel, LVL_TRACE, Exposed(a.lvl));
    var lvl := Witness(a.lvl);
    OneChannelIs(a.channel, LVL_TRACE, Exposed(a.lvl));
    GetOutcome(s, a.channel, a.mem);
    AfterCallSteps(s, a, Some(0), lvl, 0);
    AfterCallSteps(s, b, Some(0), lvl, 0);
  }

  lemma DefaultLoses(a: Call, b: Call)
    requires SameButLevel(a, b) && a.GetLoggerDfl? && !Wider(a.lvl, b.lvl)
    ensures LosesFrom(OneChannel(a.channel, LVL_TRACE, LVL_DEBUG), a, b, Lost(a.lvl))
  {
    hide AfterCall, Get, Truncate, OneChannel;
    var s := OneChannel(a.channel, LVL_TRACE, LVL_DEBUG);
    OneChannelIs(a.channel, LVL_TRACE, LVL_DEBUG);
    GetOutcome(s, a.channel, a.mem);
    AfterCallSteps(s, a, Some(0), Lost(a.lvl), 0);
    AfterCallSteps(s, b, Some(0), Lost(a.lvl), 0);
  }

  /**
   The exact condition: a call with another level never loses a message if and only if it is raised in
   the sense of `RaisedCall`. Every pair outside it loses one in a manager with one channel.
   */
  lemma RaisedCallExact(a: Call, b: Call)
    requires SameButLevel(a, b)
    ensures NeverLoses(a, b) <==> RaisedCall(a, b)
    ensures !RaisedCall(a, b) ==> exists channel, g, level, lvl :: LosesFrom(OneChannel(channel, g, level), a, b, lvl)
  {
    hide AfterCall, Subsequence, Truncate, Raised, Inv, OneChannel, LosesFrom;
    if RaisedCall(a, b) {
      forall s, logger, lvl, text | Inv(s)
        ensures Subsequence(AfterCall(s, a, logger, lvl, text), AfterCall(s, b, logger, lvl, text))
      {
        RaisedSame(s);
        RaisedAfterCall(s, a, b, logger, lvl, text);
      }
    } else {
      var channel, g, level, lvl := WhereItLoses(a, b);
      OneChannelIs(channel, g, level);
      LostLine(OneChannel(channel, g, level), a, b, lvl);
    }
  }

  lemma WhereItLoses(a: Call, b: Call) returns (channel: Name, g: int, level: int, lvl: int)
    requires SameButLevel(a, b) && !RaisedCall(a, b)
    ensures LosesFrom(OneChannel(channel, g, level), a, b, lvl)
  {
    hide LosesFrom, OneChannel;
    lvl := Witness(a.lvl);
    if a.SetLoggerLevel? {
      ChannelLoses(a, b);
      channel, g, level := a.channel, LVL_TRACE, Exposed(a.lvl);
    } else if a.GetLoggerDfl? {
      DefaultLoses(a, b);
      channel, g, level, lvl := a.channel, LVL_TRACE, LVL_DEBUG, Lost(a.lvl);
    } else {
      channel, g, level := [], Exposed(a.lvl), LVL_TRACE;
      GlobalLoses(a, b, channel);
    }
  }

  lemma RaisedAfterCall(s: State, a: Call, b: Call, logger: Option<nat>, lvl: int, text: nat)
    requires Raised(s, s) && RaisedCall(a, b)
    ensures Subsequence(AfterCall(s, a, logger, lvl, text), AfterCall(s, b, logger, lvl, text))
  {
    hide Run, Subsequence, Raised;
    var message := Log(logger, lvl, text);
    assert RaisedCall(message, message);
    RaisingAddsMessages(s, s, [a, message], [b, message]);
  }

  lemma LostLine(s: State, a: Call, b: Call, lvl: int)
    requires Inv(s) && LosesFrom(s, a, b, lvl)
    ensures !NeverLoses(a, b)
  {
    hide AfterCall, Inv;
    assert !Subsequence(AfterCall(s, a, Some(0), lvl, 0), AfterCall(s, b, Some(0), lvl, 0));
  }
}
