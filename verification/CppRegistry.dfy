/**
 The C++ manager as a state machine. A channel's level is kept twice: in its holder and, once a logger
 has been requested, in the logger that handles point to. Handles outlive `deinit`.
 */
module CppRegistry {
  import opened Options
  import opened Severity

  /** A `base_logger`: what a handle refers to. Loggers are numbered as they are created. */
  datatype Logger = Logger(channel: string, level: int)

  /** A `logger_holder`: the registered level and the number of the lazily created logger. */
  datatype Holder = Holder(level: int, logger: Option<nat>)

  datatype State = State(
    globalLevel: int,
    isImmutable: bool,
    initialised: bool,
    holders: map<string, Holder>,
    loggers: seq<Logger>)

  /** `completes` says whether the callback of `init` returns or throws. */
  datatype Call =
    | Init(lvl: int, completes: bool)
    | Deinit
    | GetLogger(channel: string)
    | GetLoggerDfl(channel: string, lvl: int)
    | SetLoggerLevel(channel: string, lvl: int)
    | SetGlobalLevel(lvl: int)
    | SetImmutableGlobalLevel(lvl: int)

  /** The statics of the process before any call. */
  const START := State(LVL_INFO, false, false, map[], [])

  function SetGlobal(s: State, lvl: int): State {
    if !s.isImmutable && InRange(lvl) then s.(globalLevel := lvl) else s
  }

  /** `logger_holder::set_level`, or a registration without a logger. */
  function SetLevel(s: State, channel: string, lvl: int): State {
    if !InRange(lvl) then s
    else if channel !in s.holders then s.(holders := s.holders[channel := Holder(lvl, None)])
    else
      var h := s.holders[channel];
      var loggers := if h.logger.Some? && h.logger.value < |s.loggers|
                     then s.loggers[h.logger.value := s.loggers[h.logger.value].(level := lvl)] else s.loggers;
      s.(holders := s.holders[channel := h.(level := lvl)], loggers := loggers)
  }

  /** The state after a request for a logger, and the number of that logger. */
  function Get(s: State, channel: string): (State, nat) {
    var h := if channel in s.holders then s.holders[channel] else Holder(LVL_DEBUG, None);
    match h.logger
    case Some(k) => (s, k)
    case None =>
      var k := |s.loggers|;
      (s.(holders := s.holders[channel := Holder(h.level, Some(k))],
          loggers := s.loggers + [Logger(channel, h.level)]), k)
  }

  /** A request for an unknown channel is a registration at debug followed by the request. */
  lemma GetRegistersFirst(s: State, channel: string)
    requires channel !in s.holders
    ensures Get(s.(holders := s.holders[channel := Holder(LVL_DEBUG, None)]), channel) == Get(s, channel)
  {
    var h := Holder(LVL_DEBUG, Some(|s.loggers|));
    assert s.holders[channel := Holder(LVL_DEBUG, None)][channel := h] == s.holders[channel := h];
  }

  function Step(s: State, call: Call): State {
    match call
    case Init(lvl, completes) => if s.initialised then s else SetGlobal(s, lvl).(initialised := completes)
    case Deinit => s.(holders := map[], globalLevel := LVL_WARN, isImmutable := false)
    case GetLogger(channel) => Get(s, channel).0
    case GetLoggerDfl(channel, lvl) => Get(SetLevel(s, channel, lvl), channel).0
    case SetLoggerLevel(channel, lvl) => SetLevel(s, channel, lvl)
    case SetGlobalLevel(lvl) => SetGlobal(s, lvl)
    case SetImmutableGlobalLevel(lvl) => if s.isImmutable then s else SetGlobal(s, lvl).(isImmutable := true)
  }

  function Run(s: State, calls: seq<Call>): State
    decreases |calls|
  {
    if calls == [] then s else Run(Step(s, calls[0]), calls[1..])
  }

  // ---------- Coherence ----------

  /** Both copies of every level agree and are valid. */
  ghost predicate Coherent(s: State) {
    && InRange(s.globalLevel)
    && forall c :: c in s.holders ==>
         var h := s.holders[c];
         && InRange(h.level)
         && (h.logger.Some? ==> h.logger.value < |s.loggers| && s.loggers[h.logger.value] == Logger(c, h.level))
  }

  lemma SetLevelKeepsCoherent(s: State, channel: string, lvl: int)
    requires Coherent(s)
    ensures Coherent(SetLevel(s, channel, lvl)) && |SetLevel(s, channel, lvl).loggers| == |s.loggers|
  {
  }

  lemma GetKeepsCoherent(s: State, channel: string)
    requires Coherent(s)
    ensures Coherent(Get(s, channel).0) && |Get(s, channel).0.loggers| >= |s.loggers|
  {
  }

  lemma StepKeepsCoherent(s: State, call: Call)
    requires Coherent(s)
    ensures Coherent(Step(s, call)) && |s.loggers| <= |Step(s, call).loggers|
  {
    hide SetLevel, Get;
    match call
    case GetLogger(channel) => GetKeepsCoherent(s, channel);
    case GetLoggerDfl(channel, lvl) =>
      SetLevelKeepsCoherent(s, channel, lvl);
      GetKeepsCoherent(SetLevel(s, channel, lvl), channel);
    case SetLoggerLevel(channel, lvl) => SetLevelKeepsCoherent(s, channel, lvl);
    case _ =>
  }

  /** Each holder's level is valid and equals that of its logger, in every state of a run that starts so, */
  lemma {:induction false} RunKeepsCoherent(s: State, calls: seq<Call>)
    requires Coherent(s)
    ensures Coherent(Run(s, calls))
    decreases |calls|
  {
    hide Step, Coherent;
    if calls == [] {
    } else {
      StepKeepsCoherent(s, calls[0]);
      RunKeepsCoherent(Step(s, calls[0]), calls[1..]);
    }
  }

  lemma StartIsCoherent()
    ensures Coherent(START)
  {
  }

  /** ... from the statics of the process on. */
  lemma EveryReachableStateIsCoherent(calls: seq<Call>)
    ensures Coherent(Run(START, calls))
  {
    hide Run, Coherent;
    StartIsCoherent();
    RunKeepsCoherent(START, calls);
  }

  // ---------- The level of a channel ----------

  /** The level that a logger requested now would have. */
  function LevelNow(s: State, channel: string): int {
    if channel in s.holders then s.holders[channel].level else LVL_DEBUG
  }

  /** The last accepted level for the channel since the last deinit, or debug. */
  function LastSet(channel: string, level: int, calls: seq<Call>): int
    decreases |calls|
  {
    if calls == [] then level
    else
      match calls[0]
      case Deinit => LastSet(channel, LVL_DEBUG, calls[1..])
      case GetLoggerDfl(c, lvl) => LastSet(channel, if c == channel && InRange(lvl) then lvl else level, calls[1..])
      case SetLoggerLevel(c, lvl) => LastSet(channel, if c == channel && InRange(lvl) then lvl else level, calls[1..])
      case _ => LastSet(channel, level, calls[1..])
  }

  lemma StepSetsLevel(s: State, call: Call, channel: string)
    requires Coherent(s)
    ensures LevelNow(Step(s, call), channel) == LastSet(channel, LevelNow(s, channel), [call])
  {
    assert [call][1..] == [];
  }

  lemma {:induction false} LastSetSplits(channel: string, level: int, call: Call, rest: seq<Call>)
    ensures LastSet(channel, level, [call] + rest) == LastSet(channel, LastSet(channel, level, [call]), rest)
  {
    assert ([call] + rest)[1..] == rest && [call][1..] == [];
  }

  /** A channel's level is the last accepted set, before or after its logger was created. */
  lemma {:induction false} LevelIsLastSet(s: State, calls: seq<Call>, channel: string)
    requires Coherent(s)
    ensures LevelNow(Run(s, calls), channel) == LastSet(channel, LevelNow(s, channel), calls)
    decreases |calls|
  {
    hide Step, Coherent, LevelNow;
    if calls == [] {
    } else {
      StepKeepsCoherent(s, calls[0]);
      StepSetsLevel(s, calls[0], channel);
      assert calls == [calls[0]] + calls[1..];
      LastSetSplits(channel, LevelNow(s, channel), calls[0], calls[1..]);
      LevelIsLastSet(Step(s, calls[0]), calls[1..], channel);
    }
  }

  // ---------- Handles ----------

  /** Logger `k` belongs to a registered channel. */
  ghost predicate Attached(s: State, channel: string, k: nat) {
    channel in s.holders && s.holders[channel].logger == Some(k)
  }

  ghost predicate Detached(s: State, k: nat) {
    k < |s.loggers| && forall c :: !Attached(s, c, k)
  }

  /** What happens to a handle: it follows its channel until the first deinit, and keeps that level for ever. */
  function HandleLevel(channel: string, level: int, calls: seq<Call>): int
    decreases |calls|
  {
    if calls == [] || calls[0].Deinit? then level
    else HandleLevel(channel, LastSet(channel, level, [calls[0]]), calls[1..])
  }

  lemma StepOnAttached(s: State, call: Call, channel: string, k: nat)
    requires Coherent(s) && Attached(s, channel, k)
    ensures Coherent(Step(s, call)) && k < |Step(s, call).loggers|
    ensures call.Deinit? ==> Detached(Step(s, call), k) && Step(s, call).loggers[k] == s.loggers[k]
    ensures !call.Deinit? ==>
              && Attached(Step(s, call), channel, k)
              && Step(s, call).loggers[k].level == LastSet(channel, s.loggers[k].level, [call])
  {
    hide Coherent;
    StepKeepsCoherent(s, call);
    StepSetsLevel(s, call, channel);
    AttachedLevel(s, channel, k);
    if !call.Deinit? {
      AttachedLevel(Step(s, call), channel, k);
    }
  }

  lemma AttachedLevel(s: State, channel: string, k: nat)
    requires Coherent(s) && Attached(s, channel, k)
    ensures k < |s.loggers| && s.loggers[k] == Logger(channel, LevelNow(s, channel))
  {
  }

  lemma SetLevelOnDetached(s: State, channel: string, lvl: int, k: nat)
    requires Coherent(s) && Detached(s, k)
    ensures var t := SetLevel(s, channel, lvl);
            Coherent(t) && Detached(t, k) && t.loggers[k] == s.loggers[k]
  {
    SetLevelKeepsCoherent(s, channel, lvl);
    var t := SetLevel(s, channel, lvl);
    assert !Attached(s, channel, k);
    forall c ensures !Attached(t, c, k) {
      assert !Attached(s, c, k);
    }
  }

  lemma GetOnDetached(s: State, channel: string, k: nat)
    requires Coherent(s) && Detached(s, k)
    ensures var t := Get(s, channel).0;
            Coherent(t) && Detached(t, k) && t.loggers[k] == s.loggers[k]
  {
    GetKeepsCoherent(s, channel);
    var t := Get(s, channel).0;
    forall c ensures !Attached(t, c, k) {
      assert !Attached(s, c, k);
    }
  }

  lemma StepOnDetached(s: State, call: Call, k: nat)
    requires Coherent(s) && Detached(s, k)
    ensures Coherent(Step(s, call)) && Detached(Step(s, call), k) && Step(s, call).loggers[k] == s.loggers[k]
  {
    hide SetLevel, Get;
    StepKeepsCoherent(s, call);
    match call
    case GetLogger(channel) => GetOnDetached(s, channel, k);
    case GetLoggerDfl(channel, lvl) =>
      SetLevelOnDetached(s, channel, lvl, k);
      GetOnDetached(SetLevel(s, channel, lvl), channel, k);
    case SetLoggerLevel(channel, lvl) => SetLevelOnDetached(s, channel, lvl, k);
    case _ => forall c ensures !Attached(Step(s, call), c, k) { assert !Attached(s, c, k); }
  }

  lemma {:induction false} DetachedIsFrozen(s: State, calls: seq<Call>, k: nat)
    requires Coherent(s) && Detached(s, k)
    ensures Detached(Run(s, calls), k) && Run(s, calls).loggers[k] == s.loggers[k]
    decreases |calls|
  {
    hide Step, Coherent, Detached;
    if calls == [] {
    } else {
      StepOnDetached(s, calls[0], k);
      assert k < |Step(s, calls[0]).loggers| by { DetachedExists(Step(s, calls[0]), k); }
      DetachedIsFrozen(Step(s, calls[0]), calls[1..], k);
    }
    DetachedExists(Run(s, calls), k);
  }

  lemma DetachedExists(s: State, k: nat)
    requires Detached(s, k)
    ensures k < |s.loggers|
  {
  }

  /**
   A handle answers `can_log` by the last accepted set for its channel up to the next deinit, whatever
   happens to other channels, and keeps the level it had then for ever after.
   */
  lemma {:induction false} HandleFollowsChannel(s: State, calls: seq<Call>, channel: string, k: nat)
    requires Coherent(s) && Attached(s, channel, k)
    ensures k < |s.loggers| && k < |Run(s, calls).loggers|
    ensures Run(s, calls).loggers[k].level == HandleLevel(channel, s.loggers[k].level, calls)
    ensures Deinit !in calls ==> Attached(Run(s, calls), channel, k)
    ensures Deinit in calls ==> Detached(Run(s, calls), k)
    decreases |calls|
  {
    hide Step, Coherent, Attached, Detached, LastSet;
    AttachedLevel(s, channel, k);
    if calls == [] {
    } else {
      var t := Step(s, calls[0]);
      StepOnAttached(s, calls[0], channel, k);
      if calls[0].Deinit? {
        DetachedIsFrozen(t, calls[1..], k);
        DetachedExists(Run(s, calls), k);
      } else {
        HandleFollowsChannel(t, calls[1..], channel, k);
      }
    }
  }

  /** A request gives the channel's own logger, at the channel's level: the one it had, or a new one. */
  lemma GetGivesAttached(s: State, channel: string)
    requires Coherent(s)
    ensures var (t, k) := Get(s, channel);
            && Coherent(t) && Attached(t, channel, k) && k < |t.loggers|
            && t.loggers[k] == Logger(channel, LevelNow(s, channel)) && LevelNow(t, channel) == LevelNow(s, channel)
            && (forall j :: Attached(s, channel, j) ==> k == j && t == s)
            && (Attached(s, channel, k) || k == |s.loggers|)
  {
  }

  /**
   `get_logger_dfl` takes the mutex twice, so calls of other threads may come in between. The handle is
   the channel's own, at the last level set: the default, unless one of those calls set another.
   */
  lemma DefaultInTwoSections(s: State, channel: string, lvl: int, between: seq<Call>)
    requires Coherent(s)
    ensures var t := Run(SetLevel(s, channel, lvl), between);
            var (u, k) := Get(t, channel);
            && Coherent(u) && Attached(u, channel, k) && k < |u.loggers|
            && u.loggers[k] ==
               Logger(channel, LastSet(channel, if InRange(lvl) then lvl else LevelNow(s, channel), between))
            && (between == [] ==> u == Step(s, GetLoggerDfl(channel, lvl)))
  {
    hide Coherent, Get;
    SetLevelKeepsCoherent(s, channel, lvl);
    LevelIsLastSet(SetLevel(s, channel, lvl), between, channel);
    RunKeepsCoherent(SetLevel(s, channel, lvl), between);
    GetGivesAttached(Run(SetLevel(s, channel, lvl), between), channel);
  }

  // ---------- The global level ----------

  /**
   Only the first `init` whose callback returns ends the initialisation: a later one changes nothing, and
   after a deinit the level is warning whatever it asks. An `init` that throws can be repeated.
   */
  lemma InitOnlyOnce(s: State, first: int, calls: seq<Call>, again: int, completes: bool)
    ensures var t := Run(Step(s, Init(first, true)), calls);
            && Step(t, Init(again, completes)) == t
            && Step(Step(t, Deinit), Init(again, completes)).globalLevel == LVL_WARN
    ensures !s.initialised ==>
              Step(Step(s, Init(first, false)), Init(again, completes)) ==
              SetGlobal(SetGlobal(s, first), again).(initialised := completes)
  {
    StaysInitialised(Step(s, Init(first, true)), calls);
  }

  /** The global level, whether it is frozen, and whether an init has completed. */
  datatype Global = Global(level: int, frozen: bool, initialised: bool)

  /** A request for the level `lvl`: granted if nothing is frozen and the level is from 0 to 8. */
  function Asked(g: Global, lvl: int): Global {
    if g.frozen || lvl < 0 || 8 < lvl then g else g.(level := lvl)
  }

  /**
   The account of the calls since the start of the process, where the level is info (6). The setter, the
   first freeze and every init until one completes ask for their level; a deinit puts it to warning (4).
   */
  function LastGlobal(calls: seq<Call>): Global
    decreases |calls|
  {
    if calls == [] then Global(6, false, false)
    else
      var g := LastGlobal(calls[..|calls| - 1]);
      match calls[|calls| - 1]
      case Init(lvl, completes) => if g.initialised then g else Asked(g, lvl).(initialised := completes)
      case Deinit => Global(4, false, g.initialised)
      case SetGlobalLevel(lvl) => Asked(g, lvl)
      case SetImmutableGlobalLevel(lvl) => Asked(g, lvl).(frozen := true)
      case _ => g
  }

  lemma {:induction false} RunSnoc(s: State, calls: seq<Call>, call: Call)
    ensures Run(s, calls + [call]) == Step(Run(s, calls), call)
    decreases |calls|
  {
    hide Step;
    if calls == [] {
      assert [] + [call] == [call] && [call][1..] == [];
    } else {
      assert (calls + [call])[1..] == calls[1..] + [call];
      RunSnoc(Step(s, calls[0]), calls[1..], call);
    }
  }

  /** Whatever the calls, the global level and the freeze are those of the account. */
  lemma {:induction false} GlobalIsLast(calls: seq<Call>)
    ensures var s := Run(START, calls);
            LastGlobal(calls) == Global(s.globalLevel, s.isImmutable, s.initialised)
    decreases |calls|
  {
    hide Run;
    if calls == [] {
      assert Run(START, []) == START by { RunOfNone(START); }
    } else {
      var before, call := calls[..|calls| - 1], calls[|calls| - 1];
      assert calls == before + [call];
      RunSnoc(START, before, call);
      GlobalIsLast(before);
    }
  }

  lemma RunOfNone(s: State)
    ensures Run(s, []) == s
  {
  }

  /** A deinit lifts the freeze, puts the level to warning and every channel back to debug. */
  lemma DeinitResets(s: State, channel: string, lvl: int)
    ensures var t := Step(s, Deinit);
            && LevelNow(t, channel) == LVL_DEBUG && t.loggers == s.loggers
            && Step(t, SetGlobalLevel(lvl)).globalLevel == (if InRange(lvl) then lvl else LVL_WARN)
            && Step(t, SetImmutableGlobalLevel(lvl)).isImmutable
  {
  }

  lemma {:induction false} StaysInitialised(s: State, calls: seq<Call>)
    requires s.initialised
    ensures Run(s, calls).initialised
    decreases |calls|
  {
    if calls == [] {
    } else {
      StaysInitialised(Step(s, calls[0]), calls[1..]);
    }
  }

  /** Between two deinits the freeze is final. */
  lemma {:induction false} FreezeUntilDeinit(s: State, calls: seq<Call>)
    requires s.isImmutable && Deinit !in calls
    ensures Run(s, calls).isImmutable && Run(s, calls).globalLevel == s.globalLevel
    decreases |calls|
  {
    if calls == [] {
    } else {
      FreezeUntilDeinit(Step(s, calls[0]), calls[1..]);
    }
  }
}
