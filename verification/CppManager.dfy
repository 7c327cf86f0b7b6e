/**
 The C++ manager on the heap: holders in a map, each with its level and, once requested, the shared
 logger object that handles point to. Each method is proved against CppRegistry.dfy.
 */
module CppManager {
  import opened Layout
  import opened Options
  import opened Severity
  import Spec = CppRegistry

  class BaseLogger {
    const channel: string
    var level: int

    constructor (channel: string, level: int)
      ensures this.channel == channel && this.level == level
    {
      this.channel, this.level := channel, level;
    }
  }

  class LoggerHolder {
    const channel: string
    var level: int
    var baseLogger: BaseLogger?

    constructor (channel: string, level: int)
      ensures this.channel == channel && this.level == level && baseLogger == null
    {
      this.channel, this.level, baseLogger := channel, level, null;
    }

    /** `logger_holder::set_level`: both copies. */
    method SetLevel(lvl: int)
      modifies this`level, baseLogger
      ensures level == lvl && (baseLogger != null ==> baseLogger.level == lvl)
    {
      level := lvl;
      if baseLogger != null {
        baseLogger.level := level;
      }
    }

    /** `logger_holder::get_logger`: the logger, created on the first request. */
    method GetLogger() returns (p: BaseLogger)
      modifies this`baseLogger
      ensures baseLogger == p
      ensures old(baseLogger) != null ==> p == old(baseLogger)
      ensures old(baseLogger) == null ==> fresh(p) && p.channel == channel && p.level == level
    {
      if baseLogger == null {
        baseLogger := new BaseLogger(channel, level);
      }
      return baseLogger;
    }
  }

  /** The logger objects are the numbered loggers of the specification. */
  ghost predicate HasLoggers(loggers: seq<BaseLogger>, values: seq<Spec.Logger>)
    reads loggers
  {
    && |loggers| == |values| && Distinct(loggers)
    && forall k :: 0 <= k < |loggers| ==> loggers[k].channel == values[k].channel && loggers[k].level == values[k].level
  }

  /** The holder carries the level and the logger of its specification. */
  ghost predicate HolderIs(h: LoggerHolder, c: string, v: Spec.Holder, loggers: seq<BaseLogger>)
    reads h
  {
    && h.channel == c && h.level == v.level
    && (v.logger.Some? ==> v.logger.value < |loggers|)
    && h.baseLogger == if v.logger.Some? then loggers[v.logger.value] else null
  }

  /** The map of holders is the one of the specification. */
  ghost predicate HasHolders(m: map<string, LoggerHolder>, holders: map<string, Spec.Holder>, loggers: seq<BaseLogger>)
    reads m.Values
  {
    m.Keys == holders.Keys && forall c :: c in m ==> HolderIs(m[c], c, holders[c], loggers)
  }

  /** Sets the level of a registered channel, in its holder and in its logger. */
  method SetBoth(m: map<string, LoggerHolder>, channel: string, lvl: int, ghost holders: map<string, Spec.Holder>,
                 ghost loggers: seq<BaseLogger>, ghost values: seq<Spec.Logger>)
    requires HasHolders(m, holders, loggers) && HasLoggers(loggers, values) && channel in m
    modifies m[channel], m[channel].baseLogger
    ensures HasHolders(m, holders[channel := holders[channel].(level := lvl)], loggers)
    ensures holders[channel].logger.Some? ==> holders[channel].logger.value < |values|
    ensures var k := holders[channel].logger;
            HasLoggers(loggers, if k.Some? then values[k.value := values[k.value].(level := lvl)] else values)
  {
    var p := m[channel];
    assert HolderIs(p, channel, holders[channel], loggers);
    p.SetLevel(lvl);
    forall c | c in m && c != channel ensures HolderIs(m[c], c, holders[c], loggers) {
      assert old(HolderIs(m[c], c, holders[c], loggers));
    }
  }

  /** The logger of a registered channel, created on the first request. */
  method LoggerOf(m: map<string, LoggerHolder>, channel: string, ghost holders: map<string, Spec.Holder>,
                  ghost loggers: seq<BaseLogger>, ghost values: seq<Spec.Logger>)
    returns (p: BaseLogger, ghost k: nat)
    requires HasHolders(m, holders, loggers) && HasLoggers(loggers, values) && channel in m
    modifies m[channel]
    ensures var h := holders[channel];
            match h.logger
            case Some(j) => k == j < |loggers| && p == loggers[j] && HasHolders(m, holders, loggers)
            case None =>
              && k == |loggers| && fresh(p)
              && HasHolders(m, holders[channel := h.(logger := Some(k))], loggers + [p])
              && HasLoggers(loggers + [p], values + [Spec.Logger(channel, h.level)])
    ensures HasLoggers(loggers, values)
  {
    var holder := m[channel];
    assert HolderIs(holder, channel, holders[channel], loggers);
    p := holder.GetLogger();
    k := if holders[channel].logger.Some? then holders[channel].logger.value else |loggers|;
    forall c | c in m && c != channel ensures HolderIs(m[c], c, holders[c], loggers) {
      assert old(HolderIs(m[c], c, holders[c], loggers));
    }
  }

  class Manager {
    var globalLevel: int
    var isImmutable: bool
    var onceFlag: bool
    var loggersMap: map<string, LoggerHolder>

    ghost var s: Spec.State
    ghost var loggers: seq<BaseLogger>

    /** The statics of the process before any call. */
    constructor ()
      ensures Valid() && s == Spec.START
    {
      globalLevel, isImmutable, onceFlag, loggersMap := LVL_INFO, false, false, map[];
      s, loggers := Spec.START, [];
    }

    ghost predicate Valid()
      reads this, loggersMap.Values, loggers
    {
      && globalLevel == s.globalLevel && isImmutable == s.isImmutable && onceFlag == s.initialised
      && loggersMap.Keys == s.holders.Keys && |loggers| == |s.loggers|
      && HasHolders(loggersMap, s.holders, loggers) && HasLoggers(loggers, s.loggers)
      && Spec.Coherent(s)
    }

    /** `register_logger`: an entry that the map already has is kept. */
    method RegisterLogger(channel: string, lvl: int) returns (p: LoggerHolder)
      requires Valid() && InRange(lvl)
      modifies this`loggersMap, this`s
      ensures Valid() && channel in loggersMap && p == loggersMap[channel]
      ensures old(channel in loggersMap) ==> s == old(s) && loggersMap == old(loggersMap)
      ensures old(channel !in loggersMap) ==>
                s == old(s).(holders := old(s).holders[channel := Spec.Holder(lvl, None)]) && fresh(p) &&
                loggersMap == old(loggersMap)[channel := p]
    {
      p := new LoggerHolder(channel, lvl);
      if channel in loggersMap {
        return loggersMap[channel];
      }
      loggersMap := loggersMap[channel := p];
      s := s.(holders := s.holders[channel := Spec.Holder(lvl, None)]);
    }

    /** The holder of a registered channel takes a level. */
    method SetHolderLevel(channel: string, lvl: int)
      requires Valid() && channel in loggersMap && InRange(lvl)
      modifies this`s, loggersMap[channel], loggersMap[channel].baseLogger
      ensures Valid() && s == Spec.SetLevel(old(s), channel, lvl)
    {
      hide HasLoggers, HasHolders, Spec.Coherent;
      Spec.SetLevelKeepsCoherent(s, channel, lvl);
      SetBoth(loggersMap, channel, lvl, s.holders, loggers, s.loggers);
      s := Spec.SetLevel(s, channel, lvl);
    }

    /** `set_logger_level`. */
    method SetLoggerLevel(channel: string, lvl: int)
      requires Valid()
      modifies this`loggersMap, this`s, loggersMap.Values, loggers
      ensures Valid() && s == Spec.Step(old(s), Spec.Call.SetLoggerLevel(channel, lvl))
      ensures forall h :: h in loggersMap.Values && h !in old(loggersMap.Values) ==> fresh(h)
    {
      if lvl < LVL_EMERG || lvl > LVL_TRACE {
        return;
      }
      if channel !in loggersMap {
        var _ := RegisterLogger(channel, lvl);
      } else {
        SetHolderLevel(channel, lvl);
      }
    }

    /** The holder of a registered channel gives its logger. */
    method GetFromHolder(channel: string) returns (p: BaseLogger, ghost k: nat)
      requires Valid() && channel in loggersMap
      modifies this`s, this`loggers, loggersMap[channel]
      ensures Valid() && (s, k) == Spec.Get(old(s), channel) && k < |loggers| && p == loggers[k]
      ensures old(loggers) <= loggers && forall l :: l in loggers && l !in old(loggers) ==> fresh(l)
    {
      hide HasLoggers, HasHolders, Spec.Coherent;
      Spec.GetKeepsCoherent(s, channel);
      p, k := LoggerOf(loggersMap, channel, s.holders, loggers, s.loggers);
      if s.holders[channel].logger == None {
        loggers := loggers + [p];
      }
      s := Spec.Get(s, channel).0;
    }

    /** `manager::get_logger`. */
    method GetLogger(channel: string) returns (p: BaseLogger, ghost k: nat)
      requires Valid()
      modifies this`loggersMap, this`s, this`loggers, loggersMap.Values
      ensures Valid() && (s, k) == Spec.Get(old(s), channel) && k < |loggers| && p == loggers[k]
      ensures old(loggers) <= loggers && forall l :: l in loggers && l !in old(loggers) ==> fresh(l)
      ensures forall h :: h in loggersMap.Values && h !in old(loggersMap.Values) ==> fresh(h)
    {
      if channel !in loggersMap {
        Spec.GetRegistersFirst(s, channel);
        var _ := RegisterLogger(channel, LVL_DEBUG);
      }
      p, k := GetFromHolder(channel);
    }

    /** `set_global_level`. */
    method SetGlobalLevel(lvl: int)
      requires Valid()
      modifies this`globalLevel, this`s
      ensures Valid() && s == Spec.Step(old(s), Spec.Call.SetGlobalLevel(lvl))
    {
      if isImmutable {
        return;
      }
      if lvl < LVL_EMERG || lvl > LVL_TRACE {
        return;
      }
      globalLevel := lvl;
      s := s.(globalLevel := lvl);
    }

    /** `set_immutable_global_level`. */
    method SetImmutableGlobalLevel(lvl: int)
      requires Valid()
      modifies this`globalLevel, this`isImmutable, this`s
      ensures Valid() && s == Spec.Step(old(s), Spec.Call.SetImmutableGlobalLevel(lvl))
    {
      if !isImmutable {
        SetGlobalLevel(lvl);
        isImmutable := true;
        s := s.(isImmutable := true);
      }
    }

    /** `init`. `completes` says whether the user's callback returns: if it throws, the once flag stays clear. */
    method Init(globalLvl: int, completes: bool)
      requires Valid()
      modifies this`globalLevel, this`onceFlag, this`s
      ensures Valid() && s == Spec.Step(old(s), Spec.Call.Init(globalLvl, completes))
    {
      if !onceFlag {
        SetGlobalLevel(globalLvl);
        if completes {
          onceFlag := true;
        }
        s := s.(initialised := completes);
      }
    }

    /** `deinit`: the registry is emptied; loggers that handles still point to are not touched. */
    method Deinit()
      requires Valid()
      modifies this`globalLevel, this`isImmutable, this`loggersMap, this`s
      ensures Valid() && s == Spec.Step(old(s), Spec.Call.Deinit)
    {
      loggersMap := map[];
      globalLevel := LVL_WARN;
      isImmutable := false;
      s := Spec.Step(s, Spec.Call.Deinit);
    }

    /** One locked section of any thread, or another public call. */
    method Perform(call: Spec.Call)
      requires Valid()
      modifies this, loggersMap.Values, set l | l in loggers
      ensures Valid() && s == Spec.Step(old(s), call)
      ensures old(loggers) <= loggers && forall l :: l in loggers && l !in old(loggers) ==> fresh(l)
      ensures forall h :: h in loggersMap.Values && h !in old(loggersMap.Values) ==> fresh(h)
    {
      hide HasLoggers, HasHolders, Spec.Coherent, Spec.SetLevel, Spec.Get;
      match call {
        case Init(lvl, completes) => Init(lvl, completes);
        case Deinit => Deinit();
        case GetLogger(channel) => var _, _ := GetLogger(channel);
        case GetLoggerDfl(channel, lvl) =>
          SetLoggerLevel(channel, lvl);
          var _, _ := GetLogger(channel);
        case SetLoggerLevel(channel, lvl) => SetLoggerLevel(channel, lvl);
        case SetGlobalLevel(lvl) => SetGlobalLevel(lvl);
        case SetImmutableGlobalLevel(lvl) => SetImmutableGlobalLevel(lvl);
      }
    }

    /** Any sequence of them. */
    method Replay(calls: seq<Spec.Call>)
      requires Valid()
      modifies this, loggersMap.Values, set l | l in loggers
      ensures Valid() && s == Spec.Run(old(s), calls)
      ensures old(loggers) <= loggers && forall l :: l in loggers && l !in old(loggers) ==> fresh(l)
      ensures forall h :: h in loggersMap.Values && h !in old(loggersMap.Values) ==> fresh(h)
    {
      hide HasLoggers, HasHolders, Spec.Coherent, Spec.Step;
      if calls != [] {
        Perform(calls[0]);
        Replay(calls[1..]);
      }
    }

    /**
     `manager::get_logger_dfl`: a set, then a get, each under the mutex. `between` are the sections that
     other threads run after the one and before the other.
     */
    method GetLoggerDfl(channel: string, lvl: int, between: seq<Spec.Call>) returns (p: BaseLogger, ghost k: nat)
      requires Valid()
      modifies this, loggersMap.Values, set l | l in loggers
      ensures Valid() && (s, k) == Spec.Get(Spec.Run(Spec.SetLevel(old(s), channel, lvl), between), channel)
      ensures between == [] ==> s == Spec.Step(old(s), Spec.Call.GetLoggerDfl(channel, lvl))
      ensures Spec.Attached(s, channel, k) && k < |loggers| && p == loggers[k]
      ensures old(loggers) <= loggers && forall l :: l in loggers && l !in old(loggers) ==> fresh(l)
    {
      hide HasLoggers, HasHolders, Spec.Coherent;
      SetLoggerLevel(channel, lvl);
      Replay(between);
      p, k := GetLogger(channel);
    }
  }
}
