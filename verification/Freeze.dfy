/**
 The global level and its freeze under interleaving. `lw_set_global_level` reads the immutable flag,
 checks the range and writes the level in separate atomic accesses; `lw_set_immutable_global_level`
 reads the flag, calls the setter, and then writes the flag. The C++ manager does the same.
 */
module Freeze {
  import opened Registry
  import opened Severity
  import CppRegistry

  type Tid = nat

  /**
   Where a thread stands. `freezes` says that the call is `lw_set_immutable_global_level`: it reads the
   flag once more at `AtCall`, and goes on to `AtFlag` when its inner setter is done.
   */
  datatype Point =
    | AtCall(lvl: int)
    | AtCheck(lvl: int, freezes: bool)
    | AtWrite(lvl: int, freezes: bool)
    | AtFlag

  /** `writes` counts the writes of the level so far. */
  datatype System = System(level: int, frozen: bool, threads: map<Tid, Point>, writes: nat)

  datatype Action =
    | CallSet(t: Tid, lvl: int)
    | CallFreeze(t: Tid, lvl: int)
    | Advance(t: Tid)

  function Goto(s: System, t: Tid, p: Point): System {
    s.(threads := s.threads[t := p])
  }

  function Leave(s: System, t: Tid): System {
    s.(threads := s.threads - {t})
  }

  /** The setter is over: the plain call returns, the freezing call goes on to the flag. */
  function SetterDone(s: System, t: Tid, freezes: bool): System {
    if freezes then Goto(s, t, AtFlag) else Leave(s, t)
  }

  /** One atomic access of thread `t`. */
  function Access(s: System, t: Tid): System
    requires t in s.threads
  {
    match s.threads[t]
    case AtCall(lvl) => if s.frozen then Leave(s, t) else Goto(s, t, AtCheck(lvl, true))
    case AtCheck(lvl, freezes) =>
      if !s.frozen && InRange(lvl) then Goto(s, t, AtWrite(lvl, freezes)) else SetterDone(s, t, freezes)
    case AtWrite(lvl, freezes) => SetterDone(s.(level := lvl, writes := s.writes + 1), t, freezes)
    case AtFlag => Leave(s.(frozen := true), t)
  }

  function Step(s: System, a: Action): System {
    match a
    case CallSet(t, lvl) => if t in s.threads then s else Goto(s, t, AtCheck(lvl, false))
    case CallFreeze(t, lvl) => if t in s.threads then s else Goto(s, t, AtCall(lvl))
    case Advance(t) => if t in s.threads then Access(s, t) else s
  }

  function Run(s: System, schedule: seq<Action>): System
    decreases |schedule|
  {
    if schedule == [] then s else Run(Step(s, schedule[0]), schedule[1..])
  }

  /** The threads that have read the flag as clear and are about to write the level. */
  function Pending(s: System): set<Tid> {
    set t | t in s.threads && s.threads[t].AtWrite?
  }

  /** How often the step writes the level for thread `t`. */
  function Writes(s: System, a: Action, t: Tid): nat {
    if a == Advance(t) && t in s.threads && s.threads[t].AtWrite? then 1 else 0
  }

  /** How often thread `t` writes the level in a run. */
  function WritesOf(s: System, schedule: seq<Action>, t: Tid): nat
    decreases |schedule|
  {
    if schedule == [] then 0 else Writes(s, schedule[0], t) + WritesOf(Step(s, schedule[0]), schedule[1..], t)
  }

  // ---------- After the freeze ----------

  /** After the freeze only a pending thread changes who is pending: it writes and is gone. */
  lemma FrozenPending(s: System, a: Action)
    requires s.frozen
    ensures Pending(Step(s, a)) == if a.Advance? && a.t in Pending(s) then Pending(s) - {a.t} else Pending(s)
    ensures forall t :: t in Pending(Step(s, a)) ==> Step(s, a).threads[t] == s.threads[t]
  {
  }

  /** One step after the freeze: no thread becomes pending, and a write uses exactly one pending thread up. */
  lemma FrozenStep(s: System, a: Action)
    requires s.frozen
    ensures var u := Step(s, a);
            && u.frozen && Pending(u) <= Pending(s)
            && u.writes + |Pending(u)| == s.writes + |Pending(s)|
            && (u.level != s.level ==> a.Advance? && a.t in Pending(s) && u.level == s.threads[a.t].lvl)
            && (forall t :: t in Pending(u) ==> u.threads[t] == s.threads[t])
            && (forall t :: Writes(s, a, t) == if t in Pending(s) && t !in Pending(u) then 1 else 0)
  {
    hide Step;
    FrozenPending(s, a);
    FrozenEffect(s, a);
    forall t ensures Writes(s, a, t) == if t in Pending(s) && t !in Pending(Step(s, a)) then 1 else 0 {}
  }

  lemma FrozenEffect(s: System, a: Action)
    requires s.frozen
    ensures var u := Step(s, a);
            && u.frozen
            && (if a.Advance? && a.t in Pending(s) then u.level == s.threads[a.t].lvl && u.writes == s.writes + 1
                else u.level == s.level && u.writes == s.writes)
  {
  }

  /**
   In every interleaving after the freeze the flag stays set, the writes still to come are by threads
   that read the flag as clear before it, and the level ends as it was or as one of them sets it. Each
   of them writes once at most: it has written once when it is no longer pending, and no other thread
   writes at all.
   */
  lemma {:induction false} FrozenRun(s: System, schedule: seq<Action>)
    requires s.frozen
    ensures var u := Run(s, schedule);
            && u.frozen && Pending(u) <= Pending(s)
            && u.writes + |Pending(u)| == s.writes + |Pending(s)|
            && (u.level == s.level || exists t :: t in Pending(s) && u.level == s.threads[t].lvl)
            && (forall t :: t in Pending(u) ==> u.threads[t] == s.threads[t])
            && (forall t :: WritesOf(s, schedule, t) == if t in Pending(s) && t !in Pending(u) then 1 else 0)
    decreases |schedule|
  {
    hide Step, Pending, Writes;
    if schedule == [] {
    } else {
      FrozenStep(s, schedule[0]);
      FrozenRun(Step(s, schedule[0]), schedule[1..]);
    }
  }

  /** After the freeze the level can still change exactly when some pending setter carries another level. */
  lemma LevelCanChangeIff(s: System)
    requires s.frozen
    ensures (exists schedule :: Run(s, schedule).level != s.level) <==>
            exists t :: t in Pending(s) && s.threads[t].lvl != s.level
  {
    if schedule :| Run(s, schedule).level != s.level {
      FrozenRun(s, schedule);
    }
    if t :| t in Pending(s) && s.threads[t].lvl != s.level {
      var schedule := [Advance(t)];
      assert schedule[1..] == [];
      assert Run(s, schedule) == Run(Step(s, Advance(t)), []);
      assert Run(s, schedule).level != s.level;
    }
  }

  // ---------- Atomic calls ----------

  /** A plain setter that runs alone, and a freezing one, in the terms of the sequential registry. */
  lemma SetAloneIsSetGlobal(s: System, t: Tid, lvl: int, r: State)
    requires t !in s.threads && r.globalLevel == s.level && r.isImmutable == s.frozen
    ensures var u := Step(Step(Step(s, CallSet(t, lvl)), Advance(t)), Advance(t));
            var v := Registry.Step(r, SetGlobalLevel(lvl)).0;
            u.level == v.globalLevel && u.frozen == v.isImmutable && u.threads == s.threads
  {
    var a := Step(s, CallSet(t, lvl));
    var b := Step(a, Advance(t));
    assert a.threads - {t} == s.threads;
    assert b.threads - {t} == s.threads;
  }

  lemma FreezeAloneIsSetImmutable(s: System, t: Tid, lvl: int, r: State)
    requires t !in s.threads && r.globalLevel == s.level && r.isImmutable == s.frozen
    ensures var begun := Step(Step(s, CallFreeze(t, lvl)), Advance(t));
            var u := Step(Step(Step(begun, Advance(t)), Advance(t)), Advance(t));
            var v := Registry.Step(r, SetImmutableGlobalLevel(lvl)).0;
            u.level == v.globalLevel && u.frozen == v.isImmutable && u.threads == s.threads
  {
    var a := Step(s, CallFreeze(t, lvl));
    var b := Step(a, Advance(t));
    var c := Step(b, Advance(t));
    var d := Step(c, Advance(t));
    assert a.threads - {t} == s.threads;
    assert b.threads - {t} == s.threads;
    assert c.threads - {t} == s.threads;
    assert d.threads - {t} == s.threads;
  }

  /** The first `n` accesses of thread `t`. */
  function Accesses(s: System, t: Tid, n: nat): System {
    if n == 0 then s else Step(Accesses(s, t, n - 1), Advance(t))
  }

  /** Where a freezing call that runs alone is after `n` accesses, if it is still inside. */
  lemma FreezingPoint(s: System, t: Tid, lvl: int, n: nat)
    requires t !in s.threads
    ensures var u := Accesses(Step(s, CallFreeze(t, lvl)), t, n);
            var valid := 0 <= lvl <= 8;
            if n == 0 then u.frozen == s.frozen && t in u.threads && u.threads[t] == AtCall(lvl)
            else if s.frozen then t !in u.threads
            else if n == 1 then !u.frozen && t in u.threads && u.threads[t] == AtCheck(lvl, true)
            else if n == 2 && valid then t in u.threads && u.threads[t] == AtWrite(lvl, true)
            else if n == 2 || (n == 3 && valid) then t in u.threads && u.threads[t] == AtFlag
            else t !in u.threads
  {
    if n > 0 {
      FreezingPoint(s, t, lvl, n - 1);
    }
  }

  lemma SettingPoint(s: System, t: Tid, lvl: int, n: nat)
    requires t !in s.threads
    ensures var u := Accesses(Step(s, CallSet(t, lvl)), t, n);
            if n == 0 then u.frozen == s.frozen && t in u.threads && u.threads[t] == AtCheck(lvl, false)
            else if n == 1 && !s.frozen && 0 <= lvl <= 8 then t in u.threads && u.threads[t] == AtWrite(lvl, false)
            else t !in u.threads
  {
    if n > 0 {
      SettingPoint(s, t, lvl, n - 1);
    }
  }

  /**
   How many accesses a call alone makes: a setter one if it is refused and two if it writes; a freezing
   call one if the flag is set, three if its level is refused, and four if it writes.
   */
  lemma AccessesOfACall(s: System, t: Tid, lvl: int, n: nat)
    requires t !in s.threads
    ensures t in Accesses(Step(s, CallSet(t, lvl)), t, n).threads <==>
            n < if s.frozen || lvl < 0 || 8 < lvl then 1 else 2
    ensures t in Accesses(Step(s, CallFreeze(t, lvl)), t, n).threads <==>
            n < if s.frozen then 1 else if lvl < 0 || 8 < lvl then 3 else 4
  {
    SettingPoint(s, t, lvl, n);
    FreezingPoint(s, t, lvl, n);
  }

  /** Alone, both are also the calls of the C++ manager. */
  lemma AloneIsCpp(s: System, t: Tid, lvl: int, r: CppRegistry.State)
    requires t !in s.threads && r.globalLevel == s.level && r.isImmutable == s.frozen
    ensures var u := Step(Step(Step(s, CallSet(t, lvl)), Advance(t)), Advance(t));
            var v := CppRegistry.Step(r, CppRegistry.SetGlobalLevel(lvl));
            u.level == v.globalLevel && u.frozen == v.isImmutable && u.threads == s.threads
    ensures var begun := Step(Step(s, CallFreeze(t, lvl)), Advance(t));
            var u := Step(Step(Step(begun, Advance(t)), Advance(t)), Advance(t));
            var v := CppRegistry.Step(r, CppRegistry.SetImmutableGlobalLevel(lvl));
            u.level == v.globalLevel && u.frozen == v.isImmutable && u.threads == s.threads
  {
    hide Step;
    var c := Fresh(DynamicSize, 0, s.level).(isImmutable := s.frozen);
    SetAloneIsSetGlobal(s, t, lvl, c);
    FreezeAloneIsSetImmutable(s, t, lvl, c);
  }

  /** Between complete calls no setter is pending, so the freeze is final. */
  lemma FreezeIsFinalWhenQuiet(s: System, schedule: seq<Action>)
    requires s.frozen && Pending(s) == {}
    ensures Run(s, schedule).level == s.level && Run(s, schedule).writes == s.writes
  {
    FrozenRun(s, schedule);
  }

  /** The level written is always a valid one, whatever the schedule. */
  ghost predicate ValidTargets(s: System) {
    && InRange(s.level)
    && forall t :: t in s.threads && s.threads[t].AtWrite? ==> InRange(s.threads[t].lvl)
  }

  lemma {:induction false} LevelStaysInRange(s: System, schedule: seq<Action>)
    requires ValidTargets(s)
    ensures ValidTargets(Run(s, schedule))
    decreases |schedule|
  {
    if schedule == [] {
    } else {
      LevelStaysInRange(Step(s, schedule[0]), schedule[1..]);
    }
  }

  // ---------- Who may call ----------

  /** The threads that call a setter in a schedule. */
  function Callers(schedule: seq<Action>): set<Tid>
    decreases |schedule|
  {
    if schedule == [] then {}
    else (if schedule[0].Advance? then {} else {schedule[0].t}) + Callers(schedule[1..])
  }

  function Start(level: int): System {
    System(level, false, map[], 0)
  }

  /** From the freeze on, the level stays. */
  predicate Holds(level: int, schedule: seq<Action>, later: seq<Action>) {
    var s := Run(Start(level), schedule);
    s.frozen ==> Run(s, later).level == s.level
  }

  /** With a single caller, the thread that sets the flag is the only one inside. */
  lemma {:induction false} OneCallerIsQuiet(s: System, schedule: seq<Action>, callers: set<Tid>)
    requires |callers| <= 1 && s.threads.Keys <= callers && Callers(schedule) <= callers
    requires s.frozen ==> Pending(s) == {}
    ensures var u := Run(s, schedule); u.frozen ==> Pending(u) == {}
    decreases |schedule|
  {
    if schedule == [] {
    } else {
      var a, u := schedule[0], Step(s, schedule[0]);
      AtMostOne(callers);
      if s.frozen {
        FrozenPending(s, a);
      } else if u.frozen {
        assert a.t !in u.threads && u.threads.Keys == {};
      }
      OneCallerIsQuiet(u, schedule[1..], callers);
    }
  }

  lemma AtMostOne(callers: set<Tid>)
    requires |callers| <= 1
    ensures forall t, u :: t in callers && u in callers ==> t == u
  {
    forall t, u | t in callers && u in callers ensures t == u {
      assert |callers - {t}| == 0;
      assert u !in callers - {t};
    }
  }

  lemma RunStep(s: System, a: Action, rest: seq<Action>)
    ensures Run(s, [a] + rest) == Run(Step(s, a), rest)
    ensures Callers([a] + rest) == (if a.Advance? then {} else {a.t}) + Callers(rest)
  {
    assert ([a] + rest)[1..] == rest;
  }

  /** A setter past its check still writes after the freeze: thread `t` reads the flag, `u` freezes, `t` writes. */
  lemma LateSetterWins(t: Tid, u: Tid, initial: int, frozenAt: int, late: int)
    requires t != u && InRange(frozenAt) && InRange(late)
    ensures var s1 := Step(Step(Start(initial), CallSet(t, late)), Advance(t));
            var begun := Step(Step(s1, CallFreeze(u, frozenAt)), Advance(u));
            var s2 := Step(Step(Step(begun, Advance(u)), Advance(u)), Advance(u));
            s2.frozen && s2.level == frozenAt && Step(s2, Advance(t)).level == late
  {
  }

  lemma LateSetterRuns(t: Tid, u: Tid, initial: int) returns (schedule: seq<Action>, later: seq<Action>)
    requires t != u
    ensures Callers(schedule) == {t, u} && Callers(later) == {} && !Holds(initial, schedule, later)
  {
    LateSetterWins(t, u, initial, LVL_TRACE, LVL_EMERG);
    hide Step;
    var s1 := Step(Step(Start(initial), CallSet(t, LVL_EMERG)), Advance(t));
    var begun := Step(Step(s1, CallFreeze(u, LVL_TRACE)), Advance(u));
    var end := [Advance(u)] + ([Advance(u)] + ([Advance(u)] + []));
    RunStep(Step(Step(begun, Advance(u)), Advance(u)), Advance(u), []);
    RunStep(Step(begun, Advance(u)), Advance(u), [Advance(u)] + []);
    RunStep(begun, Advance(u), [Advance(u)] + ([Advance(u)] + []));
    var middle := [CallFreeze(u, LVL_TRACE)] + ([Advance(u)] + end);
    RunStep(Step(s1, CallFreeze(u, LVL_TRACE)), Advance(u), end);
    RunStep(s1, CallFreeze(u, LVL_TRACE), [Advance(u)] + end);
    schedule, later := [CallSet(t, LVL_EMERG)] + ([Advance(t)] + middle), [Advance(t)] + [];
    RunStep(Step(Start(initial), CallSet(t, LVL_EMERG)), Advance(t), middle);
    RunStep(Start(initial), CallSet(t, LVL_EMERG), [Advance(t)] + middle);
    RunStep(Run(Start(initial), schedule), Advance(t), []);
  }

  /**
   The exact condition, which a program can check beforehand: whatever the schedule, the level stays from
   the freeze on if and only if at most one thread calls the setters at all.
   */
  lemma FreezeHoldsIffOneCaller(level: int, callers: set<Tid>)
    ensures (forall schedule, later ::
               Callers(schedule) + Callers(later) <= callers ==> Holds(level, schedule, later)) <==>
            |callers| <= 1
  {
    hide Callers, Step, Pending;
    if |callers| <= 1 {
      forall schedule, later | Callers(schedule) + Callers(later) <= callers ensures Holds(level, schedule, later) {
        OneCallerIsQuiet(Start(level), schedule, callers);
        if Run(Start(level), schedule).frozen {
          FreezeIsFinalWhenQuiet(Run(Start(level), schedule), later);
        }
      }
    } else {
      var t :| t in callers;
      var u := Another(callers, t);
      var schedule, later := LateSetterRuns(t, u, level);
      assert Callers(schedule) + Callers(later) <= callers && !Holds(level, schedule, later);
    }
  }

  lemma Another(callers: set<Tid>, t: Tid) returns (u: Tid)
    requires |callers| > 1 && t in callers
    ensures u in callers && u != t
  {
    assert |callers - {t}| == |callers| - 1;
    u :| u in callers - {t};
  }
}
