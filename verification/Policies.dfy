/** The two storage policies compared, and the preallocated pool of the fixed one. */
module Policies {
  import opened Layout
  import opened Names
  import opened Registry
  import opened RegistryRuns

  // ---------- The two policies ----------

  predicate MemoryOk(calls: seq<Call>) {
    forall k :: 0 <= k < |calls| ==>
      match calls[k]
      case GetLogger(_, mem) => mem == Memory(true, true)
      case GetLoggerDfl(_, _, mem) => mem == Memory(true, true)
      case SetLoggerLevel(_, _, mem) => mem == Memory(true, true)
      case _ => true
  }

  /** The stored names that the calls ask for. */
  function NamesAsked(calls: seq<Call>): set<Name>
    decreases |calls|
  {
    if calls == [] then {}
    else
      NamesAsked(calls[1..]) +
      match calls[0]
      case GetLogger(channel, _) => {Truncate(channel)}
      case GetLoggerDfl(channel, _, _) => {Truncate(channel)}
      case SetLoggerLevel(channel, _, _) => {Truncate(channel)}
      case _ => {}
  }

  /** The fixed table `f` holds the first channels of the dynamic table `d`, and all of them while they fit. */
  ghost predicate FirstChannels(d: State, f: State) {
    && Inv(d) && Inv(f) && d.capacity > 0 && f.capacity > 0
    && d.policy == DynamicSize && f.policy == FixedSize
    && f.names <= d.names && f.levels <= d.levels
    && (|d.names| <= f.capacity ==> d == f.(policy := DynamicSize))
    && (|d.names| > f.capacity ==> |f.names| == f.capacity)
    && d.globalLevel == f.globalLevel && d.isImmutable == f.isImmutable
  }

  /** The replies to the same request: equal, unless the fixed table rejects what the dynamic one adds. */
  ghost predicate MatchingReplies(d: State, f: State, r: Reply, q: Reply) {
    && r.Logger? && r.id < |d.levels|
    && (q.Logger? ==> q == r && q.id < |f.levels|)
    && (!q.Logger? ==> q == Null && r.id >= |f.levels| && |d.names| > f.capacity)
  }

  lemma GetKeepsFirstSmall(d: State, f: State, channel: Name)
    requires FirstChannels(d, f) && |d.names| <= f.capacity
    ensures var mem := Memory(true, true);
            var (d', r) := Get(d, channel, mem);
            var (f', q) := Get(f, channel, mem);
            FirstChannels(d', f') && MatchingReplies(d', f', r, q) && f'.capacity == f.capacity
  {
    hide Get, Truncate, Distinct;
    var mem := Memory(true, true);
    GetOutcome(d, channel, mem);
    GetOutcome(f, channel, mem);
    GetKeepsInv(d, channel, mem);
    GetKeepsInv(f, channel, mem);
    if Truncate(channel) in f.names {
      FoundAlike(d.names, f.names, Get(d, channel, mem).1.id, Get(f, channel, mem).1.id);
    }
  }

  lemma GetKeepsFirstLarge(d: State, f: State, channel: Name)
    requires FirstChannels(d, f) && |d.names| > f.capacity
    ensures var mem := Memory(true, true);
            var (d', r) := Get(d, channel, mem);
            var (f', q) := Get(f, channel, mem);
            FirstChannels(d', f') && MatchingReplies(d', f', r, q) && f'.capacity == f.capacity
  {
    hide Get, Truncate, Distinct;
    var mem := Memory(true, true);
    var name := Truncate(channel);
    GetOutcome(d, channel, mem);
    GetOutcome(f, channel, mem);
    GetKeepsInv(d, channel, mem);
    GetKeepsInv(f, channel, mem);
    if name in f.names {
      FoundAlike(d.names, f.names, Get(d, channel, mem).1.id, Get(f, channel, mem).1.id);
    } else if name in d.names {
      assert Get(d, channel, mem).1.id >= |f.names|;
    }
  }

  lemma GetKeepsFirst(d: State, f: State, channel: Name)
    requires FirstChannels(d, f)
    ensures var mem := Memory(true, true);
            var (d', r) := Get(d, channel, mem);
            var (f', q) := Get(f, channel, mem);
            FirstChannels(d', f') && MatchingReplies(d', f', r, q) && f'.capacity == f.capacity
  {
    hide Get, FirstChannels, MatchingReplies;
    if |d.names| <= f.capacity {
      GetKeepsFirstSmall(d, f, channel);
    } else {
      GetKeepsFirstLarge(d, f, channel);
    }
  }

  lemma FoundAlike(names: seq<Name>, first: seq<Name>, i: nat, j: nat)
    requires first <= names && Distinct(names) && i < |names| && j < |first| && names[i] == first[j]
    ensures i == j
  {
    assert names[j] == first[j];
  }

  lemma WithLevelKeepsFirst(d: State, f: State, r: Reply, q: Reply, lvl: int)
    requires FirstChannels(d, f) && MatchingReplies(d, f, r, q)
    ensures FirstChannels(WithLevel(d, r, lvl), WithLevel(f, q, lvl))
  {
  }

  lemma StepKeepsFirst(d: State, f: State, call: Call)
    requires FirstChannels(d, f) && MemoryOk([call])
    ensures FirstChannels(Step(d, call).0, Step(f, call).0)
    ensures |Step(d, call).0.names| <= f.capacity ==> Step(d, call).1 == Step(f, call).1
    ensures Step(f, call).0.capacity == f.capacity
  {
    hide Get, Truncate, FirstChannels, WithLevel;
    assert [call][0] == call;
    match call
    case GetLogger(channel, mem) => GetKeepsFirst(d, f, channel);
    case GetLoggerDfl(channel, lvl, mem) =>
      GetKeepsFirst(d, f, channel);
      var ((d', r), (f', q)) := (Get(d, channel, mem), Get(f, channel, mem));
      WithLevelKeepsNames(d', r, lvl);
      WithLevelKeepsNames(f', q, lvl);
      WithLevelKeepsFirst(d', f', r, q, lvl);
    case SetLoggerLevel(channel, lvl, mem) =>
      GetKeepsFirst(d, f, channel);
      var ((d', r), (f', q)) := (Get(d, channel, mem), Get(f, channel, mem));
      WithLevelKeepsNames(d', r, lvl);
      WithLevelKeepsNames(f', q, lvl);
      WithLevelKeepsFirst(d', f', r, q, lvl);
    case _ => GlobalStepKeepsFirst(d, f, call);
  }

  lemma WithLevelKeepsNames(s: State, reply: Reply, lvl: int)
    ensures WithLevel(s, reply, lvl).names == s.names && WithLevel(s, reply, lvl).capacity == s.capacity
  {
  }

  lemma GlobalStepKeepsFirst(d: State, f: State, call: Call)
    requires FirstChannels(d, f) && (call.SetGlobalLevel? || call.SetImmutableGlobalLevel? || call.Log?)
    ensures FirstChannels(Step(d, call).0, Step(f, call).0)
    ensures Step(d, call).1 == Step(f, call).1 && Step(f, call).0.capacity == f.capacity
  {
  }

  lemma FreshTablesMatch(channelCount: nat, lvl: int)
    requires channelCount > 0
    ensures FirstChannels(Fresh(DynamicSize, channelCount, lvl), Fresh(FixedSize, channelCount, lvl))
  {
  }

  /** With memory to spare, the dynamic table registers exactly the names asked for. */
  lemma {:induction false} DynamicRegistersAll(d: State, calls: seq<Call>)
    requires Inv(d) && d.policy == DynamicSize && d.capacity > 0 && MemoryOk(calls)
    ensures (set n | n in Run(d, calls).0.names) == (set n | n in d.names) + NamesAsked(calls)
    decreases |calls|
  {
    hide Step, Truncate;
    if calls == [] {
    } else {
      assert MemoryOk([calls[0]]);
      StepKeepsInv(d, calls[0]);
      StepKeepsHandles(d, calls[0]);
      StepKeepsZero(d, calls[0]);
      StepRegisters(d, calls[0]);
      assert NamesAsked([calls[0]] + calls[1..]) == NamesAsked([calls[0]]) + NamesAsked(calls[1..]);
      assert calls == [calls[0]] + calls[1..];
      DynamicRegistersAll(Step(d, calls[0]).0, calls[1..]);
    }
  }

  lemma StepRegisters(d: State, call: Call)
    requires Inv(d) && d.policy == DynamicSize && d.capacity > 0 && MemoryOk([call])
    ensures (set n | n in Step(d, call).0.names) == (set n | n in d.names) + NamesAsked([call])
    ensures forall rest :: NamesAsked([call] + rest) == NamesAsked([call]) + NamesAsked(rest)
  {
    hide Get, Truncate;
    assert [call][0] == call;
    forall rest ensures NamesAsked([call] + rest) == NamesAsked([call]) + NamesAsked(rest) {
      assert ([call] + rest)[1..] == rest;
    }
    match call
    case GetLogger(channel, mem) => GetOutcome(d, channel, mem);
    case GetLoggerDfl(channel, lvl, mem) => GetOutcome(d, channel, mem);
    case SetLoggerLevel(channel, lvl, mem) => GetOutcome(d, channel, mem);
    case _ =>
  }

  lemma {:induction false} RunKeepsFirst(d: State, f: State, calls: seq<Call>)
    requires FirstChannels(d, f) && MemoryOk(calls)
    ensures FirstChannels(Run(d, calls).0, Run(f, calls).0) && Run(f, calls).0.capacity == f.capacity
    ensures |Run(d, calls).0.names| <= f.capacity ==> Run(d, calls).1 == Run(f, calls).1
    decreases |calls|
  {
    hide Step, FirstChannels;
    if calls == [] {
    } else {
      assert MemoryOk([calls[0]]);
      var d', f' := Step(d, calls[0]).0, Step(f, calls[0]).0;
      StepKeepsFirst(d, f, calls[0]);
      RunKeepsFirst(d', f', calls[1..]);
      assert Inv(d') by { FirstChannelsInv(d', f'); }
      RunKeepsHandles(d', calls[1..]);
    }
  }

  lemma FirstChannelsInv(d: State, f: State)
    requires FirstChannels(d, f)
    ensures Inv(d) && Inv(f)
  {
  }

  /**
   The two policies agree. As long as no more than `channelCount` stored names are asked for and
   memory lasts, the runs answer alike and end in the same state, hence in the same chains. Beyond
   that, the fixed table keeps the first `channelCount` channels of the dynamic one, at equal levels.
   */
  lemma PoliciesAgree(channelCount: nat, lvl: int, calls: seq<Call>)
    requires channelCount > 0 && MemoryOk(calls)
    ensures var (d, r) := Run(Fresh(DynamicSize, channelCount, lvl), calls);
            var (f, q) := Run(Fresh(FixedSize, channelCount, lvl), calls);
            && f.names <= d.names && f.levels <= d.levels && |f.names| == |f.levels|
            && |d.names| == |NamesAsked(calls)|
            && |f.names| == (if |NamesAsked(calls)| <= channelCount then |NamesAsked(calls)| else channelCount)
            && (|NamesAsked(calls)| <= channelCount ==> d == f.(policy := DynamicSize) && r == q)
  {
    var d0, f0 := Fresh(DynamicSize, channelCount, lvl), Fresh(FixedSize, channelCount, lvl);
    hide Run, NamesAsked;
    FreshTablesMatch(channelCount, lvl);
    RunKeepsFirst(d0, f0, calls);
    DynamicRegistersAll(d0, calls);
    DistinctCardinality(Run(d0, calls).0.names);
    assert (set n | n in d0.names) == {};
    assert (set n | n in Run(d0, calls).0.names) == NamesAsked(calls);
  }

  // ---------- The fixed pool ----------

  lemma StepKeepsCapacity(s: State, call: Call)
    requires Inv(s) && s.policy == FixedSize
    ensures Step(s, call).0.capacity == s.capacity
  {
    hide Get, Truncate;
    if s.capacity == 0 {
      StepWithoutBuckets(s, call);
    } else {
      match call
      case GetLogger(channel, mem) => GetOutcome(s, channel, mem);
      case GetLoggerDfl(channel, _, mem) => GetOutcome(s, channel, mem);
      case SetLoggerLevel(channel, _, mem) => GetOutcome(s, channel, mem);
      case _ =>
    }
  }

  lemma {:induction false} RunKeepsCapacity(s: State, calls: seq<Call>)
    requires Inv(s) && s.policy == FixedSize
    ensures Run(s, calls).0.capacity == s.capacity
    decreases |calls|
  {
    hide Step;
    if calls == [] {
    } else {
      StepKeepsInv(s, calls[0]);
      StepKeepsHandles(s, calls[0]);
      StepKeepsCapacity(s, calls[0]);
      RunKeepsCapacity(Step(s, calls[0]).0, calls[1..]);
    }
  }

  /**
   The pool rejects a name exactly when it is new and the pool is full; the rejection changes nothing
   and is final, while every name already registered still resolves.
   */
  lemma FullPoolIsFinal(s: State, channel: Name, mem: Memory, calls: seq<Call>, mem': Memory)
    requires Inv(s) && s.policy == FixedSize && s.capacity > 0
    ensures Get(s, channel, mem).1 == Null <==> Truncate(channel) !in s.names && |s.names| == s.capacity
    ensures Get(s, channel, mem).1 == Null ==>
              Get(s, channel, mem).0 == s && Get(Run(s, calls).0, channel, mem') == (Run(s, calls).0, Null)
    ensures forall other, m :: Truncate(other) in s.names ==> Get(Run(s, calls).0, other, m).1.Logger?
  {
    hide Get, Truncate, Run;
    var t := Run(s, calls).0;
    GetOutcome(s, channel, mem);
    RunKeepsInv(s, calls);
    RunKeepsHandles(s, calls);
    RunKeepsCapacity(s, calls);
    GetOutcome(t, channel, mem');
    forall other, m | Truncate(other) in s.names
      ensures Get(t, other, m).1.Logger?
    {
      GetOutcome(t, other, m);
    }
  }
}
