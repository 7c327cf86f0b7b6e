/**
 The level setters under interleaving. `lw_set_logger_level` and `lw_get_logger_dfl` are a get-or-create
 whose logger then has its level written, in a later step of the same thread and without any lock.
 */
module Setters {
  import opened EnoughBuckets
  import opened LateReads
  import opened Layout
  import opened Links
  import opened Names
  import opened Options
  import opened Severity
  import opened Threads
  import opened TooFewBuckets
  import Registry

  /**
   What a setter brings to its get-or-create: the level to write, and whether it is checked first.
   `lw_set_logger_level` ignores an invalid level, `lw_get_logger_dfl` writes any.
   */
  datatype Want = Want(lvl: int, checked: bool)

  /** A setter between its get-or-create and its write: the name asked for, the logger got, the level. */
  datatype Store = Store(name: Name, result: Result, lvl: int)

  /** `wants` belong to threads inside a get-or-create; `stores` are the writes that are due. */
  datatype Manager = Manager(
    base: System,
    levels: seq<int>,
    wants: map<Tid, Want>,
    stores: map<Tid, Store>)

  datatype Move =
    | CallSet(t: Tid, channel: Name, lvl: int, checked: bool)
    | Get(a: Action)
    | WriteLevel(t: Tid)

  /** The step of the get-or-create that a move makes, if it makes one. */
  function Part(m: Manager, move: Move): Option<Action> {
    match move
    case CallSet(t, channel, _, _) => if t in m.stores then None else Some(Call(t, channel))
    case Get(a) => if a.t in m.stores then None else Some(a)
    case WriteLevel(_) => None
  }

  /** New channels start at debug. */
  function Grown(levels: seq<int>, size: nat): seq<int> {
    if |levels| < size then levels + seq(size - |levels|, _ => LVL_DEBUG) else levels
  }

  /** After a step of the get-or-create; a setter that leaves it with a logger checks its level and then writes. */
  function AfterPart(m: Manager, a: Action): Manager {
    var base := Step(m.base, a);
    var n := m.(base := base, levels := Grown(m.levels, |base.sh.names|));
    if a.t in m.base.threads && a.t !in base.threads && a.t in m.wants && base.log != [] then
      var entry, want := base.log[|base.log| - 1], m.wants[a.t];
      var stores := if entry.result.NoLogger? || (want.checked && !InRange(want.lvl)) then m.stores
                    else m.stores[a.t := Store(entry.name, entry.result, want.lvl)];
      n.(wants := m.wants - {a.t}, stores := stores)
    else n
  }

  /** The write: through a pointer to no logger it changes no level of any channel. */
  function Written(levels: seq<int>, result: Result, lvl: int): seq<int> {
    if result.Logger? && result.id < |levels| then levels[result.id := lvl] else levels
  }

  function Next(m: Manager, move: Move): Manager {
    match move
    case WriteLevel(t) =>
      if t !in m.stores then m
      else
        var st := m.stores[t];
        m.(levels := Written(m.levels, st.result, st.lvl), stores := m.stores - {t})
    case CallSet(t, channel, lvl, checked) =>
      if t in m.stores || t in m.base.threads then m
      else
        var n := AfterPart(m, Call(t, channel));
        n.(wants := n.wants[t := Want(lvl, checked)])
    case Get(a) => if a.t in m.stores then m else AfterPart(m, a)
  }

  function Moves(m: Manager, moves: seq<Move>): Manager
    decreases |moves|
  {
    if moves == [] then m else Moves(Next(m, moves[0]), moves[1..])
  }

  /** A manager at rest: its channels are at debug, and no setter is under way. */
  function Started(base: System): Manager {
    Manager(base, seq(|base.sh.names|, _ => LVL_DEBUG), map[], map[])
  }

  // ---------- One setter ----------

  /**
   Where a setter that is about to return from its get-or-create will write: to the level of the channel
   it asked for if and only if its slot is stable; otherwise it leaves that level alone, and changes a
   channel of another name or, through an address of no logger, none. A checked level outside 0 to 8 is
   not written at all.
   */
  lemma SetterWritesWhereItReads(m: Manager, t: Tid, c0: nat)
    requires Inv(m.base, c0) && |m.levels| == |m.base.sh.names|
    requires t in m.base.threads && m.base.threads[t].AtReturn? && t in m.wants && t !in m.stores
    ensures m.base.threads[t].id < |m.levels|
    ensures var p, names, want := m.base.threads[t], m.base.sh.names, m.wants[t];
            var levels := Next(Next(m, Get(Return(t))), WriteLevel(t)).levels;
            var writes := !want.checked || 0 <= want.lvl <= 8;
            && (!writes ==> levels == m.levels)
            && (writes && Stable(m.base, p) ==> levels == m.levels[p.id := want.lvl])
            && (!Stable(m.base, p) ==> |levels| == |m.levels| && levels[p.id] == m.levels[p.id])
            && (!Stable(m.base, p) ==>
                  || levels == m.levels
                  || exists other :: 0 <= other < |names| && names[other] != p.name &&
                                     levels == m.levels[other := want.lvl])
  {
    hide Inv, Stable, Reread;
    var s, p, want := m.base, m.base.threads[t], m.wants[t];
    ReturnInv(s, t, c0);
    RereadExact(s, t, c0);
    var result := Reread(s.sh, p.slot, p.generation);
    var u := Step(s, Return(t));
    assert u.log[|u.log| - 1] == Entry(t, p.name, result);
    assert t !in u.threads;
    var n := Next(m, Get(Return(t)));
    assert n.levels == m.levels;
    if !want.checked || InRange(want.lvl) {
      assert n.stores[t] == Store(p.name, result, want.lvl);
    }
    if result.Logger? && result.id != p.id {
      assert s.sh.names[result.id] != p.name;
    }
  }

  // ---------- The requests of a run ----------

  /** The schedule of the get-or-creates inside a run of moves. */
  function Parts(m: Manager, moves: seq<Move>): seq<Action>
    decreases |moves|
  {
    if moves == [] then []
    else (if Part(m, moves[0]).Some? then [Part(m, moves[0]).value] else []) + Parts(Next(m, moves[0]), moves[1..])
  }

  lemma NextBase(m: Manager, move: Move)
    ensures Next(m, move).base == if Part(m, move).Some? then Step(m.base, Part(m, move).value) else m.base
  {
    hide Step;
    if move.CallSet? && move.t in m.base.threads {
      assert !Enabled(m.base, Call(move.t, move.channel));
      BusyStep(m.base, move.t, move.channel);
    }
  }

  lemma BusyStep(s: System, t: Tid, channel: Name)
    requires t in s.threads
    ensures Step(s, Call(t, channel)) == s
  {
  }

  /** The stored names that the moves of a run ask for. */
  function NamesAsked(moves: seq<Move>): set<Name>
    decreases |moves|
  {
    if moves == [] then {} else NameAsked(moves[0]) + NamesAsked(moves[1..])
  }

  function NameAsked(move: Move): set<Name> {
    match move
    case CallSet(_, channel, _, _) => {Truncate(channel)}
    case Get(a) => if a.Call? then {Truncate(a.channel)} else {}
    case WriteLevel(_) => {}
  }

  lemma {:induction false} PartsAskNoMore(m: Manager, moves: seq<Move>)
    ensures NamesCalled(Parts(m, moves)) <= NamesAsked(moves)
    decreases |moves|
  {
    hide Truncate, Next;
    if moves == [] {
    } else {
      PartsAskNoMore(Next(m, moves[0]), moves[1..]);
      var part := Part(m, moves[0]);
      if part.Some? {
        NamesCalledConcat([part.value], Parts(Next(m, moves[0]), moves[1..]));
        OneName(part.value);
      } else {
        assert [] + Parts(Next(m, moves[0]), moves[1..]) == Parts(Next(m, moves[0]), moves[1..]);
      }
    }
  }

  lemma OneName(a: Action)
    ensures NamesCalled([a]) == if a.Call? then {Truncate(a.channel)} else {}
  {
    assert [a][1..] == [];
  }

  lemma {:induction false} NamesAskedConcat(first: seq<Move>, rest: seq<Move>)
    ensures NamesAsked(first + rest) == NamesAsked(first) + NamesAsked(rest)
    decreases |first|
  {
    hide NameAsked;
    if first == [] {
      assert first + rest == rest;
    } else {
      assert (first + rest)[1..] == first[1..] + rest;
      NamesAskedConcat(first[1..], rest);
    }
  }

  lemma OneAsk(move: Move)
    ensures NamesAsked([move]) == NameAsked(move)
  {
    assert [move][1..] == [];
  }

  lemma {:induction false} NamesOfGets(schedule: seq<Action>)
    ensures NamesAsked(Gets(schedule)) == NamesCalled(schedule)
    decreases |schedule|
  {
    hide Truncate;
    if schedule == [] {
    } else {
      GetsStep(schedule);
      NamesOfGets(schedule[1..]);
      OneAsk(Get(schedule[0]));
      NamesAskedConcat([Get(schedule[0])], Gets(schedule[1..]));
    }
  }

  // ---------- What is ordered ----------

  /** An order to write a level to a channel. */
  datatype Order = Order(name: Name, lvl: int)

  /** What a call of a setter orders, judged by its arguments: nothing, if it is checked and not from 0 to 8. */
  function Ordered(channel: Name, lvl: int, checked: bool): Option<Order> {
    if checked && (lvl < 0 || 8 < lvl) then None else Some(Order(Truncate(channel), lvl))
  }

  /**
   The orders of a run of moves. It follows the get-or-creates only to see whether a call is accepted and
   whether it got a logger: `open` are the orders of calls under way, `due` those that wait for their
   write, `last` the level of the last write that came, by name.
   */
  datatype Book = Book(base: System, open: map<Tid, Order>, due: map<Tid, Order>, last: map<Name, int>)

  /** A request of thread `t` in the base: an order whose call ends with a logger is due. */
  function Follow(b: Book, a: Action): Book {
    var base := Step(b.base, a);
    if a.t in b.base.threads && a.t !in base.threads && a.t in b.open then
      var granted := base.log != [] && !base.log[|base.log| - 1].result.NoLogger?;
      Book(base, b.open - {a.t}, if granted then b.due[a.t := b.open[a.t]] else b.due, b.last)
    else b.(base := base)
  }

  function Enter(b: Book, move: Move): Book {
    match move
    case CallSet(t, channel, lvl, checked) =>
      if t in b.due || t in b.base.threads then b
      else
        var order := Ordered(channel, lvl, checked);
        Book(Step(b.base, Call(t, channel)), if order.Some? then b.open[t := order.value] else b.open, b.due, b.last)
    case Get(a) => if a.t in b.due then b else Follow(b, a)
    case WriteLevel(t) =>
      if t in b.due then b.(due := b.due - {t}, last := b.last[b.due[t].name := b.due[t].lvl]) else b
  }

  function Entries(b: Book, moves: seq<Move>): Book
    decreases |moves|
  {
    if moves == [] then b else Entries(Enter(b, moves[0]), moves[1..])
  }

  /** No order yet. */
  function Opened(base: System): Book {
    Book(base, map[], map[], map[])
  }

  /** The level that a channel is to have by the book: the last one written for its name, or debug, which is 7. */
  function LastOf(last: map<Name, int>, name: Name): int {
    if name in last then last[name] else 7
  }

  predicate Writes(want: Want) {
    want.checked ==> InRange(want.lvl)
  }

  /** The setters under way are the orders of the book. */
  ghost predicate Agrees(m: Manager, b: Book) {
    && m.base == b.base
    && (forall t :: t in m.wants ==> t in m.base.threads)
    && (forall t :: t in b.open <==> t in m.wants && Writes(m.wants[t]))
    && (forall t :: t in b.open ==> b.open[t] == Order(m.base.threads[t].name, m.wants[t].lvl))
    && m.stores.Keys == b.due.Keys
    && (forall t :: t in b.due ==> b.due[t] == Order(m.stores[t].name, m.stores[t].lvl))
  }

  lemma LeavingLogs(s: System, a: Action)
    requires a.t in s.threads && a.t !in Step(s, a).threads
    ensures |Step(s, a).log| == |s.log| + 1
    ensures Step(s, a).log[|s.log|].t == a.t && Step(s, a).log[|s.log|].name == s.threads[a.t].name
  {
    hide Home, Chain, Lookup, TailSlot, NewTail, Truncate, Reread, StoreHeads, StoreLinks;
  }

  /** Only the thread of a step comes or goes, and it keeps its name. */
  lemma StepKeepsThreads(s: System, a: Action)
    ensures forall t :: t != a.t ==> (t in Step(s, a).threads <==> t in s.threads)
    ensures forall t :: t in s.threads && t in Step(s, a).threads ==> Step(s, a).threads[t].name == s.threads[t].name
  {
    hide Home, Chain, Lookup, TailSlot, NewTail, Truncate, Reread, StoreHeads, StoreLinks;
  }

  /** A step after which its thread is still inside, or was not inside before, touches no order. */
  lemma StayAgrees(m: Manager, b: Book, a: Action, levels: seq<int>)
    requires Agrees(m, b) && !(a.t in m.base.threads && a.t !in Step(m.base, a).threads)
    ensures Agrees(m.(base := Step(m.base, a), levels := levels), b.(base := Step(m.base, a)))
  {
    hide Step;
    StepKeepsThreads(m.base, a);
  }

  /** A thread that leaves takes its order along. */
  lemma LeaveAgrees(m: Manager, b: Book, a: Action, levels: seq<int>, st: Store, granted: bool)
    requires Agrees(m, b) && a.t in m.wants && a.t in m.base.threads && a.t !in Step(m.base, a).threads && a.t !in b.due
    requires st.name == m.base.threads[a.t].name && st.lvl == m.wants[a.t].lvl
    ensures var base, writes := Step(m.base, a), granted && Writes(m.wants[a.t]);
            Agrees(Manager(base, levels, m.wants - {a.t}, if writes then m.stores[a.t := st] else m.stores),
                   Book(base, b.open - {a.t},
                        if writes then b.due[a.t := Order(st.name, st.lvl)] else b.due, b.last))
  {
    hide Step;
    StepKeepsThreads(m.base, a);
  }

  lemma PartAgrees(m: Manager, b: Book, a: Action)
    requires Agrees(m, b) && a.t !in b.due
    ensures Agrees(AfterPart(m, a), Follow(b, a)) && Follow(b, a).last == b.last
  {
    hide Step, Agrees, Grown;
    AgreesBase(m, b, a.t);
    var base := Step(m.base, a);
    var levels := Grown(m.levels, |base.sh.names|);
    if a.t in m.base.threads && a.t !in base.threads {
      LeavingLogs(m.base, a);
      var entry := base.log[|base.log| - 1];
      if a.t in m.wants {
        LeaveAgrees(m, b, a, levels, Store(entry.name, entry.result, m.wants[a.t].lvl), !entry.result.NoLogger?);
        assert a.t !in b.open ==> b.open - {a.t} == b.open;
      } else {
        OutsiderAgrees(m, b, a, levels);
      }
    } else {
      StayAgrees(m, b, a, levels);
    }
  }

  lemma OutsiderAgrees(m: Manager, b: Book, a: Action, levels: seq<int>)
    requires Agrees(m, b) && a.t !in m.wants
    ensures Agrees(m.(base := Step(m.base, a), levels := levels), b.(base := Step(m.base, a)))
  {
    hide Step;
    StepKeepsThreads(m.base, a);
  }

  lemma AgreesBase(m: Manager, b: Book, t: Tid)
    requires Agrees(m, b)
    ensures m.base == b.base && (t in b.due <==> t in m.stores) && (t in b.open <==> t in m.wants && Writes(m.wants[t]))
    ensures t in b.open ==> t in m.base.threads && b.open[t] == Order(m.base.threads[t].name, m.wants[t].lvl)
  {
  }

  /** A thread that comes in brings its order. */
  lemma EnterAgrees(m: Manager, b: Book, base: System, levels: seq<int>, t: Tid, name: Name, want: Want)
    requires Agrees(m, b) && t !in m.base.threads
    requires base.threads == m.base.threads[t := AtStart(name)]
    ensures Agrees(Manager(base, levels, m.wants[t := want], m.stores),
                   Book(base, if Writes(want) then b.open[t := Order(name, want.lvl)] else b.open, b.due, b.last))
  {
  }

  lemma CallAgrees(m: Manager, b: Book, t: Tid, channel: Name, lvl: int, checked: bool, c0: nat)
    requires Agrees(m, b) && Inv(m.base, c0)
    ensures var move := CallSet(t, channel, lvl, checked);
            Agrees(Next(m, move), Enter(b, move)) && Enter(b, move).last == b.last
  {
    hide Truncate, Inv, Step, Grown, Agrees;
    AgreesBase(m, b, t);
    if t !in m.stores && t !in m.base.threads {
      Basics(m.base, c0);
      CallEnters(m.base, t, channel);
      var base := Step(m.base, Call(t, channel));
      EnterAgrees(m, b, base, Grown(m.levels, |base.sh.names|), t, Truncate(channel), Want(lvl, checked));
    }
  }

  lemma CallEnters(s: System, t: Tid, channel: Name)
    requires t !in s.threads && |s.sh.heads| > 0
    ensures Step(s, Call(t, channel)).threads == s.threads[t := AtStart(Truncate(channel))]
  {
    hide Truncate;
  }

  lemma WriteAgrees(m: Manager, b: Book, t: Tid)
    requires Agrees(m, b)
    ensures Agrees(Next(m, WriteLevel(t)), Enter(b, WriteLevel(t)))
    ensures Enter(b, WriteLevel(t)).last ==
            if t in m.stores then b.last[m.stores[t].name := m.stores[t].lvl] else b.last
  {
  }

  /** Each move does to the setters what it does to the book. */
  lemma NextAgrees(m: Manager, b: Book, move: Move, c0: nat)
    requires Agrees(m, b) && Inv(m.base, c0)
    ensures Agrees(Next(m, move), Enter(b, move))
    ensures Enter(b, move).last ==
            if move.WriteLevel? && move.t in m.stores then b.last[m.stores[move.t].name := m.stores[move.t].lvl]
            else b.last
  {
    hide Agrees, Inv, AfterPart, Follow;
    match move
    case CallSet(t, channel, lvl, checked) => CallAgrees(m, b, t, channel, lvl, checked, c0);
    case Get(a) =>
      AgreesBase(m, b, a.t);
      if a.t !in b.due {
        PartAgrees(m, b, a);
      }
    case WriteLevel(t) => WriteAgrees(m, b, t);
  }

  // ---------- All setters of a run ----------

  /**
   Every channel is at the level last written for its name, and every write that is due will be the one
   that its call ordered, to the channel of that order.
   */
  ghost predicate Settled(m: Manager, b: Book) {
    var names := m.base.sh.names;
    && Sound(m, b.last)
    && m.stores.Keys == b.due.Keys
    && forall t :: t in m.stores ==> m.stores[t].lvl == b.due[t].lvl && names[m.stores[t].result.id] == b.due[t].name
  }

  /** Every channel is at the level last written for it, and every write that is due goes to the name asked for. */
  ghost predicate Sound(m: Manager, last: map<Name, int>) {
    var names := m.base.sh.names;
    && |m.levels| == |names|
    && (forall id :: 0 <= id < |names| ==> m.levels[id] == LastOf(last, names[id]))
    && (forall name :: name in last ==> name in names)
    && forall t :: t in m.stores ==>
         var st := m.stores[t];
         st.result.Logger? && st.result.id < |names| && names[st.result.id] == st.name
  }

  lemma SoundIsSettled(m: Manager, b: Book)
    requires Agrees(m, b)
    ensures Settled(m, b) <==> Sound(m, b.last)
  {
  }

  lemma GrowthKeepsSound(m: Manager, last: map<Name, int>, base: System)
    requires Sound(m, last) && m.base.sh.names <= base.sh.names && Distinct(base.sh.names)
    ensures Sound(m.(base := base, levels := Grown(m.levels, |base.sh.names|)), last)
  {
    var names, longer := m.base.sh.names, base.sh.names;
    forall id | 0 <= id < |names| ensures longer[id] == names[id] {}
    forall id | |names| <= id < |longer| ensures longer[id] !in last {}
  }

  lemma StoreKeepsSound(m: Manager, last: map<Name, int>, t: Tid, st: Store, wants: map<Tid, Want>)
    requires Sound(m, last) && Truthful(m.base.sh.names, Entry(t, st.name, st.result))
    ensures !st.result.NoLogger? ==> Sound(m.(wants := wants, stores := m.stores[t := st]), last)
    ensures Sound(m.(wants := wants), last)
  {
  }

  lemma PartKeepsSound(m: Manager, last: map<Name, int>, a: Action, c0: nat)
    requires Inv(m.base, c0) && Sound(m, last) && CleanStep(m.base, a)
    ensures Sound(AfterPart(m, a), last)
  {
    hide Inv, Step, CleanStep, Sound, Truthful, Grown;
    StepKeepsPolicy(m.base, a);
    StepTruth(m.base, a, c0);
    StepKeepsInv(m.base, a, c0);
    var base := Step(m.base, a);
    InvLog(base, c0);
    GrowthKeepsSound(m, last, base);
    var n := m.(base := base, levels := Grown(m.levels, |base.sh.names|));
    if a.t in m.base.threads && a.t !in base.threads && a.t in m.wants {
      LeavingLogs(m.base, a);
      var entry := base.log[|base.log| - 1];
      assert entry == Entry(a.t, entry.name, entry.result);
      StoreKeepsSound(n, last, a.t, Store(entry.name, entry.result, m.wants[a.t].lvl), m.wants - {a.t});
    }
  }

  lemma WriteKeepsSound(m: Manager, last: map<Name, int>, t: Tid)
    requires Sound(m, last) && Distinct(m.base.sh.names) && t in m.stores
    ensures Sound(Next(m, WriteLevel(t)), last[m.stores[t].name := m.stores[t].lvl])
  {
  }

  lemma WantsKeepSound(m: Manager, last: map<Name, int>, wants: map<Tid, Want>)
    requires Sound(m, last)
    ensures Sound(m.(wants := wants), last)
  {
  }

  lemma NextKeepsSound(m: Manager, b: Book, move: Move, c0: nat)
    requires Inv(m.base, c0) && Agrees(m, b) && Sound(m, b.last)
    requires Part(m, move).Some? ==> CleanStep(m.base, Part(m, move).value)
    ensures Sound(Next(m, move), Enter(b, move).last) && Inv(Next(m, move).base, c0)
  {
    hide Inv, Step, CleanStep, AfterPart, Sound, Agrees, Enter;
    InvLog(m.base, c0);
    NextBase(m, move);
    NextAgrees(m, b, move, c0);
    if Part(m, move).Some? {
      StepKeepsInv(m.base, Part(m, move).value, c0);
      PartKeepsSound(m, b.last, Part(m, move).value, c0);
    }
    match move
    case WriteLevel(t) =>
      if t in m.stores {
        WriteKeepsSound(m, b.last, t);
      }
    case CallSet(t, channel, lvl, checked) =>
      if t !in m.stores {
        var n := AfterPart(m, Call(t, channel));
        WantsKeepSound(n, b.last, n.wants[t := Want(lvl, checked)]);
      }
    case Get(a) =>
  }

  lemma CleanFirst(s: System, a: Action, rest: seq<Action>)
    ensures CleanRun(s, [a] + rest) <==> CleanStep(s, a) && CleanRun(Step(s, a), rest)
  {
    hide Step, CleanStep;
    assert ([a] + rest)[1..] == rest;
  }

  lemma {:induction false} MovesAgree(m: Manager, b: Book, moves: seq<Move>, c0: nat)
    requires Inv(m.base, c0) && Agrees(m, b)
    ensures Agrees(Moves(m, moves), Entries(b, moves)) && Inv(Moves(m, moves).base, c0)
    decreases |moves|
  {
    hide Inv, Step, Next, Part, Agrees, Enter;
    if moves == [] {
    } else {
      NextBase(m, moves[0]);
      if Part(m, moves[0]).Some? {
        StepKeepsInv(m.base, Part(m, moves[0]).value, c0);
      }
      NextAgrees(m, b, moves[0], c0);
      MovesAgree(Next(m, moves[0]), Enter(b, moves[0]), moves[1..], c0);
    }
  }

  lemma {:induction false} MovesKeepSound(m: Manager, b: Book, moves: seq<Move>, c0: nat)
    requires Inv(m.base, c0) && Agrees(m, b) && Sound(m, b.last) && CleanRun(m.base, Parts(m, moves))
    ensures Sound(Moves(m, moves), Entries(b, moves).last)
    decreases |moves|
  {
    hide Inv, Step, CleanStep, CleanRun, Next, Part, Sound, Agrees, Enter;
    if moves == [] {
    } else {
      var n, rest := Next(m, moves[0]), Parts(Next(m, moves[0]), moves[1..]);
      NextBase(m, moves[0]);
      if Part(m, moves[0]).Some? {
        CleanFirst(m.base, Part(m, moves[0]).value, rest);
      } else {
        assert [] + rest == rest;
      }
      NextAgrees(m, b, moves[0], c0);
      NextKeepsSound(m, b, moves[0], c0);
      MovesKeepSound(n, Enter(b, moves[0]), moves[1..], c0);
    }
  }

  lemma StartedAgrees(base: System)
    ensures Agrees(Started(base), Opened(base)) && Sound(Started(base), map[])
  {
  }

  /**
   In every run whose late reads are clean, each channel is at the level that the book of the orders has
   last for its name, or at debug.
   */
  lemma CleanSettersAreRight(base: System, moves: seq<Move>, c0: nat)
    requires Inv(base, c0) && CleanRun(base, Parts(Started(base), moves))
    ensures Settled(Moves(Started(base), moves), Entries(Opened(base), moves))
  {
    hide Inv, CleanRun, Moves, Parts, Entries, Agrees, Sound, Settled;
    StartedAgrees(base);
    MovesAgree(Started(base), Opened(base), moves, c0);
    MovesKeepSound(Started(base), Opened(base), moves, c0);
    SoundIsSettled(Moves(Started(base), moves), Entries(Opened(base), moves));
  }

  /**
   Under the fixed policy, whatever the schedule, each channel is at the level that the book has last for
   its name, or at debug, and no setter writes to another channel.
   */
  lemma FixedSettersAreRight(c0: nat, moves: seq<Move>)
    requires c0 > 0
    ensures var start := Start(Registry.FixedSize, c0);
            Settled(Moves(Started(start), moves), Entries(Opened(start), moves))
  {
    hide Inv, CleanRun, Moves, Parts, Settled;
    var start := Start(Registry.FixedSize, c0);
    StartInv(Registry.FixedSize, c0);
    FixedRunsAreClean(start, Parts(Started(start), moves), c0);
    CleanSettersAreRight(start, moves, c0);
  }

  // ---------- A setter that is stranded ----------

  /** Nobody will write a level but thread 0, which is inside its get-or-create. */
  ghost predicate OnlyZeroWants(m: Manager) {
    m.stores == map[] && 0 in m.wants && Writes(m.wants[0]) && forall t :: t in m.wants ==> t == 0
  }

  function Gets(schedule: seq<Action>): seq<Move> {
    seq(|schedule|, k requires 0 <= k < |schedule| => Get(schedule[k]))
  }

  lemma GetsStep(schedule: seq<Action>)
    requires schedule != []
    ensures Gets(schedule) == [Get(schedule[0])] + Gets(schedule[1..])
  {
  }

  lemma GetKeepsZero(m: Manager, a: Action)
    requires OnlyZeroWants(m) && NoEntryOf(Step(m.base, a).log, 0)
    ensures OnlyZeroWants(Next(m, Get(a))) && Next(m, Get(a)).wants == m.wants
    ensures Next(m, Get(a)).base == Step(m.base, a) && Part(m, Get(a)) == Some(a)
  {
    hide Step;
    if a.t in m.base.threads && a.t !in Step(m.base, a).threads {
      LeavingLogs(m.base, a);
    }
  }

  /** As long as thread 0 has not finished its call, plain requests of all threads leave the setters alone. */
  lemma {:induction false} GetsKeepZero(m: Manager, schedule: seq<Action>)
    requires OnlyZeroWants(m) && NoEntryOf(Run(m.base, schedule).log, 0)
    ensures var n := Moves(m, Gets(schedule));
            OnlyZeroWants(n) && n.wants == m.wants && n.base == Run(m.base, schedule)
    ensures Parts(m, Gets(schedule)) == schedule
    decreases |schedule|
  {
    hide Step, Next, Part, OnlyZeroWants;
    if schedule == [] {
    } else {
      var a := schedule[0];
      GetsStep(schedule);
      RunKeepsLog(Step(m.base, a), schedule[1..]);
      GetKeepsZero(m, a);
      GetsKeepZero(Next(m, Get(a)), schedule[1..]);
    }
  }

  lemma {:induction false} RunKeepsLog(s: System, schedule: seq<Action>)
    ensures s.log <= Run(s, schedule).log
    decreases |schedule|
  {
    hide Step;
    if schedule == [] {
    } else {
      StepKeepsPolicy(s, schedule[0]);
      RunKeepsLog(Step(s, schedule[0]), schedule[1..]);
    }
  }

  lemma MovesConcat(m: Manager, first: seq<Move>, rest: seq<Move>)
    ensures Moves(m, first + rest) == Moves(Moves(m, first), rest)
    ensures Parts(m, first + rest) == Parts(m, first) + Parts(Moves(m, first), rest)
    decreases |first|
  {
    hide Next, Part;
    if first == [] {
      assert first + rest == rest;
    } else {
      assert (first + rest)[1..] == first[1..] + rest;
      MovesConcat(Next(m, first[0]), first[1..], rest);
    }
  }

  lemma OneMove(m: Manager, move: Move)
    ensures Moves(m, [move]) == Next(m, move)
    ensures Parts(m, [move]) == if Part(m, move).Some? then [Part(m, move).value] else []
  {
    hide Next, Part;
    assert [move][1..] == [];
  }

  /** The stranded return of a setter leaves a write that is due to the wrong place. */
  lemma StrandedReturn(m: Manager, c0: nat)
    requires OnlyZeroWants(m) && Stranded(m.base, c0)
    ensures Part(m, Get(Return(0))) == Some(Return(0))
    ensures forall b :: !Settled(Next(m, Get(Return(0))), b)
  {
    hide Inv, Stable, Reread;
    var s, p := m.base, m.base.threads[0];
    ReturnTruth(s, 0, c0);
    ReturnInv(s, 0, c0);
    var u := Step(s, Return(0));
    assert u.log[|u.log| - 1] == Entry(0, p.name, Reread(s.sh, p.slot, p.generation));
    var n := Next(m, Get(Return(0)));
    assert n.stores[0] == Store(p.name, Reread(s.sh, p.slot, p.generation), m.wants[0].lvl);
  }

  /** Where a first call can be stranded, a setter that makes it goes wrong. */
  lemma StrandedSetter(start: System, c0: nat, name: Name, middle: seq<Action>, asked: set<Name>)
    returns (moves: seq<Move>)
    requires StrandedBy(start, c0, name, middle, asked)
    ensures NamesAsked(moves) <= asked && forall b :: !Settled(Moves(Started(start), moves), b)
  {
    hide Inv, Run, Stranded, Settled, Truncate, NamesCalled;
    var m := Started(start);
    var set0, return0 := CallSet(0, name, LVL_INFO, false), Get(Return(0));
    var n := Next(m, set0);
    FirstSet(start, name);
    StrandedLog(Run(n.base, middle), c0);
    GetsKeepZero(n, middle);
    var o := Moves(n, Gets(middle));
    StrandedReturn(o, c0);
    moves := [set0] + (Gets(middle) + [return0]);
    MovesConcat(m, [set0], Gets(middle) + [return0]);
    MovesConcat(n, Gets(middle), [return0]);
    OneMove(m, set0);
    OneMove(o, return0);
    NamesAskedConcat([set0], Gets(middle) + [return0]);
    NamesAskedConcat(Gets(middle), [return0]);
    NamesOfGets(middle);
    OneAsk(set0);
    OneAsk(return0);
  }

  lemma FirstSet(start: System, name: Name)
    requires 0 !in start.threads
    ensures var m := Started(start);
            var n := Next(m, CallSet(0, name, LVL_INFO, false));
            && OnlyZeroWants(n) && n.base == Step(start, Call(0, name))
            && Part(m, CallSet(0, name, LVL_INFO, false)) == Some(Call(0, name))
  {
    hide Truncate;
  }

  lemma StrandedLog(s: System, c0: nat)
    requires Stranded(s, c0)
    ensures NoEntryOf(s.log, 0)
  {
  }
}
