/**
 How many buckets the dynamic policy needs, exactly. A program can check the bound when it creates the
 manager: it compares the number of buckets with the stored names that its threads may ask for.
 */
module BucketBounds {
  import opened EnoughBuckets
  import opened LateReads
  import opened Names
  import opened Setters
  import opened Threads
  import opened TooFewBuckets
  import Registry

  /** Every result of every interleaving is right: null, or the logger of the name asked for. */
  ghost predicate AlwaysRight(start: System, asked: set<Name>) {
    forall schedule :: NamesCalled(schedule) <= asked ==> AllTruthful(Run(start, schedule))
  }

  /** In every interleaving each channel is at the level last ordered and written, and writes that are due go right. */
  ghost predicate AlwaysSettled(start: System, asked: set<Name>) {
    forall moves :: NamesAsked(moves) <= asked ==>
      Settled(Moves(Started(start), moves), Entries(Opened(start), moves))
  }

  lemma StrandedIsWrong(start: System, c0: nat, name: Name, middle: seq<Action>, asked: set<Name>)
    requires StrandedBy(start, c0, name, middle, asked)
    ensures !AlwaysRight(start, asked)
  {
    hide Inv, Truncate, NamesCalled;
    var s := Step(start, Call(0, name));
    var v := Run(s, middle);
    StrandedIsUntrue(v, c0);
    Then(s, middle, Return(0));
    RunConcat(start, [Call(0, name)], middle + [Return(0)]);
    NamesCalledConcat([Call(0, name)], middle + [Return(0)]);
    OneName(Call(0, name));
    Then(start, [], Call(0, name));
    assert [] + [Call(0, name)] == [Call(0, name)];
    assert NamesCalled([Call(0, name)] + (middle + [Return(0)])) <= asked;
  }

  lemma StrandedIsUntrue(s: System, c0: nat)
    requires Stranded(s, c0)
    ensures !AllTruthful(Step(s, Return(0)))
  {
    hide Inv, Stable, Reread, Truthful;
    var p := s.threads[0];
    ReturnTruth(s, 0, c0);
    ReturnInv(s, 0, c0);
    var u := Step(s, Return(0));
    assert u.log[|s.log|] == Entry(0, p.name, Reread(s.sh, p.slot, p.generation));
  }

  lemma StrandedIsUnsettled(start: System, c0: nat, name: Name, middle: seq<Action>, asked: set<Name>)
    requires StrandedBy(start, c0, name, middle, asked)
    ensures !AlwaysSettled(start, asked)
  {
    hide StrandedBy, Settled, NamesAsked;
    var moves := StrandedSetter(start, c0, name, middle, asked);
  }

  lemma EnoughIsClean(c0: nat, asked: set<Name>, schedule: seq<Action>)
    requires 0 < c0 && |asked| <= c0 && NamesCalled(schedule) <= asked
    ensures CleanRun(Start(Registry.DynamicSize, c0), schedule)
    ensures AllTruthful(Run(Start(Registry.DynamicSize, c0), schedule))
  {
    hide Run, CleanRun, NamesCalled;
    SubsetSize(NamesCalled(schedule), asked);
    EnoughBucketsAreSafe(c0, schedule);
  }

  /** Without a root channel: a bucket for each name asked for. */
  lemma RightIffEnoughBuckets(c0: nat, asked: set<Name>)
    requires c0 > 0 && forall n :: n in asked ==> Truncate(n) == n
    ensures AlwaysRight(Start(Registry.DynamicSize, c0), asked) <==> |asked| <= c0
  {
    hide Run, NamesCalled, AllTruthful, Truncate, StrandedBy;
    if |asked| <= c0 {
      forall schedule | NamesCalled(schedule) <= asked
        ensures AllTruthful(Run(Start(Registry.DynamicSize, c0), schedule))
      {
        EnoughIsClean(c0, asked, schedule);
      }
    } else {
      var name, middle := StrandWithoutRoot(c0, asked);
      StrandedIsWrong(Start(Registry.DynamicSize, c0), c0, name, middle, asked);
    }
  }

  /**
   With a root channel: a bucket for each name, the root included, where a table of one bucket counts as
   one of two. Its first resize can only meet calls that have registered nothing.
   */
  lemma RightIffEnoughBucketsWithRoot(c0: nat, root: Name, asked: set<Name>)
    requires c0 > 0 && forall n :: n in asked ==> Truncate(n) == n
    ensures AlwaysRight(StartWithRoot(Registry.DynamicSize, c0, root), asked) <==>
            |asked + {Truncate(root)}| <= AtLeastTwo(c0)
  {
    hide Run, NamesCalled, AllTruthful, Truncate, StrandedBy, StartWithRoot;
    if |asked + {Truncate(root)}| <= AtLeastTwo(c0) {
      forall schedule | NamesCalled(schedule) <= asked
        ensures AllTruthful(Run(StartWithRoot(Registry.DynamicSize, c0, root), schedule))
      {
        EnoughBucketsWithRoot(c0, root, asked, schedule);
      }
    } else {
      var name, middle := StrandWithRoot(c0, root, asked);
      StrandedIsWrong(StartWithRoot(Registry.DynamicSize, c0, root), c0, name, middle, asked);
    }
  }

  /** The level setters go wrong exactly when the requests do. */
  lemma SettersRightIffEnoughBuckets(c0: nat, asked: set<Name>)
    requires c0 > 0 && forall n :: n in asked ==> Truncate(n) == n
    ensures AlwaysSettled(Start(Registry.DynamicSize, c0), asked) <==> |asked| <= c0
  {
    hide Inv, CleanRun, NamesCalled, NamesAsked, Settled, Moves, Parts, Entries, Truncate, StrandedBy;
    var start := Start(Registry.DynamicSize, c0);
    if |asked| <= c0 {
      StartInv(Registry.DynamicSize, c0);
      forall moves | NamesAsked(moves) <= asked
        ensures Settled(Moves(Started(start), moves), Entries(Opened(start), moves))
      {
        PartsAskNoMore(Started(start), moves);
        EnoughIsClean(c0, asked, Parts(Started(start), moves));
        CleanSettersAreRight(start, moves, c0);
      }
    } else {
      var name, middle := StrandWithoutRoot(c0, asked);
      StrandedIsUnsettled(start, c0, name, middle, asked);
    }
  }

  lemma SettersRightIffEnoughBucketsWithRoot(c0: nat, root: Name, asked: set<Name>)
    requires c0 > 0 && forall n :: n in asked ==> Truncate(n) == n
    ensures AlwaysSettled(StartWithRoot(Registry.DynamicSize, c0, root), asked) <==>
            |asked + {Truncate(root)}| <= AtLeastTwo(c0)
  {
    hide Inv, CleanRun, NamesCalled, NamesAsked, Settled, Moves, Parts, Entries, Truncate, StrandedBy, StartWithRoot;
    var start := StartWithRoot(Registry.DynamicSize, c0, root);
    if |asked + {Truncate(root)}| <= AtLeastTwo(c0) {
      StartWithRootInv(Registry.DynamicSize, c0, root);
      forall moves | NamesAsked(moves) <= asked
        ensures Settled(Moves(Started(start), moves), Entries(Opened(start), moves))
      {
        PartsAskNoMore(Started(start), moves);
        EnoughBucketsWithRoot(c0, root, asked, Parts(Started(start), moves));
        CleanSettersAreRight(start, moves, c0);
      }
    } else {
      var name, middle := StrandWithRoot(c0, root, asked);
      StrandedIsUnsettled(start, c0, name, middle, asked);
    }
  }
}
