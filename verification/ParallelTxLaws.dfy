/** What `ParallelTxRO` keeps under every interleaving. */
module ParallelTxLaws {
  import opened ParallelTx

  /** Moving one owner changes the sizes of exactly the two stages it moves between. */
  lemma AtPut(owners: map<Owner, Stage>, o: Owner, stage: Stage, s: Stage)
    requires o in owners ==> owners[o] != stage
    ensures |At(owners[o := stage], s)| == |At(owners, s)|
            + (if s == stage then 1 else 0) - (if o in owners && owners[o] == s then 1 else 0)
  {
    var now := owners[o := stage];
    if s == stage {
      assert At(now, s) == At(owners, s) + {o};
    } else if o in owners && owners[o] == s {
      assert At(now, s) == At(owners, s) - {o};
    } else {
      assert At(now, s) == At(owners, s);
    }
  }

  lemma AtGone(owners: map<Owner, Stage>, o: Owner, s: Stage)
    requires o in owners
    ensures |At(owners - {o}, s)| == |At(owners, s)| - if owners[o] == s then 1 else 0
  {
    if owners[o] == s {
      assert At(owners - {o}, s) == At(owners, s) - {o};
    } else {
      assert At(owners - {o}, s) == At(owners, s);
    }
  }

  /** A stage that names an index beyond the table is nobody's. */
  lemma NobodyBeyond(maxTxs: nat, st: State, tx: TxId)
    requires Conserved(maxTxs, st)
    ensures At(st.owners, Holding(Aux(|st.txs|, tx))) == {}
  {
    forall o | o in st.owners
      ensures st.owners[o] != Holding(Aux(|st.txs|, tx))
    {
      assert LeaseNamed(st, st.owners[o]);
    }
  }

  lemma PutConserves(maxTxs: nat, st: State, o: Owner, stage: Stage, now: State)
    requires Conserved(maxTxs, st) && (o in st.owners ==> st.owners[o] != stage && !st.owners[o].Holding?)
    requires now.owners == st.owners[o := stage]
    requires now.firstHeld == st.firstHeld + if stage == Holding(First) then 1 else 0
    requires |now.txs| == |st.txs| || (|now.txs| == |st.txs| + 1 && stage == Holding(Aux(|st.txs|, now.txs[|st.txs|].tx)))
    requires forall i :: 0 <= i < |st.txs| ==>
               now.txs[i] == st.txs[i].(held := st.txs[i].held + if stage == Holding(Aux(i, st.txs[i].tx)) then 1 else 0)
    requires |now.txs| > |st.txs| ==> now.txs[|st.txs|].held == 1 && forall w :: w in st.txs ==> w.tx != now.txs[|st.txs|].tx
    requires LeaseNamed(now, stage)
    requires now.numTxs == st.numTxs + (if stage == Creating then 1 else 0)
             + (|now.txs| - |st.txs|) - (if o in st.owners && st.owners[o] == Creating then 1 else 0)
    requires now.numTxs <= maxTxs
    ensures Conserved(maxTxs, now)
  {
    AtPut(st.owners, o, stage, Holding(First));
    AtPut(st.owners, o, stage, Creating);
    forall i | 0 <= i < |now.txs|
      ensures Counted(now, i)
    {
      AtPut(st.owners, o, stage, Holding(Aux(i, now.txs[i].tx)));
      if i < |st.txs| {
        assert Counted(st, i);
      } else {
        NobodyBeyond(maxTxs, st, now.txs[i].tx);
      }
    }
    forall p | p in now.owners
      ensures LeaseNamed(now, now.owners[p])
    {
      if p != o {
        assert LeaseNamed(st, st.owners[p]);
      }
    }
  }

  lemma ReleaseConserves(maxTxs: nat, st: State, o: Owner)
    requires Conserved(maxTxs, st) && Enabled(st, Release(o))
    ensures Apply(maxTxs, st, Release(o)).Done? && Conserved(maxTxs, Apply(maxTxs, st, Release(o)).state)
  {
    LeaseIsCounted(maxTxs, st, o);
    var now := Apply(maxTxs, st, Release(o)).state;
    AtGone(st.owners, o, Holding(First));
    AtGone(st.owners, o, Creating);
    forall i | 0 <= i < |now.txs|
      ensures Counted(now, i)
    {
      AtGone(st.owners, o, Holding(Aux(i, now.txs[i].tx)));
      assert Counted(st, i);
    }
    forall p | p in now.owners
      ensures LeaseNamed(now, now.owners[p])
    {
      assert LeaseNamed(st, st.owners[p]);
    }
  }

  lemma CreateFailedConserves(maxTxs: nat, st: State, o: Owner)
    requires Conserved(maxTxs, st) && Enabled(st, CreateFailed(o))
    ensures Apply(maxTxs, st, CreateFailed(o)).Done? && Conserved(maxTxs, Apply(maxTxs, st, CreateFailed(o)).state)
  {
    var now := Apply(maxTxs, st, CreateFailed(o)).state;
    AtGone(st.owners, o, Holding(First));
    AtGone(st.owners, o, Creating);
    forall i | 0 <= i < |now.txs|
      ensures Counted(now, i)
    {
      AtGone(st.owners, o, Holding(Aux(i, now.txs[i].tx)));
      assert Counted(st, i);
    }
    forall p | p in now.owners
      ensures LeaseNamed(now, now.owners[p])
    {
      assert LeaseNamed(st, st.owners[p]);
    }
  }

  lemma BecomeCursorConserves(maxTxs: nat, st: State, o: Owner, c: Owner)
    requires Conserved(maxTxs, st) && Enabled(st, BecomeCursor(o, c))
    ensures Conserved(maxTxs, Apply(maxTxs, st, BecomeCursor(o, c)).state)
  {
    var now := Apply(maxTxs, st, BecomeCursor(o, c)).state;
    var stage := st.owners[o];
    forall s
      ensures |At(now.owners, s)| == |At(st.owners, s)|
    {
      AtGone(st.owners, o, s);
      AtPut(st.owners - {o}, c, stage, s);
    }
    forall i | 0 <= i < |now.txs|
      ensures Counted(now, i)
    {
      assert Counted(st, i);
    }
    forall p | p in now.owners
      ensures LeaseNamed(now, now.owners[p])
    {
      assert LeaseNamed(st, st.owners[if p == c then o else p]);
    }
  }

  lemma ChooseConserves(maxTxs: nat, st: State, o: Owner)
    requires Conserved(maxTxs, st) && Enabled(st, Choose(o))
    ensures Conserved(maxTxs, Apply(maxTxs, st, Choose(o)).state)
  {
    hide Counted, LeaseNamed, At;
    var now := Apply(maxTxs, st, Choose(o)).state;
    PutConserves(maxTxs, st, o, now.owners[o], now);
  }

  /** One action of one thread: counts stay exact and no decrement underflows. */
  lemma StepConserves(maxTxs: nat, st: State, a: Action)
    requires Conserved(maxTxs, st) && Enabled(st, a)
    ensures Apply(maxTxs, st, a).Done? && Conserved(maxTxs, Apply(maxTxs, st, a).state)
  {
    hide Decide;
    match a
    case Enter(o) =>
      PutConserves(maxTxs, st, o, if st.firstHeld == 0 then Holding(First) else Waiting, Apply(maxTxs, st, a).state);
    case Choose(o) => ChooseConserves(maxTxs, st, o);
    case CreateDone(o, tx) =>
      PutConserves(maxTxs, st, o, Holding(Aux(|st.txs|, tx)), Apply(maxTxs, st, a).state);
    case CreateFailed(o) => CreateFailedConserves(maxTxs, st, o);
    case CountFirst(o) => PutConserves(maxTxs, st, o, Holding(First), Apply(maxTxs, st, a).state);
    case BecomeCursor(o, c) => BecomeCursorConserves(maxTxs, st, o, c);
    case Release(o) => ReleaseConserves(maxTxs, st, o);
  }

  /** Deciding for a transaction while all slots are taken and every auxiliary one is held. */
  predicate Crowds(maxTxs: nat, st: State, a: Action) {
    a.Choose? && st.numTxs >= maxTxs && forall w :: w in st.txs ==> w.held > 0
  }

  /** Exactly when sharing begins. */
  lemma SharingBegins(maxTxs: nat, st: State, a: Action)
    requires Conserved(maxTxs, st) && Unshared(st) && Apply(maxTxs, st, a).Done?
    ensures Unshared(Apply(maxTxs, st, a).state) <==> !Crowds(maxTxs, st, a)
  {
    var now := Apply(maxTxs, st, a).state;
    assert forall o :: o in st.owners ==> (st.owners[o] == TakingFirst <==> o in At(st.owners, TakingFirst));
    assert a.CountFirst? ==> a.o in At(st.owners, TakingFirst);
    if a.Choose? {
      ChooseShares(maxTxs, st, a.o);
    }
  }

  lemma ChooseShares(maxTxs: nat, st: State, o: Owner)
    requires Conserved(maxTxs, st) && Unshared(st) && Enabled(st, Choose(o))
    ensures Unshared(Apply(maxTxs, st, Choose(o)).state) <==> !Crowds(maxTxs, st, Choose(o))
  {
    var now := Apply(maxTxs, st, Choose(o)).state;
    assert now.owners[o] == TakingFirst ==> o in At(now.owners, TakingFirst);
    assert forall p :: p in At(now.owners, TakingFirst) ==> p == o || p in At(st.owners, TakingFirst);
    if st.txs == [] {
    } else {
      var i := LeastHeld(st.txs);
      assert st.txs[i] in st.txs;
      assert Crowds(maxTxs, st, Choose(o)) <==> st.numTxs >= maxTxs && st.txs[i].held > 0;
      if st.txs[i].held > 0 && st.numTxs < maxTxs {
        assert now.txs == st.txs && now.owners[o] == Creating;
      } else if st.firstHeld >= st.txs[i].held {
        assert now.txs[i].held == st.txs[i].held + 1 && now.owners[o].Holding?;
      } else {
        assert now.owners[o] == TakingFirst;
      }
    }
  }

  /**
   Under every interleaving of any number of threads, with creations that may fail: no
   decrement underflows, no index is out of the table, the counts are the outstanding
   leases, and at most `maxTxs` slots are taken.
   */
  lemma {:induction false} EveryInterleaving(maxTxs: nat, actions: seq<Action>)
    requires maxTxs >= 1
    ensures match After(maxTxs, actions)
            case Done(st) => Conserved(maxTxs, st)
            case NotEnabled => true
            case _ => false
  {
    if actions == [] {
      assert At(map[], Holding(First)) == At(map[], Creating) == {};
    } else {
      var init, last := actions[..|actions| - 1], actions[|actions| - 1];
      EveryInterleaving(maxTxs, init);
      if After(maxTxs, init).Done? && Enabled(After(maxTxs, init).state, last) {
        StepConserves(maxTxs, After(maxTxs, init).state, last);
      }
    }
  }

  // ----- sharing -----

  /** After the first `i` actions something is shared. */
  ghost predicate SharedAt(maxTxs: nat, actions: seq<Action>, i: nat) {
    i <= |actions| && After(maxTxs, actions[..i]).Done? && !Unshared(After(maxTxs, actions[..i]).state)
  }

  /** Action number `i` decides in a crowd. */
  ghost predicate CrowdsAt(maxTxs: nat, actions: seq<Action>, i: nat) {
    i < |actions| && After(maxTxs, actions[..i]).Done? && Enabled(After(maxTxs, actions[..i]).state, actions[i]) &&
    Crowds(maxTxs, After(maxTxs, actions[..i]).state, actions[i])
  }

  lemma NextAction(maxTxs: nat, actions: seq<Action>, i: nat)
    requires i < |actions|
    ensures After(maxTxs, actions[..i + 1]) ==
            if After(maxTxs, actions[..i]).Done? then Apply(maxTxs, After(maxTxs, actions[..i]).state, actions[i])
            else After(maxTxs, actions[..i])
  {
    assert actions[..i + 1] == actions[..i] + [actions[i]];
    AfterSnoc(maxTxs, actions[..i], actions[i]);
  }

  lemma {:induction false} SharedFrom(maxTxs: nat, actions: seq<Action>, n: nat)
    requires maxTxs >= 1 && SharedAt(maxTxs, actions, n)
    ensures exists i: nat :: i < n && CrowdsAt(maxTxs, actions, i)
  {
    hide After, Apply, Unshared, Crowds;
    if n == 0 {
      assert actions[..0] == [];
      StartsUnshared(maxTxs);
    } else {
      var i := n - 1;
      NextAction(maxTxs, actions, i);
      if SharedAt(maxTxs, actions, i) {
        SharedFrom(maxTxs, actions, i);
      } else {
        EveryInterleaving(maxTxs, actions[..i]);
        DoneIsEnabled(maxTxs, After(maxTxs, actions[..i]).state, actions[i]);
        SharingBegins(maxTxs, After(maxTxs, actions[..i]).state, actions[i]);
        assert CrowdsAt(maxTxs, actions, i);
      }
    }
  }

  lemma DoneIsEnabled(maxTxs: nat, st: State, a: Action)
    requires Apply(maxTxs, st, a).Done?
    ensures Enabled(st, a)
  {
  }

  lemma StartsUnshared(maxTxs: nat)
    ensures After(maxTxs, []) == Done(INITIAL) && Unshared(INITIAL)
  {
    assert At(map[], TakingFirst) == {};
  }

  /** Exactly which runs share: those in which some call decides in a crowd. */
  lemma SharesExactly(maxTxs: nat, actions: seq<Action>)
    requires maxTxs >= 1
    ensures (exists i :: SharedAt(maxTxs, actions, i)) <==> exists i :: CrowdsAt(maxTxs, actions, i)
  {
    hide After, Unshared, Crowds;
    if i: nat :| SharedAt(maxTxs, actions, i) {
      SharedFrom(maxTxs, actions, i);
    }
    if i: nat :| CrowdsAt(maxTxs, actions, i) {
      NextAction(maxTxs, actions, i);
      EveryInterleaving(maxTxs, actions[..i]);
      var st := After(maxTxs, actions[..i]).state;
      StepConserves(maxTxs, st, actions[i]);
      if Unshared(st) {
        SharingBegins(maxTxs, st, actions[i]);
        assert SharedAt(maxTxs, actions, i + 1);
      } else {
        assert SharedAt(maxTxs, actions, i);
      }
    }
  }

  /** Before the last action of `actions`, a slot was free all the time. */
  ghost predicate NeverFull(maxTxs: nat, actions: seq<Action>) {
    forall i :: 0 <= i < |actions| && After(maxTxs, actions[..i]).Done? ==> After(maxTxs, actions[..i]).state.numTxs < maxTxs
  }

  /** No sharing before saturation: while a slot has been free all the time nothing is shared, even if creations fail. */
  lemma NeverFullUnshared(maxTxs: nat, actions: seq<Action>)
    requires maxTxs >= 1 && NeverFull(maxTxs, actions) && After(maxTxs, actions).Done?
    ensures Unshared(After(maxTxs, actions).state)
  {
    hide After, Unshared;
    assert actions[..|actions|] == actions;
    assert forall i :: !CrowdsAt(maxTxs, actions, i);
    SharesExactly(maxTxs, actions);
    assert !SharedAt(maxTxs, actions, |actions|);
  }

  lemma SlotsGrow(maxTxs: nat, st: State, a: Action)
    requires Apply(maxTxs, st, a).Done?
    ensures var now := Apply(maxTxs, st, a).state;
            now.failures >= st.failures && (now.failures == 0 ==> now.numTxs >= st.numTxs)
  {
  }

  lemma {:induction false} FailureFreeNeverFull(maxTxs: nat, actions: seq<Action>)
    requires After(maxTxs, actions).Done?
    requires After(maxTxs, actions).state.failures == 0 && After(maxTxs, actions).state.numTxs < maxTxs
    ensures NeverFull(maxTxs, actions)
  {
    hide Apply;
    if actions == [] {
    } else {
      var n := |actions| - 1;
      var init := actions[..n];
      SlotsGrow(maxTxs, After(maxTxs, init).state, actions[n]);
      FailureFreeNeverFull(maxTxs, init);
      assert forall i :: 0 <= i < n ==> init[..i] == actions[..i];
    }
  }

  /** ... so without failed creations nothing is shared as long as a slot is free. */
  lemma FailureFreeUnshared(maxTxs: nat, actions: seq<Action>)
    requires maxTxs >= 1 && After(maxTxs, actions).Done?
    requires After(maxTxs, actions).state.failures == 0 && After(maxTxs, actions).state.numTxs < maxTxs
    ensures Unshared(After(maxTxs, actions).state)
  {
    FailureFreeNeverFull(maxTxs, actions);
    NeverFullUnshared(maxTxs, actions);
  }

  /**
   An action moves its own owner and nobody else. A lease begins with the fast path, the
   decision, the creation or the count, passes from the call to its cursor as it is, and
   ends with a release and nothing else.
   */
  lemma MovesItsOwner(maxTxs: nat, st: State, a: Action)
    requires Apply(maxTxs, st, a).Done?
    ensures var now := Apply(maxTxs, st, a).state;
            && (forall x :: x != a.o && !(a.BecomeCursor? && x == a.cursor) ==>
                              (x in now.owners <==> x in st.owners) && (x in st.owners ==> now.owners[x] == st.owners[x]))
            && (a.o !in now.owners <==> a.Release? || a.CreateFailed? || a.BecomeCursor?)
            && match a
               case Enter(o) => now.owners[o] == if st.firstHeld == 0 then Holding(First) else Waiting
               case Choose(o) => now.owners[o] != Waiting
               case CreateDone(o, tx) => now.owners[o] == Holding(Aux(|st.txs|, tx)) && now.txs == st.txs + [WrappedTx(tx, 1)]
               case CountFirst(o) => now.owners[o] == Holding(First)
               case BecomeCursor(o, c) => c in now.owners && now.owners[c] == st.owners[o] && now.txs == st.txs
               case _ => true
  {
  }

  /** `now` extends the table `before`. */
  ghost predicate Extends(before: seq<WrappedTx>, now: seq<WrappedTx>) {
    |before| <= |now| && forall i :: 0 <= i < |before| ==> now[i].tx == before[i].tx
  }

  lemma StepExtends(maxTxs: nat, st: State, a: Action)
    requires Apply(maxTxs, st, a).Done?
    ensures Extends(st.txs, Apply(maxTxs, st, a).state.txs)
  {
  }

  lemma AfterSnoc(maxTxs: nat, actions: seq<Action>, a: Action)
    ensures After(maxTxs, actions + [a]) ==
            if After(maxTxs, actions).Done? then Apply(maxTxs, After(maxTxs, actions).state, a) else After(maxTxs, actions)
  {
    assert (actions + [a])[..|actions + [a]| - 1] == actions;
  }

  /** The table only grows, so an index names the same transaction for ever. */
  lemma {:induction false} IndexStable(maxTxs: nat, actions: seq<Action>, more: seq<Action>)
    requires After(maxTxs, actions).Done? && After(maxTxs, actions + more).Done?
    ensures Extends(After(maxTxs, actions).state.txs, After(maxTxs, actions + more).state.txs)
  {
    hide Apply, After;
    if more == [] {
      assert actions + more == actions;
    } else {
      var init, last := more[..|more| - 1], more[|more| - 1];
      assert actions + init + [last] == actions + more;
      AfterSnoc(maxTxs, actions + init, last);
      IndexStable(maxTxs, actions, init);
      StepExtends(maxTxs, After(maxTxs, actions + init).state, last);
    }
  }

  /** Where the decision leads: to the least loaded transaction of all, or to a new one while a slot is free. */
  lemma ChoosesLeastLoaded(maxTxs: nat, st: State, o: Owner)
    requires Enabled(st, Choose(o))
    ensures match Apply(maxTxs, st, Choose(o)).state.owners[o]
            case Holding(Aux(i, tx)) =>
              i < |st.txs| && tx == st.txs[i].tx && st.txs[i].held <= st.firstHeld &&
              (forall j :: 0 <= j < |st.txs| ==> st.txs[i].held <= st.txs[j].held) &&
              (st.numTxs < maxTxs ==> st.txs[i].held == 0)
            case TakingFirst => st.numTxs >= maxTxs && forall j :: 0 <= j < |st.txs| ==> st.firstHeld < st.txs[j].held
            case Creating => st.numTxs < maxTxs && forall j :: 0 <= j < |st.txs| ==> st.txs[j].held > 0
            case _ => false
  {
  }

  /** One call on the first transaction and `n` creations in flight. */
  function Creations(n: nat): seq<Action> {
    if n == 0 then [Enter(0)] else Creations(n - 1) + [Enter(n)] + [Choose(n)]
  }

  lemma {:induction false} CreationsInFlight(maxTxs: nat, n: nat)
    requires n < maxTxs
    ensures After(maxTxs, Creations(n)).Done? && ReservedBy(After(maxTxs, Creations(n)).state, n)
  {
    hide ReservedBy, Apply;
    if n == 0 {
      AfterSnoc(maxTxs, [], Enter(0));
      assert [] + [Enter(0)] == [Enter(0)];
      FirstEnters(maxTxs);
    } else {
      CreationsInFlight(maxTxs, n - 1);
      AfterSnoc(maxTxs, Creations(n - 1), Enter(n));
      AfterSnoc(maxTxs, Creations(n - 1) + [Enter(n)], Choose(n));
      OneMoreCreation(maxTxs, After(maxTxs, Creations(n - 1)).state, n);
    }
  }

  lemma FirstEnters(maxTxs: nat)
    ensures Apply(maxTxs, INITIAL, Enter(0)).Done? && ReservedBy(Apply(maxTxs, INITIAL, Enter(0)).state, 0)
  {
  }

  lemma OneMoreCreation(maxTxs: nat, st: State, n: nat)
    requires 0 < n < maxTxs && ReservedBy(st, n - 1)
    ensures Apply(maxTxs, st, Enter(n)).Done? && Apply(maxTxs, Apply(maxTxs, st, Enter(n)).state, Choose(n)).Done?
    ensures ReservedBy(Apply(maxTxs, Apply(maxTxs, st, Enter(n)).state, Choose(n)).state, n)
  {
  }

  /** Owner 0 holds the first transaction and owners 1 to `n` are creating. */
  ghost predicate ReservedBy(st: State, n: nat) {
    && st.firstHeld == 1 && st.txs == [] && st.numTxs == 1 + n && st.failures == 0
    && (forall o: Owner :: o in st.owners <==> o <= n)
    && forall o :: 1 <= o <= n ==> st.owners[o] == Creating
  }

  /**
   With a failed creation the bound on sharing does not hold: while the last slot is reserved
   a second call shares the first transaction, and the failure then gives the slot back.
   */
  lemma SharedBelowLimitAfterFailure(maxTxs: nat) returns (actions: seq<Action>)
    requires maxTxs >= 2
    ensures After(maxTxs, actions).Done?
    ensures var st := After(maxTxs, actions).state; st.numTxs < maxTxs && st.firstHeld == 2 && st.failures == 1
  {
    hide Apply;
    var n := maxTxs - 1;
    CreationsInFlight(maxTxs, n);
    var a0 := Creations(n);
    var a1 := a0 + [Enter(maxTxs)];
    var a2 := a1 + [Choose(maxTxs)];
    var a3 := a2 + [CountFirst(maxTxs)];
    actions := a3 + [CreateFailed(1)];
    AfterSnoc(maxTxs, a0, Enter(maxTxs));
    AfterSnoc(maxTxs, a1, Choose(maxTxs));
    AfterSnoc(maxTxs, a2, CountFirst(maxTxs));
    AfterSnoc(maxTxs, a3, CreateFailed(1));
    var last := SharesThenFails(maxTxs, After(maxTxs, a0).state);
  }

  /** With all slots taken, a call more shares the first transaction; then a creation fails. */
  lemma SharesThenFails(maxTxs: nat, st: State) returns (last: State)
    requires maxTxs >= 2 && ReservedBy(st, maxTxs - 1)
    ensures var s1 := Apply(maxTxs, st, Enter(maxTxs));
            s1.Done? && var s2 := Apply(maxTxs, s1.state, Choose(maxTxs));
            s2.Done? && var s3 := Apply(maxTxs, s2.state, CountFirst(maxTxs));
            s3.Done? && Apply(maxTxs, s3.state, CreateFailed(1)) == Done(last)
    ensures last.numTxs < maxTxs && last.firstHeld == 2 && last.failures == 1
  {
    var s1 := st.(owners := st.owners[maxTxs := Waiting]);
    var s2 := s1.(owners := s1.owners[maxTxs := TakingFirst]);
    var s3 := s2.(owners := s2.owners[maxTxs := Holding(First)], firstHeld := 2);
    assert Apply(maxTxs, st, Enter(maxTxs)) == Done(s1);
    assert Apply(maxTxs, s1, Choose(maxTxs)) == Done(s2);
    assert Apply(maxTxs, s2, CountFirst(maxTxs)) == Done(s3);
    last := s3.(owners := s3.owners - {1}, numTxs := s3.numTxs - 1, failures := 1);
  }
}
