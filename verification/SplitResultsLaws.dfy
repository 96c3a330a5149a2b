/** What the pipeline protocol keeps when ticks fall between the writes of a result, and exactly when it keeps the chain. */
module SplitResultsLaws {
  import opened Types
  import opened Ordering
  import opened Pool
  import opened PoolLaws
  import opened SplitResults
  import L = PipelineLaws

  /** What the environment may do; the result task goes through its writes in order. */
  ghost predicate Permitted(dag: nat -> Subdag, st: State, e: Event) {
    match e
    case Submit(subdags) => forall d :: d in subdags ==> d == dag(d.round)
    case Tick(_) => true
    case WriteCanonical(_) => st.task == Idle && st.core.inFlight.Some?
    case AdvancePool => st.task.Written?
    case WriteEpoch => st.task.Advanced?
  }

  ghost predicate Legal(cfg: P.Config, dag: nat -> Subdag, events: seq<Event>) {
    events == [] ||
    var init := events[..|events| - 1];
    Legal(cfg, dag, init) && (After(cfg, init).Next? ==> Permitted(dag, After(cfg, init).state, events[|events| - 1]))
  }

  // ----- what every run keeps -----

  /** The first round of the batch that the result of block `i + 1` consumes: one batch for each block from number 2 on. */
  function Right(k: nat, i: nat): nat {
    FirstRound(k, if i == 0 then 0 else i - 1)
  }

  /** The first round of the batch that block `i + 1` was built from. */
  function Drawn(k: nat, i: nat, stale: bool): nat {
    if stale && i >= 2 then FirstRound(k, i - 2) else Right(k, i)
  }

  ghost predicate Numbers(st: State) {
    var c, n := st.core, |st.core.pushed|;
    && (forall i :: 0 <= i < n ==> c.pushed[i].number == i + 1)
    && |st.drawn| == |st.stale| == |st.lagging| == n
    && c.canonical <= n <= c.canonical + 1
    && (if n == 0 then c.last == None else c.last == Some(P.Tip(n, c.pushed[n - 1].id)))
    && c.inFlight == (if n == c.canonical then None else Some(c.pushed[n - 1]))
    && (st.task == Idle || (c.canonical > 0 && st.task.block == c.pushed[c.canonical - 1]))
    && |c.results| + (if st.task == Idle then 0 else 1) == c.canonical
    && |st.taken| + (if st.task.Written? then 1 else 0) == c.canonical
  }

  /** The rounds each block was built from and consumed. */
  ghost predicate Batches(k: nat, dag: nat -> Subdag, st: State) {
    var t, n := |st.taken|, |st.core.pushed|;
    && FromDag(dag, st.core.pool.queue)
    && st.core.pool.next == Right(k, t)
    && |st.drawn| == |st.stale| == n
    && (forall i :: 0 <= i < t ==> st.taken[i] == Right(k, i))
    && (forall i :: 0 <= i < n ==> st.drawn[i] == Drawn(k, i, st.stale[i]) && (st.stale[i] ==> i >= 2))
    && (st.task.Written? && t > 0 ==> forall i :: t < i < n ==> st.stale[i])
    && forall i :: 1 <= i < n && t <= i && !st.stale[i] ==> BatchReady(st.core.pool, k)
  }

  /** The epoch of each block against the results before it. */
  ghost predicate Epochs(st: State) {
    var c, n := st.core, |st.core.pushed|;
    && |st.lagging| == n
    && c.epoch == L.EpochAfter(c.results)
    && (forall i :: 0 <= i < n && i <= |c.results| ==>
          (c.pushed[i].epoch == L.EpochAfter(c.results[..i]) <==> !st.lagging[i]))
    && forall i :: 0 <= i < n && i > |c.results| ==> c.pushed[i].epoch == c.epoch && st.lagging[i] == EpochBehind(st)
  }

  ghost predicate Inv(cfg: P.Config, dag: nat -> Subdag, st: State) {
    Numbers(st) && Batches(cfg.k, dag, st) && Epochs(st)
  }

  lemma NumbersStep(cfg: P.Config, st: State, e: Event)
    requires Numbers(st) && Apply(cfg, st, e).Next?
    ensures Numbers(Apply(cfg, st, e).state)
  {
    hide BatchReady, Proposal, Consumed, Added, FirstStamped;
  }

  /** A tick pushes the successor of the canonical block. */
  lemma PushedNumber(cfg: P.Config, st: State)
    requires Numbers(st) && P.TryBuild(cfg, st.core).Some?
    ensures |st.core.pushed| == st.core.canonical && P.TryBuild(cfg, st.core).value.epoch == st.core.epoch
    ensures st.core.canonical > 0 ==> BatchReady(st.core.pool, cfg.k)
  {
    hide Proposal, FirstStamped;
  }

  lemma BatchesStep(cfg: P.Config, dag: nat -> Subdag, st: State, e: Event)
    requires Numbers(st) && Batches(cfg.k, dag, st) && Permitted(dag, st, e) && Apply(cfg, st, e).Next?
    ensures Batches(cfg.k, dag, Apply(cfg, st, e).state)
  {
    hide Proposal, FirstStamped, Inserted, FirstRound;
    match e
    case Submit(subdags) =>
      InsertedRounds(st.core.pool.queue, subdags);
      AddedFromDag(dag, st.core.pool.queue, subdags);
    case Tick(_) =>
      if Pushes(cfg, st, e) {
        PushedNumber(cfg, st);
      }
    case WriteCanonical(_) =>
    case AdvancePool => AdvanceBatches(cfg, dag, st);
    case WriteEpoch =>
  }

  lemma AdvanceBatches(cfg: P.Config, dag: nat -> Subdag, st: State)
    requires Numbers(st) && Batches(cfg.k, dag, st) && st.task.Written? && Apply(cfg, st, AdvancePool).Next?
    ensures Batches(cfg.k, dag, Apply(cfg, st, AdvancePool).state)
  {
    hide Proposal, Without;
  }

  lemma EpochsStep(cfg: P.Config, st: State, e: Event)
    requires Numbers(st) && Epochs(st) && Apply(cfg, st, e).Next?
    ensures Epochs(Apply(cfg, st, e).state)
  {
    hide Proposal, FirstStamped, BatchReady, Consumed, Added, L.EpochAfter;
    if Pushes(cfg, st, e) {
      PushedNumber(cfg, st);
      assert st.core.results[..|st.core.results|] == st.core.results;
    } else if e.WriteEpoch? {
      WriteEpochStep(cfg, st);
    }
  }

  lemma WriteEpochStep(cfg: P.Config, st: State)
    requires Numbers(st) && Epochs(st) && st.task.Advanced?
    ensures Epochs(Apply(cfg, st, WriteEpoch).state)
  {
    hide L.EpochAfter;
    var now := Apply(cfg, st, WriteEpoch).state;
    var n := |st.core.results|;
    L.EpochSnoc(st.core.results, st.task.result);
    assert now.core.results[..n] == st.core.results && now.core.results[..n + 1] == now.core.results;
    assert forall i :: 0 <= i <= n ==> now.core.results[..i] == st.core.results[..i];
  }

  lemma {:induction false} RunKeeps(cfg: P.Config, dag: nat -> Subdag, events: seq<Event>)
    requires Legal(cfg, dag, events)
    ensures After(cfg, events) != NotEnabled
    ensures After(cfg, events).Next? ==> Inv(cfg, dag, After(cfg, events).state)
  {
    hide Numbers, Batches, Epochs, Apply;
    if events == [] {
      StartKeeps(cfg, dag);
    } else {
      var init, last := events[..|events| - 1], events[|events| - 1];
      RunKeeps(cfg, dag, init);
      if After(cfg, init).Next? {
        var st := After(cfg, init).state;
        PermittedEnabled(cfg, dag, st, last);
        if Apply(cfg, st, last).Next? {
          NumbersStep(cfg, st, last);
          BatchesStep(cfg, dag, st, last);
          EpochsStep(cfg, st, last);
        }
      }
    }
  }

  lemma StartKeeps(cfg: P.Config, dag: nat -> Subdag)
    ensures Inv(cfg, dag, INITIAL)
  {
  }

  lemma PermittedEnabled(cfg: P.Config, dag: nat -> Subdag, st: State, e: Event)
    requires Permitted(dag, st, e)
    ensures Apply(cfg, st, e) != NotEnabled
  {
  }

  // ----- exactly which blocks are right -----

  lemma DrawnRight(k: nat, i: nat, stale: bool)
    requires k > 0 && (stale ==> i >= 2)
    ensures Drawn(k, i, stale) == Right(k, i) <==> !stale
  {
  }

  /**
   Exactly which blocks consume the batch they were built from, in every run, however ticks
   and writes interleave: those not pushed while the pool was behind the canonical number.
   */
  lemma ConsumesOwnExactly(cfg: P.Config, dag: nat -> Subdag, events: seq<Event>, i: nat)
    requires cfg.k > 0 && Legal(cfg, dag, events) && After(cfg, events).Next?
    ensures var st := After(cfg, events).state;
            i < |st.taken| ==> i < |st.drawn| && i < |st.stale| && (st.drawn[i] == st.taken[i] <==> !st.stale[i])
  {
    hide After, Drawn, Right;
    RunKeeps(cfg, dag, events);
    var st := After(cfg, events).state;
    if i < |st.taken| {
      DrawnRight(cfg.k, i, st.stale[i]);
    }
  }

  /** Exactly which blocks carry the epoch in force after the blocks before them: those not pushed while it was about to change. */
  lemma EpochRightExactly(cfg: P.Config, dag: nat -> Subdag, events: seq<Event>, i: nat)
    requires Legal(cfg, dag, events) && After(cfg, events).Next?
    ensures var st := After(cfg, events).state;
            i <= |st.core.results| && i < |st.core.pushed| ==>
              i < |st.lagging| && (st.core.pushed[i].epoch == L.EpochAfter(st.core.results[..i]) <==> !st.lagging[i])
  {
    hide After;
    RunKeeps(cfg, dag, events);
  }

  // ----- exactly when a run panics -----

  /** At position `i` the pool is to advance for a block pushed while it was behind, and a round of the next batch is missing. */
  ghost predicate StaleResultAt(cfg: P.Config, events: seq<Event>, i: nat) {
    i < |events| && events[i] == AdvancePool && After(cfg, events[..i]).Next? &&
    var st := After(cfg, events[..i]).state;
    && st.task.Written?
    && |st.taken| < |st.stale| && st.stale[|st.taken|]
    && !BatchReady(st.core.pool, cfg.k)
  }

  lemma PanicsHere(cfg: P.Config, dag: nat -> Subdag, st: State, e: Event)
    requires Inv(cfg, dag, st) && Permitted(dag, st, e)
    ensures Apply(cfg, st, e) == Panicked <==>
            e == AdvancePool && st.stale[|st.taken|] && !BatchReady(st.core.pool, cfg.k)
  {
    hide BatchReady, FirstRound, L.EpochAfter, Consumed, Added;
    if e == AdvancePool {
      assert st.task.block.number == |st.taken| + 1;
    }
  }

  /**
   Exactly when a run panics: when the result of a block pushed while the pool was behind
   arrives and the next batch is incomplete.
   */
  lemma {:induction false} PanicsExactly(cfg: P.Config, dag: nat -> Subdag, events: seq<Event>)
    requires Legal(cfg, dag, events)
    ensures After(cfg, events) == Panicked <==> exists i :: StaleResultAt(cfg, events, i)
  {
    hide Apply, Inv;
    if events == [] {
    } else {
      var n := |events| - 1;
      var init := events[..n];
      PanicsExactly(cfg, dag, init);
      RunKeeps(cfg, dag, init);
      forall i: nat | i < n
        ensures StaleResultAt(cfg, init, i) <==> StaleResultAt(cfg, events, i)
      {
        assert init[..i] == events[..i];
      }
      if After(cfg, init).Next? {
        PanicsHere(cfg, dag, After(cfg, init).state, events[n]);
        TaskNames(cfg, dag, After(cfg, init).state, events[n]);
        assert After(cfg, events) == Panicked <==> StaleResultAt(cfg, events, n);
      }
    }
  }

  lemma TaskNames(cfg: P.Config, dag: nat -> Subdag, st: State, e: Event)
    requires Inv(cfg, dag, st) && Permitted(dag, st, e)
    ensures e == AdvancePool ==> st.task.Written? && |st.taken| < |st.stale|
  {
  }

  // ----- runs without a push at the wrong moment -----

  /** The event at position `i` pushes a block while the pool, or the epoch, is behind. */
  ghost predicate MistimedAt(cfg: P.Config, events: seq<Event>, i: nat) {
    i < |events| && After(cfg, events[..i]).Next? &&
    var st := After(cfg, events[..i]).state;
    Pushes(cfg, st, events[i]) && (PoolBehind(st) || EpochBehind(st))
  }

  ghost predicate Timely(cfg: P.Config, events: seq<Event>) {
    forall i :: !MistimedAt(cfg, events, i)
  }

  /** The state as the one-step protocol sees it: before the result while its block is the last one, after it otherwise. */
  function Seen(st: State): P.State {
    match st.task
    case Idle => st.core
    case Written(b, result) =>
      if st.core.inFlight == None && b.number > 0 then st.core.(canonical := b.number - 1, inFlight := Some(b))
      else P.Finished(st.core, result)
    case Advanced(_, result) => P.Finished(st.core, result)
  }

  /** ... which is after the result only if the pool had nothing to consume, or has consumed it. */
  ghost predicate InStep(cfg: P.Config, dag: nat -> Subdag, st: State) {
    && L.Inv(cfg, dag, Seen(st))
    && (st.task != Idle ==> st.task.block.number == st.core.canonical > 0)
    && (st.task.Written? && st.core.inFlight.Some? ==> st.task.block.number == 1)
    && (st.task.Written? ==> |st.core.pushed| >= st.core.canonical && st.task.block == st.core.pushed[st.core.canonical - 1])
  }

  lemma SubmitInStep(cfg: P.Config, dag: nat -> Subdag, st: State, subdags: seq<Subdag>)
    requires InStep(cfg, dag, st) && forall d :: d in subdags ==> d == dag(d.round)
    ensures InStep(cfg, dag, Apply(cfg, st, Submit(subdags)).state)
  {
    hide L.Inv, Added;
    L.SubmitKeeps(cfg, dag, Seen(st), subdags);
  }

  /** What a result that consumes nothing more leaves for a tick to see. */
  lemma SeenAfter(cfg: P.Config, dag: nat -> Subdag, st: State)
    requires InStep(cfg, dag, st) && st.task != Idle && !PoolBehind(st)
    ensures L.Inv(cfg, dag, P.Finished(st.core, st.task.result))
  {
    hide L.IsChain, L.PoolFollows, Consumed, L.EpochAfter;
    if st.task.Written? && st.core.inFlight == None {
      L.ExecutedKeeps(cfg, dag, Seen(st), st.task.result);
      assert P.Apply(cfg, Seen(st), P.Executed(st.task.result)) == P.Next(P.Finished(st.core, st.task.result));
    }
  }

  lemma TickInStep(cfg: P.Config, dag: nat -> Subdag, st: State, ok: bool)
    requires InStep(cfg, dag, st)
    requires Pushes(cfg, st, Tick(ok)) ==> !PoolBehind(st) && !EpochBehind(st)
    ensures InStep(cfg, dag, Apply(cfg, st, Tick(ok)).state)
  {
    if !Pushes(cfg, st, Tick(ok)) {
    } else if st.task == Idle {
      L.TickKeeps(cfg, dag, st.core, ok);
    } else {
      PushInWindow(cfg, dag, st);
    }
  }

  /** A push beside a result whose pool and epoch are in place is the push that would follow it. */
  lemma PushInWindow(cfg: P.Config, dag: nat -> Subdag, st: State)
    requires InStep(cfg, dag, st) && st.task != Idle && !PoolBehind(st) && !EpochBehind(st)
    requires Pushes(cfg, st, Tick(true))
    ensures InStep(cfg, dag, Apply(cfg, st, Tick(true)).state)
  {
    hide L.Inv, P.TryBuild;
    SeenAfter(cfg, dag, st);
    var results := st.core.results + [st.task.result];
    var after := st.core.(results := results);
    assert after == P.Finished(st.core, st.task.result);
    BuildsAlike(cfg, st.core, results);
    L.TickKeeps(cfg, dag, after, true);
    assert P.Apply(cfg, after, P.Tick(true)).state == P.Apply(cfg, st.core, P.Tick(true)).state.(results := results);
    assert Seen(Apply(cfg, st, Tick(true)).state) == P.Apply(cfg, after, P.Tick(true)).state;
  }

  lemma BuildsAlike(cfg: P.Config, c: P.State, results: seq<P.ExecutionResult>)
    ensures P.TryBuild(cfg, c.(results := results)) == P.TryBuild(cfg, c)
  {
  }

  lemma WriteInStep(cfg: P.Config, dag: nat -> Subdag, st: State, result: P.ExecutionResult)
    requires InStep(cfg, dag, st) && st.task == Idle && st.core.inFlight.Some?
    ensures Apply(cfg, st, WriteCanonical(result)).Next? && InStep(cfg, dag, Apply(cfg, st, WriteCanonical(result)).state)
  {
    hide L.PoolFollows, L.EpochAfter, L.BlockAfter, L.FirstBlock, L.IsFirstBlock;
    var now := Apply(cfg, st, WriteCanonical(result)).state;
    assert st.core.inFlight.value.number == st.core.canonical + 1;
    assert Seen(now) == st.core;
  }

  lemma AdvanceInStep(cfg: P.Config, dag: nat -> Subdag, st: State)
    requires InStep(cfg, dag, st) && st.task.Written?
    ensures Apply(cfg, st, AdvancePool).Next? && InStep(cfg, dag, Apply(cfg, st, AdvancePool).state)
  {
    hide L.Inv, Consumed;
    if st.core.inFlight == None {
      L.ExecutedKeeps(cfg, dag, Seen(st), st.task.result);
      assert P.Apply(cfg, Seen(st), P.Executed(st.task.result)).Next?;
      assert P.Apply(cfg, Seen(st), P.Executed(st.task.result)).state == Seen(Apply(cfg, st, AdvancePool).state);
    }
  }

  lemma StepInStep(cfg: P.Config, dag: nat -> Subdag, st: State, e: Event)
    requires InStep(cfg, dag, st) && Permitted(dag, st, e)
    requires Pushes(cfg, st, e) ==> !PoolBehind(st) && !EpochBehind(st)
    ensures Apply(cfg, st, e).Next? && InStep(cfg, dag, Apply(cfg, st, e).state)
  {
    hide L.Inv, P.TryBuild;
    match e
    case Submit(subdags) => SubmitInStep(cfg, dag, st, subdags);
    case Tick(ok) => TickInStep(cfg, dag, st, ok);
    case WriteCanonical(result) => WriteInStep(cfg, dag, st, result);
    case AdvancePool => AdvanceInStep(cfg, dag, st);
    case WriteEpoch =>
  }

  lemma TimelyBefore(cfg: P.Config, events: seq<Event>, n: nat)
    requires Timely(cfg, events) && n <= |events|
    ensures Timely(cfg, events[..n])
  {
    hide After, Pushes, PoolBehind, EpochBehind;
    forall i: nat | i < n
      ensures MistimedAt(cfg, events[..n], i) <==> MistimedAt(cfg, events, i)
    {
      assert events[..n][..i] == events[..i];
    }
  }

  /**
   Safety of the interleaved protocol: a run in which no block is pushed while the pool or the
   epoch is behind never panics, and keeps the invariant of the one-step protocol. Ticks
   between the writes are harmless, and so is a push there beside the first block's result,
   which consumes nothing, when the epoch stays.
   */
  lemma {:induction false} TimelySafety(cfg: P.Config, dag: nat -> Subdag, events: seq<Event>)
    requires Legal(cfg, dag, events) && Timely(cfg, events)
    ensures After(cfg, events).Next? && InStep(cfg, dag, After(cfg, events).state)
  {
    hide InStep, Apply, Pushes, PoolBehind, EpochBehind;
    if events == [] {
      StartInStep(cfg, dag);
    } else {
      var n := |events| - 1;
      var init := events[..n];
      TimelyBefore(cfg, events, n);
      TimelySafety(cfg, dag, init);
      assert !MistimedAt(cfg, events, n);
      StepInStep(cfg, dag, After(cfg, init).state, events[n]);
    }
  }

  lemma StartInStep(cfg: P.Config, dag: nat -> Subdag)
    ensures InStep(cfg, dag, INITIAL)
  {
  }

  // ----- and with one -----

  /** Every flag of the blocks pushed so far is down. */
  ghost predicate NoFlag(st: State) {
    |st.stale| == |st.lagging| && forall i :: 0 <= i < |st.stale| ==> !st.stale[i] && !st.lagging[i]
  }

  lemma TimelySnoc(cfg: P.Config, events: seq<Event>)
    requires events != []
    ensures var n := |events| - 1; Timely(cfg, events) <==> Timely(cfg, events[..n]) && !MistimedAt(cfg, events, n)
  {
    hide After, Pushes, PoolBehind, EpochBehind;
    var n := |events| - 1;
    forall i: nat | i < n
      ensures MistimedAt(cfg, events[..n], i) <==> MistimedAt(cfg, events, i)
    {
      assert events[..n][..i] == events[..i];
    }
  }

  lemma {:induction false} FlagsTell(cfg: P.Config, events: seq<Event>)
    requires After(cfg, events).Next?
    ensures var st := After(cfg, events).state; |st.stale| == |st.lagging| && (Timely(cfg, events) <==> NoFlag(st))
  {
    hide Pushes, PoolBehind, EpochBehind, Apply, Timely, NoFlag;
    if events == [] {
      assert NoFlag(INITIAL) by { NoFlagYet(); }
      assert Timely(cfg, events) by { NothingMistimed(cfg); }
    } else {
      var n := |events| - 1;
      FlagsTell(cfg, events[..n]);
      TimelySnoc(cfg, events);
      FlagsStep(cfg, After(cfg, events[..n]).state, events[n]);
    }
  }

  lemma NoFlagYet()
    ensures NoFlag(INITIAL)
  {
  }

  lemma NothingMistimed(cfg: P.Config)
    ensures Timely(cfg, [])
  {
  }

  lemma FlagsStep(cfg: P.Config, st: State, e: Event)
    requires Apply(cfg, st, e).Next? && |st.stale| == |st.lagging|
    ensures var now := Apply(cfg, st, e).state;
            && |now.stale| == |now.lagging|
            && (NoFlag(now) <==> NoFlag(st) && (Pushes(cfg, st, e) ==> !PoolBehind(st) && !EpochBehind(st)))
  {
    hide P.TryBuild;
    var now, n := Apply(cfg, st, e).state, |st.stale|;
    if Pushes(cfg, st, e) {
      assert now.stale == st.stale + [PoolBehind(st)] && now.lagging == st.lagging + [EpochBehind(st)];
      assert NoFlag(now) ==> !now.stale[n] && !now.lagging[n];
      assert forall i :: 0 <= i < n ==> now.stale[i] == st.stale[i] && now.lagging[i] == st.lagging[i];
    } else {
      assert now.stale == st.stale && now.lagging == st.lagging;
    }
  }

  /**
   The dividing condition, exactly: between results, every block pushed so far was built from
   the batch its result consumes and carries the epoch in force after the blocks before it, if
   and only if none was pushed while the pool or the epoch was behind.
   */
  lemma TimelyExactly(cfg: P.Config, dag: nat -> Subdag, events: seq<Event>)
    requires cfg.k > 0 && Legal(cfg, dag, events) && After(cfg, events).Next? && After(cfg, events).state.task == Idle
    ensures var st := After(cfg, events).state; var c := st.core;
            && |st.drawn| == |c.pushed| <= |c.results| + 1
            && (Timely(cfg, events) <==>
                forall i :: 0 <= i < |c.pushed| ==>
                              st.drawn[i] == Right(cfg.k, i) && c.pushed[i].epoch == L.EpochAfter(c.results[..i]))
  {
    hide After, Timely, Right, Drawn, L.EpochAfter;
    RunKeeps(cfg, dag, events);
    FlagsTell(cfg, events);
    var st := After(cfg, events).state;
    forall i | 0 <= i < |st.core.pushed|
      ensures st.drawn[i] == Right(cfg.k, i) <==> !st.stale[i]
    {
      DrawnRight(cfg.k, i, st.stale[i]);
    }
  }

  /** What a push while the pool is behind repeats: the transactions of the block whose result is arriving. */
  lemma MistimedRepeats(cfg: P.Config, dag: nat -> Subdag, st: State)
    requires InStep(cfg, dag, st) && PoolBehind(st) && cfg.k > 0
    ensures P.TryBuild(cfg, st.core).Some?
    ensures var b := P.TryBuild(cfg, st.core).value;
            b.number == st.task.block.number + 1 && b.transactions == st.task.block.transactions
  {
    hide L.PoolFollows, L.IsChain, P.TryBuild;
    L.TickBetweenRepeatsBlock(cfg, dag, Seen(st));
    assert Seen(st).(canonical := st.task.block.number) == st.core.(inFlight := Some(st.task.block));
    BuildsBesides(cfg, st.core, Some(st.task.block));
  }

  lemma BuildsBesides(cfg: P.Config, c: P.State, inFlight: Option<P.OrderedBlock>)
    ensures P.TryBuild(cfg, c.(inFlight := inFlight)) == P.TryBuild(cfg, c)
  {
  }

  lemma AfterSnoc(cfg: P.Config, events: seq<Event>, e: Event)
    ensures After(cfg, events + [e]) ==
            if After(cfg, events).Next? then Apply(cfg, After(cfg, events).state, e) else After(cfg, events)
  {
    assert (events + [e])[..|events + [e]| - 1] == events;
  }

  /** Any legal run whose pool is behind, at the only batch it holds, goes on to a panic. */
  lemma MayPanic(cfg: P.Config, dag: nat -> Subdag, events: seq<Event>, result: P.ExecutionResult)
    requires cfg.k > 0 && Legal(cfg, dag, events) && Timely(cfg, events) && After(cfg, events).Next?
    requires PoolBehind(After(cfg, events).state)
    requires var pool := After(cfg, events).state.core.pool;
             forall i :: i in pool.queue ==> i < pool.next + cfg.k
    ensures var more := events + [Tick(true)] + [AdvancePool] + [WriteEpoch] + [WriteCanonical(result)] + [AdvancePool];
            Legal(cfg, dag, more) && After(cfg, more) == Panicked
  {
    hide After, Legal, Apply, L.Inv, InStep, Timely, Consumed, P.TryBuild;
    TimelySafety(cfg, dag, events);
    var s0 := After(cfg, events).state;
    MistimedRepeats(cfg, dag, s0);
    BehindReady(cfg, dag, s0);
    var e1 := events + [Tick(true)];
    var e2 := e1 + [AdvancePool];
    var e3 := e2 + [WriteEpoch];
    var e4 := e3 + [WriteCanonical(result)];
    var steps := PanicSteps(cfg, s0, result);
    AfterSnoc(cfg, events, Tick(true));
    AfterSnoc(cfg, e1, AdvancePool);
    AfterSnoc(cfg, e2, WriteEpoch);
    AfterSnoc(cfg, e3, WriteCanonical(result));
    AfterSnoc(cfg, e4, AdvancePool);
    LegalSnoc(cfg, dag, events, Tick(true));
    LegalSnoc(cfg, dag, e1, AdvancePool);
    LegalSnoc(cfg, dag, e2, WriteEpoch);
    LegalSnoc(cfg, dag, e3, WriteCanonical(result));
    LegalSnoc(cfg, dag, e4, AdvancePool);
  }

  lemma LegalSnoc(cfg: P.Config, dag: nat -> Subdag, events: seq<Event>, e: Event)
    requires Legal(cfg, dag, events) && After(cfg, events).Next? && Permitted(dag, After(cfg, events).state, e)
    ensures Legal(cfg, dag, events + [e])
  {
    assert (events + [e])[..|events + [e]| - 1] == events;
  }

  lemma BehindReady(cfg: P.Config, dag: nat -> Subdag, st: State)
    requires InStep(cfg, dag, st) && PoolBehind(st)
    ensures BatchReady(st.core.pool, cfg.k) && st.core.last.Some? && st.core.last.value.number == st.task.block.number
  {
    hide L.PoolFollows, L.IsChain;
  }

  /** From a result whose pool is behind: the push, its remaining writes, and the result of the pushed block. */
  lemma PanicSteps(cfg: P.Config, st: State, result: P.ExecutionResult) returns (steps: (State, State, State, State))
    requires cfg.k > 0 && PoolBehind(st) && BatchReady(st.core.pool, cfg.k)
    requires P.TryBuild(cfg, st.core).Some? && P.TryBuild(cfg, st.core).value.number > 1
    requires forall i :: i in st.core.pool.queue ==> i < st.core.pool.next + cfg.k
    ensures Apply(cfg, st, Tick(true)) == Next(steps.0) && steps.0.task.Written?
    ensures Apply(cfg, steps.0, AdvancePool) == Next(steps.1) && steps.1.task.Advanced?
    ensures Apply(cfg, steps.1, WriteEpoch) == Next(steps.2) && steps.2.task == Idle && steps.2.core.inFlight.Some?
    ensures Apply(cfg, steps.2, WriteCanonical(result)) == Next(steps.3) && steps.3.task.Written?
    ensures Apply(cfg, steps.3, AdvancePool) == Panicked
  {
    hide P.TryBuild, Proposal, Without;
    var s1 := Ticked(cfg, st, true);
    var s2 := Apply(cfg, s1, AdvancePool).state;
    var s3 := Apply(cfg, s2, WriteEpoch).state;
    var s4 := Apply(cfg, s3, WriteCanonical(result)).state;
    steps := (s1, s2, s3, s4);
    assert s4.core.pool.next !in s4.core.pool.queue;
  }

  // ----- the reads of one tick -----

  /** What the other tasks do from `st` on while a tick is between its reads. */
  function Meanwhile(cfg: P.Config, st: State, others: seq<Event>): Stepped {
    if others == [] then Next(st) else
      match Meanwhile(cfg, st, others[..|others| - 1])
      case Next(now) => Apply(cfg, now, others[|others| - 1])
      case stopped => stopped
  }

  ghost predicate Others(cfg: P.Config, dag: nat -> Subdag, st: State, others: seq<Event>) {
    others == [] ||
    var init, last := others[..|others| - 1], others[|others| - 1];
    Others(cfg, dag, st, init) && !last.Tick? &&
    (Meanwhile(cfg, st, init).Next? ==> Permitted(dag, Meanwhile(cfg, st, init).state, last))
  }

  /** Nothing that a tick reads is about to change. */
  ghost predicate Settled(dag: nat -> Subdag, st: State) {
    st.core.inFlight == None && !PoolBehind(st) && !EpochBehind(st) && FromDag(dag, st.core.pool.queue)
  }

  /** What a tick reads, when the batch is complete. */
  ghost predicate SameReads(k: nat, st: State, now: State) {
    && now.core.last == st.core.last && now.core.canonical == st.core.canonical && now.core.epoch == st.core.epoch
    && now.core.pool.next == st.core.pool.next
    && BatchReady(st.core.pool, k) && BatchReady(now.core.pool, k)
    && Fetched(now.core.pool, k) == Fetched(st.core.pool, k)
    && forall i :: st.core.pool.next <= i < st.core.pool.next + k ==> now.core.pool.queue[i] == st.core.pool.queue[i]
  }

  lemma OtherStep(cfg: P.Config, dag: nat -> Subdag, st: State, e: Event)
    requires Settled(dag, st) && BatchReady(st.core.pool, cfg.k) && !e.Tick? && Permitted(dag, st, e)
    ensures Apply(cfg, st, e).Next? && Settled(dag, Apply(cfg, st, e).state)
    ensures SameReads(cfg.k, st, Apply(cfg, st, e).state)
  {
    hide Proposal;
    match e
    case Submit(subdags) =>
      var pool, now := st.core.pool, Added(st.core.pool, subdags);
      AddedFromDag(dag, pool.queue, subdags);
      ProposalStable(pool, cfg.k, subdags);
      ReadyPassesGuard(pool, cfg.k);
      ReadyPassesGuard(now, cfg.k);
    case AdvancePool =>
    case WriteEpoch =>
  }

  /**
   A tick may be taken for one step: unless the pool or the epoch is behind when it looks
   for a batch, whatever the result task and the submissions do before its later reads, these
   give what they would have given at once.
   */
  lemma {:induction false} TickReadsOnce(cfg: P.Config, dag: nat -> Subdag, st: State, others: seq<Event>)
    requires Settled(dag, st) && BatchReady(st.core.pool, cfg.k) && Others(cfg, dag, st, others)
    ensures Meanwhile(cfg, st, others).Next? && Settled(dag, Meanwhile(cfg, st, others).state)
    ensures SameReads(cfg.k, st, Meanwhile(cfg, st, others).state)
  {
    hide Settled, Apply, Fetched, Permitted;
    if others == [] {
    } else {
      var init := others[..|others| - 1];
      TickReadsOnce(cfg, dag, st, init);
      OtherStep(cfg, dag, Meanwhile(cfg, st, init).state, others[|others| - 1]);
    }
  }

  /** In every run, the conditions of `TickReadsOnce` hold at a tick that builds on a block, unless the pool or the epoch is behind. */
  lemma TickSettled(cfg: P.Config, dag: nat -> Subdag, events: seq<Event>)
    requires Legal(cfg, dag, events) && After(cfg, events).Next?
    ensures var st := After(cfg, events).state;
            st.core.last.Some? && P.TryBuild(cfg, st.core).Some? && !PoolBehind(st) && !EpochBehind(st) ==>
              Settled(dag, st) && BatchReady(st.core.pool, cfg.k)
  {
    hide After, Proposal, Epochs;
    RunKeeps(cfg, dag, events);
  }

  /**
   While the pool is behind it is not one step: a tick that looks for a batch before the pool
   advances and fetches its transactions afterwards fetches the next batch's if that is
   complete, nothing if the queue is too short, and otherwise fails the pool's assertion.
   */
  lemma TornTick(cfg: P.Config, dag: nat -> Subdag, st: State)
    requires PoolBehind(st) && BatchReady(st.core.pool, cfg.k) && FromDag(dag, st.core.pool.queue)
    ensures Apply(cfg, st, AdvancePool).Next?
    ensures var before, after := st.core.pool, Apply(cfg, st, AdvancePool).state.core.pool;
            && after.next == before.next + cfg.k
            && (Fetched(after, cfg.k) == None <==> |after.queue| >= cfg.k && !BatchReady(after, cfg.k))
            && (BatchReady(after, cfg.k) ==>
                  Fetched(after, cfg.k) == Some(Reorder(after.pending + RoundTxs(dag, before.next + cfg.k, cfg.k))))
            && (|after.queue| < cfg.k ==> Fetched(after, cfg.k) == Some([]))
  {
    hide Reorder, Without, RoundTxs;
    var after := Apply(cfg, st, AdvancePool).state.core.pool;
    if BatchReady(after, cfg.k) {
      ReadyPassesGuard(after, cfg.k);
      BatchIsRounds(dag, after, cfg.k);
    }
  }
}
