/** What the pipeline protocol keeps in every run, and how far two nodes agree. */
module PipelineLaws {
  import opened Types
  import opened Ordering
  import opened Pool
  import opened PoolLaws
  import opened Pipeline

  /** The blocks from number 2 on that `results` reports, as the pool sees them. */
  function Steps(dag: nat -> Subdag, k: nat, results: seq<ExecutionResult>): seq<Step> {
    if |results| <= 1 then [] else
      var n := |results| - 1;
      Steps(dag, k, results[..n]) + [Step(RoundTxs(dag, FirstRound(k, n - 1), k), results[n].mined)]
  }

  function EpochAfter(results: seq<ExecutionResult>): nat {
    if results == [] then 1 else
      var last := results[|results| - 1];
      if last.newEpoch.Some? then last.newEpoch.value else EpochAfter(results[..|results| - 1])
  }

  lemma EpochSnoc(results: seq<ExecutionResult>, last: ExecutionResult)
    ensures EpochAfter(results + [last]) == if last.newEpoch.Some? then last.newEpoch.value else EpochAfter(results)
  {
    assert (results + [last])[..|results + [last]| - 1] == results;
  }

  /** The block that `d` heads when there is no block yet: an empty one. */
  function FirstBlock(cfg: Config, d: Subdag): OrderedBlock {
    var timestamp := d.timestampMs / 1000;
    OrderedBlock(1, cfg.genesis, cfg.blockId(1, timestamp), 1, timestamp, [], [], Proposer(d.leader), DEFAULTS)
  }

  /** The first block is headed by some sub-DAG that has a timestamp. */
  ghost predicate IsFirstBlock(cfg: Config, dag: nat -> Subdag, b: OrderedBlock) {
    exists round :: dag(round).timestampMs > 0 && b == FirstBlock(cfg, dag(round))
  }

  /** Block `n >= 2`, given the results of all blocks before it: it carries rounds `1 + k (n - 2)` to `k (n - 1)`. */
  function BlockAfter(cfg: Config, dag: nat -> Subdag, results: seq<ExecutionResult>, parentId: BlockId): OrderedBlock
    requires results != []
  {
    var n := |results| + 1;
    var txs := Reorder(PendingAfter(Steps(dag, cfg.k, results)) + RoundTxs(dag, FirstRound(cfg.k, |results| - 1), cfg.k));
    var last := dag(FirstRound(cfg.k, |results|) - 1);
    var timestamp := last.timestampMs / 1000;
    OrderedBlock(
      EpochAfter(results), parentId, cfg.blockId(n, timestamp), n, timestamp, txs, Senders(txs), Proposer(last.leader), DEFAULTS)
  }

  ghost predicate IsChain(cfg: Config, dag: nat -> Subdag, results: seq<ExecutionResult>, pushed: seq<OrderedBlock>) {
    && |results| <= |pushed| <= |results| + 1
    && (pushed != [] ==> IsFirstBlock(cfg, dag, pushed[0]))
    && forall i :: 1 <= i < |pushed| ==> pushed[i] == BlockAfter(cfg, dag, results[..i], pushed[i - 1].id)
  }

  /** The pool has consumed one batch of `k` rounds for each block from number 2 on, and nothing else. */
  ghost predicate PoolFollows(dag: nat -> Subdag, k: nat, results: seq<ExecutionResult>, pool: PoolState) {
    && pool.next == FirstRound(k, if results == [] then 0 else |results| - 1)
    && pool.pending == PendingAfter(Steps(dag, k, results))
    && FromDag(dag, pool.queue)
  }

  /** The last ordered block is the last one pushed: the canonical block, or its successor in flight. */
  ghost predicate TipFollows(st: State) {
    match st.last
    case None => st.pushed == [] && st.inFlight == None
    case Some(tip) =>
      && st.pushed != []
      && var last := st.pushed[|st.pushed| - 1];
         last.number == |st.pushed| && tip == Tip(last.number, last.id) &&
         st.inFlight == if tip.number == st.canonical then None else Some(last)
  }

  ghost predicate Inv(cfg: Config, dag: nat -> Subdag, st: State) {
    && |st.results| == st.canonical
    && st.epoch == EpochAfter(st.results)
    && PoolFollows(dag, cfg.k, st.results, st.pool)
    && IsChain(cfg, dag, st.results, st.pushed)
    && TipFollows(st)
    && (st.inFlight.Some? && st.canonical > 0 ==> BatchReady(st.pool, cfg.k))
  }

  /**
   What the environment may do: commit sub-DAGs of the DAG, in any order and any number of
   times, let the timer fire, let a push succeed or fail, and report the block in flight.
   */
  ghost predicate Permitted(dag: nat -> Subdag, st: State, e: Event) {
    match e
    case Submit(subdags) => forall d :: d in subdags ==> d == dag(d.round)
    case Tick(_) => true
    case Executed(_) => st.inFlight.Some?
  }

  ghost predicate Legal(cfg: Config, dag: nat -> Subdag, events: seq<Event>) {
    events == [] ||
    var init := events[..|events| - 1];
    Legal(cfg, dag, init) && (After(cfg, init).Next? ==> Permitted(dag, After(cfg, init).state, events[|events| - 1]))
  }

  // ----- each step, exactly -----

  /** Submitting changes the queue and nothing else: a round holds the last sub-DAG submitted for it. */
  lemma SubmitExactly(cfg: Config, st: State, subdags: seq<Subdag>)
    ensures Apply(cfg, st, Submit(subdags)).Next?
    ensures var now := Apply(cfg, st, Submit(subdags)).state;
            && now == st.(pool := PoolState(st.pool.next, now.pool.queue, st.pool.pending))
            && (forall i :: i in now.pool.queue <==> i in st.pool.queue || exists d :: d in subdags && d.round == i)
            && (forall i :: i in now.pool.queue && (forall d :: d in subdags ==> d.round != i) ==>
                  now.pool.queue[i] == st.pool.queue[i])
            && forall j :: 0 <= j < |subdags| && (forall l :: j < l < |subdags| ==> subdags[l].round != subdags[j].round) ==>
                  now.pool.queue[subdags[j].round] == subdags[j]
  {
    hide Inserted;
    InsertedRounds(st.pool.queue, subdags);
    var queue := Inserted(st.pool.queue, subdags);
    forall i | i in queue && forall d :: d in subdags ==> d.round != i
      ensures queue[i] == st.pool.queue[i]
    {
      InsertedFrom(st.pool.queue, subdags, i);
    }
    forall j | 0 <= j < |subdags| && forall l :: j < l < |subdags| ==> subdags[l].round != subdags[j].round
      ensures subdags[j].round in queue && queue[subdags[j].round] == subdags[j]
    {
      InsertedLast(st.pool.queue, subdags, j);
    }
  }

  /**
   A tick whose push is refused leaves the state alone, and so does one that finds nothing to
   build. Any other one pushes the successor of the last block, or the first one.
   */
  lemma TickExactly(cfg: Config, st: State)
    ensures Apply(cfg, st, Tick(false)) == Next(st)
    ensures !Buildable(cfg, st) ==> Apply(cfg, st, Tick(true)) == Next(st)
    ensures Buildable(cfg, st) ==>
              Apply(cfg, st, Tick(true)).Next? && Apply(cfg, st, Tick(true)).state.inFlight.Some? &&
              var now := Apply(cfg, st, Tick(true)).state; var b := now.inFlight.value;
              && now == st.(last := Some(Tip(b.number, b.id)), inFlight := Some(b), pushed := st.pushed + [b])
              && b.number == (if st.last.Some? then st.last.value.number else st.canonical) + 1
              && b.parentId == (if st.last.Some? then st.last.value.id else cfg.genesis)
              && b.id == cfg.blockId(b.number, b.timestamp) && b.epoch == st.epoch
              && SendersMatch(b) && b.fixed == Fixed(0, 0, [], [], 0, false)
              && (if st.last == None then b.transactions == [] else Some(b.transactions) == Fetched(st.pool, cfg.k))
  {
    hide Proposal, Proposer;
    FirstStampedMeaning(st.pool.queue);
    if st.last.Some? && BatchReady(st.pool, cfg.k) {
      ReadyPassesGuard(st.pool, cfg.k);
    }
  }

  /** A result moves the canonical number, the epoch if it starts one, and the pool by one batch from block 2 on. */
  lemma ExecutedExactly(cfg: Config, st: State, result: ExecutionResult)
    ensures Apply(cfg, st, Executed(result)) == NotEnabled <==> st.inFlight == None
    ensures Apply(cfg, st, Executed(result)) == Panicked <==>
              st.inFlight.Some? && st.inFlight.value.number > 1 &&
              exists i :: st.pool.next <= i < st.pool.next + cfg.k && i !in st.pool.queue
    ensures Apply(cfg, st, Executed(result)).Next? ==>
              var now, b := Apply(cfg, st, Executed(result)).state, st.inFlight.value;
              && now.last == st.last && now.pushed == st.pushed && now.inFlight == None && now.canonical == b.number
              && now.results == st.results + [result]
              && now.epoch == (if result.newEpoch.Some? then result.newEpoch.value else st.epoch)
              && (b.number <= 1 ==> now.pool == st.pool)
              && (b.number > 1 ==>
                    && now.pool.next == st.pool.next + cfg.k
                    && (forall i :: i in now.pool.queue <==> i in st.pool.queue && !(st.pool.next <= i < st.pool.next + cfg.k))
                    && (forall i :: i in now.pool.queue ==> now.pool.queue[i] == st.pool.queue[i])
                    && Keeps(now.pool.pending, Proposal(st.pool, cfg.k), result.mined))
  {
    hide Proposal, Keeps, Without, Rounds;
    if BatchReady(st.pool, cfg.k) {
      ConsumedExactly(st.pool, cfg.k, result.mined);
    }
  }

  // ----- refused pushes -----

  /** The events without the ticks whose push is refused. */
  function Accepted(events: seq<Event>): seq<Event> {
    if events == [] then [] else
      var last := events[|events| - 1];
      Accepted(events[..|events| - 1]) + if last == Tick(false) then [] else [last]
  }

  function Successes(events: seq<Event>): nat {
    if events == [] then 0 else
      Successes(events[..|events| - 1]) + if events[|events| - 1] == Tick(true) then 1 else 0
  }

  lemma AfterSnoc(cfg: Config, events: seq<Event>, e: Event)
    ensures After(cfg, events + [e]) == if After(cfg, events).Next? then Apply(cfg, After(cfg, events).state, e) else After(cfg, events)
  {
    assert (events + [e])[..|events + [e]| - 1] == events;
  }

  /** A run in which pushes are refused is the run without those ticks: a refused block is simply tried again. */
  lemma {:induction false} RefusedPushesVanish(cfg: Config, events: seq<Event>)
    ensures After(cfg, events) == After(cfg, Accepted(events))
  {
    hide Apply;
    if events == [] {
    } else {
      var init, last := events[..|events| - 1], events[|events| - 1];
      RefusedPushesVanish(cfg, init);
      if last == Tick(false) {
        assert Accepted(init) + [] == Accepted(init);
        if After(cfg, init).Next? {
          TickExactly(cfg, After(cfg, init).state);
        }
      } else {
        AfterSnoc(cfg, Accepted(init), last);
      }
    }
  }

  /** There are at most as many blocks as accepted pushes. */
  lemma {:induction false} PushedAtMost(cfg: Config, events: seq<Event>)
    requires After(cfg, events).Next?
    ensures |After(cfg, events).state.pushed| <= Successes(events)
  {
    hide Apply, Buildable;
    if events == [] {
    } else {
      var init, last := events[..|events| - 1], events[|events| - 1];
      PushedAtMost(cfg, init);
      var st := After(cfg, init).state;
      match last
      case Submit(subdags) => SubmitExactly(cfg, st, subdags);
      case Tick(_) => TickExactly(cfg, st);
      case Executed(result) => ExecutedExactly(cfg, st, result);
    }
  }

  // ----- the invariant -----

  lemma SubmitKeeps(cfg: Config, dag: nat -> Subdag, st: State, subdags: seq<Subdag>)
    requires Inv(cfg, dag, st) && Permitted(dag, st, Submit(subdags))
    ensures Inv(cfg, dag, Apply(cfg, st, Submit(subdags)).state)
  {
    hide Reorder, PendingAfter, Steps, RoundTxs, FirstRound;
    InsertedRounds(st.pool.queue, subdags);
    AddedFromDag(dag, st.pool.queue, subdags);
  }

  /** A block built in a good state is the next block of the chain. */
  lemma BuiltBlock(cfg: Config, dag: nat -> Subdag, st: State)
    requires Inv(cfg, dag, st) && TryBuild(cfg, st).Some?
    ensures |st.pushed| == st.canonical
    ensures var b := TryBuild(cfg, st).value;
            if st.pushed == [] then IsFirstBlock(cfg, dag, b)
            else b == BlockAfter(cfg, dag, st.results, st.pushed[|st.pushed| - 1].id) && BatchReady(st.pool, cfg.k)
  {
    hide Reorder, PendingAfter, Steps, RoundTxs, FirstRound, Proposal, Proposer;
    if st.pushed == [] {
      FirstStampedMeaning(st.pool.queue);
    } else {
      hide BlockAfter;
      BuiltAfter(cfg, dag, st);
    }
  }

  lemma BuiltAfter(cfg: Config, dag: nat -> Subdag, st: State)
    requires Inv(cfg, dag, st) && TryBuild(cfg, st).Some? && st.pushed != []
    ensures st.results != [] && BatchReady(st.pool, cfg.k)
    ensures TryBuild(cfg, st).value == BlockAfter(cfg, dag, st.results, st.pushed[|st.pushed| - 1].id)
  {
    hide Reorder, PendingAfter, Steps, RoundTxs, FirstRound, Senders, Proposer, EpochAfter, Proposal;
    BuiltFrom(cfg, dag, st);
  }

  lemma BuiltFrom(cfg: Config, dag: nat -> Subdag, st: State)
    requires PoolFollows(dag, cfg.k, st.results, st.pool) && st.results != []
    requires BatchReady(st.pool, cfg.k) && cfg.k > 0
    ensures Proposal(st.pool, cfg.k) ==
            Reorder(PendingAfter(Steps(dag, cfg.k, st.results)) + RoundTxs(dag, FirstRound(cfg.k, |st.results| - 1), cfg.k))
    ensures st.pool.queue[st.pool.next + cfg.k - 1] == dag(FirstRound(cfg.k, |st.results|) - 1)
  {
    hide Reorder, PendingAfter, Steps, RoundTxs;
    BatchIsRounds(dag, st.pool, cfg.k);
    assert st.pool.next + cfg.k - 1 in st.pool.queue;
  }

  lemma TickKeeps(cfg: Config, dag: nat -> Subdag, st: State, ok: bool)
    requires Inv(cfg, dag, st)
    ensures Inv(cfg, dag, Apply(cfg, st, Tick(ok)).state)
  {
    hide Reorder, PendingAfter, Steps, RoundTxs, FirstRound;
    if TryBuild(cfg, st).Some? && ok {
      BuiltBlock(cfg, dag, st);
      ChainGrows(cfg, dag, st.results, st.pushed, TryBuild(cfg, st).value);
    }
  }

  lemma ChainGrows(cfg: Config, dag: nat -> Subdag, results: seq<ExecutionResult>, pushed: seq<OrderedBlock>, b: OrderedBlock)
    requires IsChain(cfg, dag, results, pushed) && |results| == |pushed|
    requires if pushed == [] then IsFirstBlock(cfg, dag, b) else b == BlockAfter(cfg, dag, results, pushed[|pushed| - 1].id)
    ensures IsChain(cfg, dag, results, pushed + [b])
  {
    hide Reorder, PendingAfter, Steps, RoundTxs, FirstRound;
    assert results[..|results|] == results;
  }

  lemma ChainExecutes(
    cfg: Config, dag: nat -> Subdag, results: seq<ExecutionResult>, pushed: seq<OrderedBlock>, r: ExecutionResult)
    requires IsChain(cfg, dag, results, pushed) && |results| < |pushed|
    ensures IsChain(cfg, dag, results + [r], pushed)
  {
    hide Reorder, PendingAfter, Steps, RoundTxs, FirstRound;
    assert forall i :: 1 <= i < |pushed| ==> (results + [r])[..i] == results[..i];
  }

  lemma PoolExecutes(dag: nat -> Subdag, k: nat, results: seq<ExecutionResult>, pool: PoolState, r: ExecutionResult)
    requires PoolFollows(dag, k, results, pool)
    requires results != [] ==> BatchReady(pool, k)
    ensures PoolFollows(dag, k, results + [r], if results == [] then pool else Consumed(pool, k, r.mined))
  {
    hide Reorder, PendingAfter, RoundTxs;
    if results != [] {
      BatchIsRounds(dag, pool, k);
      StepsExtend(dag, k, results, r);
    }
  }

  lemma ExecutedKeeps(cfg: Config, dag: nat -> Subdag, st: State, result: ExecutionResult)
    requires Inv(cfg, dag, st) && st.inFlight.Some?
    ensures Apply(cfg, st, Executed(result)).Next?
    ensures Inv(cfg, dag, Apply(cfg, st, Executed(result)).state)
  {
    hide Reorder, PendingAfter, Steps, RoundTxs, FirstRound;
    PoolExecutes(dag, cfg.k, st.results, st.pool, result);
    ChainExecutes(cfg, dag, st.results, st.pushed, result);
    assert (st.results + [result])[..|st.results|] == st.results;
  }

  lemma StepsExtend(dag: nat -> Subdag, k: nat, results: seq<ExecutionResult>, result: ExecutionResult)
    requires results != []
    ensures var steps, more := Steps(dag, k, results), Steps(dag, k, results + [result]);
            more == steps + [Step(RoundTxs(dag, FirstRound(k, |results| - 1), k), result.mined)] &&
            PendingAfter(more) ==
            Without(Reorder(PendingAfter(steps) + RoundTxs(dag, FirstRound(k, |results| - 1), k)), result.mined)
  {
    var all := results + [result];
    assert all[..|all| - 1] == results;
    var more := Steps(dag, k, all);
    assert more[..|more| - 1] == Steps(dag, k, results);
  }

  /**
   Safety of every run: no assertion of the pool fires, the last ordered block is the
   canonical one or the one after it, and the blocks pushed are exactly the chain that
   `IsChain` describes.
   */
  lemma {:induction false} Safety(cfg: Config, dag: nat -> Subdag, events: seq<Event>)
    requires Legal(cfg, dag, events)
    ensures After(cfg, events).Next? && Inv(cfg, dag, After(cfg, events).state)
  {
    if events == [] {
    } else {
      var init, last := events[..|events| - 1], events[|events| - 1];
      Safety(cfg, dag, init);
      var st := After(cfg, init).state;
      match last
      case Submit(subdags) => SubmitKeeps(cfg, dag, st, subdags);
      case Tick(ok) => TickKeeps(cfg, dag, st, ok);
      case Executed(result) => ExecutedKeeps(cfg, dag, st, result);
    }
  }

  /**
   The numbers of every run: the last ordered block is the canonical one or the one after
   it, and the pool has consumed `k` rounds per canonical block from number 2 on.
   */
  lemma RunNumbers(cfg: Config, dag: nat -> Subdag, events: seq<Event>)
    requires Legal(cfg, dag, events)
    ensures After(cfg, events).Next?
    ensures var st := After(cfg, events).state;
            match st.last
            case None => st.canonical == 0
            case Some(tip) => tip.number == st.canonical || tip.number == st.canonical + 1
    ensures var st := After(cfg, events).state;
            st.pool.next == FirstRound(cfg.k, if st.canonical == 0 then 0 else st.canonical - 1)
  {
    hide Reorder, PendingAfter, Steps, RoundTxs, FirstRound, EpochAfter, After;
    Safety(cfg, dag, events);
  }

  /**
   The blocks of every run are numbered from 1 without a gap, each names its predecessor,
   and block `n >= 2` carries what the blocks before it left pending followed by the `k`
   rounds from `FirstRound(k, n - 2)` on, re-ordered.
   */
  lemma RunBlocks(cfg: Config, dag: nat -> Subdag, events: seq<Event>, i: nat)
    requires Legal(cfg, dag, events)
    ensures After(cfg, events).Next?
    ensures var st := After(cfg, events).state;
            i < |st.pushed| ==>
              && i <= |st.results|
              && st.pushed[i].number == i + 1
              && st.pushed[i].parentId == (if i == 0 then cfg.genesis else st.pushed[i - 1].id)
              && st.pushed[i].id == cfg.blockId(i + 1, st.pushed[i].timestamp)
              && SendersMatch(st.pushed[i]) && st.pushed[i].fixed == Fixed(0, 0, [], [], 0, false)
              && (i > 0 ==> st.pushed[i].timestamp == dag(FirstRound(cfg.k, i) - 1).timestampMs / 1000)
              && (i > 0 ==> st.pushed[i].epoch == EpochAfter(st.results[..i]))
              && st.pushed[i].transactions ==
                 if i == 0 then [] else
                   Reorder(PendingAfter(Steps(dag, cfg.k, st.results[..i])) + RoundTxs(dag, FirstRound(cfg.k, i - 1), cfg.k))
  {
    hide Reorder, PendingAfter, Steps, RoundTxs, FirstRound, EpochAfter, After;
    Safety(cfg, dag, events);
    var st := After(cfg, events).state;
    if 0 < i < |st.pushed| {
      assert st.pushed[i] == BlockAfter(cfg, dag, st.results[..i], st.pushed[i - 1].id);
    }
  }

  // ----- what a run consumes -----

  function BatchesOf(run: seq<Step>): seq<Tx> {
    if run == [] then [] else BatchesOf(run[..|run| - 1]) + run[|run| - 1].batch
  }

  lemma BatchesExtend(run: seq<Step>, last: Step)
    ensures BatchesOf(run + [last]) == BatchesOf(run) + last.batch
  {
    var all := run + [last];
    assert all[..|all| - 1] == run;
  }

  lemma NoRoundsYet(dag: nat -> Subdag, k: nat, results: seq<ExecutionResult>)
    requires |results| == 1
    ensures BatchesOf(Steps(dag, k, results)) == RoundTxs(dag, 1, FirstRound(k, 0) - 1)
  {
  }

  lemma {:induction false} RoundsUpTo(dag: nat -> Subdag, k: nat, results: seq<ExecutionResult>)
    requires results != []
    ensures BatchesOf(Steps(dag, k, results)) == RoundTxs(dag, 1, FirstRound(k, |results| - 1) - 1)
  {
    hide RoundTxs, Steps, BatchesOf, PendingAfter, Reorder, Without;
    var n := |results| - 1;
    if n == 0 {
      NoRoundsYet(dag, k, results);
    } else {
      var init := results[..n];
      RoundsUpTo(dag, k, init);
      StepsExtend(dag, k, init, results[n]);
      assert init + [results[n]] == results;
      var from := FirstRound(k, n - 1);
      BatchesExtend(Steps(dag, k, init), Step(RoundTxs(dag, from, k), results[n].mined));
      RoundTxsJoin(dag, 1, from - 1, k);
    }
  }

  /** The blocks executed so far consumed the rounds from 1 on, each once, in order and without a gap. */
  lemma RoundsInOrder(dag: nat -> Subdag, k: nat, results: seq<ExecutionResult>)
    requires results != []
    ensures BatchesOf(Steps(dag, k, results)) == RoundTxs(dag, 1, k * (|results| - 1))
    ensures FirstRound(k, |results| - 1) == 1 + k * (|results| - 1)
  {
    RoundsUpTo(dag, k, results);
    FirstRoundIs(k, |results| - 1);
  }

  /** In every state the list that execution will recompute is the one the block in flight carries. */
  lemma InFlightStable(cfg: Config, dag: nat -> Subdag, st: State)
    requires Inv(cfg, dag, st) && st.inFlight.Some? && st.canonical > 0
    ensures BatchReady(st.pool, cfg.k)
    ensures Proposal(st.pool, cfg.k) == st.inFlight.value.transactions
  {
    hide Reorder, PendingAfter, Steps, RoundTxs, FirstRound, EpochAfter;
    var n := st.canonical;
    assert st.results[..n] == st.results;
    assert st.pushed[n] == BlockAfter(cfg, dag, st.results, st.pushed[n - 1].id);
    BatchIsRounds(dag, st.pool, cfg.k);
  }

  /**
   Once the canonical number is written and before the pool advances, a tick proposes the
   transactions of the block just executed again.
   */
  lemma TickBetweenRepeatsBlock(cfg: Config, dag: nat -> Subdag, st: State)
    requires Inv(cfg, dag, st) && st.inFlight.Some? && st.canonical > 0 && cfg.k > 0
    ensures var half := st.(canonical := st.inFlight.value.number);
            TryBuild(cfg, half).Some? &&
            TryBuild(cfg, half).value.number == st.inFlight.value.number + 1 &&
            TryBuild(cfg, half).value.transactions == st.inFlight.value.transactions
  {
    hide Reorder, PendingAfter, Steps, RoundTxs, FirstRound, EpochAfter;
    InFlightStable(cfg, dag, st);
  }

  /** After any run, the pool holds exactly the consumed transactions that no block mined since and no later one replaced. */
  lemma NothingLost(cfg: Config, dag: nat -> Subdag, events: seq<Event>, t: Tx)
    requires Legal(cfg, dag, events)
    ensures After(cfg, events).Next?
    ensures var st := After(cfg, events).state;
            AscendingPerSender(st.pool.pending) && NoDuplicateKey(st.pool.pending) &&
            (t in st.pool.pending <==> StillOutstanding(Steps(dag, cfg.k, st.results), t))
  {
    hide Reorder, PendingAfter, Steps, RoundTxs, After, StillOutstanding;
    Safety(cfg, dag, events);
    var run := Steps(dag, cfg.k, After(cfg, events).state.results);
    PendingAscends(run);
    PendingExactly(run, t);
  }

  // ----- the proposer -----

  const LOWER_DIGITS := "0123456789abcdef"
  const UPPER_DIGITS := "0123456789ABCDEF"

  /** `c` is the hexadecimal digit for `v`. */
  predicate IsDigitFor(c: char, v: nat) {
    v < 16 && (LOWER_DIGITS[v] == c || UPPER_DIGITS[v] == c)
  }

  lemma NibbleMeans(c: char)
    ensures forall v: nat :: Nibble(c) == Some(v) <==> IsDigitFor(c, v)
    ensures Nibble(c).Some? <==> c in LOWER_DIGITS || c in UPPER_DIGITS
    ensures Nibble(c).Some? ==> Nibble(c).value < 16 && IsDigitFor(c, Nibble(c).value)
  {
    forall v: nat
      ensures Nibble(c) == Some(v) <==> IsDigitFor(c, v)
    {
      if v < 16 {
        DigitChars(v);
      }
    }
    if Nibble(c).Some? {
      assert IsDigitFor(c, Nibble(c).value);
    } else if c in LOWER_DIGITS {
      var v :| 0 <= v < 16 && LOWER_DIGITS[v] == c;
      assert IsDigitFor(c, v);
    } else if c in UPPER_DIGITS {
      var v :| 0 <= v < 16 && UPPER_DIGITS[v] == c;
      assert IsDigitFor(c, v);
    }
  }

  lemma DigitChars(v: nat)
    requires v < 16
    ensures LOWER_DIGITS[v] == if v < 10 then '0' + v as char else 'a' + (v - 10) as char
    ensures UPPER_DIGITS[v] == if v < 10 then '0' + v as char else 'A' + (v - 10) as char
  {
  }

  predicate IsHex(s: string) {
    forall c :: c in s ==> c in LOWER_DIGITS || c in UPPER_DIGITS
  }

  lemma SpellsCons(s: string, rest: seq<nat>, byte: nat)
    requires |s| >= 2 && Spells(s[2..], rest)
    requires byte < 256 && IsDigitFor(s[0], byte / 16) && IsDigitFor(s[1], byte % 16)
    ensures Spells(s, [byte] + rest)
  {
    hide IsDigitFor;
    var bytes := [byte] + rest;
    forall i | 0 <= i < |bytes|
      ensures bytes[i] < 256 && IsDigitFor(s[2 * i], bytes[i] / 16) && IsDigitFor(s[2 * i + 1], bytes[i] % 16)
    {
      if i > 0 {
        assert bytes[i] == rest[i - 1];
        assert s[2 * i] == s[2..][2 * (i - 1)] && s[2 * i + 1] == s[2..][2 * (i - 1) + 1];
      }
    }
  }

  lemma IsHexParts(s: string)
    ensures s == "" ==> IsHex(s) && Spells(s, [])
    ensures |s| >= 2 ==> (IsHex(s) <==> Nibble(s[0]).Some? && Nibble(s[1]).Some? && IsHex(s[2..]))
  {
    hide Nibble;
    if s != "" {
      NibbleMeans(s[0]);
    }
    if |s| >= 2 {
      NibbleMeans(s[1]);
      assert s == [s[0], s[1]] + s[2..];
    }
  }

  lemma DigitsSpell(s: string, high: nat, low: nat, rest: seq<nat>)
    requires |s| >= 2 && Spells(s[2..], rest) && Nibble(s[0]) == Some(high) && Nibble(s[1]) == Some(low)
    ensures Spells(s, [16 * high + low] + rest)
  {
    hide Nibble, Spells, IsDigitFor;
    NibbleMeans(s[0]);
    NibbleMeans(s[1]);
    Halves(high, low);
    SpellsCons(s, rest, 16 * high + low);
  }

  lemma {:induction false} HexDecodes(s: string)
    ensures HexDecode(s).Some? <==> |s| % 2 == 0 && IsHex(s)
    ensures HexDecode(s).Some? ==> |s| == 2 * |HexDecode(s).value| && Spells(s, HexDecode(s).value)
  {
    hide Nibble, IsHex, Spells, IsDigitFor;
    IsHexParts(s);
    if |s| < 2 {
    } else {
      HexDecodes(s[2..]);
      if HexDecode(s).Some? {
        DigitsSpell(s, Nibble(s[0]).value, Nibble(s[1]).value, HexDecode(s[2..]).value);
      }
    }
  }

  lemma Halves(high: nat, low: nat)
    requires low < 16
    ensures (16 * high + low) / 16 == high && (16 * high + low) % 16 == low
  {
  }

  /** Two digits of `s`, the high one first, for each byte. */
  ghost predicate Spells(s: string, bytes: seq<nat>) {
    |s| == 2 * |bytes| &&
    forall i :: 0 <= i < |bytes| ==>
                  bytes[i] < 256 && IsDigitFor(s[2 * i], bytes[i] / 16) && IsDigitFor(s[2 * i + 1], bytes[i] % 16)
  }

  /** A proposer is found exactly for `0x` and 64 hexadecimal digits, and it is what these spell. */
  lemma ProposerExactly(leader: string)
    ensures Proposer(leader).Some? <==> |leader| == 66 && "0x" <= leader && IsHex(leader[2..])
    ensures Proposer(leader).Some? ==> Spells(leader[2..], Proposer(leader).value)
  {
    hide HexDecode, Spells, IsHex;
    if "0x" <= leader {
      HexDecodes(leader[2..]);
    }
  }

  // ----- agreement -----

  /** Execution is deterministic: each result is a function of the chain up to its block. */
  ghost predicate ExecutedBy(exec: seq<OrderedBlock> -> ExecutionResult, st: State) {
    forall i :: 0 <= i < |st.results| ==> i < |st.pushed| && st.results[i] == exec(st.pushed[..i + 1])
  }

  lemma {:induction false} SameStartSameChain(
    cfg: Config, dag: nat -> Subdag, exec: seq<OrderedBlock> -> ExecutionResult, a: State, b: State, n: nat)
    requires Inv(cfg, dag, a) && Inv(cfg, dag, b) && ExecutedBy(exec, a) && ExecutedBy(exec, b)
    requires 0 < n <= |a.pushed| && n <= |b.pushed| && a.pushed[0] == b.pushed[0]
    ensures a.pushed[..n] == b.pushed[..n]
  {
    hide BlockAfter, IsFirstBlock, PoolFollows, EpochAfter;
    if n == 1 {
    } else {
      var m := n - 1;
      SameStartSameChain(cfg, dag, exec, a, b, m);
      NextOfChain(cfg, dag, a, m);
      NextOfChain(cfg, dag, b, m);
      SameResults(exec, a, b, m);
      assert a.pushed[m - 1] == a.pushed[..m][m - 1] == b.pushed[..m][m - 1] == b.pushed[m - 1];
      assert a.pushed[..n] == a.pushed[..m] + [a.pushed[m]];
      assert b.pushed[..n] == b.pushed[..m] + [b.pushed[m]];
    }
  }

  lemma SameResults(exec: seq<OrderedBlock> -> ExecutionResult, a: State, b: State, m: nat)
    requires ExecutedBy(exec, a) && ExecutedBy(exec, b)
    requires m <= |a.results| && m <= |b.results| && m <= |a.pushed| && m <= |b.pushed| && a.pushed[..m] == b.pushed[..m]
    ensures a.results[..m] == b.results[..m]
  {
    forall i | 0 <= i < m
      ensures a.results[i] == b.results[i]
    {
      assert a.pushed[..i + 1] == a.pushed[..m][..i + 1];
      assert b.pushed[..i + 1] == b.pushed[..m][..i + 1];
    }
  }

  lemma NextOfChain(cfg: Config, dag: nat -> Subdag, st: State, i: nat)
    requires Inv(cfg, dag, st) && 1 <= i < |st.pushed|
    ensures i <= |st.results| && st.pushed[i] == BlockAfter(cfg, dag, st.results[..i], st.pushed[i - 1].id)
  {
  }

  lemma NextTransactions(cfg: Config, dag: nat -> Subdag, st: State, i: nat)
    requires Inv(cfg, dag, st) && 1 <= i < |st.pushed|
    ensures i <= |st.results|
    ensures st.pushed[i].transactions ==
            Reorder(PendingAfter(Steps(dag, cfg.k, st.results[..i])) + RoundTxs(dag, FirstRound(cfg.k, i - 1), cfg.k))
  {
    hide Inv, Reorder, PendingAfter, Steps, RoundTxs, FirstRound, EpochAfter, Senders, Proposer;
    NextOfChain(cfg, dag, st, i);
  }

  ghost predicate Agree(a: seq<OrderedBlock>, b: seq<OrderedBlock>) {
    a <= b || b <= a
  }

  /** The sub-DAGs that `events` submit, by round. */
  function Arrived(events: seq<Event>): map<nat, Subdag> {
    if events == [] then map[] else
      var before := Arrived(events[..|events| - 1]);
      match events[|events| - 1]
      case Submit(subdags) => Inserted(before, subdags)
      case _ => before
  }

  /**
   The sub-DAG that heads the first block: at the first tick whose push succeeds after a
   sub-DAG with a timestamp has arrived, the one of the lowest round.
   */
  function Opening(events: seq<Event>): Option<Subdag> {
    if events == [] then None else
      var init := events[..|events| - 1];
      if Opening(init).Some? then Opening(init)
      else if events[|events| - 1] == Tick(true) then FirstStamped(Arrived(init))
      else None
  }

  /** `d` and `e` head the same first block. */
  predicate SameHeading(d: Subdag, e: Subdag) {
    d.timestampMs / 1000 == e.timestampMs / 1000 && Proposer(d.leader) == Proposer(e.leader)
  }

  /** What a run's first block is, from what has arrived: nothing before there is an opening, and then its block for ever. */
  ghost predicate Opened(cfg: Config, events: seq<Event>, st: State) {
    if st.pushed == [] then Opening(events) == None && st.pool.queue == Arrived(events)
    else Opening(events).Some? && st.pushed[0] == FirstBlock(cfg, Opening(events).value)
  }

  lemma {:induction false} RunOpens(cfg: Config, dag: nat -> Subdag, events: seq<Event>)
    requires Legal(cfg, dag, events)
    ensures After(cfg, events).Next? && Opened(cfg, events, After(cfg, events).state)
  {
    Safety(cfg, dag, events);
    if events == [] {
    } else {
      var init, last := events[..|events| - 1], events[|events| - 1];
      Safety(cfg, dag, init);
      RunOpens(cfg, dag, init);
      StepOpens(cfg, dag, init, last);
    }
  }

  lemma StepOpens(cfg: Config, dag: nat -> Subdag, init: seq<Event>, last: Event)
    requires After(cfg, init).Next? && Apply(cfg, After(cfg, init).state, last).Next?
    requires Inv(cfg, dag, After(cfg, init).state) && Opened(cfg, init, After(cfg, init).state)
    ensures Opened(cfg, init + [last], Apply(cfg, After(cfg, init).state, last).state)
  {
    hide After, Reorder, PendingAfter, Steps, RoundTxs, FirstRound, BlockAfter, IsFirstBlock, PoolFollows, FirstStamped;
    var all := init + [last];
    assert all[..|all| - 1] == init;
  }

  /**
   Agreement: however sub-DAGs arrive, pushes fail and timers fire at two nodes, the blocks
   they push agree as far as both go exactly when the sub-DAGs that open them have the same
   second and the same leader, or one of them has none yet.
   */
  lemma Agreement(
    cfg: Config, dag: nat -> Subdag, exec: seq<OrderedBlock> -> ExecutionResult, a: seq<Event>, b: seq<Event>)
    requires Legal(cfg, dag, a) && Legal(cfg, dag, b)
    requires After(cfg, a).Next? ==> ExecutedBy(exec, After(cfg, a).state)
    requires After(cfg, b).Next? ==> ExecutedBy(exec, After(cfg, b).state)
    ensures After(cfg, a).Next? && After(cfg, b).Next?
    ensures Agree(After(cfg, a).state.pushed, After(cfg, b).state.pushed) <==>
            (Opening(a).Some? && Opening(b).Some? ==> SameHeading(Opening(a).value, Opening(b).value))
  {
    hide After, Legal, Opening, Inv, ExecutedBy;
    Safety(cfg, dag, a);
    Safety(cfg, dag, b);
    RunOpens(cfg, dag, a);
    RunOpens(cfg, dag, b);
    var x, y := After(cfg, a).state, After(cfg, b).state;
    var p, q := x.pushed, y.pushed;
    if p != [] && q != [] && p[0] == q[0] {
      var n := if |p| <= |q| then |p| else |q|;
      SameStartSameChain(cfg, dag, exec, x, y, n);
      assert |p| <= |q| ==> p == q[..n];
      assert |q| <= |p| ==> q == p[..n];
    }
  }

  /** So the first block depends on what has arrived: two nodes that hear of different rounds first may push different chains. */
  lemma FirstBlocksMayDiffer() returns (cfg: Config, dag: nat -> Subdag, a: seq<Event>, b: seq<Event>)
    ensures Legal(cfg, dag, a) && Legal(cfg, dag, b)
    ensures After(cfg, a).Next? && After(cfg, b).Next?
    ensures !Agree(After(cfg, a).state.pushed, After(cfg, b).state.pushed)
  {
    cfg := Config(1, 0, (n, t) => 0);
    dag := (r: nat) => Subdag(r, 1000 * r, "", []);
    a, b := [Submit([dag(1)]), Tick(true)], [Submit([dag(2)]), Tick(true)];
    FirstTick(cfg, dag, dag(1));
    FirstTick(cfg, dag, dag(2));
  }

  lemma FirstTick(cfg: Config, dag: nat -> Subdag, d: Subdag)
    requires d == dag(d.round) && d.timestampMs > 0
    ensures var events := [Submit([d]), Tick(true)];
            Legal(cfg, dag, events) && After(cfg, events).Next? &&
            |After(cfg, events).state.pushed| == 1 && After(cfg, events).state.pushed[0] == FirstBlock(cfg, d)
  {
    hide Inserted, FirstStamped;
    var events := [Submit([d]), Tick(true)];
    var init := events[..1];
    assert init == [Submit([d])] && init[..0] == [];
    assert Legal(cfg, dag, []) && After(cfg, []) == Next(INITIAL);
    assert Legal(cfg, dag, init);
    var st := INITIAL.(pool := Added(EMPTY_POOL, [d]));
    assert After(cfg, init) == Apply(cfg, INITIAL, Submit([d])) == Next(st);
    assert Legal(cfg, dag, events);
    OnlyStamped(d);
    assert After(cfg, events) == Apply(cfg, st, Tick(true));
  }

  lemma OnlyStamped(d: Subdag)
    requires d.timestampMs > 0
    ensures FirstStamped(Added(EMPTY_POOL, [d]).queue) == Some(d)
  {
    InsertedOne(map[], d);
    var queue := Added(EMPTY_POOL, [d]).queue;
    assert queue == map[d.round := d];
    FirstStampedMeaning(queue);
    assert queue[d.round].timestampMs > 0;
  }
}
