/** Runs of the engine-handle loop whose payloads are built by the packing loop, one at a time. */
module EngineRuns {
  import opened Types
  import opened Ordering
  import opened Pool
  import opened PoolLaws
  import opened Packing
  import opened PackingLaws
  import opened BlockRuns
  import E = EngineLoop
  import L = EngineLoopLaws

  /** The chain that `n` matched payloads leave, as a run of the batches of rounds. */
  function ChainOf(envs: Envs, genesis: World, dag: nat -> Subdag, k: nat, n: nat): Option<(Chain, seq<Tx>)> {
    Run(envs, genesis, Batches(dag, k, n))
  }

  function NextBatch(dag: nat -> Subdag, k: nat, n: nat): seq<Tx> {
    RoundTxs(dag, FirstRound(k, n), k)
  }

  /** A build carries the hashes of what the loop packs from the pool's proposal, on the state the matched payloads left. */
  ghost predicate PacksAt(envs: Envs, genesis: World, dag: nat -> Subdag, k: nat, st: E.State, e: E.Event)
    requires e.Build?
  {
    var n := |st.processed|;
    && ChainOf(envs, genesis, dag, k, n).Some?
    && BatchReady(st.pool, k)
    && match Pack(envs(n + 1), Proposal(st.pool, k), Start(ChainOf(envs, genesis, dag, k, n).value.0.world))
       case Built(end) => e.txHashes == Hashes(TxsOf(end.included))
       case _ => false
  }

  ghost predicate BuildsPack(envs: Envs, genesis: World, dag: nat -> Subdag, k: nat, events: seq<E.Event>) {
    forall i :: 0 <= i < |events| && E.After(k, events[..i]).Running? && L.Sends(k, E.After(k, events[..i]).state, events[i]) ==>
                  PacksAt(envs, genesis, dag, k, E.After(k, events[..i]).state, events[i])
  }

  /** `hashes` are those of block `n + 1` of the run. */
  ghost predicate IsBlock(envs: Envs, genesis: World, dag: nat -> Subdag, k: nat, n: nat, hashes: set<TxHash>) {
    && ChainOf(envs, genesis, dag, k, n).Some?
    && var block := NextBlock(envs(n + 1), ChainOf(envs, genesis, dag, k, n).value.0, NextBatch(dag, k, n));
       block.Some? && hashes == Hashes(block.value.1)
  }

  /** The matched payloads are the blocks of the run, the pool holds what it leaves pending, and what is outstanding is the next block. */
  ghost predicate Follows(envs: Envs, genesis: World, dag: nat -> Subdag, k: nat, st: E.State) {
    var n := |st.processed|;
    && ChainOf(envs, genesis, dag, k, n).Some?
    && st.pool.pending == ChainOf(envs, genesis, dag, k, n).value.0.pending
    && st.pool.next == FirstRound(k, n)
    && FromDag(dag, st.pool.queue)
    && (forall i :: 0 <= i < n ==> IsBlock(envs, genesis, dag, k, i, st.processed[i].txHashes))
    && forall p :: p in L.Outstanding(st) ==> IsBlock(envs, genesis, dag, k, n, p.txHashes)
  }

  /** A complete batch makes the pool's proposal that of the run. */
  lemma ProposalFollows(envs: Envs, genesis: World, dag: nat -> Subdag, k: nat, st: E.State)
    requires Follows(envs, genesis, dag, k, st) && BatchReady(st.pool, k)
    ensures var n := |st.processed|;
            Proposal(st.pool, k) == ProposalOf(ChainOf(envs, genesis, dag, k, n).value.0, NextBatch(dag, k, n))
  {
    hide RoundTxs, Reorder, FirstRound, ChainOf, IsBlock, L.Outstanding;
    BatchIsRounds(dag, st.pool, k);
  }

  lemma SentIsBlock(envs: Envs, genesis: World, dag: nat -> Subdag, k: nat, st: E.State, e: E.Event)
    requires Follows(envs, genesis, dag, k, st) && e.Build? && PacksAt(envs, genesis, dag, k, st, e)
    ensures IsBlock(envs, genesis, dag, k, |st.processed|, e.txHashes)
  {
    hide Reorder, NextBatch, ChainOf, FirstRound, Pack, TxsOf, L.Outstanding;
    ProposalFollows(envs, genesis, dag, k, st);
  }

  lemma MatchedFollows(envs: Envs, genesis: World, dag: nat -> Subdag, k: nat, n: nat, pool: PoolState, hashes: set<TxHash>)
    requires IsBlock(envs, genesis, dag, k, n, hashes) && BatchReady(pool, k)
    requires var c := ChainOf(envs, genesis, dag, k, n).value.0; Proposal(pool, k) == ProposalOf(c, NextBatch(dag, k, n))
    ensures ChainOf(envs, genesis, dag, k, n + 1).Some?
    ensures Consumed(pool, k, hashes).pending == ChainOf(envs, genesis, dag, k, n + 1).value.0.pending
  {
    hide Reorder, RoundTxs, FirstRound, Pack, TxsOf, Run, Without, Hashes;
    BatchesSize(dag, k, n);
    RunSnoc(envs, genesis, Batches(dag, k, n), NextBatch(dag, k, n));
  }

  lemma StepFollows(envs: Envs, genesis: World, dag: nat -> Subdag, k: nat, st: E.State, e: E.Event)
    requires k > 0 && Follows(envs, genesis, dag, k, st) && L.IdleEmpty(st) && |L.Outstanding(st)| <= 1
    requires E.Apply(k, st, e).Running? && (e.Submit? ==> forall d :: d in e.subdags ==> d == dag(d.round))
    requires L.Sends(k, st, e) ==> PacksAt(envs, genesis, dag, k, st, e)
    ensures Follows(envs, genesis, dag, k, E.Apply(k, st, e).state)
  {
    hide ChainOf, IsBlock, L.Outstanding, PacksAt, FirstRound, Inserted, Without, Proposal, Rounds;
    var now := E.Apply(k, st, e).state;
    L.OutstandingStep(k, st, e);
    L.OutstandingSize(k, st, e);
    match e
    case Submit(subdags) => AddedFromDag(dag, st.pool.queue, subdags);
    case Tick =>
    case Build(_, _, _) =>
      if L.Sends(k, st, e) {
        SentIsBlock(envs, genesis, dag, k, st, e);
      }
    case Receive =>
    case Canonical(tip) =>
      if |now.processed| > |st.processed| {
        MatchFollows(envs, genesis, dag, k, st, tip);
      }
  }

  lemma MatchFollows(envs: Envs, genesis: World, dag: nat -> Subdag, k: nat, st: E.State, tip: nat)
    requires k > 0 && Follows(envs, genesis, dag, k, st) && |L.Outstanding(st)| <= 1
    requires E.Advance(k, st, tip).Running? && |E.Advance(k, st, tip).state.processed| > |st.processed|
    ensures Follows(envs, genesis, dag, k, E.Advance(k, st, tip).state)
  {
    hide ChainOf, IsBlock, PacksAt, Inserted, Without, Proposal;
    var now, n := E.Advance(k, st, tip).state, |st.processed|;
    var p := st.processing.value;
    assert p in L.Outstanding(st);
    ProposalFollows(envs, genesis, dag, k, st);
    MatchedFollows(envs, genesis, dag, k, n, st.pool, p.txHashes);
    assert L.Outstanding(now) == [] by { L.OutstandingSize(k, st, E.Canonical(tip)); }
  }

  /**
   The engine-handle loop refines the run of blocks: when payloads are built one at a time,
   each by packing the pool's proposal, the matched payloads are the blocks of the run of the
   batches of rounds, and the pool holds what that run leaves pending.
   */
  lemma {:induction false} EngineFollowsRun(envs: Envs, genesis: World, dag: nat -> Subdag, k: nat, events: seq<E.Event>)
    requires k > 0 && L.Committed(dag, events) && L.OneAtATime(k, events) && E.After(k, events).Running?
    requires BuildsPack(envs, genesis, dag, k, events)
    ensures Follows(envs, genesis, dag, k, E.After(k, events).state)
  {
    hide Follows, E.Apply, L.Sends, PacksAt, L.Outstanding, L.IdleEmpty;
    if events == [] {
      StartFollows(envs, genesis, dag, k);
    } else {
      var n := |events| - 1;
      var init := events[..n];
      assert forall i :: 0 <= i < n ==> init[..i] == events[..i];
      EngineFollowsRun(envs, genesis, dag, k, init);
      L.OneAtATimeOwns(k, init);
      StepFollows(envs, genesis, dag, k, E.After(k, init).state, events[n]);
    }
  }

  lemma StartFollows(envs: Envs, genesis: World, dag: nat -> Subdag, k: nat)
    ensures Follows(envs, genesis, dag, k, E.INITIAL)
  {
  }

  /** ... so over any such run nothing is included twice and nothing that was consumed is lost. */
  lemma EngineIncludesOnce(envs: Envs, genesis: World, dag: nat -> Subdag, k: nat, events: seq<E.Event>)
    requires k > 0 && L.Committed(dag, events) && L.OneAtATime(k, events) && E.After(k, events).Running?
    requires BuildsPack(envs, genesis, dag, k, events) && AllLawful(envs)
    requires HashesIdentify(RoundTxs(dag, 1, k * |E.After(k, events).state.processed|))
    ensures var st := E.After(k, events).state; var n := |st.processed|;
            ChainOf(envs, genesis, dag, k, n).Some? &&
            var (c, mined) := ChainOf(envs, genesis, dag, k, n).value;
            && st.pool.pending == c.pending
            && Conserved(RoundTxs(dag, 1, k * n), c, mined)
            && Consecutive(genesis, mined, c.world) && NoDuplicateKey(mined)
  {
    hide Run, Batches, RoundTxs, Conserved, E.After, L.OneAtATime, BuildsPack, L.Committed, IsBlock, L.Outstanding;
    EngineFollowsRun(envs, genesis, dag, k, events);
    var n := |E.After(k, events).state.processed|;
    BatchesConcat(dag, k, n);
    FirstRoundIs(k, n);
    RunConserves(envs, genesis, Batches(dag, k, n));
    RunConsecutive(envs, genesis, Batches(dag, k, n));
  }
}
